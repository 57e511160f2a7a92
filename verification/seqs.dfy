/** Sequences used as JavaScript arrays and as insertion-ordered JavaScript `Set`s. */
module Seqs {

  /** No element occurs twice: the shape of a `Set` read back with `Array.from`. */
  ghost predicate NoDup<T>(s: seq<T>) {
    forall i, j :: 0 <= i < j < |s| ==> s[i] != s[j]
  }

  /** `Set.prototype.add`: a new element goes last, a present one keeps its place. */
  function Add<T(==,!new)>(s: seq<T>, x: T): (r: seq<T>)
    ensures x in r
    ensures forall y :: y in r <==> y in s || y == x
    ensures s <= r && |r| <= |s| + 1
    ensures x in s ==> r == s
    ensures NoDup(s) ==> NoDup(r)
  {
    if x in s then s else s + [x]
  }

  /** `Set.prototype.delete`: every occurrence of `x` goes, the rest keep their order. */
  function Remove<T(==,!new)>(s: seq<T>, x: T): (r: seq<T>)
    ensures x !in r
    ensures forall y :: y in r <==> y in s && y != x
    ensures |r| <= |s|
    ensures x !in s ==> r == s
    ensures NoDup(s) ==> NoDup(r)
  {
    if s == [] then []
    else
      var rest := Remove(s[1..], x);
      if s[0] == x then rest
      else
        assert NoDup(s) ==> NoDup([s[0]] + rest) by {
          if NoDup(s) {
            NoDupTail(s);
            NoDupCons(s[0], rest);
          }
        }
        [s[0]] + rest
  }

  /** The tail of a duplicate-free sequence is duplicate-free and misses the head. */
  lemma NoDupTail<T>(s: seq<T>)
    requires NoDup(s) && s != []
    ensures NoDup(s[1..]) && s[0] !in s[1..]
  {
    forall j | 0 <= j < |s[1..]| ensures s[1..][j] != s[0] {
      assert s[0] != s[j + 1];
    }
  }

  /** Putting a fresh element in front keeps a sequence duplicate-free. */
  lemma NoDupCons<T>(x: T, t: seq<T>)
    requires NoDup(t) && x !in t
    ensures NoDup([x] + t)
  {
    var s := [x] + t;
    forall i, j | 0 <= i < j < |s| ensures s[i] != s[j] {
      if i == 0 {
        assert s[j] == t[j - 1];
      } else {
        assert s[i] == t[i - 1] && s[j] == t[j - 1];
      }
    }
  }

  /** `Array.prototype.indexOf`: the first position holding `x`, or -1. */
  function IndexOf<T(==)>(s: seq<T>, x: T): (i: int)
    ensures -1 <= i < |s|
    ensures i == -1 <==> x !in s
    ensures 0 <= i ==> s[i] == x && x !in s[..i]
  {
    if s == [] then -1
    else if s[0] == x then 0
    else
      var j := IndexOf(s[1..], x);
      if j == -1 then -1
      else
        assert s[..j + 1] == [s[0]] + s[1..][..j];
        j + 1
  }

  /** `Array.prototype.splice(i, 1)`: the element at position `i` goes. */
  function RemoveAt<T>(s: seq<T>, i: nat): (r: seq<T>)
    requires i < |s|
    ensures |r| == |s| - 1
    ensures forall j :: 0 <= j < i ==> r[j] == s[j]
    ensures forall j :: i <= j < |r| ==> r[j] == s[j + 1]
  {
    s[..i] + s[i + 1..]
  }

  /** On a duplicate-free array, splicing out the first occurrence of `x` is
      the same as deleting `x` from the set. */
  lemma {:induction false} RemoveAtIndexOf<T(!new)>(s: seq<T>, x: T)
    requires NoDup(s) && x in s
    ensures RemoveAt(s, IndexOf(s, x)) == Remove(s, x)
  {
    NoDupTail(s);
    var t := s[1..];
    if s[0] == x {
      assert IndexOf(s, x) == 0;
      assert Remove(s, x) == t;
      assert RemoveAt(s, 0) == t;
    } else {
      assert x in t;
      RemoveAtIndexOf(t, x);
      var k := IndexOf(t, x);
      assert IndexOf(s, x) == k + 1;
      assert Remove(s, x) == [s[0]] + Remove(t, x);
      SpliceCons(s, k);
    }
  }

  /** Splicing behind the head is splicing the tail. */
  lemma SpliceCons<T>(s: seq<T>, k: nat)
    requires k + 1 < |s|
    ensures RemoveAt(s, k + 1) == [s[0]] + RemoveAt(s[1..], k)
  {
    assert s[..k + 1] == [s[0]] + s[1..][..k];
    assert s[k + 2..] == s[1..][k + 1..];
  }
}
