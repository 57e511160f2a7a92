/** A JavaScript plain object used as a dictionary (`users`, `typingUsers`,
    `rooms`, a message's `reactions`): a finite map together with the order
    in which its keys were first inserted, which is the order `Object.keys`
    and `Object.values` report. Overwriting a key keeps its place; deleting
    it and inserting it again moves it to the end. */
module Dicts {
  import opened Options
  import Seqs

  datatype Dict<K(==,!new), V> = Dict(keys: seq<K>, entries: map<K, V>) {

    /** The key order lists exactly the keys of the map, each once. */
    ghost predicate Valid() {
      && Seqs.NoDup(keys)
      && (forall k :: k in entries <==> k in keys)
    }

    /** `obj[k]`, with `undefined` as `None`. */
    function Get(k: K): Option<V> {
      if k in entries then Some(entries[k]) else None
    }

    /** `obj[k] = v`. */
    function Put(k: K, v: V): (r: Dict<K, V>)
      requires Valid()
      ensures r.Valid()
      ensures r.Get(k) == Some(v)
      ensures forall j :: j != k ==> r.Get(j) == Get(j)
      ensures keys <= r.keys && |r.keys| <= |keys| + 1
      ensures k in entries ==> r.keys == keys
      ensures r.keys == Seqs.Add(keys, k)
    {
      Dict(Seqs.Add(keys, k), entries[k := v])
    }

    /** `delete obj[k]`. */
    function Remove(k: K): (r: Dict<K, V>)
      requires Valid()
      ensures r.Valid()
      ensures r.Get(k) == None
      ensures forall j :: j != k ==> r.Get(j) == Get(j)
      ensures r.keys == Seqs.Remove(keys, k)
    {
      Dict(Seqs.Remove(keys, k), entries - {k})
    }

    /** Apply `f` to every value in place (`Object.values(obj).forEach`
        mutating each value); the keys and their order stay. */
    function MapValues(f: V -> V): (r: Dict<K, V>)
      requires Valid()
      ensures r.Valid() && r.keys == keys
      ensures forall j :: r.Get(j) == (if j in entries then Some(f(entries[j])) else None)
    {
      Dict(keys, map j | j in entries :: f(entries[j]))
    }

    /** `Object.values(obj)`: the values in key order. */
    function Values(): (vs: seq<V>)
      requires Valid()
      ensures |vs| == |keys|
      ensures forall i :: 0 <= i < |keys| ==> vs[i] == entries[keys[i]]
    {
      ValuesOf(keys)
    }

    function ValuesOf(ks: seq<K>): (vs: seq<V>)
      requires forall k :: k in ks ==> k in entries
      ensures |vs| == |ks|
      ensures forall i :: 0 <= i < |ks| ==> vs[i] == entries[ks[i]]
    {
      if ks == [] then [] else [entries[ks[0]]] + ValuesOf(ks[1..])
    }

    /** `ks.map(k => obj[k])`: a lookup per key, `None` for a missing one. */
    function GetAll(ks: seq<K>): (vs: seq<Option<V>>)
      ensures |vs| == |ks|
      ensures forall i :: 0 <= i < |ks| ==> vs[i] == Get(ks[i])
    {
      if ks == [] then [] else [Get(ks[0])] + GetAll(ks[1..])
    }
  }

  /** `{}`. */
  function Empty<K(==,!new), V>(): (d: Dict<K, V>)
    ensures d.Valid()
    ensures forall k :: d.Get(k) == None
  {
    Dict([], map[])
  }
}
