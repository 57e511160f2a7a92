/** The hub's message store: the message record, the capped append, the
    room-history query, lookup by id, read receipts and reaction toggles. */
module Messages {
  import opened Options
  import Seqs
  import opened Dicts

  type SocketId = string
  type Username = string
  type RoomName = string
  type MessageId = string
  type Emoji = string

  /** The store keeps at most this many messages. */
  const Capacity: nat := 2000
  /** A room's catch-up history holds at most this many messages. */
  const HistoryLimit: nat := 50

  /** An attachment descriptor as a client sends it. The hub stores the
      payload's list as it is and never looks inside an element. */
  datatype Attachment = Attachment(originalName: string, mimeType: string, size: nat, url: string)

  /** A stored message. `room` is `None` (JavaScript `null`) for a private
      message; `to` is `None` (no such field) for a room message. */
  datatype Message = Message(
    id: MessageId,
    room: Option<RoomName>,
    text: string,
    sender: Username,
    senderId: SocketId,
    timestamp: string,
    attachments: seq<Attachment>,
    reactions: Dict<Emoji, seq<Username>>,
    readBy: seq<Username>,
    isPrivate: bool,
    to: Option<SocketId>)
  {
    /** The routing test of the read and reaction handlers: private and
        addressed to a non-empty socket id. */
    predicate IsDirect() {
      isPrivate && to.Some? && to.value != ""
    }

    /** The users who reacted with `e`; a missing key reads as none. */
    function Reactors(e: Emoji): seq<Username> {
      reactions.Get(e).GetOr([])
    }
  }

  /** What every stored message satisfies: receipt and reactor lists are
      duplicate-free, and exactly the private messages lack a room and carry a target. */
  ghost predicate WellFormed(m: Message) {
    && Seqs.NoDup(m.readBy)
    && m.reactions.Valid()
    && (forall e :: e in m.reactions.entries ==> Seqs.NoDup(m.reactions.entries[e]))
    && (m.isPrivate <==> m.room.None?)
    && (m.isPrivate <==> m.to.Some?)
  }

  /** `Array.prototype.slice(-n)` for `n >= 1`: the last `n` elements, or all of them. */
  function Last<T>(s: seq<T>, n: nat): (r: seq<T>)
    requires n >= 1
    ensures |r| == if |s| <= n then |s| else n
    ensures r == s[|s| - |r|..]
  {
    if |s| <= n then s else s[|s| - n..]
  }

  // ---------------------------------------------------------------------------
  // Capped append

  /** Push a message, then drop the head once the store is over capacity. */
  function Append(ms: seq<Message>, m: Message): (r: seq<Message>)
    ensures |ms| <= Capacity ==> |r| <= Capacity
    ensures |r| > 0 && r[|r| - 1] == m
    ensures |ms| < Capacity ==> r == ms + [m]
    ensures |ms| >= Capacity ==> r == ms[1..] + [m]
  {
    var pushed := ms + [m];
    if |pushed| > Capacity then pushed[1..] else pushed
  }

  /** A run of appends, oldest first. */
  function AppendAll(ms: seq<Message>, ns: seq<Message>): seq<Message>
    decreases |ns|
  {
    if ns == [] then ms else AppendAll(Append(ms, ns[0]), ns[1..])
  }

  /** Keeping the last `n` twice is keeping the last `n` of the whole. */
  lemma LastOfLast<T>(a: seq<T>, b: seq<T>, n: nat)
    requires n >= 1
    ensures Last(Last(a, n) + b, n) == Last(a + b, n)
  {
    if |a| > n {
      var x := Last(a, n) + b;
      var l := Last(x, n);
      var m := Last(a + b, n);
      assert |l| == |m|;
      forall i | 0 <= i < |l| ensures l[i] == m[i] {
        if |x| - n + i < n {
          assert l[i] == a[|a| - n + |x| - n + i];
        }
      }
    }
  }

  /** A store within capacity holds, after one append, exactly the newest
      `Capacity` messages of the old store followed by the new one. */
  lemma AppendKeepsNewest(ms: seq<Message>, m: Message)
    requires |ms| <= Capacity
    ensures Append(ms, m) == Last(ms + [m], Capacity)
  {
  }

  /** After any run of appends, the store holds exactly the newest
      `Capacity` messages ever appended, in arrival order. */
  lemma {:induction false} AppendAllKeepsNewest(ms: seq<Message>, ns: seq<Message>)
    requires |ms| <= Capacity
    ensures AppendAll(ms, ns) == Last(ms + ns, Capacity)
    decreases |ns|
  {
    if ns == [] {
      assert ms + ns == ms;
    } else {
      var a := ms + [ns[0]];
      var ms' := Append(ms, ns[0]);
      calc {
        AppendAll(ms, ns);
        AppendAll(ms', ns[1..]);
        { AppendAllKeepsNewest(ms', ns[1..]); }
        Last(ms' + ns[1..], Capacity);
        { AppendKeepsNewest(ms, ns[0]); }
        Last(Last(a, Capacity) + ns[1..], Capacity);
        { LastOfLast(a, ns[1..], Capacity); }
        Last(a + ns[1..], Capacity);
        { assert a + ns[1..] == ms + ns; }
        Last(ms + ns, Capacity);
      }
    }
  }

  /** Appending 2001 messages to an empty store keeps 2000: the first one
      appended is evicted and the second is now the oldest. */
  lemma OverflowEvictsFirst(ns: seq<Message>)
    requires |ns| == Capacity + 1
    ensures |AppendAll([], ns)| == Capacity
    ensures AppendAll([], ns) == ns[1..]
    ensures AppendAll([], ns)[0] == ns[1]
  {
    AppendAllKeepsNewest([], ns);
    assert [] + ns == ns;
  }

  // ---------------------------------------------------------------------------
  // Room history

  /** The messages a room's history shows: its own, never private ones. */
  predicate ShownIn(m: Message, room: RoomName) {
    m.room == Some(room) && !m.isPrivate
  }

  /** The store filtered down to one room's non-private messages. */
  function RoomMessages(ms: seq<Message>, room: RoomName): (r: seq<Message>)
    ensures |r| <= |ms|
    ensures forall m :: m in r <==> m in ms && ShownIn(m, room)
  {
    if ms == [] then []
    else (if ShownIn(ms[0], room) then [ms[0]] else []) + RoomMessages(ms[1..], room)
  }

  /** Filtering distributes over concatenation: store order is kept. */
  lemma {:induction false} RoomMessagesAppend(a: seq<Message>, b: seq<Message>, room: RoomName)
    ensures RoomMessages(a + b, room) == RoomMessages(a, room) + RoomMessages(b, room)
  {
    if a == [] {
      assert a + b == b;
    } else {
      assert (a + b)[1..] == a[1..] + b;
      RoomMessagesAppend(a[1..], b, room);
    }
  }

  /** The catch-up history sent on connect and on `join_room`: the last
      `HistoryLimit` messages of that room, private ones excluded. */
  function History(ms: seq<Message>, room: RoomName): (r: seq<Message>)
    ensures |r| <= HistoryLimit
    ensures forall m :: m in r ==> m in ms && ShownIn(m, room)
    ensures |r| == if |RoomMessages(ms, room)| <= HistoryLimit then |RoomMessages(ms, room)| else HistoryLimit
    ensures r == RoomMessages(ms, room)[|RoomMessages(ms, room)| - |r|..]
  {
    Last(RoomMessages(ms, room), HistoryLimit)
  }

  /** A backward scan that stops as soon as the history is full: it computes
      exactly `History`, i.e. the newest matching messages in store order,
      as many as there are up to the limit. */
  method CollectHistory(ms: seq<Message>, room: RoomName) returns (h: seq<Message>)
    ensures h == History(ms, room)
  {
    h := [];
    var i := |ms|;
    while i > 0 && |h| < HistoryLimit
      invariant 0 <= i <= |ms|
      invariant h == RoomMessages(ms[i..], room)
      invariant |h| <= HistoryLimit
      decreases i
    {
      i := i - 1;
      assert ms[i..][1..] == ms[i + 1..];
      if ShownIn(ms[i], room) {
        h := [ms[i]] + h;
      }
    }
    assert ms == ms[..i] + ms[i..];
    RoomMessagesAppend(ms[..i], ms[i..], room);
    if i == 0 {
      assert ms[..0] == [];
    }
  }

  // ---------------------------------------------------------------------------
  // Lookup, read receipts, reactions

  /** `Array.prototype.find` by id: the position of the FIRST message with
      that id, since ids are not guaranteed unique. */
  function Find(ms: seq<Message>, id: MessageId): (r: Option<nat>)
    ensures r.Some? ==> r.value < |ms| && ms[r.value].id == id
    ensures r.Some? ==> forall j :: 0 <= j < r.value ==> ms[j].id != id
    ensures r.None? <==> forall j :: 0 <= j < |ms| ==> ms[j].id != id
  {
    if ms == [] then None
    else if ms[0].id == id then Some(0)
    else
      match Find(ms[1..], id)
      case None => None
      case Some(k) => Some(k + 1)
  }

  /** Replacing a message by one with the same id leaves every lookup by id
      pointing at the same position. */
  lemma {:induction false} FindAfterUpdate(ms: seq<Message>, i: nat, m: Message, id: MessageId)
    requires i < |ms| && m.id == ms[i].id
    ensures Find(ms[i := m], id) == Find(ms, id)
  {
    var ms' := ms[i := m];
    assert ms'[0].id == ms[0].id;
    if ms[0].id != id {
      if i == 0 {
        assert ms'[1..] == ms[1..];
      } else {
        assert ms'[1..] == ms[1..][i - 1 := m];
        FindAfterUpdate(ms[1..], i - 1, m, id);
      }
    }
  }

  /** The read handler's update: the reader joins `readBy` unless already there. */
  function MarkRead(m: Message, reader: Username): (r: Message)
    ensures reader in r.readBy
    ensures forall u :: u in r.readBy <==> u in m.readBy || u == reader
    ensures m.readBy <= r.readBy
    ensures r == m.(readBy := r.readBy)
    ensures reader in m.readBy ==> r == m
    ensures WellFormed(m) ==> WellFormed(r)
  {
    m.(readBy := Seqs.Add(m.readBy, reader))
  }

  /** Reading is idempotent: a second read by the same user changes nothing. */
  lemma MarkReadIdempotent(m: Message, reader: Username)
    ensures MarkRead(MarkRead(m, reader), reader) == MarkRead(m, reader)
  {
  }

  /** The reaction handler's list update: remove the first occurrence of `u`
      if there is one (`indexOf` then `splice`), else push `u`. */
  function Toggle(list: seq<Username>, u: Username): (r: seq<Username>)
    ensures Seqs.NoDup(list) ==> (u in r <==> u !in list)
    ensures forall v :: v != u ==> (v in r <==> v in list)
    ensures Seqs.NoDup(list) ==> Seqs.NoDup(r)
  {
    var idx := Seqs.IndexOf(list, u);
    if idx == -1 then list + [u]
    else
      assert Seqs.NoDup(list) ==> Seqs.RemoveAt(list, idx) == Seqs.Remove(list, u) by {
        if Seqs.NoDup(list) { Seqs.RemoveAtIndexOf(list, u); }
      }
      assert forall v :: v != u ==> (v in Seqs.RemoveAt(list, idx) <==> v in list) by {
        forall v | v != u ensures v in Seqs.RemoveAt(list, idx) <==> v in list {
          if v in list {
            var j :| 0 <= j < |list| && list[j] == v;
            assert j != idx;
            if j < idx { assert Seqs.RemoveAt(list, idx)[j] == v; }
            else { assert Seqs.RemoveAt(list, idx)[j - 1] == v; }
          }
        }
      }
      Seqs.RemoveAt(list, idx)
  }

  /** Toggling twice restores the list exactly when the user had not reacted. */
  lemma ToggleTwiceFromAbsent(list: seq<Username>, u: Username)
    requires u !in list
    ensures Toggle(Toggle(list, u), u) == list
  {
    var once := list + [u];
    assert Seqs.IndexOf(once, u) == |list| by {
      assert once[|list|] == u;
      assert once[..|list|] == list;
    }
  }

  /** Toggling twice always restores who has reacted; a user who had
      reacted is moved to the end of the list. */
  lemma ToggleTwiceSameReactors(list: seq<Username>, u: Username)
    requires Seqs.NoDup(list)
    ensures forall v :: v in Toggle(Toggle(list, u), u) <==> v in list
  {
  }

  /** The reaction handler's update on one message: create the emoji's list
      if missing, then toggle the user in it. */
  function React(m: Message, emoji: Emoji, u: Username): (r: Message)
    requires WellFormed(m)
    ensures WellFormed(r)
    ensures u in r.Reactors(emoji) <==> u !in m.Reactors(emoji)
    ensures forall v :: v != u ==> (v in r.Reactors(emoji) <==> v in m.Reactors(emoji))
    ensures forall e :: e != emoji ==> r.reactions.Get(e) == m.reactions.Get(e)
    ensures emoji in r.reactions.entries
    ensures r == m.(reactions := r.reactions)
  {
    m.(reactions := m.reactions.Put(emoji, Toggle(m.Reactors(emoji), u)))
  }

  /** Two identical reactions on one message restore who has reacted with
      that emoji, and the exact list when the user had not reacted. */
  lemma ReactTwice(m: Message, emoji: Emoji, u: Username)
    requires WellFormed(m)
    ensures forall v :: v in React(React(m, emoji, u), emoji, u).Reactors(emoji) <==> v in m.Reactors(emoji)
    ensures u !in m.Reactors(emoji) ==> React(React(m, emoji, u), emoji, u).Reactors(emoji) == m.Reactors(emoji)
  {
    var m1 := React(m, emoji, u);
    assert m1.Reactors(emoji) == Toggle(m.Reactors(emoji), u);
    assert React(m1, emoji, u).Reactors(emoji) == Toggle(m1.Reactors(emoji), u);
    ToggleTwiceSameReactors(m.Reactors(emoji), u);
    if u !in m.Reactors(emoji) {
      ToggleTwiceFromAbsent(m.Reactors(emoji), u);
    }
  }
}
