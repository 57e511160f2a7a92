/** Properties that relate several events of the hub. */
module HubProperties {
  import opened Options
  import Seqs
  import opened Dicts
  import opened Messages
  import opened Hub

  /** Reading a message twice with the same identity leaves the stores as
      after the first read. */
  lemma ReadIsIdempotent(s: State, sid: SocketId, messageId: MessageId, roomHint: string)
    requires Valid(s)
    ensures
      var once := OnMessageRead(s, sid, messageId, roomHint).state;
      OnMessageRead(once, sid, messageId, roomHint).state == once
  {
    var once := OnMessageRead(s, sid, messageId, roomHint).state;
    if Identity(s, sid).Some? && Find(s.messages, messageId).Some? {
      var i := Find(s.messages, messageId).value;
      var reader := Identity(s, sid).value;
      var m' := MarkRead(s.messages[i], reader);
      assert once.messages == s.messages[i := m'];
      FindAfterUpdate(s.messages, i, m', messageId);
      assert Identity(once, sid) == Identity(s, sid);
      MarkReadIdempotent(s.messages[i], reader);
      assert once.messages[i := MarkRead(once.messages[i], reader)] == once.messages;
    }
  }

  /** Two identical reactions change only the reacted message, and it is
      the message's own double toggle. */
  lemma ReactionTwiceState(s: State, sid: SocketId, messageId: MessageId, emoji: Emoji)
    requires Valid(s)
    requires Identity(s, sid).Some? && Find(s.messages, messageId).Some?
    ensures
      var i := Find(s.messages, messageId).value;
      var u := Identity(s, sid).value;
      var once := OnMessageReaction(s, sid, messageId, emoji).state;
      OnMessageReaction(once, sid, messageId, emoji).state
        == s.(messages := s.messages[i := React(React(s.messages[i], emoji, u), emoji, u)])
  {
    var i := Find(s.messages, messageId).value;
    var u := Identity(s, sid).value;
    var m1 := React(s.messages[i], emoji, u);
    var once := OnMessageReaction(s, sid, messageId, emoji).state;
    assert once == s.(messages := s.messages[i := m1]);
    FindAfterUpdate(s.messages, i, m1, messageId);
    assert Identity(once, sid) == Some(u);
    assert once.messages[i] == m1;
    assert once.messages[i := React(m1, emoji, u)] == s.messages[i := React(m1, emoji, u)];
  }

  /** A second reaction with the same user and emoji on the same message
      undoes the first: the user's membership in that emoji's list is back
      to what it was, and when the user had not reacted before the list is
      exactly the original one; no other message changes. */
  lemma ReactionTwiceRestores(s: State, sid: SocketId, messageId: MessageId, emoji: Emoji)
    requires Valid(s)
    requires Identity(s, sid).Some? && Find(s.messages, messageId).Some?
    ensures
      var i := Find(s.messages, messageId).value;
      var u := Identity(s, sid).value;
      var twice := OnMessageReaction(OnMessageReaction(s, sid, messageId, emoji).state, sid, messageId, emoji).state;
      && |twice.messages| == |s.messages|
      && i < |twice.messages|
      && (forall j :: 0 <= j < |s.messages| && j != i ==> twice.messages[j] == s.messages[j])
      && (forall v :: v in twice.messages[i].Reactors(emoji) <==> v in s.messages[i].Reactors(emoji))
      && (u !in s.messages[i].Reactors(emoji) ==> twice.messages[i].Reactors(emoji) == s.messages[i].Reactors(emoji))
  {
    var i := Find(s.messages, messageId).value;
    var u := Identity(s, sid).value;
    var twice := OnMessageReaction(OnMessageReaction(s, sid, messageId, emoji).state, sid, messageId, emoji).state;
    var m2 := React(React(s.messages[i], emoji, u), emoji, u);
    ReactionTwiceState(s, sid, messageId, emoji);
    assert twice.messages == s.messages[i := m2];
    ReactTwice(s.messages[i], emoji, u);
  }

  /** Joining the same room twice leaves the stores as after the first join. */
  lemma JoinRoomIsIdempotent(s: State, sid: SocketId, roomName: RoomName)
    requires Valid(s)
    ensures
      var once := OnJoinRoom(s, sid, roomName).state;
      OnJoinRoom(once, sid, roomName).state == once
  {
    var once := OnJoinRoom(s, sid, roomName).state;
    if roomName != "" {
      var twice := OnJoinRoom(once, sid, roomName).state;
      assert twice.rooms.keys == once.rooms.keys;
      assert twice.rooms.entries == once.rooms.entries;
    }
  }

  /** A message is stored last, so when its id is new the lookup by that id
      finds it at the tail even after an eviction. */
  lemma FindFreshId(ms: seq<Message>, m: Message)
    requires Find(ms, m.id).None?
    ensures Find(Append(ms, m), m.id) == Some(|Append(ms, m)| - 1)
  {
    var r := Append(ms, m);
    var d := if |ms| < Capacity then 0 else 1;
    assert r == ms[d..] + [m];
    forall j | 0 <= j < |r| - 1 ensures r[j].id != m.id {
      assert r[j] == ms[j + d];
    }
    FindLast(r, m.id);
  }

  /** The lookup finds the last position when only it holds the id. */
  lemma FindLast(r: seq<Message>, id: MessageId)
    requires r != [] && r[|r| - 1].id == id
    requires forall j :: 0 <= j < |r| - 1 ==> r[j].id != id
    ensures Find(r, id) == Some(|r| - 1)
  {
  }

  /** A read receipt for any stored private message with a target goes to
      its sender alone, whatever room hint the reader gives. */
  lemma PrivateReadNotifiesOnlySender(
    s: State, reader: SocketId, id: MessageId, roomHint: string)
    requires Valid(s)
    requires Identity(s, reader).Some?
    requires Find(s.messages, id).Some?
    requires
      var m := s.messages[Find(s.messages, id).value];
      m.isPrivate && m.to.Some? && m.to.value != ""
    ensures
      var m := s.messages[Find(s.messages, id).value];
      OnMessageRead(s, reader, id, roomHint).out
        == [Notification(Socket(m.senderId), MessageRead(id, Identity(s, reader).value))]
  {
  }

  /** A reaction to any stored private message with a target goes to that
      target and then to the sender, with the same update, and to no room. */
  lemma PrivateReactionNotifiesBothEnds(
    s: State, reactor: SocketId, id: MessageId, emoji: Emoji)
    requires Valid(s)
    requires Identity(s, reactor).Some?
    requires Find(s.messages, id).Some?
    requires
      var m := s.messages[Find(s.messages, id).value];
      m.isPrivate && m.to.Some? && m.to.value != ""
    ensures
      var m := s.messages[Find(s.messages, id).value];
      var out := OnMessageReaction(s, reactor, id, emoji).out;
      && |out| == 2
      && out[0].target == Socket(m.to.value)
      && out[1].target == Socket(m.senderId)
      && out[0].event.MessageReaction? && out[0].event == out[1].event
  {
  }

  /** A read receipt for any stored room message goes to the hinted room,
      else the message's room, else `general`, and nowhere else. */
  lemma RoomReadNotifiesRoom(
    s: State, reader: SocketId, id: MessageId, roomHint: string)
    requires Valid(s)
    requires Identity(s, reader).Some?
    requires Find(s.messages, id).Some?
    requires !s.messages[Find(s.messages, id).value].isPrivate
    ensures
      var m := s.messages[Find(s.messages, id).value];
      && m.room.Some?
      && OnMessageRead(s, reader, id, roomHint).out
        == [Notification(Room(Or(roomHint, Or(m.room.value, General))), MessageRead(id, Identity(s, reader).value))]
  {
    var i := Find(s.messages, id).value;
    assert WellFormed(s.messages[i]);
  }

  /** A reaction to any stored room message is sent to that message's room
      only, or to `general` when the room name is empty, whatever was
      stored before. */
  lemma RoomReactionNotifiesRoom(s: State, sid: SocketId, id: MessageId, emoji: Emoji)
    requires Valid(s)
    requires Identity(s, sid).Some?
    requires Find(s.messages, id).Some?
    requires !s.messages[Find(s.messages, id).value].isPrivate
    ensures
      var m := s.messages[Find(s.messages, id).value];
      var r := OnMessageReaction(s, sid, id, emoji);
      && m.room.Some?
      && |r.out| == 1
      && r.out[0].target == Room(Or(m.room.value, General))
      && r.out[0].event.MessageReaction?
  {
    var i := Find(s.messages, id).value;
    assert WellFormed(s.messages[i]);
  }

  /** `general` exists in every state reachable from start-up. */
  lemma GeneralAlwaysExists(inputs: seq<Input>)
    ensures General in Run(Init(), inputs).rooms.entries
    ensures |Run(Init(), inputs).messages| <= Capacity
  {
  }

  /** After a disconnect the socket is in no room, has no user entry and no
      typing entry, so no typing list computed afterwards names it. */
  lemma DisconnectForgetsSocket(s: State, sid: SocketId, now: string)
    requires Valid(s)
    ensures
      var t := OnDisconnect(s, sid, now).state;
      && (forall n :: sid !in Members(t, n))
      && Identity(t, sid).None?
      && sid !in t.typing.keys
      && sid !in t.users.keys
  {
  }

  /** The last notification of a disconnect is the typing broadcast, which
      carries every remaining typing record. */
  lemma DisconnectEndsWithTypingAll(s: State, sid: SocketId, now: string)
    requires Valid(s)
    ensures
      var d := OnDisconnect(s, sid, now);
      && |d.out| >= 3
      && d.out[|d.out| - 1] == Notification(Everyone, TypingAll(d.state.typing.Values()))
  {
    var r := OnDisconnect(s, sid, now);
    var tail := [Notification(Everyone, UserList(r.state.users.Values())),
                 Notification(Everyone, RoomsList(r.state.rooms.keys)),
                 Notification(Everyone, TypingAll(r.state.typing.Values()))];
    assert r.out == Departure(s, sid, now) + tail;
    assert r.out[|r.out| - 1] == tail[2];
  }

  /** Both typing broadcasts are the wire event `typing_users`. */
  lemma TypingEventName(e: Event)
    requires e.TypingAll? || e.TypingUsers?
    ensures e.Name() == "typing_users"
  {
  }

  /** A room typing update by an identified socket is one `TypingUsers`
      notification. */
  lemma TypingUpdateIsTypingUsers(s: State, typist: SocketId, p: TypingPayload)
    requires Valid(s)
    requires Identity(s, typist).Some? && p.toSocketId == ""
    ensures
      var t := OnTyping(s, typist, p).out;
      |t| == 1 && t[0].event.TypingUsers?
  {
  }

  /** The disconnect's typing broadcast and a room's typing update go out
      under the same wire name, `typing_users`, with different payloads:
      every typing record on disconnect, a room and its usernames otherwise. */
  lemma TypingBroadcastsShareWireName(
    s: State, sid: SocketId, now: string, typist: SocketId, p: TypingPayload)
    requires Valid(s)
    requires Identity(s, typist).Some? && p.toSocketId == ""
    ensures
      var d := OnDisconnect(s, sid, now).out;
      var t := OnTyping(s, typist, p).out;
      && |d| >= 3 && |t| == 1
      && d[|d| - 1].event.Name() == t[0].event.Name() == "typing_users"
      && d[|d| - 1].event.TypingAll? && t[0].event.TypingUsers?
  {
    DisconnectEndsWithTypingAll(s, sid, now);
    TypingUpdateIsTypingUsers(s, typist, p);
    var d := OnDisconnect(s, sid, now).out;
    var t := OnTyping(s, typist, p).out;
    TypingEventName(d[|d| - 1].event);
    TypingEventName(t[0].event);
  }

  /** "alice" identifies and sends "hi" to `general`; the message goes to the
      whole room, alice included. Then "bob" identifies and joins `general` and is sent a history holding exactly
      alice's message. */
  lemma AliceThenBobScenario()
    ensures
      var s1 := OnUserJoin(Init(), "A", "alice", "t1").state;
      var sent := OnSendMessage(s1, "A", SendPayload("general", "hi", []), "m1", "t2");
      var m := sent.state.messages[0];
      var s3 := OnUserJoin(sent.state, "B", "bob", "t3").state;
      var joined := OnJoinRoom(s3, "B", "general");
      && m.sender == "alice" && m.text == "hi" && m.readBy == ["alice"]
      && sent.out == [Notification(Room("general"), ReceiveMessage(m))]
      && joined.out[2] == Notification(Origin, MessageHistory("general", [m]))
  {
    var s0 := Init();
    var s1 := OnUserJoin(s0, "A", "alice", "t1").state;
    assert Identity(s1, "A") == Some("alice");
    var sent := OnSendMessage(s1, "A", SendPayload("general", "hi", []), "m1", "t2");
    assert sent.state.messages == [sent.state.messages[0]];
    var m := sent.state.messages[0];
    assert RoomMessages([m], "general") == [m];
    var s3 := OnUserJoin(sent.state, "B", "bob", "t3").state;
    assert s3.messages == [m];
  }
}
