/** The in-memory chat hub: the four stores of the server and one pure
    transition per socket event. Each transition returns the new stores and
    the notifications the handler emits, each with its abstract target. */
module Hub {
  import opened Options
  import Seqs
  import opened Dicts
  import opened Messages

  /** The room that exists from start-up and that identified users enter. */
  const General: RoomName := "general"
  /** The sender name used when an unidentified socket sends a message. */
  const Anonymous: Username := "Anonymous"

  /** An identified connection, as stored in `users` and listed in `user_list`. */
  datatype User = User(username: Username, id: SocketId)

  /** A typing indicator, as stored in `typingUsers`. */
  datatype TypingEntry = TypingEntry(username: Username, room: RoomName)

  /** The four stores: users and typing entries by socket id, member sets by
      room name, and the capped message sequence. */
  datatype State = State(
    users: Dict<SocketId, User>,
    typing: Dict<SocketId, TypingEntry>,
    rooms: Dict<RoomName, seq<SocketId>>,
    messages: seq<Message>)

  /** Who receives a notification: the socket that sent the event, every
      connected socket, a room's subscribers, a room's subscribers other than
      the origin, or one socket by id. */
  datatype Target =
    | Origin
    | Everyone
    | Room(name: RoomName)
    | RoomExceptOrigin(name: RoomName)
    | Socket(id: SocketId)

  /** Outbound events and their payloads. */
  datatype Event =
    | UserJoined(username: Username, id: SocketId, timestamp: string)
    | UserLeft(username: Username, id: SocketId, timestamp: string)
    | UserList(users: seq<User>)
    | RoomsList(names: seq<RoomName>)
    | RoomUserList(room: RoomName, members: seq<Option<User>>)
    | RoomJoined(room: RoomName, who: Option<Username>, id: SocketId)
    | RoomLeft(room: RoomName, who: Option<Username>, id: SocketId)
    | MessageHistory(room: RoomName, history: seq<Message>)
    | ReceiveMessage(message: Message)
    | PrivateMessage(message: Message)
    | TypingUsers(room: RoomName, usernames: seq<Username>)
    | TypingAll(entries: seq<TypingEntry>)
    | TypingPrivate(from: Username, fromId: SocketId, isTyping: bool)
    | MessageRead(messageId: MessageId, reader: Username)
    | MessageReaction(messageId: MessageId, emoji: Emoji, usernames: seq<Username>)
  {
    /** The socket.io event name on the wire. */
    function Name(): string {
      match this
      case UserJoined(_, _, _) => "user_joined"
      case UserLeft(_, _, _) => "user_left"
      case UserList(_) => "user_list"
      case RoomsList(_) => "rooms_list"
      case RoomUserList(_, _) => "room_user_list"
      case RoomJoined(_, _, _) => "room_joined"
      case RoomLeft(_, _, _) => "room_left"
      case MessageHistory(_, _) => "message_history"
      case ReceiveMessage(_) => "receive_message"
      case PrivateMessage(_) => "private_message"
      case TypingUsers(_, _) => "typing_users"
      case TypingAll(_) => "typing_users"
      case TypingPrivate(_, _, _) => "typing_private"
      case MessageRead(_, _) => "message_read"
      case MessageReaction(_, _, _) => "message_reaction"
    }
  }

  datatype Notification = Notification(target: Target, event: Event)

  /** The outcome of one handler: the new stores and what was emitted, in order. */
  datatype Step = Step(state: State, out: seq<Notification>)

  /** Payload of `send_message`; a missing field is "" or []. */
  datatype SendPayload = SendPayload(room: string, text: string, attachments: seq<Attachment>)
  /** Payload of `typing`; a missing `toSocketId` is "". */
  datatype TypingPayload = TypingPayload(room: string, isTyping: bool, toSocketId: SocketId)
  /** Payload of `private_message`. */
  datatype PrivatePayload = PrivatePayload(toSocketId: SocketId, text: string, attachments: seq<Attachment>)

  // ---------------------------------------------------------------------------
  // The stores and their invariant

  /** The stores at start-up: no users, no typing, only an empty `general`. */
  function Init(): (s: State)
    ensures Valid(s)
    ensures s.rooms.keys == [General] && Members(s, General) == []
    ensures s.users.keys == [] && s.typing.keys == [] && s.messages == []
  {
    State(Empty(), Empty(), Dict([General], map[General := []]), [])
  }

  /** What holds of the stores between any two events. */
  ghost predicate Valid(s: State) {
    && s.users.Valid()
    && s.typing.Valid()
    && s.rooms.Valid()
    && General in s.rooms.entries
    && (forall n :: n in s.rooms.entries ==> Seqs.NoDup(s.rooms.entries[n]))
    && (forall id :: id in s.users.entries ==> s.users.entries[id].id == id)
    && (forall id :: id in s.users.entries ==> s.users.entries[id].username != "")
    && (forall id :: id in s.typing.entries ==> id in s.users.entries)
    && |s.messages| <= Capacity
    && (forall i :: 0 <= i < |s.messages| ==> WellFormed(s.messages[i]))
  }

  /** The socket's user name, treated as absent when empty or missing: the
      identity the content handlers require. */
  function Identity(s: State, sid: SocketId): (r: Option<Username>)
    ensures r.Some? <==> sid in s.users.entries && s.users.entries[sid].username != ""
    ensures r.Some? ==> r.value == s.users.entries[sid].username
  {
    match s.users.Get(sid)
    case Some(u) => if u.username != "" then Some(u.username) else None
    case None => None
  }

  /** The socket's user name, if any, as reported in join and leave payloads. */
  function NameOf(s: State, sid: SocketId): Option<Username> {
    match s.users.Get(sid)
    case Some(u) => Some(u.username)
    case None => None
  }

  /** The member set of a room, empty for a room that does not exist. */
  function Members(s: State, room: RoomName): seq<SocketId> {
    s.rooms.Get(room).GetOr([])
  }

  /** The usernames of the typing entries for `room`, in key order. */
  function TypingIn(t: Dict<SocketId, TypingEntry>, room: RoomName): (r: seq<Username>)
    requires t.Valid()
    ensures |r| <= |t.keys|
    ensures forall u :: u in r <==>
      exists i :: 0 <= i < |t.keys| && t.entries[t.keys[i]] == TypingEntry(u, room)
  {
    TypingInOrder(t, t.keys, room)
  }

  function TypingInOrder(t: Dict<SocketId, TypingEntry>, ks: seq<SocketId>, room: RoomName): (r: seq<Username>)
    requires forall k :: k in ks ==> k in t.entries
    ensures |r| <= |ks|
    ensures forall u :: u in r <==>
      exists i :: 0 <= i < |ks| && t.entries[ks[i]] == TypingEntry(u, room)
  {
    if ks == [] then []
    else
      var e := t.entries[ks[0]];
      var rest := TypingInOrder(t, ks[1..], room);
      assert forall u :: (exists i :: 0 <= i < |ks[1..]| && t.entries[ks[1..][i]] == TypingEntry(u, room))
                     <==> (exists i :: 1 <= i < |ks| && t.entries[ks[i]] == TypingEntry(u, room)) by {
        forall u | exists i :: 1 <= i < |ks| && t.entries[ks[i]] == TypingEntry(u, room)
          ensures exists i :: 0 <= i < |ks[1..]| && t.entries[ks[1..][i]] == TypingEntry(u, room)
        {
          var i :| 1 <= i < |ks| && t.entries[ks[i]] == TypingEntry(u, room);
          assert ks[1..][i - 1] == ks[i];
        }
      }
      (if e.room == room then [e.username] else []) + rest
  }

  /** Replacing one stored message by a well-formed one keeps the invariant. */
  lemma UpdateKeepsValid(s: State, i: nat, m: Message)
    requires Valid(s) && i < |s.messages| && WellFormed(m)
    ensures Valid(s.(messages := s.messages[i := m]))
  {
    var ms := s.messages[i := m];
    forall j | 0 <= j < |ms| ensures WellFormed(ms[j]) {
      if j != i { assert ms[j] == s.messages[j]; }
    }
  }

  /** Appending a well-formed message keeps the invariant. */
  lemma AppendKeepsValid(s: State, m: Message)
    requires Valid(s) && WellFormed(m)
    ensures Valid(s.(messages := Append(s.messages, m)))
  {
    var ms := Append(s.messages, m);
    forall j | 0 <= j < |ms| ensures WellFormed(ms[j]) {
      if j < |ms| - 1 {
        if |s.messages| < Capacity { assert ms[j] == s.messages[j]; }
        else { assert ms[j] == s.messages[j + 1]; }
      }
    }
  }

  /** Registering a non-empty name and adding the socket to `general` keeps the invariant. */
  lemma UserJoinKeepsValid(s: State, sid: SocketId, username: Username)
    requires Valid(s) && username != ""
    ensures Valid(s.(users := s.users.Put(sid, User(username, sid)),
                     rooms := s.rooms.Put(General, Seqs.Add(Members(s, General), sid))))
  {
    var users := s.users.Put(sid, User(username, sid));
    var rooms := s.rooms.Put(General, Seqs.Add(Members(s, General), sid));
    forall id | id in users.entries
      ensures users.entries[id].id == id && users.entries[id].username != ""
    {
      if id != sid { assert users.Get(id) == s.users.Get(id); }
      else { assert users.Get(id) == Some(User(username, sid)); }
    }
    forall id | id in s.typing.entries ensures id in users.entries {
      if id != sid { assert users.Get(id) == s.users.Get(id); }
      else { assert users.Get(id) == Some(User(username, sid)); }
    }
    forall n | n in rooms.entries ensures Seqs.NoDup(rooms.entries[n]) {
      if n != General { assert rooms.Get(n) == s.rooms.Get(n); }
      else { assert rooms.Get(n) == Some(Seqs.Add(Members(s, General), sid)); }
    }
  }

  /** Dropping a socket from every room, from the users and from the typing
      entries keeps the invariant. */
  lemma DisconnectKeepsValid(s: State, sid: SocketId)
    requires Valid(s)
    ensures
      var t := State(s.users.Remove(sid), s.typing.Remove(sid),
                     s.rooms.MapValues(members => Seqs.Remove(members, sid)), s.messages);
      && Valid(t)
      && (forall n :: Members(t, n) == Seqs.Remove(Members(s, n), sid))
      && (forall n :: sid !in Members(t, n))
  {
    var rooms := s.rooms.MapValues(members => Seqs.Remove(members, sid));
    var users := s.users.Remove(sid);
    var typing := s.typing.Remove(sid);
    forall n | n in rooms.entries ensures Seqs.NoDup(rooms.entries[n]) {
      assert rooms.Get(n) == Some(Seqs.Remove(s.rooms.entries[n], sid));
    }
    var t := State(users, typing, rooms, s.messages);
    forall n ensures Members(t, n) == Seqs.Remove(Members(s, n), sid) {
      if n !in s.rooms.entries {
        assert Members(s, n) == [];
      }
    }
    forall n ensures sid !in Members(t, n) {
      assert Members(t, n) == Seqs.Remove(Members(s, n), sid);
    }
    forall id | id in users.entries
      ensures users.entries[id].id == id && users.entries[id].username != ""
    {
      assert users.Get(id) == s.users.Get(id);
    }
    forall id | id in typing.entries ensures id in users.entries {
      assert typing.Get(id) == s.typing.Get(id);
      assert users.Get(id) == s.users.Get(id);
    }
  }

  // ---------------------------------------------------------------------------
  // Handlers

  /** A new connection is sent the room list, the user list and the history
      of `general`; no store changes. */
  function OnConnect(s: State): (r: Step)
    requires Valid(s)
    ensures r.state == s
    ensures r.out == [
      Notification(Origin, RoomsList(s.rooms.keys)),
      Notification(Origin, UserList(s.users.Values())),
      Notification(Origin, MessageHistory(General, History(s.messages, General)))]
  {
    Step(s, [
      Notification(Origin, RoomsList(s.rooms.keys)),
      Notification(Origin, UserList(s.users.Values())),
      Notification(Origin, MessageHistory(General, History(s.messages, General)))])
  }

  /** `user_join`: an empty name is ignored; otherwise the socket is
      (re)registered under that name and added to `general`, and everyone is
      told, then `general` gets its member list. */
  function OnUserJoin(s: State, sid: SocketId, username: Username, now: string): (r: Step)
    requires Valid(s)
    ensures Valid(r.state)
    ensures username == "" ==> r == Step(s, [])
    ensures username != "" ==>
      && r.state.users.Get(sid) == Some(User(username, sid))
      && (forall id :: id != sid ==> r.state.users.Get(id) == s.users.Get(id))
      && r.state.users.keys == Seqs.Add(s.users.keys, sid)
      && Members(r.state, General) == Seqs.Add(Members(s, General), sid)
      && (forall n :: n != General ==> r.state.rooms.Get(n) == s.rooms.Get(n))
      && r.state.rooms.keys == s.rooms.keys
      && r.state.typing == s.typing
      && r.state.messages == s.messages
    ensures username != "" ==> r.out == [
      Notification(Everyone, UserJoined(username, sid, now)),
      Notification(Everyone, UserList(r.state.users.Values())),
      Notification(Everyone, RoomsList(r.state.rooms.keys)),
      Notification(Room(General), RoomUserList(General, r.state.users.GetAll(Members(r.state, General))))]
  {
    if username == "" then Step(s, [])
    else
      var users := s.users.Put(sid, User(username, sid));
      var general := Seqs.Add(Members(s, General), sid);
      var rooms := s.rooms.Put(General, general);
      var s' := s.(users := users, rooms := rooms);
      UserJoinKeepsValid(s, sid, username);
      Step(s', [
        Notification(Everyone, UserJoined(username, sid, now)),
        Notification(Everyone, UserList(users.Values())),
        Notification(Everyone, RoomsList(rooms.keys)),
        Notification(Room(General), RoomUserList(General, users.GetAll(general)))])
  }

  /** `join_room`: an empty name is ignored; otherwise the room is created if
      missing and the socket becomes a member. No identity is required. */
  function OnJoinRoom(s: State, sid: SocketId, roomName: RoomName): (r: Step)
    requires Valid(s)
    ensures Valid(r.state)
    ensures roomName == "" ==> r == Step(s, [])
    ensures roomName != "" ==>
      && roomName in r.state.rooms.entries
      && Members(r.state, roomName) == Seqs.Add(Members(s, roomName), sid)
      && (forall n :: n != roomName ==> r.state.rooms.Get(n) == s.rooms.Get(n))
      && s.rooms.keys <= r.state.rooms.keys
      && (roomName !in s.rooms.entries ==> Members(r.state, roomName) == [sid])
      && r.state.users == s.users && r.state.typing == s.typing
      && r.state.messages == s.messages
    ensures roomName != "" ==> r.out == [
      Notification(Room(roomName), RoomJoined(roomName, NameOf(s, sid), sid)),
      Notification(Everyone, RoomsList(r.state.rooms.keys)),
      Notification(Origin, MessageHistory(roomName, History(s.messages, roomName)))]
  {
    if roomName == "" then Step(s, [])
    else
      var rooms := s.rooms.Put(roomName, Seqs.Add(Members(s, roomName), sid));
      Step(s.(rooms := rooms), [
        Notification(Room(roomName), RoomJoined(roomName, NameOf(s, sid), sid)),
        Notification(Everyone, RoomsList(rooms.keys)),
        Notification(Origin, MessageHistory(roomName, History(s.messages, roomName)))])
  }

  /** `leave_room`: ignored for an empty or unknown name; otherwise only this
      socket leaves that room, and the room stays. */
  function OnLeaveRoom(s: State, sid: SocketId, roomName: RoomName): (r: Step)
    requires Valid(s)
    ensures Valid(r.state)
    ensures roomName == "" || roomName !in s.rooms.entries ==> r == Step(s, [])
    ensures roomName != "" && roomName in s.rooms.entries ==>
      && Members(r.state, roomName) == Seqs.Remove(Members(s, roomName), sid)
      && sid !in Members(r.state, roomName)
      && (forall n :: n != roomName ==> r.state.rooms.Get(n) == s.rooms.Get(n))
      && r.state.rooms.keys == s.rooms.keys
      && r.state.users == s.users && r.state.typing == s.typing
      && r.state.messages == s.messages
      && r.out == [
        Notification(Room(roomName), RoomLeft(roomName, NameOf(s, sid), sid)),
        Notification(Everyone, RoomsList(r.state.rooms.keys))]
  {
    if roomName == "" || roomName !in s.rooms.entries then Step(s, [])
    else
      var rooms := s.rooms.Put(roomName, Seqs.Remove(Members(s, roomName), sid));
      Step(s.(rooms := rooms), [
        Notification(Room(roomName), RoomLeft(roomName, NameOf(s, sid), sid)),
        Notification(Everyone, RoomsList(rooms.keys))])
  }

  /** The sender name of a new message: the identity, or "Anonymous". */
  function SenderName(s: State, sid: SocketId): (u: Username)
    ensures u != ""
    ensures Identity(s, sid).Some? ==> u == Identity(s, sid).value
    ensures Identity(s, sid).None? ==> u == Anonymous
  {
    Identity(s, sid).GetOr(Anonymous)
  }

  /** `send_message`: stores a fresh room message (unidentified senders
      included, as "Anonymous") and sends it to the whole room, sender
      included. The id and timestamp are supplied by the caller. */
  function OnSendMessage(s: State, sid: SocketId, p: SendPayload, id: MessageId, now: string): (r: Step)
    requires Valid(s)
    ensures Valid(r.state)
    ensures |r.state.messages| > 0
    ensures
      var m := r.state.messages[|r.state.messages| - 1];
      && m.id == id && m.timestamp == now
      && m.room == Some(Or(p.room, General))
      && m.sender == SenderName(s, sid) && m.senderId == sid
      && m.text == p.text && m.attachments == p.attachments
      && m.readBy == [m.sender]
      && m.reactions.keys == []
      && !m.isPrivate && m.to.None?
      && r.state.messages == Append(s.messages, m)
      && r.out == [Notification(Room(Or(p.room, General)), ReceiveMessage(m))]
    ensures r.state.users == s.users && r.state.typing == s.typing && r.state.rooms == s.rooms
  {
    var room := Or(p.room, General);
    var sender := SenderName(s, sid);
    var m := Message(id, Some(room), p.text, sender, sid, now, p.attachments,
                     Empty(), [sender], false, None);
    AppendKeepsValid(s, m);
    Step(s.(messages := Append(s.messages, m)), [Notification(Room(room), ReceiveMessage(m))])
  }

  /** `typing`: ignored for an unidentified socket. With a target socket id
      the indicator goes only to that socket and nothing is stored. Otherwise
      the socket's entry is set or deleted and the room's typing usernames go
      to the room's other members. */
  function OnTyping(s: State, sid: SocketId, p: TypingPayload): (r: Step)
    requires Valid(s)
    ensures Valid(r.state)
    ensures Identity(s, sid).None? ==> r == Step(s, [])
    ensures Identity(s, sid).Some? && p.toSocketId != "" ==>
      r == Step(s, [Notification(Socket(p.toSocketId), TypingPrivate(Identity(s, sid).value, sid, p.isTyping))])
    ensures Identity(s, sid).Some? && p.toSocketId == "" ==>
      var room := Or(p.room, General);
      && (p.isTyping ==> r.state.typing.Get(sid) == Some(TypingEntry(Identity(s, sid).value, room)))
      && (!p.isTyping ==> r.state.typing.Get(sid) == None)
      && (forall id :: id != sid ==> r.state.typing.Get(id) == s.typing.Get(id))
      && r.state.typing.keys == (if p.isTyping then Seqs.Add(s.typing.keys, sid) else Seqs.Remove(s.typing.keys, sid))
      && r.state.users == s.users && r.state.rooms == s.rooms
      && r.state.messages == s.messages
      && r.out == [Notification(RoomExceptOrigin(room), TypingUsers(room, TypingIn(r.state.typing, room)))]
  {
    match Identity(s, sid)
    case None => Step(s, [])
    case Some(username) =>
      if p.toSocketId != "" then
        Step(s, [Notification(Socket(p.toSocketId), TypingPrivate(username, sid, p.isTyping))])
      else
        var room := Or(p.room, General);
        var typing := if p.isTyping then s.typing.Put(sid, TypingEntry(username, room))
                      else s.typing.Remove(sid);
        Step(s.(typing := typing),
             [Notification(RoomExceptOrigin(room), TypingUsers(room, TypingIn(typing, room)))])
  }

  /** `private_message`: stores a fresh private message and sends the same
      record to the target socket and back to the sender. */
  function OnPrivateMessage(s: State, sid: SocketId, p: PrivatePayload, id: MessageId, now: string): (r: Step)
    requires Valid(s)
    ensures Valid(r.state)
    ensures |r.state.messages| > 0
    ensures
      var m := r.state.messages[|r.state.messages| - 1];
      && m.id == id && m.timestamp == now
      && m.room.None? && m.isPrivate && m.to == Some(p.toSocketId)
      && m.sender == SenderName(s, sid) && m.senderId == sid
      && m.text == p.text && m.attachments == p.attachments
      && m.readBy == [m.sender]
      && m.reactions.keys == []
      && r.state.messages == Append(s.messages, m)
      && r.out == [Notification(Socket(p.toSocketId), PrivateMessage(m)),
                   Notification(Origin, PrivateMessage(m))]
    ensures r.state.users == s.users && r.state.typing == s.typing && r.state.rooms == s.rooms
  {
    var sender := SenderName(s, sid);
    var m := Message(id, None, p.text, sender, sid, now, p.attachments,
                     Empty(), [sender], true, Some(p.toSocketId));
    AppendKeepsValid(s, m);
    Step(s.(messages := Append(s.messages, m)),
         [Notification(Socket(p.toSocketId), PrivateMessage(m)), Notification(Origin, PrivateMessage(m))])
  }

  /** Where a read receipt goes: a direct private message's sender only;
      otherwise the room hint, else the message's room, else `general`. */
  function ReadTarget(m: Message, roomHint: string): (t: Target)
    ensures m.isPrivate && m.to.Some? && m.to.value != "" ==> t == Socket(m.senderId)
    ensures !m.IsDirect() ==> t.Room?
    ensures !m.IsDirect() && roomHint != "" ==> t == Room(roomHint)
    ensures !m.IsDirect() && roomHint == "" && m.room.Some? && m.room.value != "" ==> t == Room(m.room.value)
    ensures !m.IsDirect() && roomHint == "" && (m.room.None? || m.room.value == "") ==> t == Room(General)
  {
    if m.IsDirect() then Socket(m.senderId)
    else Room(Or(roomHint, Or(m.room.GetOr(""), General)))
  }

  /** `message_read`: ignored for an unidentified reader or an unknown id;
      otherwise the first message with that id gains the reader in
      `readBy` (once) and the receipt is routed by `ReadTarget`. */
  function OnMessageRead(s: State, sid: SocketId, messageId: MessageId, roomHint: string): (r: Step)
    requires Valid(s)
    ensures Valid(r.state)
    ensures Identity(s, sid).None? || Find(s.messages, messageId).None? ==> r == Step(s, [])
    ensures Identity(s, sid).Some? && Find(s.messages, messageId).Some? ==>
      var i := Find(s.messages, messageId).value;
      var reader := Identity(s, sid).value;
      && r.state == s.(messages := s.messages[i := MarkRead(s.messages[i], reader)])
      && r.out == [Notification(ReadTarget(s.messages[i], roomHint), MessageRead(messageId, reader))]
  {
    match Identity(s, sid)
    case None => Step(s, [])
    case Some(reader) =>
      match Find(s.messages, messageId)
      case None => Step(s, [])
      case Some(i) =>
        var m := s.messages[i];
        UpdateKeepsValid(s, i, MarkRead(m, reader));
        Step(s.(messages := s.messages[i := MarkRead(m, reader)]),
             [Notification(ReadTarget(m, roomHint), MessageRead(messageId, reader))])
  }

  /** The same event sent to each target in turn. */
  function Notify(targets: seq<Target>, ev: Event): (out: seq<Notification>)
    ensures |out| == |targets|
    ensures forall k :: 0 <= k < |out| ==> out[k] == Notification(targets[k], ev)
  {
    if targets == [] then [] else [Notification(targets[0], ev)] + Notify(targets[1..], ev)
  }

  /** Where a reaction update goes: a direct private message's target and
      sender; otherwise the message's room, else `general`. */
  function ReactionTargets(m: Message): (ts: seq<Target>)
    ensures m.isPrivate && m.to.Some? && m.to.value != "" ==> ts == [Socket(m.to.value), Socket(m.senderId)]
    ensures !m.IsDirect() && m.room.Some? && m.room.value != "" ==> ts == [Room(m.room.value)]
    ensures !m.IsDirect() && (m.room.None? || m.room.value == "") ==> ts == [Room(General)]
  {
    if m.IsDirect() then [Socket(m.to.value), Socket(m.senderId)]
    else [Room(Or(m.room.GetOr(""), General))]
  }

  /** `message_reaction`: ignored for an unidentified user or an unknown id;
      otherwise the user is toggled in that emoji's list of the first message
      with that id and the new list is sent to `ReactionTargets`. */
  function OnMessageReaction(s: State, sid: SocketId, messageId: MessageId, emoji: Emoji): (r: Step)
    requires Valid(s)
    ensures Valid(r.state)
    ensures Identity(s, sid).None? || Find(s.messages, messageId).None? ==> r == Step(s, [])
    ensures Identity(s, sid).Some? && Find(s.messages, messageId).Some? ==>
      var i := Find(s.messages, messageId).value;
      var m' := React(s.messages[i], emoji, Identity(s, sid).value);
      && r.state == s.(messages := s.messages[i := m'])
      && r.out == Notify(ReactionTargets(s.messages[i]), MessageReaction(messageId, emoji, m'.Reactors(emoji)))
  {
    match Identity(s, sid)
    case None => Step(s, [])
    case Some(u) =>
      match Find(s.messages, messageId)
      case None => Step(s, [])
      case Some(i) =>
        var m := s.messages[i];
        var m' := React(m, emoji, u);
        UpdateKeepsValid(s, i, m');
        Step(s.(messages := s.messages[i := m']),
             Notify(ReactionTargets(m), MessageReaction(messageId, emoji, m'.Reactors(emoji))))
  }

  /** The `user_left` notice of a disconnect, sent only for an identified socket. */
  function Departure(s: State, sid: SocketId, now: string): (out: seq<Notification>)
    ensures s.users.Get(sid).None? ==> out == []
    ensures s.users.Get(sid).Some? ==>
      out == [Notification(Everyone, UserLeft(s.users.Get(sid).value.username, sid, now))]
  {
    match s.users.Get(sid)
    case Some(u) => [Notification(Everyone, UserLeft(u.username, sid, now))]
    case None => []
  }

  /** `disconnect`: the socket leaves every room, loses its user and typing
      entries, and everyone gets the departure (if it had identified) and
      the refreshed lists. Rooms and messages stay. */
  function OnDisconnect(s: State, sid: SocketId, now: string): (r: Step)
    requires Valid(s)
    ensures Valid(r.state)
    ensures forall n :: sid !in Members(r.state, n)
    ensures forall n :: Members(r.state, n) == Seqs.Remove(Members(s, n), sid)
    ensures r.state.rooms.keys == s.rooms.keys
    ensures r.state.users.Get(sid) == None && r.state.typing.Get(sid) == None
    ensures forall id :: id != sid ==> r.state.users.Get(id) == s.users.Get(id)
    ensures forall id :: id != sid ==> r.state.typing.Get(id) == s.typing.Get(id)
    ensures r.state.users.keys == Seqs.Remove(s.users.keys, sid)
    ensures r.state.typing.keys == Seqs.Remove(s.typing.keys, sid)
    ensures r.state.messages == s.messages
    ensures r.out == Departure(s, sid, now)
      + [Notification(Everyone, UserList(r.state.users.Values())),
         Notification(Everyone, RoomsList(r.state.rooms.keys)),
         Notification(Everyone, TypingAll(r.state.typing.Values()))]
  {
    var left := Departure(s, sid, now);
    var rooms := s.rooms.MapValues(members => Seqs.Remove(members, sid));
    var users := s.users.Remove(sid);
    var typing := s.typing.Remove(sid);
    DisconnectKeepsValid(s, sid);
    Step(State(users, typing, rooms, s.messages),
         left + [Notification(Everyone, UserList(users.Values())),
                 Notification(Everyone, RoomsList(rooms.keys)),
                 Notification(Everyone, TypingAll(typing.Values()))])
  }

  // ---------------------------------------------------------------------------
  // Dispatch

  /** The inbound socket events, with their payloads. */
  datatype Command =
    | Connect
    | UserJoin(username: Username)
    | JoinRoom(roomName: RoomName)
    | LeaveRoom(roomName: RoomName)
    | SendMessage(send: SendPayload)
    | Typing(typing: TypingPayload)
    | SendPrivate(direct: PrivatePayload)
    | ReadMessage(messageId: MessageId, roomHint: string)
    | ReactToMessage(messageId: MessageId, emoji: Emoji)
    | Disconnect

  /** One event from one socket, with the id and the clock reading the
      server would generate while handling it. */
  datatype Input = Input(sid: SocketId, command: Command, id: MessageId, now: string)

  /** Route an event to its handler. No handler deletes a room. */
  function Handle(s: State, input: Input): (r: Step)
    requires Valid(s)
    ensures Valid(r.state)
    ensures s.rooms.keys <= r.state.rooms.keys
    ensures forall n :: n in s.rooms.entries ==> n in r.state.rooms.entries
  {
    var sid := input.sid;
    match input.command
    case Connect => OnConnect(s)
    case UserJoin(username) => OnUserJoin(s, sid, username, input.now)
    case JoinRoom(roomName) => OnJoinRoom(s, sid, roomName)
    case LeaveRoom(roomName) => OnLeaveRoom(s, sid, roomName)
    case SendMessage(p) => OnSendMessage(s, sid, p, input.id, input.now)
    case Typing(p) => OnTyping(s, sid, p)
    case SendPrivate(p) => OnPrivateMessage(s, sid, p, input.id, input.now)
    case ReadMessage(messageId, roomHint) => OnMessageRead(s, sid, messageId, roomHint)
    case ReactToMessage(messageId, emoji) => OnMessageReaction(s, sid, messageId, emoji)
    case Disconnect => OnDisconnect(s, sid, input.now)
  }

  /** The stores after a sequence of events, one at a time in arrival order. */
  function Run(s: State, inputs: seq<Input>): (r: State)
    requires Valid(s)
    ensures Valid(r)
    ensures General in r.rooms.entries
    ensures s.rooms.keys <= r.rooms.keys
    ensures |r.messages| <= Capacity
    decreases |inputs|
  {
    if inputs == [] then s else Run(Handle(s, inputs[0]).state, inputs[1..])
  }
}
