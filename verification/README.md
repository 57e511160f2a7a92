# Chat hub model

A Dafny model of the in-memory messaging hub of a socket.io chat server
(`backend/src/server.js`). The server keeps four stores — identified users
by socket id, typing indicators by socket id, rooms with their member sets
(with `general` present from start-up), and one message sequence capped at
2000 entries — and changes them only inside its socket event handlers. Each
handler is modelled as a pure function from the stores to a `Step`: the new
stores plus the list of notifications it emits, each a `Notification(target,
event)` whose target is the origin socket, everyone, a room, a room except
the origin, or one socket.

Files:

- `options.dfy` — `Option` and JavaScript's `||` on strings (`Or`).
- `seqs.dfy` — sequences as insertion-ordered JavaScript `Set`s (`Add`,
  `Remove`) and arrays (`IndexOf`, `RemoveAt` for `splice`).
- `dicts.dfy` — a JavaScript plain object as a map plus its key insertion
  order, which is the order `Object.keys` / `Object.values` report.
- `messages.dfy` — the message record, the capped append, the room-history
  query, lookup by id (first match), read receipts and reaction toggles.
- `hub.dfy` — the stores, their invariant `Valid`, one function per socket
  event, the dispatcher `Handle` and `Run` over a sequence of events.
- `properties.dfy` — lemmas relating several events.

Modelling choices:

- Message ids and timestamps (`Date.now()`, `Math.random()`,
  `new Date().toISOString()`) are parameters of the handlers.
- A payload field the code only reads through `||` is a plain string or
  sequence whose empty value stands for `undefined`/`null`.
- Member sets are duplicate-free sequences, because the code reads them
  back in insertion order (`Array.from`) for `room_user_list`.
- What the handlers do, as written: `send_message` accepts a socket that
  has not identified (the sender is then "Anonymous") and sends the
  message to the whole room, the sender included; `typing` sends the
  room's typing list to the room's other members only (`socket.to`);
  `join_room` needs no identity; `disconnect` emits `typing_users` with the
  raw list of typing records, whereas `typing` emits a `{room, users}`
  object for the same event (the client's handler for that event reads
  `room` from the payload, so it does not act on the disconnect one).
- A reaction toggle does not always restore the exact list when applied
  twice: a user who had already reacted is spliced out and then pushed back
  at the end. Who has reacted is always restored; the exact list is
  restored when the user had not reacted. An emoji key, once created, stays
  with an empty list.

## Model

| member | source | states |
|---|---|---|
| Seqs.Add | backend/src/server.js:109 | Adding a socket to a member set puts it in the set, keeps earlier members in place, adds nothing else and never creates a duplicate; re-adding a member is a no-op |
| Seqs.Remove | backend/src/server.js:119 | Deleting from a member set removes exactly that socket, keeps all others and keeps the set duplicate-free |
| Seqs.IndexOf | backend/src/server.js:210 | The index is -1 exactly when the user is absent, otherwise it is the first position holding the user |
| Seqs.RemoveAt | backend/src/server.js:212 | Splicing out position i keeps every element before i and shifts every element after it down by one, one shorter in all |
| Seqs.RemoveAtIndexOf | backend/src/server.js:210-212 | On a duplicate-free list, splicing out the first occurrence of a user equals deleting that user |
| Dicts.Dict.Put | backend/src/server.js:94 | Assigning a key makes it map to the new value, leaves every other key's value alone, keeps existing keys in their order and appends only a new key |
| Dicts.Dict.Remove | backend/src/server.js:227-228 | Deleting a key makes it absent, leaves every other key's value alone and keeps the remaining keys in order |
| Dicts.Dict.MapValues | backend/src/server.js:226 | Updating every room's member set in place keeps the room names and their order and applies the update to each room |
| Dicts.Dict.Values | backend/src/server.js:71-73 | The listed values are the stored values in key order, one per key |
| Dicts.Dict.GetAll | backend/src/server.js:101 | Looking up a list of socket ids gives one entry per id, undefined for ids that have no user |
| Messages.Last | backend/src/server.js:78 | Taking the last n keeps the whole list when it is short, else exactly its final n elements |
| Messages.Append | backend/src/server.js:141-142 | The store never exceeds 2000; below the cap nothing is removed; at the cap exactly the head is evicted; the new message is always last |
| Messages.AppendAllKeepsNewest | backend/src/server.js:141-142 | After any run of appends the store is exactly the newest 2000 messages ever appended, in arrival order |
| Messages.OverflowEvictsFirst | backend/src/server.js:141-142 | Appending 2001 messages to an empty store keeps 2000: the first is gone and the second is now the oldest |
| Messages.RoomMessages | backend/src/server.js:78 | The filter keeps exactly the store's messages of that room that are not private |
| Messages.RoomMessagesAppend | backend/src/server.js:78 | The filter keeps store order: filtering a concatenation concatenates the filtered parts |
| Messages.History | backend/src/server.js:77-80 | The history is the newest min(50, n) of the room's n non-private messages, in store order |
| Messages.CollectHistory | backend/src/server.js:78 | A backward scan that stops at 50 matches returns exactly the same history |
| Messages.Find | backend/src/server.js:190 | Lookup by id returns the first position with that id, and nothing exactly when no message has it |
| Messages.FindAfterUpdate | backend/src/server.js:190-192 | Updating a message in place without changing its id leaves every lookup by id unchanged |
| Messages.MarkRead | backend/src/server.js:192 | A read adds the reader to readBy only if absent, changes no other field, and keeps readBy duplicate-free |
| Messages.Toggle | backend/src/server.js:208-212 | On a duplicate-free list the user is present afterwards exactly when absent before; other users are unaffected; no duplicates appear |
| Messages.ToggleTwiceFromAbsent | backend/src/server.js:208-212 | Two toggles by a user who had not reacted give back the original list |
| Messages.ToggleTwiceSameReactors | backend/src/server.js:208-212 | Two toggles always give back the same set of reactors |
| Messages.React | backend/src/server.js:208-212 | A reaction toggles only that user in only that emoji's list, creates the emoji key, changes no other field and keeps the message well formed |
| Messages.ReactTwice | backend/src/server.js:208-212 | Two identical reactions on one message restore who has reacted, and the exact list when the user had not reacted |
| Hub.Init | backend/src/server.js:54-58 | At start-up there are no users, no typing entries, no messages and only an empty general room |
| Hub.TypingIn | backend/src/server.js:158 | The typing list of a room names exactly the users with a typing entry for that room |
| Hub.Identity | backend/src/server.js:188-189 | A socket has an identity exactly when it has a users entry with a non-empty name, and the identity is that name |
| Hub.OnConnect | backend/src/server.js:86-89 | A new connection alone receives the room list, the user list and the general history; no store changes |
| Hub.OnUserJoin | backend/src/server.js:92-103 | An empty name is ignored; otherwise the socket is registered under the name (a new socket id goes last in the user order, a known one keeps its place) and added to general, nothing else changes, and everyone receives user_joined, user_list and rooms_list, then general receives its member list |
| Hub.OnJoinRoom | backend/src/server.js:106-114 | An empty name is ignored; otherwise the room exists afterwards (created with the joiner as sole member if new), only that room's members change, no room disappears, and the joiner alone receives that room's history |
| Hub.OnLeaveRoom | backend/src/server.js:117-123 | An empty or unknown room name is ignored; otherwise only this socket leaves only that room and the room persists |
| Hub.SenderName | backend/src/server.js:128 | The sender name is the socket's identity, or Anonymous when it has none |
| Hub.OnSendMessage | backend/src/server.js:126-144 | The stored message is last, has the given id and time, readBy of just the sender, no reactions, is not private, sits in the payload room or general, and is sent once to that whole room; users, typing and rooms are untouched |
| Hub.OnTyping | backend/src/server.js:147-161 | Unidentified sockets are ignored; a target socket gets a typing_private and nothing is stored; otherwise the entry is set (a new socket id goes last in the typing order) or deleted, no other entry changes or moves, and the room's other members get that room's typing list |
| Hub.OnPrivateMessage | backend/src/server.js:164-184 | The stored message is last, private, roomless, addressed to the target, read by the sender only, and the same record goes to the target and back to the sender |
| Hub.OnMessageRead | backend/src/server.js:187-199 | Unidentified readers and unknown ids change nothing; otherwise only the first message with that id gains the reader and one receipt is routed to the sender of a direct message, else to the hint room, the message's room or general |
| Hub.ReadTarget | backend/src/server.js:194-198 | A receipt for a private message with a non-empty target goes to its sender's socket only; any other receipt goes to a room: the hint when non-empty, else the message's room when non-empty, else general |
| Hub.Notify | backend/src/server.js:215-216 | The same event goes to each target in turn, one notification per target |
| Hub.OnMessageReaction | backend/src/server.js:202-220 | Unidentified users and unknown ids change nothing; otherwise only the first message with that id is toggled and the new list goes to target and sender of a direct message, else to the message's room or general |
| Hub.ReactionTargets | backend/src/server.js:214-219 | A reaction update for a private message with a non-empty target goes to the target's socket and then the sender's; any other goes to the message's room when non-empty, else general |
| Hub.Departure | backend/src/server.js:224-225 | A departure notice goes to everyone exactly when the socket had identified, naming its user |
| Hub.OnDisconnect | backend/src/server.js:223-233 | The socket is in no room, has no user or typing entry, every other entry stays in its order, all messages and room names stay, and everyone gets user_left (if identified) and the refreshed lists |
| Hub.Handle | backend/src/server.js:83-233 | Every event keeps the store invariant (general exists, member sets and receipt and reactor lists duplicate-free, at most 2000 messages, typing entries only for users) and never deletes a room |
| Hub.Run | backend/src/server.js:56-58 | Along any sequence of events the invariant holds, general exists and the room names only grow |
| HubProperties.ReadIsIdempotent | backend/src/server.js:190-192 | A second read of the same message by the same identity changes nothing |
| HubProperties.ReactionTwiceState | backend/src/server.js:205-212 | Two identical reaction events change only the first message with that id, by toggling it twice |
| HubProperties.ReactionTwiceRestores | backend/src/server.js:205-212 | A second identical reaction restores who has reacted, restores the exact list when the user had not reacted, and leaves other messages alone |
| HubProperties.JoinRoomIsIdempotent | backend/src/server.js:107-109 | Joining the same room twice leaves the stores as after the first join |
| HubProperties.FindFreshId | backend/src/server.js:141 | A message with a fresh id is found at the tail of the store after it is appended, even after an eviction |
| HubProperties.PrivateReadNotifiesOnlySender | backend/src/server.js:194-195 | A read of any stored private message with a non-empty target notifies only its sender, whatever room hint is given |
| HubProperties.PrivateReactionNotifiesBothEnds | backend/src/server.js:214-216 | A reaction to any stored private message with a non-empty target sends the same update to the target and then the sender, and to no room |
| HubProperties.RoomReadNotifiesRoom | backend/src/server.js:196-197 | A read of any stored room message sends exactly one receipt, to the hint room, else the message's room, else general |
| HubProperties.RoomReactionNotifiesRoom | backend/src/server.js:214-219 | A reaction to any stored room message yields exactly one update, sent to that message's room, or general when its room name is empty |
| HubProperties.GeneralAlwaysExists | backend/src/server.js:56-58 | In every state reachable from start-up general exists and at most 2000 messages are stored |
| HubProperties.DisconnectForgetsSocket | backend/src/server.js:226-228 | After a disconnect the socket is in no member set and in neither the user nor the typing store |
| HubProperties.TypingBroadcastsShareWireName | backend/src/server.js:159-231 | The disconnect's last broadcast and a room typing update are both the wire event typing_users, the first carrying every typing record and the second a room and its usernames |
| HubProperties.AliceThenBobScenario | backend/src/server.js:106-143 | alice's message to general goes to the whole room, alice included, and bob joining general afterwards receives a history holding exactly that message |

## Left out

- Express, CORS, static files, the Multer upload endpoint and its file naming, the MongoDB connection and `server.listen` (backend/src/server.js:13-51, 236-257): framework and I/O plumbing. The three read-only HTTP endpoints return the message store, `Object.values(users)` and `Object.keys(rooms)` and are not modelled separately.
- Socket.io delivery and room subscription (`socket.join`, `socket.leave`, `io.to().emit`): only the abstract target and event of each notification are modelled.
- Id and clock generation (`Date.now()`, `Math.random()`, `new Date().toISOString()`): nondeterministic, taken as parameters.
- `console.log` output.
- backend/src/routes/auth.js and the frontend are not part of this model: database access, hashing, tokens, and UI state.
- JavaScript plain objects inherit keys such as `constructor` and `toString`; a room or emoji with such a name would make the code throw. The model treats every object as holding only its own keys.
- `Object.keys` lists integer-like keys (such as "1") before the others; the model keeps pure insertion order, which is what the code sees for socket ids and ordinary room names.
- Payloads of the wrong JavaScript type, and a missing payload object for `private_message`, `message_read` and `message_reaction` (where destructuring throws), are not modelled; `isTyping` is a boolean.
- Hub.TypingIn: states which usernames are listed, not their order (key order of the typing store) or how often a name repeats when one user is typing from two sockets.
