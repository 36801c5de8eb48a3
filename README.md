# Socket.io chat: server registry, client reducers and view rules in Dafny

This project models the sequential logic of a small socket.io chat application:

- **The server** (`server.dfy`, module `ChatServer`). A registry `users` maps a connection id to
  `{username, id, room}`. Beside it the model keeps the registry's key order, the rooms each live
  socket is in, and an append-only log of what the handlers emit. Each log entry records the
  audience, the event and the sockets that audience reached at that moment. The handlers are
  `user_join`, `send_message`, `private_message`, `message_reaction` and `disconnect`. Each is one
  atomic method of class `Server`.
- **The client hook** (`socket_client.dfy`, module `ClientSocket`). The emitters of `useSocket`
  append to an outbox. The inbound handlers fold events into `messages`, `users` and
  `typingUsers`. The list transforms are pure functions: append, read-receipt union with
  `[...new Set(...)]`, wholesale replacement of `reactions`, and synthesized join/leave notices.
  Class `SocketHook` holds the hook state.
- **The screen's rules** (`app.dfy`, module `ChatApp`). These are the trimmed-input guards of the
  join and send handlers and the duplicate-free room list. They also cover the per-room message
  filter, when a message is reported read, the "read by all" marker, the unread counter, the
  recipient choices and the typing label. Class `ChatView` holds the component state.
- `js_string.dfy` models ECMAScript `String.prototype.trim`, with the exact set of characters it
  strips. `seqs.dfy` holds sequence helpers. `chat.dfy` holds the shared message and user values.
  `finding.dfy` states the room-name discrepancy described under Findings.

Semantics the model makes explicit:

- `Object.values(users)` lists values in the insertion order of their keys, for keys that are
  not array indices (a key such as "42" would come first, in ascending numeric order).
  socket.io's generated ids are never array indices, and the model assumes that of every
  `ConnId`. Assigning to an existing key keeps its place, and `delete` keeps the order of the
  rest. The field `order` models this.
- socket.io puts every socket in a room named by its own id. `socket.join` never leaves a room.
  A broadcast from a socket (`socket.to(room)`) leaves out the whole room named by the sender's
  id, not only the sender: socket.io 4 keeps that exclusion as a set of rooms (the version is
  not pinned by the files modelled; this model follows socket.io 4).
  Before the `disconnect` handler runs, socket.io has already removed the socket from all its
  rooms, so the leaver does not receive its own `user_left`.
- `users[id]?.username || 'Anonymous'` also yields "Anonymous" for a registered empty username.
- `!msg.room` is true for an absent room and also for the empty room name.
- `msg.senderId === myId` is false when either side is missing: `undefined` never equals `null`.
- `Date.now()` and `new Date().toISOString()` are method parameters.

The code has no message store, pagination or search. It has no typing aggregation, no read-receipt
or reaction state, and no acknowledgements. It has no server-side system notices: the client
synthesizes them. Messages from unjoined connections are relayed as "Anonymous" rather than
rejected. A private message carries no recipient id.

## Model

| member | source | states |
|---|---|---|
| `ChatServer.Recipients` | server/server.js:62-65 | only live sockets receive anything; `io.to(room)` reaches exactly the live members of `room`; `socket.to(to)` reaches a live socket iff it is in `to`, is not the sender and is not in the room named by the sender's id; `socket.emit` reaches exactly the sender while it is live |
| `ChatServer.RoomList` | server/server.js:27 | the user list holds only users of `room` and every registered user of `room`, drawn from the registry, at most one per key |
| `ChatServer.RoomListCount` | server/server.js:27 | with duplicate-free keys, the list is as long as the set of keys whose room is `room` |
| `ChatServer.PresenceCount` | server/server.js:88 | in a consistent state, a `user_list` has exactly one entry per session registered in the room |
| `ChatServer.RoomListExact` | server/server.js:27 | a user is in the room's list iff it is the registry entry under its own id and its room is `room` |
| `ChatServer.RoomEmitReachesSessions` | server/server.js:46 | every session registered in a room is reached by an emit to that room |
| `ChatServer.PrivateReachesOnlyPair` | server/server.js:62-65 | if no other socket joined a room named after the addressee or after the sender, a private message reaches exactly the addressee (if live) and the sender |
| `ChatServer.SenderName` | server/server.js:34 | the sender is never empty: the registered username when non-empty, otherwise "Anonymous" |
| `ChatServer.RoomMessage` | server/server.js:33-45 | `receive_message` payload: the sender per `SenderName`, `senderId` the connection, the payload's room, the file present iff one was supplied, not private |
| `ChatServer.PrivateMessageData` | server/server.js:50-61 | `private_message` payload: private, in the sender's registered room, or with no room when unregistered |
| `ChatServer.JoinPreserves` | server/server.js:23-27 | a join keeps the state consistent, overwrites rather than duplicates an existing entry, and lists the joiner in its room |
| `ChatServer.Server.constructor` | server/server.js:16-17 | the registry, the rooms and the log start empty |
| `ChatServer.Server.Connect` | server/server.js:19-20 | a new socket is placed only in the room named by its id; the registry is unchanged |
| `ChatServer.Server.UserJoin` | server/server.js:23-30 | `users[id]` becomes `{username, id, room}` and nothing else changes in the registry; key order is kept on a rejoin; the socket joins `room`; `user_list` (containing the joiner) then `user_joined` go to `room`, which includes the joiner |
| `ChatServer.Server.SendMessage` | server/server.js:33-47 | one `receive_message` goes to the payload's room, not the sender's registered room; nothing else changes |
| `ChatServer.Server.PrivateMessage` | server/server.js:50-66 | the message goes to the live members of room `to` minus those of the room named by the sender's id (which holds the sender), then is echoed to the sender; nothing else changes |
| `ChatServer.Server.MessageReaction` | server/server.js:69-78 | the registry, the rooms and the log are unchanged |
| `ChatServer.Server.Disconnect` | server/server.js:81-91 | the socket leaves all rooms. A registered id: its entry is removed and the others are kept in order; `user_left` precedes the refreshed `user_list`, which excludes the departed id. An unregistered id: nothing is emitted |
| `Seqs.Dedup` | client/src/socket/socket.js:94 | `[...new Set(s)]` is duplicate-free, has the same elements, and is `s` itself when `s` has no duplicates |
| `Seqs.DedupPrefix` | client/src/socket/socket.js:94 | insertion order: de-duplicating a prefix of `s` gives a prefix of the de-duplicated `s` |
| `Seqs.Without` | server/server.js:86 | removing a key leaves every other element, keeps duplicate-freedom, and changes nothing when the key is absent |
| `Seqs.WithoutSplit` | server/server.js:86 | removing a key that occurs once leaves exactly the keys before it followed by the keys after it, in their order |
| `JsString.Trim` | client/src/App.jsx:36 | the result is the slice left after the white space at both ends; it is empty iff the input is all white space; otherwise its ends are not white space |
| `JsString.TrimIdempotent` | client/src/App.jsx:36-41 | trimming a trimmed string changes nothing |
| `ClientSocket.AddReader` | client/src/socket/socket.js:94 | the readers become duplicate-free with `userId` added and no one else; `[userId]` when absent; an existing duplicate-free list is unchanged or gains `userId` at the end |
| `ClientSocket.ApplyReadUpdate` | client/src/socket/socket.js:88-99 | length and order kept; messages with another id unchanged; matching ones differ only in `readBy`, which gains `userId`, keeps every earlier reader and has no duplicates |
| `ClientSocket.ReadUpdateIdempotent` | client/src/socket/socket.js:88-99 | applying the same read update twice equals applying it once |
| `ClientSocket.ApplyReactionUpdate` | client/src/socket/socket.js:102-110 | matching messages get exactly the received reactions and keep every other field; other messages unchanged; length kept |
| `ClientSocket.ReactionUpdateIdempotent` | client/src/socket/socket.js:102-110 | applying the same reaction update twice equals applying it once |
| `ClientSocket.ReadAndReactionUpdatesCommute` | client/src/socket/socket.js:88-110 | a read update and a reaction update give the same list in either order |
| `ClientSocket.PresenceNotice` | client/src/socket/socket.js:117-139 | the synthesized notice is a system message with text "<username> joined the chat" / "<username> left the chat", no sender and no room |
| `ClientSocket.SocketHook.constructor` | client/src/socket/socket.js:19-24 | initial hook state: empty lists, no id, connected as the socket reports |
| `ClientSocket.SocketHook.Connect` | client/src/socket/socket.js:27-32 | `user_join` is emitted iff both the username and the room are non-empty |
| `ClientSocket.SocketHook.SendMessage` | client/src/socket/socket.js:40-42 | one `send_message` with the text, room and optional file is emitted |
| `ClientSocket.SocketHook.SendPrivateMessage` | client/src/socket/socket.js:45-47 | one `private_message` to `to` is emitted |
| `ClientSocket.SocketHook.SetTyping` | client/src/socket/socket.js:50-52 | one `typing` event with the flag is emitted |
| `ClientSocket.SocketHook.MarkMessageRead` | client/src/socket/socket.js:55-57 | one `message_read` for the id is emitted |
| `ClientSocket.SocketHook.SendReaction` | client/src/socket/socket.js:60-62 | one `message_reaction` is emitted |
| `ClientSocket.SocketHook.OnConnect` | client/src/socket/socket.js:67-70 | connected, and `myId` becomes the socket's id |
| `ClientSocket.SocketHook.OnDisconnect` | client/src/socket/socket.js:72-74 | only the connected flag is cleared |
| `ClientSocket.SocketHook.OnReceiveMessage` | client/src/socket/socket.js:77-80 | the message is appended; earlier messages unchanged; length grows by one; it becomes the last message |
| `ClientSocket.SocketHook.OnPrivateMessage` | client/src/socket/socket.js:82-85 | same as a room message: appended at the end, length plus one |
| `ClientSocket.SocketHook.OnMessageReadUpdate` | client/src/socket/socket.js:88-99 | `messages` becomes the read update of the old list |
| `ClientSocket.SocketHook.OnMessageReactionUpdate` | client/src/socket/socket.js:102-110 | `messages` becomes the reaction update of the old list |
| `ClientSocket.SocketHook.OnUserList` | client/src/socket/socket.js:113-115 | the user list is replaced wholesale |
| `ClientSocket.SocketHook.OnUserJoined` | client/src/socket/socket.js:117-127 | exactly one join notice is appended |
| `ClientSocket.SocketHook.OnUserLeft` | client/src/socket/socket.js:129-139 | exactly one leave notice is appended |
| `ClientSocket.SocketHook.OnTypingUsers` | client/src/socket/socket.js:142-144 | the typing list is replaced wholesale |
| `ChatApp.VisibleMessages` | client/src/App.jsx:198-199 | a message is shown iff it has no room (or the empty room) or its room is the current room |
| `ChatApp.VisibleAppend` | client/src/App.jsx:198-199 | an appended message becomes the last shown message exactly when it passes the filter |
| `ChatApp.IsDisplayed` | client/src/App.jsx:199 | a message with no room, the empty room name or the current room is shown; one naming any other non-empty room is hidden |
| `ChatApp.SentByMe` | client/src/App.jsx:203 | mine exactly when my id is known and equals the sender id; never mine while my id or the sender id is missing |
| `ChatApp.NeedsMarkRead` | client/src/App.jsx:203 | a read report is due for a message not mine with no readers list or without my id in it, always while my id is unknown (`includes` of a missing id is false), and never for my own or one I already read |
| `ChatApp.ReadByAll` | client/src/App.jsx:259 | the marker shows iff the message is mine, has a readers list, and that list is at least as long as the online users minus one |
| `ChatApp.MarkReadRequests` | client/src/App.jsx:198-206 | read is requested exactly for displayed messages not sent by me and not already read by me |
| `ChatApp.ReadEchoStopsRequests` | client/src/App.jsx:203-205 | after my read update arrives, no message with that id asks to be marked read again, and whether any other message asks is unchanged |
| `ChatApp.ReadByAllIsOwn` | client/src/App.jsx:259 | the marker shows only on my own messages, which are never reported read by me |
| `ChatApp.ReadByAllStable` | client/src/App.jsx:259 | a further read receipt never removes the marker from a message with duplicate-free readers |
| `ChatApp.RecipientChoices` | client/src/App.jsx:189-190 | the choices are exactly the listed users whose username differs from mine |
| `ChatApp.Join` | client/src/App.jsx:267 | joining no names gives the empty text; joining a single name gives that name |
| `ChatApp.JoinSnoc` | client/src/App.jsx:267 | joining one more name puts exactly one separator between the earlier text and the new name |
| `ChatApp.TypingLabelSnoc` | client/src/App.jsx:265-267 | with two or more typists the label is every name separated by ", ", followed by " are typing..." |
| `ChatApp.TypingLabel` | client/src/App.jsx:265-267 | no label when nobody types; "<name> is typing..." for exactly one typist; "... are typing..." for more |
| `ChatApp.AddRoom` | client/src/App.jsx:39-41 | the room is present afterwards; the old list is a prefix; at most one room is added, none if already there; duplicate-freedom is kept |
| `ChatApp.UnreadCount` | client/src/App.jsx:122-127 | the counter equals the number of effect runs since the last one that saw the window focused |
| `ChatApp.ChatView.constructor` | client/src/App.jsx:21-31 | initial state: room "General", rooms ["General"], no unread, focused |
| `ChatApp.ChatView.EditUsername` | client/src/App.jsx:145 | the username input takes the typed value |
| `ChatApp.ChatView.EditRoom` | client/src/App.jsx:163 | the room takes the typed or selected value |
| `ChatApp.ChatView.SelectRecipient` | client/src/App.jsx:185 | the recipient takes the selected value |
| `ChatApp.ChatView.EditDraft` | client/src/App.jsx:278-281 | the draft takes the value; typing iff it is non-empty |
| `ChatApp.ChatView.HandleJoinRoom` | client/src/App.jsx:34-43 | acts iff trimmed username and trimmed room are non-empty; then the username is set, `user_join` is emitted with the trimmed values, and the trimmed room is added if absent, keeping the rooms duplicate-free; the room field is left as typed |
| `ChatApp.ChatView.HandleJoinRoomTrimmed` | client/src/App.jsx:34-43 | corrected join: as above, and the room field becomes the joined (trimmed) room |
| `ChatApp.ChatView.HandleSendMessage` | client/src/App.jsx:46-54 | sends iff the trimmed draft is non-empty, sending the trimmed text to the current room, then `typing` false; clears the draft and the typing flag |
| `ChatApp.ChatView.HandleSendPrivateMessage` | client/src/App.jsx:57-65 | as above, but only with a recipient, and as a private message to it |
| `ChatApp.ChatView.SetWindowFocused` | client/src/App.jsx:112-113 | the focus flag takes the value the listeners report |
| `ChatApp.ChatView.OnMessagesChanged` | client/src/App.jsx:122-127 | unfocused adds one, focused resets to 0; the counter keeps equal to `UnreadCount` of the focus history |
| `RoomNameFinding.UntrimmedRoomIsolatesJoiner` | client/src/App.jsx:36-49 | with a room typed with surrounding white space, the joiner is not reached by its own room sends, and its joined room's messages are filtered out |
| `RoomNameFinding.TrailingSpaceExample` | client/src/App.jsx:36-49 | concrete case: "General " joins "General", the joiner misses sends to "General ", and a "General" message is hidden |
| `RoomNameFinding.AsWrittenJoinThenSend` | client/src/App.jsx:36-49 | against the server model: connect, join with the trimmed room, send to the untrimmed room; the sender is not among the recipients of its own message |
| `RoomNameFinding.CorrectedJoinThenSend` | client/src/App.jsx:36-41 | the same run sending to the trimmed room: the sender receives its own message |
| `RoomNameFinding.TrimmedRoomReachesJoiner` | client/src/App.jsx:36-41 | with the trimmed room committed, the joiner receives its room's emits and sees its room's messages |

## Left out

- Express and socket.io setup: CORS, the `/` route and `listen`. The rooms and the emit targets are modelled by the `rooms` map and the `Recipients` function.
- Client transport configuration and reconnection/backoff. Listener registration and cleanup. The hook's `disconnect`, which only calls the transport. The outbox records emits whether or not socket.io buffers them.
- Clocks: `Date.now()` and ISO timestamps are parameters.
- Untyped payloads: usernames, rooms and texts are strings. A `user_join` without a username or room, or a non-string value, is not modelled.
- The file picker and `handleSendFile` (FileReader, data URLs), audio playback, and the registration of the window focus listeners.
- The typing effect in `App` that re-emits `typing` when `isTyping` or `username` changes. It depends on React's effect scheduling.
- The `lastMessage` sound check, all JSX rendering, and `console.log`.
- `ChatApp.MarkReadRequests`: states only the per-message condition under which `markMessageRead` is requested, as a set of ids, not as emits in effect order. The code calls `useEffect` inside the `.map` over the displayed messages (client/src/App.jsx:200-206), so the number of hooks changes with the number of displayed messages; React rejects such a render as a breach of its rules of hooks, so as written the screen is expected to fail once the displayed list grows. React's hook bookkeeping is not modelled.
- Concurrency: each handler is one atomic step, as on the single event loop.
- Components the code does not have are not invented: a message store, history pagination and search, typing aggregation, reaction and read-receipt state, and acknowledgements. The server has no `typing` or `message_read` handler.
- `ChatApp.VisibleMessages`: states which messages are shown and, with `VisibleAppend`, where a new one goes; it does not state that the filter keeps the relative order of all earlier messages.
- `ChatServer.RoomList`: lists users in plain key insertion order; JavaScript's ordering of array-index keys (such as "42") ahead of the others is not modelled, as socket.io ids never take that form.
- `ChatApp.RecipientChoices`: states which users are offered, not their order.
- `ClientSocket.ApplyReadUpdate`: states the readers' membership and duplicate-freedom; the exact order of readers is stated by `AddReader`.

## Findings

| source | as written | input that shows it | evidently intended | confidence | as-written member | corrected member |
|---|---|---|---|---|---|---|
| client/src/App.jsx:36-49 | `handleJoinRoom` joins and lists `room.trim()` but keeps the untrimmed `room`. `handleSendMessage` sends to that untrimmed room, and the display filter compares `msg.room` with it. | room field `General ` (trailing space) with any non-blank username: the server registers the socket in `General`. Its own sends go to `General ` and never come back, and `General` messages are hidden. | the trimmed room becomes the current room | high; not executed | `ChatApp.ChatView.HandleJoinRoom` with `RoomNameFinding.TrailingSpaceExample` and `RoomNameFinding.AsWrittenJoinThenSend` | `ChatApp.ChatView.HandleJoinRoomTrimmed` with `RoomNameFinding.TrimmedRoomReachesJoiner` and `RoomNameFinding.CorrectedJoinThenSend` |
