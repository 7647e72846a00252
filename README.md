# NexMeet signalling server and meeting-page bookkeeping, in Dafny

NexMeet is a two-person video-meeting app. Its Node.js backend (`backend/server.js`) is
a socket.io signalling server. It keeps three in-memory `Map`s:

- email to socket id;
- socket id to email;
- socket id to room id.

The server admits at most `MAX_ROOM_SIZE` = 2 members per room. It relays WebRTC offers,
answers and ICE candidates between the two peers, and broadcasts chat messages,
raised hands and departures to the rest of the room. The React meeting page
(`frontend/vite-project/src/pages/Room.jsx`) shows the call duration as `MM:SS`. It counts
chat messages that arrive while the chat panel is closed and shows a badge for them. It
queues the emails of peers that turned up before the local camera stream was ready.

This project models both parts and proves what they promise.

- `wrappers.dfy`: `Option`.
- `ordered_map.dfy` (`OrderedMaps`): a JavaScript `Map` from strings to strings, as a
  sequence of entries in insertion order. `getRoomMembers` iterates the socket-to-room
  map, so its order matters. `Get`/`Put`/`Remove` model `get`/`set`/`delete`, with lemmas
  stating their effect.
- `js_strings.dfy` (`JsStrings`): the JavaScript semantics the code leans on. Covered
  are the truthiness of strings, `String.prototype.trim` with the ECMAScript
  white-space and line-terminator set, `Number.prototype.toString` for non-negative
  integers, and `padStart`.
- `signaling.dfy` (`Signaling`): the server's state as a value. It holds the three maps
  and, per connected socket, the socket.io transport rooms it is in. There is one
  function per handler, returning the next state and the list of emitted events with
  their targets.
- `invariants.dfy` (`Invariants`): the invariant every handler keeps, and what single
  handler runs guarantee. The invariant has these parts:
  - the two socket maps have the same keys;
  - every socket's email points back to it;
  - no room has more than two members as `getRoomMembers` counts them;
  - every socket with a room is connected and in that room's transport room.
- `delivery.dfy` (`Delivery`): who receives what the relays and broadcasts emit.
- `sessions.dfy` (`Sessions`): arbitrary sequences of inbound events, and what holds
  after all of them.
- `server.dfy` (`Server`): the server as a class whose fields are the three maps. Its
  handlers update the fields in place and are proved against the `Signaling` functions
  and the invariant. `RoomMembers` is the `getRoomMembers` loop.
- `room.dfy` (`Room`): the meeting-page helpers:
  - `formatDuration`, and a parser proving it invertible;
  - the badge label;
  - the unread counter, both as the React effects it is made of and as a class;
  - the pending-offer queue as a class.

Three behaviours of the server are modelled as written.

- **Empty emails are not counted.** `getRoomMembers` skips a socket whose email is the
  empty string, since such an email is falsy. The capacity check counts only members
  with a non-empty email, so a socket that joins with the empty email takes no place:
  three sockets can end up in one room (`Sessions.EmptyEmailOverfillsRoom`, listed
  under Findings). The client refuses an empty email
  (`frontend/vite-project/src/pages/Home.jsx:34`). Under that discipline, no room ever
  holds more than two sockets (`Sessions.RoomSizeBoundedWithEmails`).
- **Socket.io transport rooms are never left.** A socket evicted by a newer join under
  its email still receives its old room's broadcasts
  (`Delivery.EvictedSocketStillListens`).
- **A rejoin under a different email leaves the old email registered.** A socket that
  joins again under a different email keeps the earlier email pointing at it; only the
  email-to-socket direction dangles. The invariant states just the other direction:
  every socket's email points back to it.

## Model

| member | source | states |
|---|---|---|
| OrderedMaps.PutSpec | backend/server.js:64-66 | `Map.set` keeps keys unique, adds the key, stores the value under it, and leaves every other key's value as it was |
| OrderedMaps.RemoveSpec | backend/server.js:60-62 | `Map.delete` keeps keys unique, removes exactly that key, and leaves every other key's value and no new entry |
| JsStrings.TrimEmpty | backend/server.js:99 | `message.trim()` is empty exactly when the message consists only of JavaScript white space |
| JsStrings.NatToStringSpec | frontend/vite-project/src/pages/Room.jsx:195 | `toString` of a non-negative integer is all digits, has no leading zero, has one digit below 10 and two below 100, and reads back as the number |
| JsStrings.PadStartZeros | frontend/vite-project/src/pages/Room.jsx:195 | `padStart(width, "0")` keeps the digits and their value and reaches at least the width |
| Signaling.MembersOf | backend/server.js:38-47 | `getRoomMembers(roomId, ex)` returns exactly the sockets mapped to `roomId` that have a truthy email and are not `ex`, each with its email |
| Signaling.Emails | backend/server.js:69 | `.map(m => m.emailId)` keeps the length and takes each member's email in order |
| Signaling.OnJoinRoom | backend/server.js:53-74 | a full room (two counted members) gets only `room-full` to the requester and no state change. Otherwise three events go out in order: `all-users` to the joiner, `user-joined` to the room except the joiner, `joined-room` to the joiner. The email is then registered to the joiner, and the joiner joins the room's transport room |
| Signaling.OnDisconnect | backend/server.js:112-120 | the socket loses its email entry and its transport rooms; the email mapping is removed exactly when the socket had a truthy email (the room entry and the other sockets: `Invariants.DisconnectForgetsSocket`) |
| Invariants.MembersDistinct | backend/server.js:38-47 | no socket is listed twice by `getRoomMembers` |
| Invariants.MembersInOrder | backend/server.js:39 | `getRoomMembers` lists members in the iteration order of `socketToRoomMapping` |
| Invariants.EvictStaleSpec | backend/server.js:59-63 | eviction keeps the invariant, changes neither the email map nor transport rooms, adds no member to any room, and leaves no socket but the joiner with the email |
| Invariants.RegisterSpec | backend/server.js:64-67 | registering a connected joiner into a room below capacity, after eviction, keeps the invariant |
| Invariants.JoinRoomPreservesValid | backend/server.js:53-67 | `join-room` from a connected socket keeps the invariant, room capacity included |
| Invariants.JoinRoomRegisters | backend/server.js:59-66 | an accepted join maps the email to the joiner, the joiner to the email and the room, takes the stale socket of that email out of both socket maps, and leaves every other socket's email and room unchanged |
| Invariants.JoinRoomAllUsers | backend/server.js:69-70 | the `all-users` list is the emails of the room's other members; it names neither the joiner's socket nor its email and has at most one entry |
| Invariants.ConnectionPreservesValid | backend/server.js:50 | a new connection (a fresh socket id in its own transport room) keeps the invariant |
| Invariants.DisconnectPreservesValid | backend/server.js:112-117 | `disconnect` keeps the invariant |
| Invariants.DisconnectForgetsSocket | backend/server.js:115-116 | after `disconnect` the socket has no email and no room, no room lists it, and every other socket keeps its email and its room |
| Invariants.DisconnectNotifies | backend/server.js:118 | `user-disconnected` with the socket's email goes to the room except the socket exactly when the socket had a truthy room |
| Invariants.StaleDisconnectIsQuiet | backend/server.js:112-118 | a socket already evicted by a newer join disconnects without touching any map entry of the newer registration and without notifying anyone |
| Delivery.RelayDelivery | backend/server.js:76-93 | `call-user`, `call-accepted` and `ice-candidate` send nothing exactly when the email is unregistered. Otherwise each sends one event with the payload unchanged. Only `incoming-call` carries the sender's email. The event never reaches the sender, and it reaches the registered socket when that socket is connected |
| Delivery.BroadcastDelivery | backend/server.js:95-110 | `raise-hand` sends nothing exactly when the sender has no truthy room. `send-message` additionally sends nothing when the message is all white space. Otherwise the event reaches every other socket of the room and never the sender |
| Delivery.EvictedSocketStillListens | backend/server.js:59-67 | a socket evicted by a newer join under its email has no email or room left, yet still receives broadcasts to its old room |
| Sessions.DispatchPreservesValid | backend/server.js:50-120 | every handler, for any inbound event, keeps the invariant |
| Sessions.RunPreservesValid | backend/server.js:50-120 | the invariant holds after any sequence of inbound events |
| Sessions.CapacityAlwaysHolds | backend/server.js:36 | after any event sequence no room has more than `MAX_ROOM_SIZE` members as `getRoomMembers` counts them, every socket's email points back to it, and the two socket maps have the same keys |
| Sessions.OccupantsAreMembers | backend/server.js:41-43 | with no empty email registered, the sockets mapped to a room are at most `MAX_ROOM_SIZE` |
| Sessions.EmptyEmailOverfillsRoom | backend/server.js:41-43 | as written, three sockets connect, one joins room "r" with the empty email and two with non-empty emails, and all three are then mapped to "r" |
| Sessions.RoomSizeBoundedWithEmails | backend/server.js:54-67 | when every join carries a non-empty email, no room ever holds more than `MAX_ROOM_SIZE` sockets |
| Server.SignalingServer.constructor | backend/server.js:33-35 | the three maps start empty, with no connection, and the invariant holds |
| Server.SignalingServer.RoomMembers | backend/server.js:38-47 | the loop over `socketToRoomMapping` returns exactly `getRoomMembers`' result: the members of the room with a truthy email, other than the excluded socket, in iteration order |
| Server.SignalingServer.Connect | backend/server.js:50 | a new connection joins its own transport room; the invariant is kept |
| Server.SignalingServer.JoinRoom | backend/server.js:53-74 | the in-place updates and emitted events equal the `join-room` step; the invariant is kept |
| Server.SignalingServer.CallUser | backend/server.js:76-81 | the emitted events equal the `call-user` step; nothing changes |
| Server.SignalingServer.CallAccepted | backend/server.js:83-87 | the emitted events equal the `call-accepted` step |
| Server.SignalingServer.IceCandidate | backend/server.js:89-93 | the emitted events equal the `ice-candidate` step |
| Server.SignalingServer.SendMessage | backend/server.js:95-103 | the emitted events equal the `send-message` step |
| Server.SignalingServer.RaiseHand | backend/server.js:105-110 | the emitted events equal the `raise-hand` step |
| Server.SignalingServer.Disconnect | backend/server.js:112-120 | the in-place deletions and emitted events equal the `disconnect` step; the invariant is kept |
| Room.FormatDurationShape | frontend/vite-project/src/pages/Room.jsx:194-195 | the label is a minutes field worth `s div 60`, a colon, and exactly two digits worth `s mod 60` (below 60); below 6000 seconds it is five characters |
| Room.DurationRoundTrip | frontend/vite-project/src/pages/Room.jsx:194-195 | parsing `formatDuration(s)` back gives `s` |
| Room.FormatDurationInjective | frontend/vite-project/src/pages/Room.jsx:194-195 | different durations never get the same label |
| Room.BadgeLabelSpec | frontend/vite-project/src/pages/Room.jsx:878-888 | the badge shows exactly when the count is positive and the chat is closed. It reads "9+" exactly when the count exceeds nine; otherwise it is the count's single digit |
| Room.ReplayFromMount | frontend/vite-project/src/pages/Room.jsx:253-258 | as written, the counter equals the messages added since the chat was last open, plus one until the chat is first opened, and is 0 while the chat is open |
| Room.MountShowsPhantomUnread | frontend/vite-project/src/pages/Room.jsx:253-256 | on entering a room with no message at all, the badge reads "1" |
| Room.ReplayFromFresh | frontend/vite-project/src/pages/Room.jsx:253-258 | starting from zero, the counter is exactly the number of unseen messages, and the badge shows exactly when one exists |
| Room.UnreadCounter.constructor | frontend/vite-project/src/pages/Room.jsx:155 | initial state plus the mount run of both effects: count 1, chat closed |
| Room.UnreadCounter.OnMessageAdded | frontend/vite-project/src/pages/Room.jsx:253-256 | a new message adds one to the count while the chat is closed and nothing while it is open; the counter stays the replay of its events |
| Room.UnreadCounter.SetOpen | frontend/vite-project/src/pages/Room.jsx:258 | opening the chat resets the count to 0, closing keeps it; the counter stays the replay of its events |
| Room.ReadySplit | frontend/vite-project/src/pages/Room.jsx:361-372 | of the `all-users` emails, every one is either offered to or queued, exactly once |
| Room.ReadyUniform | frontend/vite-project/src/pages/Room.jsx:361-372 | with the stream ready throughout everyone is offered to and nobody queued, and without it everyone is queued in order |
| Room.PendingOffers.constructor | frontend/vite-project/src/pages/Room.jsx:168 | the queue starts empty |
| Room.PendingOffers.OnExistingUsers | frontend/vite-project/src/pages/Room.jsx:361-372 | the emails met without a stream are appended to the queue in order; the others are offered to in order |
| Room.PendingOffers.OnUserJoined | frontend/vite-project/src/pages/Room.jsx:374-384 | without a stream the newcomer is appended to the queue, with one it is offered to and the queue is unchanged |
| Room.PendingOffers.Flush | frontend/vite-project/src/pages/Room.jsx:226-227 | the flush hands out the whole queue and leaves it empty, so every queued email is flushed at most once |
| Room.PendingOffers.OnUserDisconnected | frontend/vite-project/src/pages/Room.jsx:399 | a remote disconnect empties the queue |

## Left out

- Express, CORS, the HTTP server, the health-check route and `server.listen`
  (`backend/server.js:1-30`, 123-124): framework plumbing with no state of the core.
- `console.log` calls: output only.
- The `time` of `receive-message` is `new Date().toLocaleTimeString()`. It depends on
  the clock and the locale, so it is a parameter of the `send-message` handler.
- socket.io itself is modelled only as far as the handlers depend on it. The model
  keeps the transport rooms of each socket and where an emit goes (`Target`,
  `Recipients`). It leaves out actual delivery, delivery order across connections,
  reconnection, and the socket ids socket.io generates. The model takes ids as
  non-empty strings and ignores a second connection under a live id.
- Handler payloads are strings. A missing field (`undefined`), a non-string value, or a
  `message` whose `trim` throws is not modelled. Nor is a `Map` key that is not a
  string.
- Events from a socket that is not connected are ignored by `Sessions.Dispatch`.
  `Server.SignalingServer.JoinRoom` requires the socket to be connected, because
  socket.io only runs the handlers of a live connection.
- Sessions.CapacityAlwaysHolds: the room bound is stated on the members
  `getRoomMembers` counts, not on all sockets mapped to the room. A socket registered
  under an empty email is not counted, so a client that sends empty emails can put more
  than two sockets into one room (`Sessions.EmptyEmailOverfillsRoom`). The bound on all
  mapped sockets is proved when every join carries a non-empty email
  (`Sessions.RoomSizeBoundedWithEmails`).
- `frontend/vite-project/src/pages/Room.jsx` beyond the four helpers: media capture,
  screen sharing, recording, offer and answer creation, notifications, `setTimeout`
  delays and rendering.
  - Whether the local stream exists is a parameter of the queue operations (`ready`).
  - The offers themselves are returned as the list of emails to offer to.
  - The `async` interleaving of a flush with a running `handleExistingUsers` loop is
    not modelled.
- Room.ReplayFromMount: one render per added message is assumed, so the
  `messages.length` effect runs once per message. React 18 batches state updates, so
  two messages received before one render make the effect run once and raise the
  count by one, not two.
- Room.ReplayFromFresh: the same one-render-per-message assumption. With batched
  renders the corrected counter counts renders that added messages, not messages.
- Room.FormatDuration takes a natural number. A negative `callDuration`, possible only
  if the clock goes backwards, is not modelled. JavaScript's `Math.floor(s / 60)` and
  `s % 60` agree with Dafny's `/` and `%` on non-negative numbers.
- Room.UnreadCounter: the render between a `chatOpen` change and its effect is not a
  state of the model. In that render the count can still be positive with the chat
  open, but the badge is hidden then.
- `frontend/vite-project/src/Providers/Peer.jsx`,
  `frontend/vite-project/src/components/EmotionDetector.jsx`,
  `frontend/vite-project/src/pages/ConnectingPage.jsx`,
  `frontend/vite-project/src/pages/LoadingPage.jsx`, `Home.jsx`, `App.jsx`, `main.jsx`
  and `Providers/Socket.jsx` are not part of this model. They hold browser APIs,
  animation, inference and form UI, not the core's state.

## Findings

| source | as written | input that shows it | evidently intended | confidence | as-written member | corrected member |
|---|---|---|---|---|---|---|
| frontend/vite-project/src/pages/Room.jsx:253-256 | the `messages.length` effect also runs on mount, while the chat is closed, and counts one unread message that does not exist | enter a room and neither send nor receive a message: the chat badge reads "1" until the chat is first opened | the counter starts at 0 and counts only messages added while the chat is closed | high, not executed | Room.ReplayFromMount | Room.ReplayFromFresh |
| backend/server.js:41-43 | `getRoomMembers` skips a socket whose email is empty, so the capacity check at lines 54-55 gives such a socket no place in the room | connect "a", "b", "c"; "a" joins "r" with email ""; "b" joins "r" with "b"; "c" joins "r" with "c": three sockets are mapped to "r" | no room holds more than `MAX_ROOM_SIZE` sockets | medium (the client refuses an empty email), not executed | Sessions.EmptyEmailOverfillsRoom | Sessions.RoomSizeBoundedWithEmails |
