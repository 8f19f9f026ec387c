# Room presence and connection bookkeeping of a video-call relay, in Dafny

The system relays presence and chat events for browser video-call rooms. The media itself flows
directly between browsers. This project models two parts of it and proves properties about them.

- **The signalling server's room handlers** (`server.js`). These are the `join-room` handler and
  the `disconnect` and `chat-message` handlers it registers on each connection.
  - On join, the server replies to the joiner with the other users of the room and the room's
    chat log.
  - It announces `user-connected` to the rest of the room, unless another connection of the room
    already carries the same participant identifier (a second tab, a reconnect).
  - On disconnect, it announces `user-disconnected` only if no remaining connection carries the
    identifier.
  - Chat messages go into a per-room log capped at 100 entries and are relayed to the rest of the
    room.
- **The browser client's connection bookkeeping** (`public/script.js`).
  - State: the `participants` set with its list and count, the `peers` table of outbound calls,
    the `userVideos` table, the `pendingUsers` queue, and `myStream`.
  - The `getUserId` cookie lookup.

Both programs update their state in place, so each is modelled twice:

- a pure specification: datatypes and transition functions with lemmas
  (`presence.dfy`, `client_state.dfy`; `cookie.dfy` is pure to begin with);
- an imperative model: a class whose fields are the program's variables and whose methods run the
  handlers' loops (`server.dfy`, `client.dfy`). Each method is proved to leave the state its
  specification function computes. Every method except one also keeps the class invariant.
  The exception is `Client.ConnectionManager.UpdateParticipantCount`, which runs in the middle of
  an update while the count is stale; it is proved only to match its function.

Module layout:

- `Protocol` (`protocol.dfy`): identifiers, the wire events, and `Without`, which filters a
  sequence.
- `Presence` (`presence.dfy`): the server's state as a `Directory`:
  - the transport's rooms (connection ids in join order);
  - the joined sockets, with the `userId`, `userName` and `roomId` stored on them;
  - `roomChats`;
  - the outbox of emitted events;
  - the transitions `Join`, `Disconnect` and `Post`;
  - the invariants `Valid` and `Balanced`, and runs of operations.
- `Server` (`server.dfy`): the class `SignalingServer` and the two room scans as loops.
- `Cookie` (`cookie.dfy`): the `userId=([^;]+)` lookup and `getUserId`.
- `ClientState` (`client_state.dfy`): the page's state as a `Page`, one function per handler,
  their properties, and runs of inputs.
- `Client` (`client.dfy`): the class `ConnectionManager`.

The central server property is `Presence.PresenceCount`. Take any run of joins, disconnects and
chat posts from an empty server, any room, and any non-empty identifier. Then `user-connected`
broadcasts minus `user-disconnected` broadcasts is 0 or 1. It is 1 exactly when a live connection
of that room carries the identifier. Every prefix of a run is a run (`Presence.PrefixAdmissible`),
so this holds after every handler call (`Presence.PresenceCountAtEveryStep`). That the individual
broadcasts for an identifier alternate one by one would also need "a handler call sends at most
one presence broadcast", which is not stated as a lemma.

The central client property is `ClientState.PageConsistency`. After any sequence of inputs:

- the displayed count is the number of participants;
- the list shows each participant exactly once;
- no identifier has two open outbound calls.

### Behaviour the code does not have

Some guarantees one might expect of such a system are absent from the code, and the model
follows the code:

- The `room-users` list is not deduplicated. Two connections carrying one identifier give two
  entries (`Presence.UserListLength`, `Presence.TwoTabsListedTwice`).
- `connectToNewUser` skips an identifier that already has a `peers` entry. It does not tear a
  stale call down and place a new one.
- `pendingUsers` is never cleared. It is processed once, when the stream becomes ready.
- The inbound-call handler does not consult `peers`. It exists only once the stream is ready.
- A call's `close` callback deletes the `userVideos` entry of its identifier whatever call
  installed it. A stray callback from an earlier call is acted on, not ignored
  (`ClientState.CallClosed`).
- The server's disconnect scan does not skip sockets whose `userId` is empty, but its join scan
  does. The presence balance is therefore stated for non-empty identifiers only.

## Model

| member | source | states |
|---|---|---|
| Presence.DisplayName | server.js:32 | the stored name is the supplied name when it is non-empty, else the first (up to) 8 characters of the identifier |
| Presence.Members | server.js:36-40 | `rooms.get(roomId)` with the `if (room)` guard: a room the transport does not know has no connections; specified by `Presence.JoinReplies` and `Presence.DisconnectReplies` |
| Presence.History | server.js:61 | `roomChats.get(roomId)`, or the empty log for a room nobody posted in; specified by `Presence.JoinReplies` (the joiner's `chat-history` reply) and `Presence.PostRelays` |
| Presence.UserList | server.js:36-55 | the join scan's `users` array; specified by `Presence.UserListSingle`, `Presence.UserListAppend`, `Presence.UserListMembers` and `Presence.UserListLength` |
| Presence.IsDuplicate | server.js:38-54 | the join scan's `isDuplicate` flag; specified by `Presence.DuplicateIsCarries` and `Presence.NoDuplicateOfEmpty` |
| Presence.Carries | server.js:71-80 | the disconnect scan's `hasOtherConnection` flag; specified by `Presence.CarriesMembers` and `Presence.CarriesWithout` |
| Presence.UserListSingle | server.js:41-48 | scanning one connection lists its `{id, name}` if it is another connection with a non-empty identifier, and nothing otherwise |
| Presence.UserListAppend | server.js:41-54 | the scan follows the room's order: scanning `a + b` gives `a`'s entries followed by `b`'s. With `UserListSingle` this fixes the list as one entry per listed connection, in join order |
| Presence.UserListMembers | server.js:40-55 | an entry is in the `room-users` list iff some connection of the room other than the joiner, with a non-empty identifier, has that identifier and name |
| Presence.UserListLength | server.js:41-48 | the list has exactly one entry per such connection, so it is not deduplicated |
| Presence.TwoTabsListedTwice | server.js:41-48 | two connections of one participant appear twice in the list |
| Presence.CarriesMembers | server.js:73-80 | the disconnect scan's flag is set iff some remaining socket carries the identifier |
| Presence.DuplicateIsCarries | server.js:41-52 | for a non-empty identifier, the join scan's `isDuplicate` flag is "some other connection of the room carries it" |
| Presence.NoDuplicateOfEmpty | server.js:44 | the join scan never flags a duplicate of an empty identifier |
| Presence.CarriesWithout | server.js:71-80 | removing a connection that carries a different identifier does not change whether an identifier is carried |
| Presence.Latest | server.js:8-10 | the latest `MAX_MESSAGES` entries of a log: at most 100, all of a short log, the suffix of a long one |
| Presence.Pushed | server.js:96-105 | push then shift: on a log within the cap it is the latest 100 of the log plus the message, and the message is last |
| Presence.PushedAllLatest | server.js:96-105 | posting any sequence of messages to a log within the cap leaves the latest 100 of everything posted, oldest first (bounded FIFO) |
| Presence.JoinReplies | server.js:29-67 | the joiner joins the room and its socket stores the identifier, display name and room. The joiner gets the list of the connections already there (never itself) and the room's log, empty if nobody posted. The others get `user-connected` exactly when none of them carried the identifier, or the identifier is empty. Nothing else is emitted, and every other room is unchanged |
| Presence.DisconnectReplies | server.js:69-85 | no effect for a connection that never joined. Otherwise the connection leaves its room and the socket table, and the rest of the room gets `user-disconnected` exactly when no remaining connection carries the identifier. Every other room is unchanged |
| Presence.PostRelays | server.js:87-108 | the message carries the sender's identifier and stored name. The room's log ends with it and drops its oldest entry only when it already held 100. The message goes to every connection of the room except the sender, and no other log changes |
| Presence.Join | server.js:29-67 | the `join-room` handler; specified by `Presence.JoinReplies` and the `Join` lemmas below |
| Presence.Disconnect | server.js:69-85 | the `disconnect` handler after the transport's removal; specified by `Presence.DisconnectReplies` and `Presence.DisconnectKeepsBalanced` |
| Presence.DisconnectOtherRooms | server.js:69-85 | a disconnect leaves every room other than the leaver's as it was |
| Presence.Post | server.js:87-108 | the `chat-message` handler; specified by `Presence.PostRelays` and `Presence.PostKeepsInvariants` |
| Presence.JoinKeepsValid | server.js:29-33 | a join keeps rooms and sockets consistent and the logs within the cap |
| Presence.JoinNet | server.js:64-67 | a join adds one to the announce count of exactly the joiner's identifier in its room, and only when the scan found no duplicate |
| Presence.JoinCarriesAt | server.js:30-33 | after a join, an identifier is carried in a room iff it was before or it is the joiner's in the joiner's room |
| Presence.JoinBalancedAt | server.js:36-67 | a join keeps the announce count of one identifier in one room in step with its live connections |
| Presence.JoinKeepsBalanced | server.js:36-67 | a join keeps every non-empty identifier's announce count equal to "a live connection of the room carries it" |
| Presence.DisconnectKeepsValid | server.js:69-85 | a disconnect keeps rooms and sockets consistent |
| Presence.DisconnectKeepsBalanced | server.js:69-85 | a disconnect keeps every non-empty identifier's announce count equal to "a live connection of the room carries it" |
| Presence.PostKeepsInvariants | server.js:87-108 | a chat post keeps the state consistent, every log within 100, and the announce counts unchanged |
| Presence.RunKeepsInvariants | server.js:28-110 | every admissible run of handler calls keeps both invariants |
| Presence.PresenceCount | server.js:64-67 | from an empty server, for every room and non-empty identifier: the announce count is 0 or 1, it is 1 iff a live connection carries the identifier, and every log holds at most 100 messages |
| Presence.PrefixAdmissible | server.js:28-110 | the first `n` handler calls of an admissible run are an admissible run |
| Presence.PresenceCountAtEveryStep | server.js:64-85 | after every handler call of a run from an empty server, the announce count of every room and non-empty identifier is 0 or 1, and 1 iff a live connection carries the identifier |
| Server.ScanRoom | server.js:36-55 | the join loop builds exactly the `room-users` list and the `isDuplicate` flag |
| Server.HasOtherConnection | server.js:71-80 | the disconnect loop's flag is set exactly when a socket of what is left of the room carries the identifier |
| Server.SignalingServer.constructor | server.js:9 | the server starts with no rooms, sockets, logs or emitted events, and consistent |
| Server.SignalingServer.JoinRoom | server.js:29-67 | the handler leaves exactly the state `Presence.Join` describes and keeps the invariants |
| Server.SignalingServer.Disconnect | server.js:69-85 | the transport's removal followed by the handler leaves exactly the state `Presence.Disconnect` describes and keeps the invariants |
| Server.SignalingServer.ChatMessageReceived | server.js:87-108 | the handler's push and shift leave exactly the state `Presence.Post` describes and keep the invariants |
| Cookie.RunFrom | public/script.js:10 | the capture group's text from a position: no `;`, a slice of the cookie, ending at the next `;` or the end |
| Cookie.FirstMatch | public/script.js:10 | the leftmost position where `userId=` is followed by a character other than `;`, or none |
| Cookie.StoredUserId | public/script.js:10-11 | none iff the pattern matches nowhere; otherwise the non-empty `;`-free text after the leftmost match, up to the next `;` or the end |
| Cookie.NewCookie | public/script.js:15 | the cookie string written for a fresh identifier; specified by `Cookie.GetUserId`, `Cookie.ReadBack` and `Cookie.RecordedIdentifierPersists` |
| Cookie.GetUserId | public/script.js:9-17 | exactly `StoredUserId`'s capture if the pattern matches, writing nothing; otherwise the fresh identifier, and the cookie `userId=<id>; path=/; max-age=86400` is written |
| Cookie.RunFromUnique | public/script.js:10 | the capture is determined: any `;`-free run that ends at a `;` or the end is what the capture takes |
| Cookie.ReadBack | public/script.js:10-15 | a cookie that starts with `userId=v`, followed by nothing or by `;`, yields `v` |
| Cookie.RecordedIdentifierPersists | public/script.js:9-17 | a page that reads the cookie while it is still set, such as a second tab, sees the pair `userId=<id>` and gets the identifier the first page recorded, writing nothing |
| Cookie.ClearedCookieDrawsFresh | public/script.js:9-17 | after `beforeunload` has cleared the cookie (no pair, or an empty value), the next load draws and records a fresh identifier, so a reload does not keep the old one |
| Cookie.UnanchoredMatch | public/script.js:10 | the match is not anchored: `myuserId=7` yields `7` |
| ClientState.StartValid | public/script.js:28-34 | the initial page is consistent |
| ClientState.UpdateParticipantCount | public/script.js:131-133 | `updateParticipantCount`; specified by `Client.ConnectionManager.UpdateParticipantCount` and the count clause of `ClientState.AddParticipantSpec` |
| ClientState.RoomUser | public/script.js:79-87 | one round of the `room-users` loop; specified by `Client.ConnectionManager.RoomUser` and, over the whole loop, `ClientState.RoomUsersSpec` |
| ClientState.HangUp | public/script.js:92-95 | closing and deleting the `peers` entry; specified by `ClientState.HangUpValid` and `ClientState.UserDisconnectedSpec` |
| ClientState.FirstNewMembers | public/script.js:63-66 | the identifiers first seen in a queue are exactly those of the queue outside the known set, each once |
| ClientState.AddParticipant | public/script.js:110-120 | `addParticipant`; specified by `ClientState.AddParticipantSpec` and `ClientState.AddParticipantIdempotent` |
| ClientState.RemoveParticipant | public/script.js:122-129 | `removeParticipant`; specified by `ClientState.RemoveParticipantSpec` |
| ClientState.ConnectToNewUser | public/script.js:135-155 | `connectToNewUser`; specified by `ClientState.ConnectToNewUserSpec` |
| ClientState.RemoveVideo | public/script.js:165-171 | `removeVideo`; specified by `Client.ConnectionManager.RemoveVideo` and `ClientState.UserDisconnectedSpec` |
| ClientState.UserConnected | public/script.js:69-76 | the `user-connected` handler; specified by `ClientState.UserConnectedSpec` |
| ClientState.RoomUsers | public/script.js:78-89 | the `room-users` handler; specified by `ClientState.RoomUsersSpec`, `ClientState.RoomUsersWithStream` and `ClientState.RoomUsersWithoutStream` |
| ClientState.Drain | public/script.js:62-66 | the stream-ready loop over a queue; specified by `ClientState.DrainSpec` |
| ClientState.StreamReady | public/script.js:39-67 | the stream-ready continuation; specified by `ClientState.StreamReadySpec` |
| ClientState.UserDisconnected | public/script.js:91-98 | the `user-disconnected` handler; specified by `ClientState.UserDisconnectedSpec` |
| ClientState.IncomingCall | public/script.js:43-47 | the inbound-call handler; specified by `ClientState.IncomingCallSpec` |
| ClientState.CallStream | public/script.js:48-52 | a call's `stream` callback; specified by `Client.ConnectionManager.OnCallStream` and `ClientState.StepKeepsValid` |
| ClientState.CallClosed | public/script.js:53-56 | a call's `close` callback; specified by `Client.ConnectionManager.OnCallClosed` and `ClientState.StepKeepsValid` |
| ClientState.PeerOpen | public/script.js:100-103 | the peer's `open` event; specified by `Client.ConnectionManager.OnPeerOpen` and `ClientState.StepKeepsValid` |
| ClientState.ChatMessageReceived | public/script.js:184-188 | the `chat-message` handler; specified by `Client.ConnectionManager.OnChatMessage` and `ClientState.StepKeepsValid` |
| ClientState.ChatHistoryReceived | public/script.js:190-197 | the `chat-history` handler; specified by `ClientState.ChatHistorySpec` |
| ClientState.AddParticipantSpec | public/script.js:110-120 | add puts the identifier in the set. It appends a list item only if the identifier was new. The count equals the set's size, nothing else changes, and the page stays consistent |
| ClientState.AddParticipantIdempotent | public/script.js:110-112 | a second add of the same identifier changes nothing |
| ClientState.RemoveParticipantSpec | public/script.js:122-129 | remove takes the identifier out of the set and the list and is a no-op when it is absent. The count equals the set's size and nothing else changes |
| ClientState.ConnectToNewUserSpec | public/script.js:135-155 | a call is placed and recorded only for an identifier without a `peers` entry. Afterwards the entry exists, so further calls are no-ops, and nothing else changes |
| ClientState.UserConnectedSpec | public/script.js:69-76 | without the stream, only the queue grows: no call, no participant. With the stream, the identifier is called (unless it has a `peers` entry) and then added |
| ClientState.DrainValid | public/script.js:62-66 | the stream-ready loop keeps the page consistent |
| ClientState.DrainFrame | public/script.js:62-66 | the stream-ready loop changes only participants, list, count and calls |
| ClientState.DrainParticipants | public/script.js:62-66 | every queued identifier is added. List items are appended in arrival order exactly for the queued identifiers not yet present |
| ClientState.DrainPeers | public/script.js:62-66 | every queued identifier gets a `peers` entry and existing entries are kept |
| ClientState.DrainPlaced | public/script.js:62-66 | calls go, in arrival order, exactly to the queued identifiers without a `peers` entry, one each |
| ClientState.DrainSpec | public/script.js:62-66 | all of the above for the stream-ready loop over any queue |
| ClientState.StreamReadySpec | public/script.js:39-67 | when the stream is ready it is stored and every queued identifier is processed in arrival order. The queue itself is kept, never cleared |
| ClientState.RoomUsersWithStream | public/script.js:78-89 | with the stream, `room-users` treats every identifier other than the page's own exactly as the stream-ready loop treats a queued one |
| ClientState.RoomUsersQueue | public/script.js:78-89 | without the stream, `room-users` queues every other identifier in order and changes only participants, list, count and queue |
| ClientState.RoomUsersValid | public/script.js:78-89 | without the stream, `room-users` keeps the page consistent |
| ClientState.RoomUsersListed | public/script.js:78-89 | without the stream, every other identifier is added at once, with list items for the new ones in arrival order |
| ClientState.RoomUsersWithoutStream | public/script.js:78-89 | without the stream: all of the above, and no call is placed |
| ClientState.RoomUsersSpec | public/script.js:78-89 | the page's own identifier is skipped and every other one added. With the stream each one gets a `peers` entry; without it they are queued and no call is placed |
| ClientState.HangUpValid | public/script.js:92-95 | closing and deleting the peer entry keeps the page consistent |
| ClientState.UserDisconnectedSpec | public/script.js:91-98 | the call is closed and its entry deleted if present; the identifier leaves participants and videos. No other identifier's entries change, and for an identifier the page does not know nothing changes |
| ClientState.IncomingCallSpec | public/script.js:43-47 | an inbound call is answered only once the stream is ready and never touches `peers` |
| ClientState.ChatHistorySpec | public/script.js:190-197 | the pane is replaced by one line per message, in order, marked as the page's own exactly when the sender is the page's identifier |
| ClientState.StepKeepsValid | public/script.js:39-103 | every handler keeps the page consistent |
| ClientState.RunKeepsValid | public/script.js:39-103 | every run of inputs keeps the page consistent |
| ClientState.PageConsistency | public/script.js:28-34 | after any inputs: the count is the number of participants, the list shows each once, and no identifier has two open outbound calls |
| Client.ConnectionManager.constructor | public/script.js:28-34 | the page's state starts empty, with no stream |
| Client.ConnectionManager.UpdateParticipantCount | public/script.js:131-133 | the count becomes the set's size |
| Client.ConnectionManager.AddParticipant | public/script.js:110-120 | in-place update equal to `ClientState.AddParticipant` |
| Client.ConnectionManager.RemoveParticipant | public/script.js:122-129 | in-place update equal to `ClientState.RemoveParticipant` |
| Client.ConnectionManager.ConnectToNewUser | public/script.js:135-155 | in-place update equal to `ClientState.ConnectToNewUser` |
| Client.ConnectionManager.RemoveVideo | public/script.js:165-171 | the video entry is deleted only if present |
| Client.ConnectionManager.OnUserConnected | public/script.js:69-76 | in-place update equal to `ClientState.UserConnected` |
| Client.ConnectionManager.RoomUser | public/script.js:79-87 | one round of the `room-users` loop |
| Client.ConnectionManager.OnRoomUsers | public/script.js:78-89 | the loop leaves exactly `ClientState.RoomUsers` of the state before |
| Client.ConnectionManager.OnStreamReady | public/script.js:39-67 | the stream is stored, then the loop over the queue leaves exactly `ClientState.StreamReady` |
| Client.ConnectionManager.OnUserDisconnected | public/script.js:91-98 | in-place update equal to `ClientState.UserDisconnected` |
| Client.ConnectionManager.OnIncomingCall | public/script.js:43-47 | the call is answered only once the stream is ready |
| Client.ConnectionManager.OnCallStream | public/script.js:48-52 | the video of the call's identifier is recorded |
| Client.ConnectionManager.OnCallClosed | public/script.js:53-56 | the video entry of the call's identifier is deleted |
| Client.ConnectionManager.OnPeerOpen | public/script.js:100-103 | the page adds its own identifier |
| Client.ConnectionManager.OnChatMessage | public/script.js:184-188 | one line is appended, marked as the page's own iff the sender is the page's identifier |
| Client.ConnectionManager.OnChatHistory | public/script.js:190-197 | the pane is cleared and the loop leaves exactly `ClientState.ChatHistoryReceived` |

## Left out

- Express routing, view rendering, configuration, static files and `server.listen` (server.js:1-26, 112-115): HTTP glue.
- The socket.io transport itself. Rooms and sockets are maps that the model updates as the adapter does: a socket joins its room on `join-room`, and on disconnect it leaves its room and the socket table before the handler runs. A room left empty is deleted. Emitting is modelled by appending to an outbox. Delivery is not modelled.
- A second `join-room` on the same connection, which would register its handlers twice. `JoinRoom` and `Presence.Join` require a connection that has not joined, and runs admit only such joins.
- A missing `userName` and a missing `userId` are modelled as the empty string. Without a name, the stored name is `userId.substring(0, 8)`. The shipped client sends only its peer id, so for it this branch always runs and does not throw. A missing `userId` (not a string) would make that `substring` throw at server.js:32. The throw would skip the `room-users`, `chat-history` and `user-connected` emits and the registration of the `disconnect` and `chat-message` handlers. The model instead stores an empty name, sends all three, and later sends `user-disconnected` with the empty identifier.
- `new Date().toISOString()` (server.js:92) and `crypto.randomUUID()` (public/script.js:13): the clock and the random source. They are parameters (`timestamp`, `freshId`).
- PeerJS and `getUserMedia`:
  - calls, streams and video elements are opaque tokens;
  - `placed`, `closed` and `answered` record what was handed to `myPeer.call`, `close()` and `answer`;
  - the stream-ready event is one transition, which occurs at most once;
  - error callbacks only log and are not modelled;
  - the `close` callback fired by closing a call is a separate input (`OnCallClosed`), not triggered automatically.
- The `join-room` emit on the peer's `open` event (public/script.js:101). The client model has no outbox; the server side models the join.
- DOM work: `addVideoStream`, `addChatMessage` and `escapeHtml`, the text of a participant's list item, and the sender labels of chat lines. A chat line keeps the full sender identifier. For an identifier that is a string, the list item's text (public/script.js:116) has no effect on the state; what it does on the server's real `room-users` payload is described in the wire-format line below.
- The chat form submit handler (public/script.js:174-182), including its echo of the user's own message: form glue.
- The browser's cookie store: expiry, paths, and the deletion that the `beforeunload` handler (public/script.js:106-108) asks for. The model takes the cookie string the page reads; `Cookie.ClearedCookieDrawsFresh` covers what a load sees once the handler has run.
- The wire-format mismatch between the two programs. The server sends `room-users` as `{id, name}` objects (server.js:45-48, 58), but the client handler is written for identifiers. On a non-empty list of objects:
  - the test against `myPeer.id` (public/script.js:80) is always true;
  - `addParticipant` adds the object to `participants` (public/script.js:112);
  - `userId.substring` (public/script.js:116) then throws, because an object has no `substring`;
  - so no list item is appended and the count is not updated (public/script.js:118-119);
  - nothing is called or queued (public/script.js:82-86), and `forEach` stops at the first element.

  After one such `room-users` the set holds one element more than the list and the count. The client model takes a sequence of identifiers, as the handler's code reads it, and does not model the throw. The server also sends a name with `user-connected` that the client ignores.
- ClientState.PageConsistency: is stated for `room-users` payloads of identifiers only. On the server's real payload of objects, the count and the list fall one behind the set, as the previous line describes.
- ClientState.RoomUsersSpec: is stated for payloads of identifiers only; on the server's objects the handler stops, with the first object added to the set, at the throw described above.
- The participant count's initial text comes from the page template. The model starts the count at 0 with no participants.
- ClientState.ConnectToNewUser: treats `peers` as a map, so an identifier has an entry only once a call was placed for it. In the source `peers` is a plain object (public/script.js:28), and `peers[userId]` (public/script.js:136) is also truthy for names inherited from `Object.prototype`, such as `toString`, `constructor` or `valueOf`. For such an identifier the source returns without calling, while the model places a call. The model takes identifiers not to be such names; a UUID never is.
- ClientState.HangUp: for an identifier naming an `Object.prototype` member, `peers[userId]` (public/script.js:92) is truthy and `peers[userId].close()` (public/script.js:93) throws. The rest of the `user-disconnected` handler, `removeParticipant` and `removeVideo`, then never runs. The model treats the name as absent, and `ClientState.UserDisconnected` removes the participant and the video. Identifiers are taken not to be such names.
- ClientState.RemoveVideo: `userVideos` is a plain object too (public/script.js:30). For an inherited name without a video, `userVideos[userId]` (public/script.js:167) is truthy and `video.remove()` (public/script.js:168) throws. The model treats the name as absent and changes nothing. Identifiers are taken not to be such names.
- Presence.DisplayName: counts characters as Unicode scalar values, but `userId.substring(0, 8)` (server.js:32) counts UTF-16 code units. For an identifier of characters outside the Basic Multilingual Plane, such as five copies of `𝒜`, the source keeps four characters and the model five. A UUID is ASCII, so the two agree on the identifiers the client generates.
- Presence.PresenceCount: is stated for non-empty identifiers only. The join scan skips sockets with an empty `userId` but the disconnect scan does not, so for the empty identifier the counts do not balance.
