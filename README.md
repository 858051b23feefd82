# GeoGlitch presence relay, modelled in Dafny

GeoGlitch shows the participants of a session on a shared map. Each browser
opens a WebSocket to the server, asks to register under a nickname, and then
sends its position. The server keeps a registry of participants and
broadcasts the participant list after every change. Those steps differ by
generation:

- The first-generation server registers a participant under the id the
  client sends. On a position update it stores the position and broadcasts
  the list only; it relays no `positionUpdate` message. It removes the
  participant of a closed connection.
- The current server also relays every position update and probes each
  connection with ping/pong. As written, though, its registration call
  passes its arguments shifted. Only the first participant is ever stored,
  under its connection, and every later registration throws. That entry
  holds no connection in its `ws` field, so no participant is removed when
  a connection closes. Its user list also carries no ids. Both defects are
  covered under "## Findings", beside the forms the code evidently intends.

This project models the server of both generations of the repository and
the browser's signalling client:

- `Values`: the JavaScript values the code handles (`undefined`, `null`,
  booleans, numbers, strings, arrays, objects, and socket objects as
  abstract connection ids). It also holds truthiness, property reads that
  throw on `null`/`undefined`, and the completion of a call that may throw.
- `UserTable`: the `users` Map shared by both services. It keeps the
  insertion order that `for … of` and `entries()` iterate in.
- `UserRegistry`: the current `UserService`. It is a class over the Map and
  the `nicknames` Set, with its invariant (every stored nickname is
  reserved, no two stored users share one) and the singleton guard.
- `LegacyRegistry`: the first-generation `UserService`. It overwrites on
  re-add, has no nickname set, and its summaries carry the stored `ws`.
- `Sockets`: the WebSocket server the controllers use. It holds the client
  set, each connection's ready state, and each connection's outbox of sent
  messages and pings. A broadcast reaches exactly the OPEN clients.
- `Protocol`: the four message shapes exchanged by client and server.
- `Relay`: the current `WebsocketController`. It covers dispatch on a
  parsed frame, registration, position relay, disconnect, the user-list
  broadcast, and the per-connection liveness machine driven by explicit
  tick, pong and close events. The registration call and the user list are
  modelled as the code writes them. Their evidently intended forms sit
  beside them (see Findings).
- `LegacyRelay`: the first-generation `WebsocketController`. Registration
  uses the id the client sends, and each change is followed by one
  user-list broadcast.
- `SignalClient`: the browser's `WebsocketClient`. It covers the id set by
  `registered`, the self-filter on relayed positions, marker updates for
  positioned users, and sends guarded by the OPEN state.
- `EndToEnd`: what the client makes of the current server's replies, both
  as written and as intended.

Each handler runs to completion on Node's single event loop, so each event
is one atomic method call.

## Model

| member | source | states |
|---|---|---|
| `Values.Prop` | src/server/controllers/websocket.controller.js:95 | Reading a property of `null` or `undefined` throws a TypeError; on any other value it yields the own property, or `undefined` when there is none. |
| `UserTable.Put` | src/server/services/user.service.js:24-30 | `users.set(k, u)`: the key then maps to `u`, every other entry is unchanged, a new key goes last in iteration order and an existing key keeps its place. The Map stays well formed. |
| `UserTable.WithPosition` | src/server/services/user.service.js:44-50 | For a present key only that record's position changes; for an absent key the Map is unchanged. The keys and the order are kept. |
| `UserTable.Delete` | src/services/user.service.js:24-26 | `users.delete(k)` removes exactly that key and its place in the order, and leaves every other record unchanged. Deleting an absent key changes nothing. |
| `UserTable.Erase` | src/server/services/user.service.js:56 | The iteration order after `users.delete(k)` holds exactly the other keys, each still once, and is no longer than before. Erasing a key that is not there leaves the order as it was. |
| `UserTable.EraseKeepsOrder` | src/server/services/user.service.js:56 | The iteration order after `users.delete(k)` of a present key is the old order with `k` cut out at its index: the keys before and after it keep their relative order. |
| `UserTable.DeleteKeepsOrder` | src/services/user.service.js:25 | Deleting a present key leaves the other keys in their relative insertion order, which is the order getActiveUsers lists them in and findUserIdByWs searches them in. |
| `UserTable.MapEntries` | src/server/services/user.service.js:36 | `Array.from(entries()).map(f)` has one element per entry, and the i-th element is `f` applied to the i-th key in iteration order and its record. |
| `UserTable.FirstWithWs` | src/server/controllers/websocket.controller.js:76-79 | The index of the first entry in iteration order whose `ws` is the connection is found. No earlier entry holds the connection, and the index is past the end when none does. |
| `UserTable.NoHandleNotFound` | src/server/controllers/websocket.controller.js:75-82 | When no record stores a connection, looking up any connection returns null. |
| `UserTable.UserIdByWs` | src/server/controllers/websocket.controller.js:75-82 | A non-null result of findUserIdByWs is a stored key whose record holds the connection. When no key in iteration order holds it, the result is null. |
| `UserRegistry.Added` | src/server/services/user.service.js:19-33 | addUser throws "Nickname already taken" exactly when the nickname is reserved. Otherwise it stores `{ws, nickname, position: null, connected: true}` under the id, leaves every other entry alone and reserves the nickname. It keeps the registry consistent, and keeps the reserved set exact when the id is fresh. |
| `UserRegistry.Repositioned` | src/server/services/user.service.js:44-50 | updatePosition of an unknown id changes nothing. For a known id only that entry's position changes; keys, order and nicknames are kept, and both invariants are preserved. |
| `UserRegistry.Removed` | src/server/services/user.service.js:52-58 | removeUser deletes the entry and frees its nickname; for an absent id it changes nothing. Both invariants are preserved. |
| `UserRegistry.RemoveIsIdempotent` | src/server/services/user.service.js:52-58 | Removing the same id twice is the same as removing it once. |
| `UserRegistry.ReRegisterAfterRemove` | src/server/services/user.service.js:55 | Removing a participant frees its nickname, so addUser with that nickname then succeeds under any id. |
| `UserRegistry.SnapshotSize` | src/server/services/user.service.js:19-58 | Adding a fresh id grows getActiveUsers by one, and removing a stored id shrinks it by one. |
| `UserRegistry.ActiveUsers` | src/server/services/user.service.js:35-42 | getActiveUsers has one summary per entry, in the Map's order. The summary has exactly the fields id, nickname, position and connected (no `ws`), taken from that entry, and no id appears twice. |
| `UserRegistry.EveryoneSummarized` | src/server/services/user.service.js:35-42 | Every stored user has a summary carrying its id. |
| `UserRegistry.UserService.constructor` | src/server/services/user.service.js:8-9 | A new service holds an empty Map and an empty nickname Set. |
| `UserRegistry.UserService.AddUser` | src/server/services/user.service.js:19-33 | The in-place addUser reaches the state `Added` describes, or leaves the state unchanged and throws. It keeps the consistency invariant. |
| `UserRegistry.UserService.UpdatePosition` | src/server/services/user.service.js:44-50 | The in-place updatePosition reaches the state `Repositioned` describes and keeps the invariant. |
| `UserRegistry.UserService.RemoveUser` | src/server/services/user.service.js:52-58 | The in-place removeUser reaches the state `Removed` describes and keeps the invariant. |
| `UserRegistry.UserService.ValidatePosition` | src/server/services/user.service.js:60-63 | validatePosition holds iff -90 ≤ lat ≤ 90 and -180 ≤ lng ≤ 180. It reads no state. |
| `UserRegistry.UserServiceClass.constructor` | src/server/services/user.service.js:2 | The class starts with no instance. |
| `UserRegistry.UserServiceClass.New` | src/server/services/user.service.js:4-11 | Direct construction throws "Utilisez UserService.getInstance()" once an instance exists. Otherwise it yields a fresh empty, valid service that becomes the instance. |
| `UserRegistry.UserServiceClass.GetInstance` | src/server/services/user.service.js:13-17 | The first call creates the instance; every later call returns the same instance. |
| `LegacyRegistry.ActiveUsers` | src/services/user.service.js:28-33 | getActiveUsers has one summary per entry, in the Map's order, with the id and every stored field, the `ws` included. No id appears twice. |
| `LegacyRegistry.RemoveIsIdempotent` | src/services/user.service.js:24-26 | Removing the same key twice is the same as removing it once. |
| `LegacyRegistry.UserService.constructor` | src/services/user.service.js:2-4 | A new service holds an empty Map. |
| `LegacyRegistry.UserService.AddUser` | src/services/user.service.js:6-14 | addUser always succeeds. It sets the entry for the id to `{ws, nickname, position: null, connected: true}`, overwriting any earlier one, and changes no other entry. |
| `LegacyRegistry.UserService.UpdatePosition` | src/services/user.service.js:16-22 | updatePosition is a no-op for unknown ids and otherwise changes only that entry's position. |
| `LegacyRegistry.UserService.RemoveUser` | src/services/user.service.js:24-26 | removeUser deletes exactly that key. |
| `Sockets.Delivered` | src/server/controllers/websocket.controller.js:109 | `ws.send` appends the message to that connection's outbox when it is OPEN, does nothing otherwise, and touches no other outbox. |
| `Sockets.Fanout` | src/server/controllers/websocket.controller.js:150-156 | The outboxes after `broadcast` cover the same connections as before. What each connection receives is stated by `Sockets.FanoutReachesExactlyOpen`. |
| `Sockets.FanoutReachesExactlyOpen` | src/controllers/websocket.controller.js:75-81 | After a broadcast, a client's outbox grew by exactly one message, the broadcast one appended at the end, iff the client is OPEN. Every other outbox is unchanged. |
| `Sockets.SocketServer.Accept` | src/server/controllers/websocket.controller.js:21-24 | A new connection joins the clients in the OPEN state, with nothing sent on it. |
| `Sockets.SocketServer.Send` | src/server/controllers/websocket.controller.js:109 | The in-place send reaches the outboxes `Delivered` describes. |
| `Sockets.SocketServer.SendPing` | src/server/controllers/websocket.controller.js:39 | A ping is appended to the connection's outbox when it is OPEN, and dropped otherwise. |
| `Sockets.SocketServer.Terminate` | src/server/controllers/websocket.controller.js:37 | terminate moves a connection that is not yet closed to CLOSING. |
| `Sockets.SocketServer.Close` | src/server/controllers/websocket.controller.js:53 | A closed connection is CLOSED and has left the clients. |
| `Sockets.SocketServer.Broadcast` | src/server/controllers/websocket.controller.js:150-156 | The loop over the clients sends the message to each OPEN one. The result is the broadcast outboxes of `Fanout`. |
| `Protocol.RegisterRequest` | src/client/public/js/core/websocket.client.js:50-53 | The register frame is an object whose `type` reads back as `'register'` and whose `nickname` reads back as the given nickname. |
| `Protocol.RegisteredMessage` | src/server/controllers/websocket.controller.js:109 | The reply is an object whose `type` reads back as `'registered'` and whose `userId` reads back as the given value. |
| `Protocol.PositionUpdateMessage` | src/client/public/js/core/websocket.client.js:61-65 | The position frame, which the current server relays in the same shape (src/server/controllers/websocket.controller.js:115-119), is an object whose `type`, `userId` and `position` read back as `'positionUpdate'` and the given id and position. |
| `Protocol.UserUpdateMessage` | src/server/controllers/websocket.controller.js:140-143 | The list message is an object whose `type` reads back as `'userUpdate'` and whose `users` reads back as the array of the given entries. |
| `Relay.Heartbeat` | src/server/controllers/websocket.controller.js:33-42 | A tick terminates exactly when the interval is set and `isAlive` is false, and probes exactly when the interval is set and `isAlive` is true. Only a close clears the interval. A pong sets `isAlive`, a probe lowers it, and nothing else changes it. |
| `Relay.UserList` | src/server/controllers/websocket.controller.js:133-138 | Each list entry copies `userId`, nickname, position and connected from the summary at the same index. |
| `Relay.Classify` | src/server/controllers/websocket.controller.js:95-122 | A parsed, non-null frame is routed to register, with its nickname, exactly when it has type `register` and a truthy nickname, and to positionUpdate, with its userId and position, whenever it has type `positionUpdate`. `offer`, `answer` and `iceCandidate` are ignored. |
| `Relay.RegisterRequestRouted` | src/server/controllers/websocket.controller.js:101-105 | The client's registration request is routed to register exactly when its nickname is truthy. |
| `Relay.PositionUpdateRouted` | src/server/controllers/websocket.controller.js:112-114 | The client's position update is routed to positionUpdate with the id and the position it carries. |
| `Relay.Run` | src/server/controllers/websocket.controller.js:32-43 | A run of liveness events takes exactly one action per event. |
| `Relay.SilentConnectionTerminated` | src/server/controllers/websocket.controller.js:36-40 | With the interval set and no pong, every tick after the first terminates the connection, and the flag ends down. |
| `Relay.ClosedStaysQuiet` | src/server/controllers/websocket.controller.js:42 | Once the interval is cleared, no later event pings or terminates. |
| `Relay.TerminatedOnlyAfterUnansweredProbe` | src/server/controllers/websocket.controller.js:33-40 | From a fresh connection, a tick terminates only after an earlier tick pinged and no pong came since. |
| `Relay.UnansweredSinceProbe` | src/server/controllers/websocket.controller.js:34-39 | The `isAlive` flag is down only while the last probe is unanswered. |
| `Relay.RegisterReplyThenList` | src/server/controllers/websocket.controller.js:109-110 | After a registration, the sender receives the `registered` reply and then the user list. Every other OPEN client receives the list only; no other outbox changes. |
| `Relay.PositionThenList` | src/server/controllers/websocket.controller.js:115-120 | After a position update, every OPEN client receives the position message and then the user list; no other outbox changes. |
| `Relay.AsWrittenAfterRegistration` | src/server/controllers/websocket.controller.js:108 | The registration as written keys the entry by the connection, stores the nickname as its `ws` and leaves its nickname undefined, so that state persists. |
| `Relay.AtMostOneParticipant` | src/server/services/user.service.js:20-22 | In that state every registration reserves `undefined`, so the registry holds at most one participant. |
| `Relay.LaterRegistrationsThrow` | src/server/controllers/websocket.controller.js:108 | Once one participant is registered, every later registration throws "Nickname already taken". |
| `Relay.DisconnectFindsNobody` | src/server/controllers/websocket.controller.js:76-79 | In that state no stored `ws` is a connection, so a closed connection's participant is never found. |
| `Relay.UserListLosesIds` | src/server/controllers/websocket.controller.js:134 | In the list as written, no entry carries its participant's id. |
| `Relay.RegisterIntended` | src/server/controllers/websocket.controller.js:108-109 | The intended registration fails exactly when the nickname is reserved. Otherwise it is addUser(userId, ws, nickname), and the reply carries that userId. |
| `Relay.IntendedDisconnectFindsUser` | src/server/controllers/websocket.controller.js:61-82 | With a fresh id, the participant of a connection that held no entry is found again by that connection when it closes. |
| `Relay.IntendedAcceptsSecondParticipant` | src/server/services/user.service.js:19-33 | Two registrations with different fresh nicknames both succeed. |
| `Relay.IntendedUserList` | src/server/controllers/websocket.controller.js:133-138 | Each intended entry carries the summary's `id` as its `userId`, and the summary's nickname, position and connected flag, at the same index. |
| `Relay.IntendedUserListCarriesIds` | src/server/controllers/websocket.controller.js:132-138 | The intended list names every registered participant by its id, once each, and nothing else. |
| `Relay.IntendedIdsInOrder` | src/server/controllers/websocket.controller.js:133-137 | The intended list's i-th entry names the Map's i-th key and carries that participant's position. |
| `Relay.WebsocketController.constructor` | src/server/controllers/websocket.controller.js:10-14 | The controller holds the given server and registry, with no liveness state yet. |
| `Relay.WebsocketController.Connect` | src/server/controllers/websocket.controller.js:50-54 | A connection event accepts the socket (OPEN, nothing sent), sets its `isAlive` flag and its interval, and leaves the registry alone. |
| `Relay.WebsocketController.HandleMessage` | src/server/controllers/websocket.controller.js:90-126 | An ignored frame changes neither the registry nor any outbox. A `register` frame reaches the state `Registered` describes, and a `positionUpdate` the one `PositionBroadcast` describes. No exception escapes, and the as-written registry shape is preserved. |
| `Relay.WebsocketController.Register` | src/server/controllers/websocket.controller.js:101-111 | If addUser throws, nothing is stored or sent. Otherwise the entry is stored, the reply goes to the sender and the user list to every OPEN client. |
| `Relay.WebsocketController.PositionUpdate` | src/server/controllers/websocket.controller.js:112-121 | The position is stored, then the position message and the user list go to every OPEN client, in that order. |
| `Relay.WebsocketController.BroadcastUserList` | src/server/controllers/websocket.controller.js:132-144 | The user list of the current registry is sent to every OPEN client. |
| `Relay.WebsocketController.FindUserIdByWs` | src/server/controllers/websocket.controller.js:75-82 | The loop returns the first key in the Map's order whose record holds the connection, or null when none does. |
| `Relay.WebsocketController.HandleDisconnect` | src/server/controllers/websocket.controller.js:61-68 | When a truthy id is found for the connection, that participant is removed and the list is broadcast; otherwise nothing changes. |
| `Relay.WebsocketController.Disconnect` | src/server/controllers/websocket.controller.js:42 | A close event makes the socket CLOSED and removes it from the clients. It runs handleDisconnect and then clears the interval. In the as-written state nothing else changes. |
| `Relay.WebsocketController.Tick` | src/server/controllers/websocket.controller.js:36-40 | An interval tick does what `Heartbeat` says: nothing once cleared, terminate when the flag is down, otherwise lower it and ping. |
| `Relay.WebsocketController.Pong` | src/server/controllers/websocket.controller.js:34 | A pong raises the connection's `isAlive` flag. |
| `LegacyRelay.UserList` | src/controllers/websocket.controller.js:62-67 | Each list entry copies id, nickname, position and connected from the summary at the same index, and carries no `ws`. |
| `LegacyRelay.UserListInOrder` | src/controllers/websocket.controller.js:61-67 | The list's i-th entry names the Map's i-th key and carries no connection. |
| `LegacyRelay.UserListNamesEveryone` | src/controllers/websocket.controller.js:61-73 | The list has one entry per participant, names each by its id exactly once, and never carries the stored `ws`. |
| `LegacyRelay.Classify` | src/controllers/websocket.controller.js:45-55 | Only `register` and `positionUpdate` frames are acted on, carrying the userId and nickname or position they hold; everything else is ignored. |
| `LegacyRelay.DisconnectFindsRegisteredId` | src/controllers/websocket.controller.js:31-38 | After a registration from a connection that held no entry, its close finds the id it registered with, even when that id overwrote another participant. |
| `LegacyRelay.FalsyIdOutlivesConnection` | src/controllers/websocket.controller.js:24 | A participant registered under a falsy id is found under that id on close, so its entry is kept. |
| `LegacyRelay.WebsocketController.constructor` | src/controllers/websocket.controller.js:6-10 | The controller creates its own empty registry. |
| `LegacyRelay.WebsocketController.Connect` | src/controllers/websocket.controller.js:16-20 | A connection event accepts the socket in the OPEN state with nothing sent. |
| `LegacyRelay.WebsocketController.HandleMessage` | src/controllers/websocket.controller.js:40-59 | `register` stores the client-supplied id and broadcasts one user list. `positionUpdate` moves it and broadcasts one user list, with no position message. Anything else, and every error, changes nothing. |
| `LegacyRelay.WebsocketController.BroadcastUserList` | src/controllers/websocket.controller.js:61-73 | The user list of the current registry is sent to every OPEN client. |
| `LegacyRelay.WebsocketController.FindUserIdByWs` | src/controllers/websocket.controller.js:31-38 | The loop returns the first key in the Map's order whose record holds the connection, or null. |
| `LegacyRelay.WebsocketController.HandleDisconnect` | src/controllers/websocket.controller.js:22-29 | When a truthy id is found, that entry is deleted and the list is broadcast; otherwise nothing is sent. |
| `LegacyRelay.WebsocketController.Disconnect` | src/controllers/websocket.controller.js:19 | A close event makes the socket CLOSED, removes it from the clients, then runs handleDisconnect. |
| `SignalClient.MarkersComeFromPositionedUsers` | src/client/public/js/core/websocket.client.js:87-91 | Every marker update comes from a listed user with a truthy position, and carries that user's userId and position. |
| `SignalClient.EveryPositionedUserMarked` | src/client/public/js/core/websocket.client.js:83-92 | When no listed user is null or undefined, every user with a truthy position gets its marker update. |
| `SignalClient.UnpositionedUsersUnmarked` | src/client/public/js/core/websocket.client.js:88 | When no listed user has a truthy position, no marker update is made. |
| `SignalClient.MarkersFor` | src/client/public/js/core/websocket.client.js:87-91 | The `forEach` asks for at most one marker update per listed user. |
| `SignalClient.MarkersOfOne` | src/client/public/js/core/websocket.client.js:88-90 | A single user that is not null or undefined yields exactly one marker update, with its `userId` and position, when its position is truthy, and none otherwise. |
| `SignalClient.MarkersAppend` | src/client/public/js/core/websocket.client.js:87-91 | After a prefix with no null or undefined user, the marker updates are those of the prefix followed by those of the rest. With `MarkersOfOne`, this gives one update per positioned user, in list order, with none repeated. |
| `SignalClient.MarkersStopAtMissingUser` | src/client/public/js/core/websocket.client.js:88 | Reading `user.position` on a null or undefined user throws and ends the loop. Only the users before it are marked. |
| `SignalClient.Receive` | src/client/public/js/core/websocket.client.js:73-104 | Only `registered` changes the id, to the message's userId. A `positionUpdate` carrying the client's own id moves no marker, and any other moves exactly one. `userUpdate` asks for the markers of its list. Unparsable, null and unknown frames do nothing. |
| `SignalClient.Transmitted` | src/client/public/js/core/websocket.client.js:117-121 | A message is transmitted when the socket is OPEN, and dropped otherwise. |
| `SignalClient.WebsocketClient.constructor` | src/client/public/js/core/websocket.client.js:10-15 | A new client has a null id and nickname, no socket, and nothing sent or marked. |
| `SignalClient.WebsocketClient.SetNickname` | src/client/public/js/core/websocket.client.js:41-44 | The prompt's answer becomes the nickname when truthy; otherwise it is `User_` followed by the random suffix. |
| `SignalClient.WebsocketClient.Connect` | src/client/public/js/core/websocket.client.js:23-36 | The nickname is chosen, then a socket is opened in the CONNECTING state. |
| `SignalClient.WebsocketClient.Send` | src/client/public/js/core/websocket.client.js:117-121 | The in-place send transmits exactly as `Transmitted` says. |
| `SignalClient.WebsocketClient.RegisterUser` | src/client/public/js/core/websocket.client.js:49-54 | The client sends `{type: 'register', nickname}`, subject to the OPEN guard. |
| `SignalClient.WebsocketClient.SendPosition` | src/client/public/js/core/websocket.client.js:60-66 | The client sends `{type: 'positionUpdate', userId, position}` with its current id, null or not, subject to the OPEN guard. |
| `SignalClient.WebsocketClient.Opened` | src/client/public/js/core/websocket.client.js:28-31 | An open event makes the socket OPEN and transmits the registration. |
| `SignalClient.WebsocketClient.Closed` | src/client/public/js/core/websocket.client.js:109-111 | A close event makes the socket CLOSED and changes nothing else. |
| `SignalClient.WebsocketClient.HandleMessage` | src/client/public/js/core/websocket.client.js:73-104 | The client's id and marker updates change as `Receive` says. |
| `SignalClient.WebsocketClient.UpdateMarkers` | src/client/public/js/core/websocket.client.js:87-91 | The `forEach` loop appends exactly the marker updates of `MarkersFor`, stopping at the first null or undefined user. |
| `EndToEnd.AsWrittenReplyLeavesClientAnonymous` | src/server/controllers/websocket.controller.js:109 | As written, the reply to a registration leaves the client's id undefined. |
| `EndToEnd.AsWrittenPositionNeverStored` | src/server/services/user.service.js:45-46 | As written, a position update from a client whose id is undefined changes nothing in the registry. |
| `EndToEnd.AsWrittenMarkersAnonymous` | src/client/public/js/core/websocket.client.js:89 | As written, every marker update the client makes from the user list is under an undefined id. |
| `EndToEnd.IntendedMarkersNameParticipants` | src/client/public/js/core/websocket.client.js:87-91 | As intended, every marker update names a registered participant and carries its stored, truthy position. |
| `EndToEnd.IntendedMarksEveryPositionedParticipant` | src/client/public/js/core/websocket.client.js:83-92 | As intended, every registered participant with a truthy position gets its marker update. |

## Left out

- JSON.parse and JSON.stringify. Frames arrive already parsed, or as the `Unparsable` variant. The message objects handed to JSON.stringify stand for what is sent. The current controller's handleMessage takes only values JSON.parse can produce (`IsJson`).
- Classify (both controllers) treats a parsed `undefined` like `null`; JSON.parse never yields `undefined`.
- The `ws` library's internals are not modelled. A send on a socket that is not OPEN is taken to be dropped. `terminate` moves the socket to CLOSING, and the later close event makes it CLOSED and removes it from `wss.clients` before the controller's close listeners run.
- Timers, `setInterval`/`clearInterval`, `Date.now` and the `lastUpdate` timestamp are not modelled. Ticks and pongs are explicit events; the 30-second period is not modelled. The legacy summaries' spread (`...data`) therefore also omits `lastUpdate`.
- Concurrency: each event is one atomic step, as on Node's event loop.
- Equality is structural: two distinct but equal-looking JavaScript objects compare equal in the model, where `===` compares references. Socket objects are connection ids, so they compare by identity.
- Numbers are reals. NaN, infinities and floating-point rounding are not modelled.
- UserRegistry.UserService.ValidatePosition: takes numeric coordinates. JavaScript's coercion of non-numbers in `>=` is not modelled, and nothing in the core calls it.
- The ping/pong handlers' `Liveness.armed` flag stands for the interval still being set; `clearInterval` is the close event.
- Console logging in every handler.
- The browser side beyond signalling: WebRTC, the map managers, the Leaflet calls, the UI modules (`updateCurrentUser` and `updateActiveUsersList`, which are async and do not throw synchronously), and the superseded `public/js` drafts. The marker updates are recorded as calls; `window.app.mapManager` is taken to be the same map manager as `this.mapManager`.
- `prompt` and `Math.random` in setNickname are parameters: the answer and the random suffix.
- The promise returned by the client's connect, and `resolve`.
- Express, the HTTP routes, server bootstrap and the constants files.
- Point-to-point `offer`/`answer`/`iceCandidate` forwarding. The server has no such case, so these frames are ignored.
- Relay.Run: states only that there is one action per event. Its meaning is carried by the lemmas about it.
- UserRegistry.UserService.GetActiveUsers: carries no contract of its own; it is `UserRegistry.ActiveUsers` read on the service's state.
- LegacyRegistry.UserService.GetActiveUsers: carries no contract of its own; it is `LegacyRegistry.ActiveUsers` read on the service's state.

## Findings

| source | as written | input that shows it | evidently intended | confidence | as-written member | corrected member |
|---|---|---|---|---|---|---|
| src/server/controllers/websocket.controller.js:108 | `addUser(ws, data.nickname)` against the three-parameter `addUser(userId, ws, nickname)`, and its result (always `undefined`) sent as the `userId` | Two clients register with nicknames "a" and "b". The first entry is keyed by its connection with an undefined nickname, so the second registration throws "Nickname already taken", and the catch swallows it. On close, no entry's `ws` is a connection, so nobody is removed. | A server-chosen id passed first and returned to the client in the `registered` reply | not executed | `Relay.LaterRegistrationsThrow` | `Relay.IntendedAcceptsSecondParticipant` |
| src/server/controllers/websocket.controller.js:134 | The user list reads `user.userId`, but getActiveUsers emits the id as `id` | Any registered participant: its entry in the `userUpdate` list has `userId: undefined` | `userId: user.id` | not executed | `Relay.UserListLosesIds` | `Relay.IntendedUserListCarriesIds` |

The first finding is also stated by `Relay.AtMostOneParticipant` and
`Relay.DisconnectFindsNobody` (as written), against `Relay.RegisterIntended`
and `Relay.IntendedDisconnectFindsUser` (corrected). The second is stated from
the client's side by `EndToEnd.AsWrittenMarkersAnonymous` (as written) against
`EndToEnd.IntendedMarkersNameParticipants` and
`EndToEnd.IntendedMarksEveryPositionedParticipant` (corrected).
`Relay.WebsocketController` models the code as written. The intended forms are
stated as functions beside it, because the source's behaviour is what the
controller models.
