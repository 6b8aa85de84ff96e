# Omegle clone backend: matchmaking and signalling relay

This project models the backend of the Omegle clone: the `UserManager`
(connected users, the wait queue, pairing) and the `RoomManager` (rooms keyed
by a counter, relaying WebRTC offers, answers and ICE candidates between the
two members of a room). Both are classes that change state in place, and the
model keeps that form:

- `Wire` — socket ids, users, the events the backend emits and an `Outbox`
  class. Every `socket.emit` becomes one appended `Message(to, payload)`, so
  who receives what, and in which order, is part of the proved state. It also
  holds `Decimal`, the string a counter value renders to (`toString()`).
- `RoomSpec` — the room manager as a value (`Registry`): the `rooms` Map as
  its entries in insertion order, the `GLOBAL_ROOM_ID` counter and the
  outbox contents, with one function per operation and the lemmas about them.
- `RoomManaging.RoomManager` — the class: `entries` and `counter` are fields
  the methods update. Each method is proved to move its state exactly as the
  matching `RoomSpec` function does. `findRoomByUser` keeps its loop.
- `UserSpec` — the whole backend as a value (`Hub`: users, queue, registry),
  one function per `UserManager` operation, and the lemmas about pairing,
  disconnect and "next".
- `UserManaging.UserManager` — the class: `users` and `queue` are fields that
  are pushed to, popped from and reassigned. It owns the one `RoomManager`.
  `clearQueue` stays recursive. Each method is proved against `UserSpec`.
- `Scenarios` — end-to-end consequences from concrete states: connect and
  pair, relay in a room, disconnect and re-queue, "next", a user paired with
  themself, and a pass that stops early (below).

The code behaves as follows, and the model follows it:

- The queue is popped from the tail, so the two newest ids are paired first,
  not the two oldest.
- A popped id with no user ends the pairing pass; it does not continue.
- "next" from a user who is not in a room still pushes that id again. A user
  waiting alone who presses "next" is queued twice and is then paired with
  themself (`Scenarios.NextWhileWaitingPairsWithSelf`). So a room does not
  always have two distinct members.
- `removeRoom` sends `lobby` only to the member who stays and returns only
  that member's id.
- Disconnect runs `removeUser` twice. The second run is not always a no-op:
  when the first pass stopped early on an unknown id, the second pass can
  create a room (`Scenarios.SecondRemoveCanPair`).
- The emitted events are `send-offer`, `offer`, `answer`, `add-ice-candidate`,
  `lobby` and `switch-user`. There are no chat, presence or assistant events
  in the backend code.

## Model

| member | source | states |
|---|---|---|
| Wire.Outbox.Emit | backend/src/managers/RoomManager.ts:21-22 | one emit appends exactly one message, to that recipient, after all earlier ones |
| Wire.Decimal | backend/src/managers/RoomManager.ts:18 | the string of a counter value is non-empty and has two or more digits exactly when the value is at least 10 |
| Wire.DecimalInjective | backend/src/managers/RoomManager.ts:18 | two counter values with the same string are equal, so the string of a fresh counter value is a fresh key |
| RoomSpec.Other | backend/src/managers/RoomManager.ts:28 | the receiver is a member of the room; it is not the sender when the sender is a member of a room of two distinct ids; it is user1 when the sender is not a member |
| RoomSpec.Lookup | backend/src/managers/RoomManager.ts:26 | `rooms.get` finds nothing exactly when no entry has the key, and what it finds is stored under that key |
| RoomSpec.Set | backend/src/managers/RoomManager.ts:19 | `rooms.set` of a new key appends one entry and keeps the others in order; afterwards the key maps to the new room |
| RoomSpec.Delete | backend/src/managers/RoomManager.ts:59 | `rooms.delete` keeps exactly the entries with other keys, is the identity for an absent key, keeps keys distinct and removes one entry for a present key |
| RoomSpec.DeleteAppend | backend/src/managers/RoomManager.ts:59 | `rooms.delete` distributes over concatenation, so the entries it keeps stay in insertion order, each as often as before |
| RoomSpec.DeleteFirst | backend/src/managers/RoomManager.ts:59 | one step of `rooms.delete`: the first entry stays exactly when its key differs |
| RoomSpec.AppendDistinct | backend/src/managers/RoomManager.ts:19 | appending an entry whose key is absent keeps the Map's keys distinct |
| RoomSpec.IssuedKeyNonEmpty | backend/src/managers/UserManger.ts:35-36 | every key of a well-formed registry is a non-empty string, so `if (roomId)` never rejects a found key |
| RoomSpec.FreshKeyAbsent | backend/src/managers/RoomManager.ts:17-19 | the key the counter yields next is not in a well-formed registry |
| RoomSpec.IssuedNeverReissued | backend/src/managers/RoomManager.ts:3 | a key once issued differs from the string of every later counter value, whether or not its room was deleted |
| RoomSpec.FindRoomByUser | backend/src/managers/RoomManager.ts:46-53 | null exactly when no room has the id as user1 or user2; otherwise the key of the first such room in insertion order |
| RoomSpec.CreateRoom | backend/src/managers/RoomManager.ts:17-23 | the counter goes up by one; exactly one room `{user1, user2}` is appended under the string of the old counter and no other room changes; `send-offer` with that key goes to user1, then user2; well-formedness is kept |
| RoomSpec.Relay | backend/src/managers/RoomManager.ts:25-44 | an unknown room changes nothing and emits nothing; a known room gets exactly one message, carrying the payload unchanged, to the member `Other` picks; rooms and counter never change |
| RoomSpec.RelayTargets | backend/src/managers/RoomManager.ts:28-29 | in a room of two distinct ids, a message from user1 goes to user2, from user2 to user1, and from a non-member to user1 |
| RoomSpec.RemoveRoom | backend/src/managers/RoomManager.ts:55-65 | an unknown room returns null and changes nothing; a known room is deleted alone, `lobby` goes to the member other than the leaving one, and that member's id is returned; afterwards the key is absent; well-formedness is kept |
| RoomSpec.RemoveRoomTwice | backend/src/managers/RoomManager.ts:56-59 | a second `removeRoom` of the same key returns null and changes nothing |
| RoomSpec.SwitchUsers | backend/src/managers/RoomManager.ts:71-87 | an unknown room changes nothing; otherwise the room is deleted, `switch-user` goes to the other member and the two trailing `removeRoom` calls add nothing; well-formedness is kept |
| RoomManaging.RoomManager.constructor | backend/src/managers/RoomManager.ts:13-15 | no rooms, the counter at 1, and the registry well-formed |
| RoomManaging.RoomManager.Generate | backend/src/managers/RoomManager.ts:67-69 | returns the counter's old value and increments the counter by one |
| RoomManaging.RoomManager.CreateRoom | backend/src/managers/RoomManager.ts:17-23 | the fields and the outbox end as `RoomSpec.CreateRoom` says; well-formedness is kept |
| RoomManaging.RoomManager.OnOffer | backend/src/managers/RoomManager.ts:25-30 | the outbox ends as `RoomSpec.Relay` with an `offer` carrying the sdp and room id |
| RoomManaging.RoomManager.OnAnswer | backend/src/managers/RoomManager.ts:32-37 | the outbox ends as `RoomSpec.Relay` with an `answer` carrying the sdp and room id |
| RoomManaging.RoomManager.OnIceCandidates | backend/src/managers/RoomManager.ts:39-44 | the outbox ends as `RoomSpec.Relay` with an `add-ice-candidate` carrying the candidate and its type, without the room id |
| RoomManaging.RoomManager.FindRoomByUser | backend/src/managers/RoomManager.ts:46-53 | the loop over the entries returns what `RoomSpec.FindRoomByUser` specifies |
| RoomManaging.RoomManager.RemoveRoom | backend/src/managers/RoomManager.ts:55-65 | the fields, the outbox and the result end as `RoomSpec.RemoveRoom` says |
| RoomManaging.RoomManager.SwitchUsers | backend/src/managers/RoomManager.ts:71-87 | the fields and the outbox end as `RoomSpec.SwitchUsers` says |
| UserSpec.FindUser | backend/src/managers/UserManger.ts:31 | finds nothing exactly when no user has the id; what it finds is a user with that id |
| UserSpec.FindUserFirst | backend/src/managers/UserManger.ts:31 | what `find` returns is the user at some position with that id, and no user before that position has the id |
| UserSpec.RemoveUserId | backend/src/managers/UserManger.ts:46 | keeps exactly the users with another id, and is the identity when no user has the id |
| UserSpec.RemoveUserIdAppend | backend/src/managers/UserManger.ts:46 | the user filter distributes over concatenation, so the users it keeps stay in order, each as often as before |
| UserSpec.Without | backend/src/managers/UserManger.ts:47 | keeps exactly the queued ids other than the given one, and is the identity when the id is not queued |
| UserSpec.WithoutAppend | backend/src/managers/UserManger.ts:47 | the queue filter distributes over concatenation, so the ids it keeps stay in queue order, duplicates included |
| UserSpec.FoundRoomIsTruthy | backend/src/managers/UserManger.ts:35-36 | in a well-formed registry, `if (roomId)` (JavaScript truthiness, `Truthy`: neither null nor "") holds exactly when a room was found |
| UserSpec.ClearQueue | backend/src/managers/UserManger.ts:53-69 | users unchanged; the queue that remains is a prefix of the old one; the counter never goes down; each room made uses two queued ids, one counter value and two messages appended after the old ones |
| UserSpec.ClearQueueKeepsWellFormed | backend/src/managers/UserManger.ts:53-69 | the pass keeps a well-formed registry well-formed, only appends rooms, and appends one room per counter value used |
| UserSpec.ClearQueueSendsOffers | backend/src/managers/UserManger.ts:67 | every message the pass appends is a `send-offer` |
| UserSpec.PassStep | backend/src/managers/UserManger.ts:58-68 | two known ids at the tail: the pass goes on from the queue less those two ids and the registry with their room made, the tail's user as user1 |
| UserSpec.PassStops | backend/src/managers/UserManger.ts:54-65 | fewer than two ids, or an unknown id among the last two: the pass leaves rooms, counter and outbox as they were |
| UserSpec.ClearQueueStep | backend/src/managers/UserManger.ts:54-67 | fewer than two ids: nothing changes; an unknown id among the last two: both are dropped and the pass stops; two known ids: the next room pairs the tail's user (user1) with the one before it, and `send-offer` goes to the tail id first |
| UserSpec.ClearQueueAllRegistered | backend/src/managers/UserManger.ts:53-69 | when every queued id has a user, n ids make n / 2 rooms and the oldest n % 2 ids stay queued |
| UserSpec.PairAll | backend/src/managers/UserManger.ts:68 | when every queued id has a user, fewer than two ids remain and two ids went for each counter value used |
| UserSpec.PairStep | backend/src/managers/UserManger.ts:58-68 | with every queued id registered, one step drops the last two ids, uses one counter value and leaves every remaining id registered |
| UserSpec.ClearQueueSettles | backend/src/managers/UserManger.ts:54-56 | when every queued id has a user, running the pass again on its result changes nothing |
| UserSpec.LeaveRoom | backend/src/managers/UserManger.ts:35-42 | users and counter unchanged; nothing changes when the id is in no room; otherwise the room is gone afterwards; well-formedness is kept |
| UserSpec.LeaveRoomRequeues | backend/src/managers/UserManger.ts:35-42 | from a room: that room is deleted, the partner gets `lobby` and is pushed onto the queue tail |
| UserSpec.AddUser | backend/src/managers/UserManger.ts:20-26 | the user is appended; what stays queued is a prefix of the old queue plus the new id; `lobby` to the new id comes before anything the pass sends; rooms are only appended and well-formedness is kept |
| UserSpec.FindUserAppend | backend/src/managers/UserManger.ts:21-23 | appending a user changes no earlier answer of `find` |
| UserSpec.AddUserWhileQueueEmpty | backend/src/managers/UserManger.ts:20-26 | connecting to an empty queue: the user waits alone after `lobby`, and no room is made |
| UserSpec.PairLastTwo | backend/src/managers/UserManger.ts:58-68 | two known queued ids make exactly one room, tail as user1, and empty the queue |
| UserSpec.PairTwoKnown | backend/src/managers/UserManger.ts:58-68 | in a well-formed registry that room is appended under the next key, with `send-offer` to the tail id first |
| UserSpec.AddUserPairsWithWaiting | backend/src/managers/UserManger.ts:20-26 | connecting while one user waits: the newcomer is user1 of a new room with the waiting user, after `lobby` and `send-offer` to the newcomer and then `send-offer` to the waiting user |
| UserSpec.RemoveUser | backend/src/managers/UserManger.ts:30-51 | the users afterwards are exactly the old users less those with the id, in order; the id is gone from the queue; the counter never goes down; for an unknown id no room is removed and nothing earlier is overwritten; well-formedness is kept |
| UserSpec.RemoveUserLeavesRoom | backend/src/managers/UserManger.ts:30-51 | a registered user in a room disconnects: the room is deleted, the partner gets `lobby` and is pushed onto the queue tail, then the id leaves users and queue and the pass runs |
| UserSpec.RemoveUnknownUser | backend/src/managers/UserManger.ts:31-33 | for an id with no user, `removeUser` only drops the id from the queue and runs the pass |
| UserSpec.RemoveUserFromRoom | backend/src/managers/UserManger.ts:30-51 | a user in a room disconnects with nobody waiting: the room goes, the partner gets `lobby` and waits alone |
| UserSpec.RemoveUserTwice | backend/src/index.ts:22-25 | the second `removeUser` of one disconnect only re-runs the pass, removes no room, and changes nothing when fewer than two ids were left |
| UserSpec.NextUser | backend/src/managers/UserManger.ts:70-86 | users unchanged, the counter never goes down, and well-formedness is kept |
| UserSpec.NextUserOutsideRoom | backend/src/managers/UserManger.ts:70-86 | "next" from a user in no room removes nothing and sends nothing: the id is pushed onto the queue tail and the pass runs |
| UserSpec.NextUserRequeuesBoth | backend/src/managers/UserManger.ts:72-85 | "next" from a room: the room goes, the partner gets `lobby`, and the partner and then the skipper are pushed before the pass runs |
| UserSpec.NextUserFromRoom | backend/src/managers/UserManger.ts:70-86 | "next" from a room with nobody waiting: the same two users are paired again, skipper as user1, under the next key |
| UserSpec.Handle | backend/src/managers/UserManger.ts:87-108 | offers, answers and ICE candidates leave users, queue, rooms and counter unchanged; no event decreases the counter or breaks well-formedness |
| UserManaging.UserManager.constructor | backend/src/managers/UserManger.ts:14-18 | no users, an empty queue and a fresh room manager with no rooms and the counter at 1 |
| UserManaging.UserManager.AddUser | backend/src/managers/UserManger.ts:20-28 | the fields, the room manager and the outbox end as `UserSpec.AddUser` says |
| UserManaging.UserManager.RemoveUser | backend/src/managers/UserManger.ts:30-51 | the state ends as `UserSpec.RemoveUser` says |
| UserManaging.UserManager.ClearQueue | backend/src/managers/UserManger.ts:53-69 | the state ends as `UserSpec.ClearQueue` says |
| UserManaging.UserManager.NextUser | backend/src/managers/UserManger.ts:70-86 | the state ends as `UserSpec.NextUser` says |
| UserManaging.UserManager.Handle | backend/src/managers/UserManger.ts:87-108 | each event the handlers accept moves the state as `UserSpec.Handle` says |
| Scenarios.ConnectPairsThenWaits | backend/src/managers/UserManger.ts:20-26 | two connects make one room, the second user as user1, with `send-offer` to both under the same key; a third user then waits alone |
| Scenarios.RelayWithinRoom | backend/src/managers/RoomManager.ts:25-44 | in a room of two, an offer from one reaches the other and a candidate comes back tagged with its type; nothing else changes |
| Scenarios.DisconnectRequeuesPartner | backend/src/managers/UserManger.ts:30-51 | after a disconnect from a room the partner waits alone with `lobby`, and the repeated `removeUser` changes nothing more |
| Scenarios.ReconnectGetsNewRoom | backend/src/managers/RoomManager.ts:17-19 | the next connect pairs with the waiting partner under a key different from the old room's |
| Scenarios.NextRepairsSamePair | backend/src/managers/UserManger.ts:70-86 | "next" with nobody else waiting puts the same two users back together under a new key |
| Scenarios.NextWhileWaitingPairsWithSelf | backend/src/managers/UserManger.ts:82 | "next" from a user waiting alone makes a room whose two members are that same user |
| Scenarios.PassStopsEarly | backend/src/managers/UserManger.ts:63-65 | an unknown id just below the tail stops the pass with two known ids still queued and no room made |
| Scenarios.SecondRemoveCanPair | backend/src/index.ts:22-25 | the second `removeUser` of a disconnect can make a room the first one did not |

## Left out

- Sockets and the transport: a user's socket is reduced to its id, and every
  `emit` to a message in one outbox. Payload parsing is not modelled; `sdp`
  and `candidate` are strings passed through unchanged, and the ICE `type`
  tag is a two-valued datatype.
- Handler registration: `initHandlers` is modelled as dispatching one event
  (`Handle`), not as installing callbacks. The server setup in
  `backend/src/index.ts` is left out except for its second `disconnect`
  handler, which is why `removeUser` runs twice per disconnect.
- Room ids are JavaScript numbers. Their loss of precision above 2^53 is not
  modelled: the counter is an unbounded natural number.
- `GLOBAL_ROOM_ID` is module-level, shared by every `RoomManager`. It is a
  field here, which agrees with the code as long as there is one room
  manager, as the backend creates.
- UserSpec.ClearQueueAllRegistered: covers only queues whose ids all have
  users. Whether a reachable state can queue an id with no user is not
  established here.
- UserSpec.RemoveUser: the function's own contract does not state the
  partner's re-queueing; `RemoveUserLeavesRoom` states it for every room
  whose other member has a non-empty id, and `LeaveRoom` covers the rest.
- UserSpec.NextUser: the function's own contract states only bounds and
  well-formedness. The exact state before the pass is stated by
  `NextUserRequeuesBoth` (from a room) and `NextUserOutsideRoom` (from no
  room); the result of the pass is stated for the two cases that matter
  (`NextUserFromRoom`, `NextWhileWaitingPairsWithSelf`).
- The frontend (`Room.tsx`, `Landing.tsx`) and `GeminiService.ts` are not part
  of this model: they are browser and network I/O, and the service is not
  called by the backend code.
- Chat messages, screen-share notices and assistant queries do not exist in
  the backend code, so they are not modelled.
