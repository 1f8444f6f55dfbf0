# Chat hub room registry and message store, in Dafny

This project models the core of a SignalR chat server: the hub's room/session
registry and the in-memory message store.

**The registry.** The hub keeps three process-wide tables:
- `ActiveRooms`, the set of active room ids;
- `RoomUsers`, the member usernames of each room;
- `UserRooms`, the room each connection is bound to.

Four operations read and rewrite these tables. `CreateRoom`, `JoinRoom` and
`LeaveRoom` are hub methods. The fourth is the disconnect path. After each
change the hub sends notifications to the transport: the room list, a room's
member list, and the UserJoined and UserLeft events. It also moves the
connection between SignalR groups.

The model has two layers:
- `room_registry.dfy` (module `RoomRegistry`) describes the tables as a
  value, `Tables`. It gives each operation's effect on them as a function,
  and the notifications each operation sends as a sequence of `Event`s. The
  properties are proved as lemmas and `ensures` clauses. The main one is
  consistency: `ActiveRooms` equals the key set of `RoomUsers`.
- `chat_hub.dfy` (module `ChatHub`) is a class `Hub`. Its fields are the
  three tables plus an `outbox` of events handed to the transport. Its
  methods update the fields in place, in the same steps as the C# code. Each
  method that acts for the caller takes its connection id as a parameter.
  Each method is proved to produce exactly the tables and events that the
  `RoomRegistry` functions describe, and to keep the consistency invariant
  `Valid()`.

**The message store.** `message_store.dfy` (module `MessageStore`) models
`InMemoryMessageStore`. It is an append-only list of `ChatMessage` records
(`SaveMessage`). A query (`GetMessagesForRoom`, defined by the filter
`ForRoom`) returns a room's messages in the order they were saved.

The model follows the code as written. In particular:
- `JoinRoom` does not reject empty room ids or usernames.
- `LeaveRoom` is not a no-op for a user who never joined. It always unbinds
  the calling connection, whichever room that connection was bound to. It
  also deletes an explicitly created room that nobody joined
  (`LeaveDeletesUnjoinedCreatedRoom`).
- The disconnect path does not know the connection's username. It evicts
  some member of the bound room, and that may be another user
  (`DisconnectMayEvictAnotherUser`).
- When the bound room has already been deleted, the disconnect path leaves
  the connection's binding in place (`StaleBindingSurvivesDisconnect`).

## Model

| member | source | states |
|---|---|---|
| RoomRegistry.CreateRoom | ChatHub.cs:26-42 | The room is active afterwards. If it was already active, nothing changes (idempotent). Otherwise it gets an empty member set. Bindings and every other room are untouched. Consistency is kept. |
| RoomRegistry.CreateRoomIdempotent | ChatHub.cs:26-42 | Creating a room twice gives the same tables as creating it once. |
| RoomRegistry.RecreatedRoomIsEmpty | ChatHub.cs:28-34 | After the last member leaves and the room is deleted, creating it again gives it no members. |
| RoomRegistry.LeaveRoom | ChatHub.cs:179-196 | The connection is always unbound. An unknown room leaves both room tables unchanged and is not reported removed. The room is reported removed exactly when its member set held at most the leaving user, and a removed room is gone from both tables. Otherwise its members lose only that user and the active set is unchanged. The user is never a member of the room afterwards. |
| RoomRegistry.LeaveRoomFrame | ChatHub.cs:179-196 | LeaveRoom changes no other room and no other connection's binding, and it keeps `ActiveRooms == keys(RoomUsers)`. |
| RoomRegistry.LeaveDeletesUnjoinedCreatedRoom | ChatHub.cs:181-191 | A room created explicitly and never joined is deleted by the first LeaveRoom that names it, whatever username that call gives. |
| RoomRegistry.ImplicitLeave | ChatHub.cs:104-108 | The implicit leave at the start of JoinRoom leaves the connection unbound. |
| RoomRegistry.JoinRoom | ChatHub.cs:104-130 | Afterwards the room is active and has an entry, the user is a member, and the connection is bound to the room. |
| RoomRegistry.JoinRoomFrame | ChatHub.cs:104-130 | JoinRoom keeps consistency. It changes only the joined room, the previously bound room and this connection's binding. The joined room keeps the members it had after the implicit leave, plus the user. |
| RoomRegistry.JoinCreatesRoom | ChatHub.cs:110-130 | An unbound connection joining an inactive room creates the room with that one member and binds the connection. |
| RoomRegistry.JoinActiveRoom | ChatHub.cs:110-130 | An unbound connection joining an active room adds the user and the binding and nothing else. |
| RoomRegistry.JoinMovesConnection | ChatHub.cs:105-129 | A join from a connection bound elsewhere removes the username from the old room, or deletes that room; the connection ends bound only to the new room. |
| RoomRegistry.DisconnectTarget | ChatHub.cs:252-266 | The disconnect path acts only when the connection is bound to a room that has an entry with at least one member. |
| RoomRegistry.DisconnectUnbinds | ChatHub.cs:254-269 | A disconnect that evicts a member of the bound room keeps consistency and unbinds the connection. |
| RoomRegistry.StaleBindingSurvivesDisconnect | ChatHub.cs:252-274 | When the bound room has been deleted, the disconnect path does nothing, so the binding stays. |
| RoomRegistry.LeaveNoticesShape | ChatHub.cs:176-206 | The group removal comes first and the room list (caller first, then the others) comes last. The room's group is addressed exactly when the room survives; then UserLeft comes first. Every room list sent equals the new active set. No member list sent contains the leaving user. |
| RoomRegistry.JoinNoticesShape | ChatHub.cs:105-142 | The implicit leave's notifications come first. Then, in order: the group addition, the room list (containing the room) to the caller and then the others, the room's member list (containing the user), and UserJoined. |
| RoomRegistry.LobbyScenario | ChatHub.cs:98-196 | alice and bob join "lobby" and alice leaves: "lobby" stays active with members {bob}, and only bob's connection is bound. |
| RoomRegistry.DisconnectScenario | ChatHub.cs:245-274 | A lone member of "r1" disconnects: the tables return to empty. |
| RoomRegistry.MoveScenario | ChatHub.cs:105-130 | A connection in "r1" joins "r2": only "r2" is active and the connection is bound to "r2". |
| RoomRegistry.DisconnectMayEvictAnotherUser | ChatHub.cs:258-269 | With alice and bob in "lobby", bob's disconnect may evict alice: bob stays, and alice's connection is still bound. |
| ChatHub.Hub.constructor | ChatHub.cs:9-11 | The tables start empty, which is consistent, and nothing has been sent. |
| ChatHub.Hub.BroadcastAvailableRooms | ChatHub.cs:67-96 | Sends the current active set to the caller, then to everyone else. |
| ChatHub.Hub.BroadcastUserList | ChatHub.cs:152-169 | Sends the room's member set to its group, or nothing when the room has no entry. |
| ChatHub.Hub.CreateRoom | ChatHub.cs:19-65 | The new tables are `RoomRegistry.CreateRoom` of the old ones. The returned snapshot is the current active set and contains the room. It is sent to the caller, then to the others. Consistency is kept. |
| ChatHub.Hub.LeaveRoom | ChatHub.cs:171-215 | The new tables and the `roomRemoved` flag are those of `RoomRegistry.LeaveRoom`. The events appended are `LeaveNotices`. Consistency is kept. |
| ChatHub.Hub.JoinRoom | ChatHub.cs:98-150 | The new tables are `RoomRegistry.JoinRoom` of the old ones, including the implicit LeaveRoom. The events appended are `JoinNotices`. Consistency is kept. |
| ChatHub.Hub.OnDisconnected | ChatHub.cs:245-284 | Without a target room nothing changes and nothing is sent. Otherwise the evicted username is a member of the bound room, and tables and events are those of LeaveRoom for that room and that user. Consistency is kept. |
| ChatHub.Hub.OnConnected | ChatHub.cs:217-243 | Sends the room list to the new client, then to the others. The tables are unchanged. |
| ChatHub.Hub.RequestRoomList | ChatHub.cs:286-297 | Sends the room list to the caller, then to the others. The tables are unchanged. |
| ChatHub.Hub.UserTyping | ChatHub.cs:299-302 | Sends UserTyping to the room's group. The tables are unchanged. |
| ChatHub.Hub.SendMessage | ChatHub.cs:304-312 | Sends ReceiveMessage, with the given timestamp, to the room's group. The tables are unchanged. |
| ChatHub.LobbyClient | ChatHub.cs:98-274 | Through the hub methods alone: alice and bob join "lobby"; alice's leave does not remove the room; bob's connection then disconnects and the disconnect path evicts "bob"; no room is active at the end. |
| MessageStore.ForRoom | MessageStore.cs:25 | The result is no longer than the list, and it holds only stored messages of the requested room. |
| MessageStore.ForRoomSelects | MessageStore.cs:25 | A message is in the result exactly when it is stored and belongs to the room. |
| MessageStore.ForRoomCounts | MessageStore.cs:25 | Each message of the room appears as often as it was stored; messages of other rooms never appear. |
| MessageStore.ForRoomIsSubsequence | MessageStore.cs:25 | The result is a subsequence of the stored list, so insertion order is kept. |
| MessageStore.ForRoomAppend | MessageStore.cs:12-25 | Appending m extends m's room's result by m and leaves every other room's result unchanged. |
| MessageStore.InMemoryMessageStore.constructor | MessageStore.cs:9 | The store starts empty. |
| MessageStore.InMemoryMessageStore.SaveMessage | MessageStore.cs:12-19 | Appends the message at the end, leaving earlier entries as they were. Its room's query gains it at the end, and every other room's query is unchanged. |
| MessageStore.InMemoryMessageStore.GetMessagesForRoom | MessageStore.cs:21-27 | Reads the list without changing it. It returns exactly the stored messages of the room, each as often as stored, in insertion order. |

## Left out

- Message delivery. SignalR's `Clients.*.SendAsync`, `Groups.AddToGroupAsync` and `Groups.RemoveFromGroupAsync` are recorded as abstract `Event`s in `outbox`; whether and when they reach clients is not modelled.
- Locks, `async`/`await`, and interleavings between concurrent hub calls. Every operation is modelled as one sequential step, so the races that the nested per-table locks allow are not modelled.
- Cosmos DB persistence in `SendMessage` (ChatHub.cs:315-341). It is an external database client, and its failure is only logged, so `SendMessage` is modelled as the delivery alone.
- The clock and id generation. `DateTime.UtcNow` and `Guid.NewGuid()` become caller-supplied timestamps and ids (ChatHub.cs:311, 355-359).
- Logging, the catch-log-rethrow blocks, the exception swallowed by `OnDisconnectedAsync`, and the JSON attributes of `ChatMessage`. None of them changes the tables.
- Program.cs: host and dependency-injection wiring and configuration. It has no registry logic. The hub does not use `InMemoryMessageStore`, so the store is modelled on its own.
- Snapshot order. `ToList()` of a `HashSet` has no specified order, so room lists and member lists are sets.
- Null strings. C# strings may be null; the model's strings never are. For usernames: `FirstOrDefault` gives null both for an empty room and for a null first member, and the model has no null usernames, so only the empty room makes the disconnect path do nothing.
- Hub.CreateRoom, Hub.JoinRoom: keep `ActiveRooms == keys(RoomUsers)` only because the model has no null room id. In the code a null room id breaks that invariant for good. `CreateRoom(null)` adds null to the `HashSet` `ActiveRooms` (ChatHub.cs:30) and then throws `ArgumentNullException` at the dictionary store (ChatHub.cs:33). `JoinRoom(null, …)` does the same at ChatHub.cs:115-116, after its implicit leave (ChatHub.cs:107) has already run. Afterwards every `JoinRoom(null, …)` throws at `ContainsKey(null)` (ChatHub.cs:124), and every `LeaveRoom(null, …)` throws at ChatHub.cs:176 or ChatHub.cs:181. So null is never removed from `ActiveRooms`, and it appears in every room list sent from then on.
- RoomRegistry.JoinRoomFrame: states the joined room's new member set only for consistent tables. On inconsistent tables (unreachable through the hub) the function `JoinRoom` still follows the code's overwrite of the entry, but no lemma describes it.
- InMemoryMessageStore.GetMessagesForRoom: returns a value snapshot taken at the call. The C# method returns a lazy `Where` (MessageStore.cs:25) that is enumerated only after the lock taken at MessageStore.cs:23 is released. Saves made between the call and the enumeration appear in the result, and a concurrent save can make the enumeration throw. `ChatMessage` is a mutable class (ChatHub.cs:351-375), so changing a stored record's `roomid` later moves it into another room's results. None of this is modelled.
- Hub.LeaveRoom, Hub.JoinRoom: the transport calls are assumed never to throw, so the model always performs the whole update. In the code, an exception from `RemoveFromGroupAsync` (ChatHub.cs:176) ends LeaveRoom before any table changes (ChatHub.cs:179-196). An exception in the implicit leave's broadcasts (ChatHub.cs:107, through ChatHub.cs:201-206) ends JoinRoom after the old room was left but before the join (ChatHub.cs:110-130).
