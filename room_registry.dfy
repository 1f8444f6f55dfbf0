/**
 * The room/session registry of the chat hub, as values: the three shared
 * tables (active rooms, room members, connection bindings), the change each
 * hub operation makes to them, and which notifications each operation
 * decides to send. The class in chat_hub.dfy performs these changes in place
 * and is proved against the functions here.
 */
module RoomRegistry {

  datatype Option<T> = None | Some(value: T)

  /**
   * The registry's three tables: the set of active room ids, the member
   * usernames of each room, and the room each connection is bound to.
   */
  datatype Tables = Tables(
    active: set<string>,
    members: map<string, set<string>>,
    bindings: map<string, string>)

  /** The tables when the process starts: no rooms, no bindings. */
  const Initial := Tables({}, map[], map[])

  /** The table-consistency invariant: a room is active exactly when it has a member-set entry. */
  predicate Consistent(t: Tables)
  {
    t.active == t.members.Keys
  }

  /** Every room outside `rooms` has the same activity, entry and member set in `t'` as in `t`. */
  ghost predicate OtherRoomsUnchanged(t: Tables, t': Tables, rooms: set<string>)
  {
    && (forall x :: x !in rooms ==> (x in t.active <==> x in t'.active))
    && (forall x :: x !in rooms ==> (x in t.members <==> x in t'.members))
    && (forall x :: x !in rooms && x in t.members && x in t'.members ==> t'.members[x] == t.members[x])
  }

  /** Every connection other than `conn` keeps its binding (or its lack of one). */
  ghost predicate OtherBindingsUnchanged(t: Tables, t': Tables, conn: string)
  {
    forall c :: c != conn ==>
      (c in t.bindings <==> c in t'.bindings) &&
      (c in t.bindings ==> t'.bindings[c] == t.bindings[c])
  }

  /** The room `conn` is bound to, as a set of at most one room id. */
  function BoundRoom(t: Tables, conn: string): (r: set<string>)
    ensures forall room :: room in r <==> conn in t.bindings && t.bindings[conn] == room
  {
    if conn in t.bindings then {t.bindings[conn]} else {}
  }

  // ---------------------------------------------------------------------
  // Table transitions
  // ---------------------------------------------------------------------

  /**
   * CreateRoom: a room that is not active becomes active with no members;
   * creating an active room again changes nothing.
   */
  function CreateRoom(t: Tables, room: string): (r: Tables)
    ensures room in r.active
    ensures room in t.active ==> r == t
    ensures room !in t.active ==> room in r.members && r.members[room] == {}
    ensures r.bindings == t.bindings
    ensures OtherRoomsUnchanged(t, r, {room})
    ensures Consistent(t) ==> Consistent(r)
  {
    if room in t.active then t
    else Tables(t.active + {room}, t.members[room := {}], t.bindings)
  }

  /** What LeaveRoom leaves behind: the new tables, and whether the room was deleted. */
  datatype Left = Left(tables: Tables, roomRemoved: bool)

  /**
   * LeaveRoom: `user` leaves `room`; a room whose member set becomes empty is
   * deleted from both room tables. The calling connection is unbound in every
   * case, whichever room it was bound to.
   */
  function LeaveRoom(t: Tables, conn: string, room: string, user: string): (r: Left)
    ensures conn !in r.tables.bindings
    ensures room !in t.members ==>
      !r.roomRemoved && r.tables.active == t.active && r.tables.members == t.members
    ensures room in t.members ==> (r.roomRemoved <==> t.members[room] <= {user})
    ensures r.roomRemoved ==> room !in r.tables.active && room !in r.tables.members
    ensures room in r.tables.members ==> user !in r.tables.members[room]
    ensures room in t.members && !r.roomRemoved ==>
      room in r.tables.members && r.tables.members[room] == t.members[room] - {user}
    ensures !r.roomRemoved ==> r.tables.active == t.active
  {
    var bindings := t.bindings - {conn};
    if room !in t.members then
      Left(Tables(t.active, t.members, bindings), false)
    else
      var rest := t.members[room] - {user};
      if |rest| == 0 then
        Left(Tables(t.active - {room}, t.members - {room}, bindings), true)
      else
        Left(Tables(t.active, t.members[room := rest], bindings), false)
  }

  /**
   * LeaveRoom keeps the tables consistent, touches no other room and no
   * other connection's binding.
   */
  lemma LeaveRoomFrame(t: Tables, conn: string, room: string, user: string)
    ensures var r := LeaveRoom(t, conn, room, user).tables;
      && OtherRoomsUnchanged(t, r, {room})
      && OtherBindingsUnchanged(t, r, conn)
      && (Consistent(t) ==> Consistent(r))
  {
  }

  /**
   * The tables after the implicit leave that JoinRoom performs first when the
   * connection is already bound: it leaves the bound room under the username
   * of the new call.
   */
  function ImplicitLeave(t: Tables, conn: string, user: string): (r: Tables)
    ensures conn !in r.bindings
  {
    if conn in t.bindings then LeaveRoom(t, conn, t.bindings[conn], user).tables else t
  }

  /**
   * JoinRoom: after the implicit leave, the room is activated if needed,
   * `user` is added to its members and the connection is bound to it.
   */
  function JoinRoom(t: Tables, conn: string, room: string, user: string): (r: Tables)
    ensures room in r.active && room in r.members && user in r.members[room]
    ensures conn in r.bindings && r.bindings[conn] == room
  {
    var t1 := ImplicitLeave(t, conn, user);
    var t2 := if room !in t1.active then Tables(t1.active + {room}, t1.members[room := {}], t1.bindings) else t1;
    var members := if room in t2.members then t2.members else t2.members[room := {}];
    Tables(t2.active, members[room := members[room] + {user}], t2.bindings[conn := room])
  }

  /**
   * JoinRoom keeps the tables consistent; the joined room keeps the members
   * it had after the implicit leave and gains `user`; only the joined room
   * and the previously bound room change, and only the calling connection's
   * binding.
   */
  lemma JoinRoomFrame(t: Tables, conn: string, room: string, user: string)
    ensures var r := JoinRoom(t, conn, room, user);
      && OtherRoomsUnchanged(t, r, {room} + BoundRoom(t, conn))
      && OtherBindingsUnchanged(t, r, conn)
      && (Consistent(t) ==> Consistent(r))
      && (Consistent(t) ==>
           var before := ImplicitLeave(t, conn, user);
           r.members[room] == (if room in before.members then before.members[room] else {}) + {user})
  {
    if conn in t.bindings {
      LeaveRoomFrame(t, conn, t.bindings[conn], user);
    }
  }

  /**
   * The room the disconnect path acts on: the connection's bound room, when
   * that room still has an entry with at least one member. Otherwise the
   * disconnect does nothing at all (the binding is not cleared either).
   */
  function DisconnectTarget(t: Tables, conn: string): (r: Option<string>)
    ensures r.Some? ==> r.value in BoundRoom(t, conn) && r.value in t.members && t.members[r.value] != {}
    ensures r.None? ==> forall room | room in BoundRoom(t, conn) && room in t.members :: t.members[room] == {}
  {
    if conn in t.bindings && t.bindings[conn] in t.members && t.members[t.bindings[conn]] != {} then
      Some(t.bindings[conn])
    else
      None
  }

  // ---------------------------------------------------------------------
  // Notifications
  // ---------------------------------------------------------------------

  /** Who a notification goes to: the calling connection, every other connection, or a room's group. */
  datatype Audience = Caller(conn: string) | Others(conn: string) | Group(room: string)

  /** The named client events the hub sends, with their payloads (lists as sets: their order is unspecified). */
  datatype Notice =
    | AvailableRooms(rooms: set<string>)
    | UpdateUserList(users: set<string>)
    | UserJoined(username: string)
    | UserLeft(username: string)
    | UserTyping(username: string)
    | ReceiveMessage(username: string, message: string, timestamp: int)

  /** What the hub hands to the transport: a notification, or a change of group membership. */
  datatype Event =
    | Send(to: Audience, notice: Notice)
    | AddToGroup(conn: string, room: string)
    | RemoveFromGroup(conn: string, room: string)

  /** A room-list snapshot of `t`, first to the caller, then to every other connection. */
  function AvailableRoomsNotices(t: Tables, conn: string): seq<Event>
  {
    [Send(Caller(conn), AvailableRooms(t.active)), Send(Others(conn), AvailableRooms(t.active))]
  }

  /** A room's member list to its group; nothing when the room has no entry. */
  function UserListNotices(t: Tables, room: string): seq<Event>
  {
    if room in t.members then [Send(Group(room), UpdateUserList(t.members[room]))] else []
  }

  /** True when `e` is a notification addressed to the group of `room`. */
  predicate ToGroup(e: Event, room: string)
  {
    e.Send? && e.to == Group(room)
  }

  /**
   * What LeaveRoom sends: the group removal first; then, only if the room
   * survives, UserLeft and the remaining member list to its group; and last
   * the room list to the caller and to everyone else.
   */
  function LeaveNotices(t: Tables, conn: string, room: string, user: string): seq<Event>
  {
    var left := LeaveRoom(t, conn, room, user);
    [RemoveFromGroup(conn, room)]
      + (if left.roomRemoved then [] else [Send(Group(room), UserLeft(user))] + UserListNotices(left.tables, room))
      + AvailableRoomsNotices(left.tables, conn)
  }

  /**
   * What JoinRoom sends: everything the implicit leave sends, then the group
   * addition, the room list (caller first), the room's member list and
   * finally UserJoined to the room's group.
   */
  function JoinNotices(t: Tables, conn: string, room: string, user: string): seq<Event>
  {
    var after := JoinRoom(t, conn, room, user);
    var leaving := if conn in t.bindings then LeaveNotices(t, conn, t.bindings[conn], user) else [];
    var joined := [AddToGroup(conn, room)] + AvailableRoomsNotices(after, conn)
      + UserListNotices(after, room) + [Send(Group(room), UserJoined(user))];
    leaving + joined
  }

  /**
   * The notifications of a leave: the group removal comes first and the room
   * list (caller first) last; the room's group hears of the leave exactly
   * when the room survives, and then gets UserLeft and its new member list;
   * every room list sent is the new active set, and no member list sent
   * contains the leaving user.
   */
  lemma LeaveNoticesShape(t: Tables, conn: string, room: string, user: string)
    ensures var es := LeaveNotices(t, conn, room, user);
      var left := LeaveRoom(t, conn, room, user);
      && 3 <= |es|
      && es[0] == RemoveFromGroup(conn, room)
      && es[|es| - 2..] == AvailableRoomsNotices(left.tables, conn)
      && (left.roomRemoved <==> forall e | e in es :: !ToGroup(e, room))
      && (!left.roomRemoved ==> es[1] == Send(Group(room), UserLeft(user)))
      && (forall e | e in es && e.Send? && e.notice.AvailableRooms? :: e.notice.rooms == left.tables.active)
      && (forall e | e in es && e.Send? && e.notice.UpdateUserList? :: user !in e.notice.users)
      && (room in left.tables.members ==>
            |es| == 5 && es[2] == Send(Group(room), UpdateUserList(left.tables.members[room])))
  {
    var left := LeaveRoom(t, conn, room, user);
    var toRoom := if left.roomRemoved then [] else [Send(Group(room), UserLeft(user))] + UserListNotices(left.tables, room);
    var es := [RemoveFromGroup(conn, room)] + toRoom + AvailableRoomsNotices(left.tables, conn);
    assert es == LeaveNotices(t, conn, room, user);
    assert !left.roomRemoved ==> ToGroup(es[1], room);
    assert left.roomRemoved ==> es == [es[0], es[1], es[2]] && !ToGroup(es[1], room) && !ToGroup(es[2], room);
  }

  /**
   * The notifications of a join: those of the implicit leave come first,
   * and exactly five follow them: the group addition, the room list (which
   * holds the room) to the caller and to everyone else, the room's member
   * list (which holds the user) and UserJoined.
   */
  lemma JoinNoticesShape(t: Tables, conn: string, room: string, user: string)
    ensures var es := JoinNotices(t, conn, room, user);
      var after := JoinRoom(t, conn, room, user);
      && 5 <= |es|
      && es[|es| - 1] == Send(Group(room), UserJoined(user))
      && es[|es| - 2] == Send(Group(room), UpdateUserList(after.members[room]))
      && user in after.members[room]
      && es[|es| - 4..|es| - 2] == AvailableRoomsNotices(after, conn)
      && room in after.active
      && es[|es| - 5] == AddToGroup(conn, room)
      && |es| == (if conn in t.bindings then |LeaveNotices(t, conn, t.bindings[conn], user)| else 0) + 5
    ensures conn in t.bindings ==>
      var leaving := LeaveNotices(t, conn, t.bindings[conn], user);
      var es := JoinNotices(t, conn, room, user);
      |leaving| <= |es| && es[..|leaving|] == leaving
  {
  }

  // ---------------------------------------------------------------------
  // Properties relating several operations
  // ---------------------------------------------------------------------

  /** Creating a room twice is the same as creating it once. */
  lemma CreateRoomIdempotent(t: Tables, room: string)
    ensures CreateRoom(CreateRoom(t, room), room) == CreateRoom(t, room)
  {
  }

  /**
   * A room created explicitly and never joined is deleted by the first
   * LeaveRoom naming it, whatever username that call gives.
   */
  lemma LeaveDeletesUnjoinedCreatedRoom(t: Tables, conn: string, room: string, user: string)
    requires Consistent(t) && room !in t.active
    ensures LeaveRoom(CreateRoom(t, room), conn, room, user).roomRemoved
    ensures room !in LeaveRoom(CreateRoom(t, room), conn, room, user).tables.active
  {
  }

  /** After the last member leaves, creating the room again gives it no members. */
  lemma RecreatedRoomIsEmpty(t: Tables, conn: string, room: string, user: string)
    requires LeaveRoom(t, conn, room, user).roomRemoved
    ensures var t' := CreateRoom(LeaveRoom(t, conn, room, user).tables, room);
      room in t'.members && t'.members[room] == {}
  {
  }

  /**
   * A join from a connection bound to another room moves the connection: the
   * username is gone from the old room, which is deleted exactly when the
   * username was its only possible member and otherwise loses only that
   * username; the connection is bound only to the new one.
   */
  lemma {:induction false} JoinMovesConnection(t: Tables, conn: string, room: string, user: string)
    requires Consistent(t) && conn in t.bindings && t.bindings[conn] != room
    ensures var old_room := t.bindings[conn];
      var r := JoinRoom(t, conn, room, user);
      && (old_room in r.members ==> user !in r.members[old_room])
      && (old_room in r.active <==> old_room in r.members)
      && r.bindings[conn] == room
      && (old_room in t.members ==>
            && (old_room in r.members <==> !(t.members[old_room] <= {user}))
            && (old_room in r.members ==> r.members[old_room] == t.members[old_room] - {user}))
  {
  }

  /**
   * The disconnect path, once it has picked `user` from the bound room,
   * keeps the tables consistent and unbinds the connection.
   */
  lemma DisconnectUnbinds(t: Tables, conn: string, user: string)
    requires Consistent(t)
    requires DisconnectTarget(t, conn).Some? && user in t.members[DisconnectTarget(t, conn).value]
    ensures var r := LeaveRoom(t, conn, DisconnectTarget(t, conn).value, user).tables;
      Consistent(r) && conn !in r.bindings
  {
  }

  /**
   * A connection whose bound room was deleted by some other connection's
   * LeaveRoom keeps its binding through the disconnect path.
   */
  lemma StaleBindingSurvivesDisconnect(t: Tables, conn: string, room: string)
    requires Consistent(t) && conn in t.bindings && t.bindings[conn] == room && room !in t.active
    ensures DisconnectTarget(t, conn) == None
  {
  }

  /** A first join from an unbound connection to an inactive room creates the room with that one member. */
  lemma JoinCreatesRoom(t: Tables, conn: string, room: string, user: string)
    requires Consistent(t) && conn !in t.bindings && room !in t.active
    ensures JoinRoom(t, conn, room, user) == Tables(t.active + {room}, t.members[room := {user}], t.bindings[conn := room])
  {
    assert {} + {user} == {user};
    assert t.members[room := {}][room := {user}] == t.members[room := {user}];
  }

  /** A join from an unbound connection to an active room only adds the member and the binding. */
  lemma JoinActiveRoom(t: Tables, conn: string, room: string, user: string)
    requires Consistent(t) && conn !in t.bindings && room in t.active
    ensures JoinRoom(t, conn, room, user)
         == Tables(t.active, t.members[room := t.members[room] + {user}], t.bindings[conn := room])
  {
  }

  // ---------------------------------------------------------------------
  // Scenarios
  // ---------------------------------------------------------------------

  /** Two users join "lobby" and the first leaves: "lobby" stays, with only the second. */
  lemma LobbyScenario()
    ensures var t1 := JoinRoom(Initial, "c1", "lobby", "alice");
      var t2 := JoinRoom(t1, "c2", "lobby", "bob");
      var t3 := LeaveRoom(t2, "c1", "lobby", "alice");
      && !t3.roomRemoved
      && t3.tables.active == {"lobby"}
      && t3.tables.members["lobby"] == {"bob"}
      && t3.tables.bindings == map["c2" := "lobby"]
  {
  }

  /** A single member joins "r1" and disconnects: no room is left. */
  lemma DisconnectScenario()
    ensures var t1 := JoinRoom(Initial, "c1", "r1", "alice");
      && DisconnectTarget(t1, "c1") == Some("r1")
      && t1.members["r1"] == {"alice"}
      && LeaveRoom(t1, "c1", "r1", "alice").tables == Initial
  {
  }

  /** A connection in "r1" joins "r2" without leaving: it ends bound to "r2" and "r1" is gone. */
  lemma MoveScenario()
    ensures var t1 := JoinRoom(Initial, "c1", "r1", "alice");
      var t2 := JoinRoom(t1, "c1", "r2", "alice");
      && t2.active == {"r2"}
      && t2.members == map["r2" := {"alice"}]
      && t2.bindings == map["c1" := "r2"]
  {
  }

  /**
   * The disconnect path may evict the wrong user: with alice (c1) and bob
   * (c2) in "lobby", disconnecting c2 may pick "alice", which leaves bob in
   * the room and removes alice.
   */
  lemma DisconnectMayEvictAnotherUser()
    ensures var t1 := JoinRoom(Initial, "c1", "lobby", "alice");
      var t2 := JoinRoom(t1, "c2", "lobby", "bob");
      var r := LeaveRoom(t2, "c2", "lobby", "alice").tables;
      && DisconnectTarget(t2, "c2") == Some("lobby")
      && "alice" in t2.members["lobby"]
      && r.members["lobby"] == {"bob"}
      && r.bindings == map["c1" := "lobby"]
  {
  }
}
