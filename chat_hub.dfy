/**
 * The chat hub's shared room registry as an object whose tables the hub
 * methods update in place. Each method takes the calling connection's id
 * explicitly and records what it hands to the transport (notifications and
 * group changes) in `outbox`. Every method is proved against the matching
 * function of RoomRegistry, so the properties proved there carry over.
 */
module ChatHub {
  import opened RoomRegistry

  class Hub {
    /** Ids of the active rooms. */
    var activeRooms: set<string>
    /** Member usernames of each room. */
    var roomUsers: map<string, set<string>>
    /** The room each connection is bound to. */
    var userRooms: map<string, string>
    /** Everything handed to the transport so far, oldest first. */
    var outbox: seq<Event>

    /** The three tables as one value. */
    function State(): Tables
      reads this`activeRooms, this`roomUsers, this`userRooms
    {
      Tables(activeRooms, roomUsers, userRooms)
    }

    /** The table-consistency invariant, which every operation keeps. */
    predicate Valid()
      reads this`activeRooms, this`roomUsers, this`userRooms
    {
      Consistent(State())
    }

    constructor ()
      ensures State() == Initial && outbox == []
      ensures Valid()
    {
      activeRooms := {};
      roomUsers := map[];
      userRooms := map[];
      outbox := [];
    }

    /** Sends the current room list to the caller, then to every other connection. */
    method BroadcastAvailableRooms(conn: string)
      modifies this`outbox
      ensures outbox == old(outbox) + AvailableRoomsNotices(State(), conn)
    {
      var rooms := activeRooms;
      outbox := outbox + [Send(Caller(conn), AvailableRooms(rooms))];
      outbox := outbox + [Send(Others(conn), AvailableRooms(rooms))];
    }

    /** Sends a room's member list to its group, if the room has an entry. */
    method BroadcastUserList(room: string)
      modifies this`outbox
      ensures outbox == old(outbox) + UserListNotices(State(), room)
    {
      if room in roomUsers {
        var users := roomUsers[room];
        outbox := outbox + [Send(Group(room), UpdateUserList(users))];
      }
    }

    /**
     * Activates `room` with no members unless it is already active, and
     * returns the room-list snapshot sent to the caller and the others.
     */
    method CreateRoom(conn: string, room: string) returns (rooms: set<string>)
      modifies this
      ensures State() == RoomRegistry.CreateRoom(old(State()), room)
      ensures room in rooms && rooms == activeRooms
      ensures outbox == old(outbox) + AvailableRoomsNotices(State(), conn)
      ensures old(Valid()) ==> Valid()
    {
      if room !in activeRooms {
        activeRooms := activeRooms + {room};
        roomUsers := roomUsers[room := {}];
      }
      rooms := activeRooms;
      outbox := outbox + [Send(Caller(conn), AvailableRooms(rooms))];
      outbox := outbox + [Send(Others(conn), AvailableRooms(rooms))];
    }

    /**
     * Removes `user` from `room`, deletes the room when its member set
     * becomes empty, unbinds the calling connection, and notifies.
     */
    method LeaveRoom(conn: string, room: string, user: string) returns (roomRemoved: bool)
      modifies this
      ensures var left := RoomRegistry.LeaveRoom(old(State()), conn, room, user);
        State() == left.tables && roomRemoved == left.roomRemoved
      ensures outbox == old(outbox) + LeaveNotices(old(State()), conn, room, user)
      ensures old(Valid()) ==> Valid()
    {
      ghost var before := State();
      ghost var left := RoomRegistry.LeaveRoom(before, conn, room, user);
      outbox := outbox + [RemoveFromGroup(conn, room)];
      roomRemoved := false;
      if room in roomUsers {
        var rest := roomUsers[room] - {user};
        roomUsers := roomUsers[room := rest];
        if |rest| == 0 {
          activeRooms := activeRooms - {room};
          roomUsers := roomUsers - {room};
          roomRemoved := true;
        }
      }
      userRooms := userRooms - {conn};
      assert State() == left.tables && roomRemoved == left.roomRemoved;
      ghost var notices := [RemoveFromGroup(conn, room)];
      if !roomRemoved {
        outbox := outbox + [Send(Group(room), UserLeft(user))];
        AppendAssoc(old(outbox), notices, [Send(Group(room), UserLeft(user))]);
        notices := notices + [Send(Group(room), UserLeft(user))];
        BroadcastUserList(room);
        AppendAssoc(old(outbox), notices, UserListNotices(left.tables, room));
        notices := notices + UserListNotices(left.tables, room);
      }
      BroadcastAvailableRooms(conn);
      AppendAssoc(old(outbox), notices, AvailableRoomsNotices(left.tables, conn));
      notices := notices + AvailableRoomsNotices(left.tables, conn);
      assert notices == LeaveNotices(before, conn, room, user);
    }

    /**
     * Leaves the connection's current room (under this call's username) if
     * it is bound, activates `room` if needed, adds `user` to it, binds the
     * connection to it, and notifies.
     */
    method JoinRoom(conn: string, room: string, user: string)
      modifies this
      ensures State() == RoomRegistry.JoinRoom(old(State()), conn, room, user)
      ensures outbox == old(outbox) + JoinNotices(old(State()), conn, room, user)
      ensures old(Valid()) ==> Valid()
    {
      ghost var before, sent := State(), outbox;
      if conn in userRooms {
        var currentRoom := userRooms[conn];
        var _ := LeaveRoom(conn, currentRoom, user);
      }
      ghost var leaving := if conn in before.bindings then LeaveNotices(before, conn, before.bindings[conn], user) else [];
      assert State() == ImplicitLeave(before, conn, user) && outbox == sent + leaving;
      ghost var sentBeforeJoin := outbox;
      if room !in activeRooms {
        activeRooms := activeRooms + {room};
        roomUsers := roomUsers[room := {}];
      }
      if room !in roomUsers {
        roomUsers := roomUsers[room := {}];
      }
      roomUsers := roomUsers[room := roomUsers[room] + {user}];
      userRooms := userRooms[conn := room];
      ghost var after := State();
      assert after == RoomRegistry.JoinRoom(before, conn, room, user);
      JoinRoomFrame(before, conn, room, user);
      outbox := outbox + [AddToGroup(conn, room)];
      ghost var joined := [AddToGroup(conn, room)];
      BroadcastAvailableRooms(conn);
      AppendAssoc(sentBeforeJoin, joined, AvailableRoomsNotices(after, conn));
      joined := joined + AvailableRoomsNotices(after, conn);
      BroadcastUserList(room);
      AppendAssoc(sentBeforeJoin, joined, UserListNotices(after, room));
      joined := joined + UserListNotices(after, room);
      outbox := outbox + [Send(Group(room), UserJoined(user))];
      AppendAssoc(sentBeforeJoin, joined, [Send(Group(room), UserJoined(user))]);
      joined := joined + [Send(Group(room), UserJoined(user))];
      assert outbox == sentBeforeJoin + joined;
      assert JoinNotices(before, conn, room, user) == leaving + joined;
      AppendAssoc(sent, leaving, joined);
    }

    /**
     * The disconnect path: when the connection is bound to a room that still
     * has members, some member of that room (any one: the predicate of
     * `FirstOrDefault` at ChatHub.cs:260 ignores its argument) is made to
     * leave it; otherwise
     * nothing changes. Returns the username that was made to leave.
     */
    method OnDisconnected(conn: string) returns (evicted: Option<string>)
      modifies this
      ensures match DisconnectTarget(old(State()), conn)
        case None =>
          evicted == None && State() == old(State()) && outbox == old(outbox)
        case Some(room) =>
          && evicted.Some?
          && evicted.value in old(roomUsers)[room]
          && State() == RoomRegistry.LeaveRoom(old(State()), conn, room, evicted.value).tables
          && outbox == old(outbox) + LeaveNotices(old(State()), conn, room, evicted.value)
      ensures old(Valid()) ==> Valid()
    {
      evicted := None;
      if conn in userRooms {
        var room := userRooms[conn];
        if room in roomUsers && roomUsers[room] != {} {
          var user :| user in roomUsers[room];
          var _ := LeaveRoom(conn, room, user);
          evicted := Some(user);
        }
      }
    }

    /** A newly connected client gets the room list, and so does everyone else. */
    method OnConnected(conn: string)
      modifies this`outbox
      ensures outbox == old(outbox) + AvailableRoomsNotices(State(), conn)
    {
      var rooms := activeRooms;
      outbox := outbox + [Send(Caller(conn), AvailableRooms(rooms))];
      outbox := outbox + [Send(Others(conn), AvailableRooms(rooms))];
    }

    /** An explicit request for the room list. */
    method RequestRoomList(conn: string)
      modifies this`outbox
      ensures outbox == old(outbox) + AvailableRoomsNotices(State(), conn)
    {
      BroadcastAvailableRooms(conn);
    }

    /** Relays a typing signal to the room's group; the tables are not touched. */
    method UserTyping(room: string, user: string)
      modifies this`outbox
      ensures outbox == old(outbox) + [Send(Group(room), Notice.UserTyping(user))]
    {
      outbox := outbox + [Send(Group(room), Notice.UserTyping(user))];
    }

    /**
     * Delivers a chat message to the room's group, stamped with the time the
     * caller supplies; the tables are not touched.
     */
    method SendMessage(room: string, user: string, message: string, timestamp: int)
      modifies this`outbox
      ensures outbox == old(outbox) + [Send(Group(room), ReceiveMessage(user, message, timestamp))]
    {
      outbox := outbox + [Send(Group(room), ReceiveMessage(user, message, timestamp))];
    }
  }

  /**
   * A client of the hub: two connections join "lobby", the first leaves,
   * the second disconnects. Only the methods' contracts are used. Alice's
   * leave keeps the room, the disconnect evicts bob, the only member left,
   * and the registry ends empty.
   */
  method LobbyClient() returns (removed: bool, evicted: Option<string>, rooms: set<string>)
    ensures !removed && evicted == Some("bob") && rooms == {}
  {
    LobbyScenario();
    var hub := new Hub();
    hub.JoinRoom("c1", "lobby", "alice");
    hub.JoinRoom("c2", "lobby", "bob");
    removed := hub.LeaveRoom("c1", "lobby", "alice");
    assert hub.roomUsers["lobby"] == {"bob"};
    evicted := hub.OnDisconnected("c2");
    rooms := hub.activeRooms;
  }

  /** Associativity of sequence concatenation; called only to keep the hub methods' proofs cheap. */
  lemma AppendAssoc<T>(a: seq<T>, b: seq<T>, c: seq<T>)
    ensures (a + b) + c == a + (b + c)
  {
  }
}
