/**
 * The in-memory message store: an append-only list of chat message records
 * and a query that selects the records of one room, in the order they were
 * saved.
 */
module MessageStore {

  /** A persisted chat message; the id and the timestamp are opaque values supplied by the caller. */
  datatype ChatMessage = ChatMessage(
    id: string,
    roomid: string,
    username: string,
    content: string,
    timestamp: int)

  /** `a` can be obtained from `b` by deleting elements: its elements occur in `b` in the same order. */
  predicate IsSubsequence<T(==)>(a: seq<T>, b: seq<T>)
    decreases |b|
  {
    if a == [] then true
    else if b == [] then false
    else if a[0] == b[0] then IsSubsequence(a[1..], b[1..])
    else IsSubsequence(a, b[1..])
  }

  /** The messages of `s` whose room is `roomId`, in their order in `s`. */
  function ForRoom(s: seq<ChatMessage>, roomId: string): (r: seq<ChatMessage>)
    ensures |r| <= |s|
    ensures forall m | m in r :: m in s && m.roomid == roomId
  {
    if s == [] then []
    else if s[0].roomid == roomId then [s[0]] + ForRoom(s[1..], roomId)
    else ForRoom(s[1..], roomId)
  }

  /** Every message of `s` for the room is selected, and nothing else. */
  lemma {:induction false} ForRoomSelects(s: seq<ChatMessage>, roomId: string)
    ensures forall m :: m in ForRoom(s, roomId) <==> m in s && m.roomid == roomId
  {
    if s != [] {
      ForRoomSelects(s[1..], roomId);
      assert forall m :: m in s <==> m == s[0] || m in s[1..];
    }
  }

  /** Each message for the room is selected as many times as it was saved; others never. */
  lemma {:induction false} ForRoomCounts(s: seq<ChatMessage>, roomId: string, m: ChatMessage)
    ensures multiset(ForRoom(s, roomId))[m] == if m.roomid == roomId then multiset(s)[m] else 0
  {
    if s != [] {
      ForRoomCounts(s[1..], roomId, m);
      assert s == [s[0]] + s[1..];
      assert multiset(s) == multiset{s[0]} + multiset(s[1..]);
    }
  }

  /** The selection keeps the order of `s`. */
  lemma {:induction false} ForRoomIsSubsequence(s: seq<ChatMessage>, roomId: string)
    ensures IsSubsequence(ForRoom(s, roomId), s)
  {
    if s != [] {
      ForRoomIsSubsequence(s[1..], roomId);
      var rest := ForRoom(s[1..], roomId);
      if s[0].roomid != roomId && rest != [] {
        assert rest[0] in rest;
      }
    }
  }

  /** Appending a message extends its own room's selection by it and leaves every other room's alone. */
  lemma {:induction false} ForRoomAppend(s: seq<ChatMessage>, m: ChatMessage, roomId: string)
    ensures ForRoom(s + [m], roomId) == ForRoom(s, roomId) + (if m.roomid == roomId then [m] else [])
  {
    if s == [] {
      assert s + [m] == [m];
    } else {
      assert (s + [m])[1..] == s[1..] + [m];
      ForRoomAppend(s[1..], m, roomId);
    }
  }

  class InMemoryMessageStore {
    /** Every message saved so far, oldest first. */
    var messages: seq<ChatMessage>

    constructor ()
      ensures messages == []
    {
      messages := [];
    }

    /** Appends `m`; its room's query result gains `m` at the end, every other room's is unchanged. */
    method SaveMessage(m: ChatMessage)
      modifies this
      ensures messages == old(messages) + [m]
      ensures GetMessagesForRoom(m.roomid) == old(GetMessagesForRoom(m.roomid)) + [m]
      ensures forall r :: r != m.roomid ==> GetMessagesForRoom(r) == old(GetMessagesForRoom(r))
    {
      ForRoomAppend(messages, m, m.roomid);
      forall r | r != m.roomid
        ensures ForRoom(messages + [m], r) == ForRoom(messages, r)
      {
        ForRoomAppend(messages, m, r);
      }
      messages := messages + [m];
    }

    /**
     * The stored messages of a room, in the order they were saved. Reads the
     * list and changes nothing.
     */
    function GetMessagesForRoom(roomId: string): (r: seq<ChatMessage>)
      reads this
      ensures forall m :: m in r <==> m in messages && m.roomid == roomId
      ensures forall m :: multiset(r)[m] == if m.roomid == roomId then multiset(messages)[m] else 0
      ensures IsSubsequence(r, messages)
    {
      ForRoomSelects(messages, roomId);
      ForRoomIsSubsequence(messages, roomId);
      ForRoomCountsAll(messages, roomId);
      ForRoom(messages, roomId)
    }
  }

  /** ForRoomCounts for every message at once. */
  lemma ForRoomCountsAll(s: seq<ChatMessage>, roomId: string)
    ensures forall m :: multiset(ForRoom(s, roomId))[m] == if m.roomid == roomId then multiset(s)[m] else 0
  {
    forall m {
      ForRoomCounts(s, roomId, m);
    }
  }
}
