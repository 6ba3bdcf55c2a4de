/**
 * The client-side presence state of the WebSocket hook: six pieces of state
 * (connection state, current user, online users, rooms, current room and the
 * system-event feed), the handler for decoded server messages, and the
 * mock-mode transitions that stand in for a presence server.
 *
 * Ids and clock readings (`Date.now`, `Math.random`, ISO timestamps) are
 * parameters of the operations that use them.
 */
module Presence {
  import opened Wrappers
  import opened Seqs
  import opened WebSocketTypes

  // ---------------------------------------------------------------------------
  // The system-event feed: newest first, at most 50 entries.
  // ---------------------------------------------------------------------------

  const MaxSystemEvents: nat := 50

  /** The feed after logging `e`: `[e, ...log].slice(0, 50)`. */
  function PrependEvent(log: seq<SystemEvent>, e: SystemEvent): (r: seq<SystemEvent>)
    ensures |r| == if |log| < MaxSystemEvents then |log| + 1 else MaxSystemEvents
    ensures r[0] == e
    ensures r[1..] == log[..|r| - 1]
  {
    var n := if |log| < MaxSystemEvents then |log| + 1 else MaxSystemEvents;
    assert ([e] + log)[1..n] == log[..n - 1];
    ([e] + log)[..n]
  }

  /** The feed after logging each of `es` in turn. */
  ghost function PrependEvents(log: seq<SystemEvent>, es: seq<SystemEvent>): seq<SystemEvent>
    decreases es
  {
    if es == [] then log else PrependEvents(PrependEvent(log, es[0]), es[1..])
  }

  /**
   * Logging a series of events keeps exactly the 50 most recent entries, newest
   * first: the latest events in reverse order of arrival, then the earlier feed,
   * with the oldest entries dropped.
   */
  lemma {:induction false} FeedKeepsMostRecent(log: seq<SystemEvent>, es: seq<SystemEvent>)
    requires |log| <= MaxSystemEvents
    decreases es
    ensures PrependEvents(log, es) == (Reversed(es) + log)[..Min(|es| + |log|, MaxSystemEvents)]
  {
    if es == [] {
      assert Reversed(es) + log == log;
    } else {
      var e, rest := es[0], es[1..];
      var log' := PrependEvent(log, e);
      FeedKeepsMostRecent(log', rest);
      var m := Min(|rest| + |log'|, MaxSystemEvents);
      assert m == Min(|es| + |log|, MaxSystemEvents);
      assert log' == ([e] + log)[..|log'|];
      var x := Reversed(rest);
      assert Reversed(es) + log == x + ([e] + log);
      assert (x + log')[..m] == (x + ([e] + log))[..m];
    }
  }

  // ---------------------------------------------------------------------------
  // ONLINE_USERS: grouping the online users into rooms.
  // ---------------------------------------------------------------------------

  /** JavaScript truthiness of `user.roomId`: neither `null` nor the empty string. */
  predicate InSomeRoom(u: User)
  {
    u.roomId.Some? && u.roomId.value != ""
  }

  /** The room id of every user in a room, in input order. */
  function RoomIdList(users: seq<User>): (ids: seq<string>)
    ensures forall id :: id in ids <==> exists u :: u in users && InSomeRoom(u) && u.roomId.value == id
  {
    if users == [] then []
    else
      var init, last := users[..|users| - 1], users[|users| - 1];
      assert users == init + [last];
      RoomIdList(init) + (if InSomeRoom(last) then [last.roomId.value] else [])
  }

  /** The users whose room id is `id`, in input order. */
  function Members(users: seq<User>, id: string): seq<User>
  {
    Filter(users, (u: User) => u.roomId == Some(id))
  }

  function RoomOf(id: string, members: seq<User>): Room
  {
    Room(id, id, |members|, members)
  }

  /**
   * Reference definition of the grouping: one room per distinct room id in order
   * of first appearance, named by its id, holding the users with that id.
   */
  function Grouping(users: seq<User>): seq<Room>
  {
    var ids := Distinct(RoomIdList(users));
    seq(|ids|, i requires 0 <= i < |ids| => RoomOf(ids[i], Members(users, ids[i])))
  }

  /** Position of the first room with id `id`, or `|rooms|` when there is none. */
  function IndexOfRoom(rooms: seq<Room>, id: string): (j: nat)
    ensures j <= |rooms|
    ensures j < |rooms| ==> rooms[j].id == id
    ensures forall i :: 0 <= i < j ==> rooms[i].id != id
  {
    if rooms == [] then 0
    else if rooms[0].id == id then 0
    else 1 + IndexOfRoom(rooms[1..], id)
  }

  /**
   * One step of the `forEach` over the online users, on the room map's values in
   * insertion order: a user in a room joins the existing entry for that room
   * (its count becomes its length) or starts a new entry of one.
   */
  function AddToRoomMap(rooms: seq<Room>, user: User): (r: seq<Room>)
    ensures !InSomeRoom(user) ==> r == rooms
    ensures |rooms| <= |r| <= |rooms| + 1
    ensures |r| == (if InSomeRoom(user) && IndexOfRoom(rooms, user.roomId.value) == |rooms| then |rooms| + 1 else |rooms|)
    ensures forall i :: 0 <= i < |rooms| ==> r[i].id == rooms[i].id
    ensures forall i :: 0 <= i < |rooms| && user.roomId != Some(rooms[i].id) ==> r[i] == rooms[i]
    ensures InSomeRoom(user) ==>
      var j := IndexOfRoom(rooms, user.roomId.value);
      && j < |r| && r[j].id == user.roomId.value
      && r[j].users == (if j < |rooms| then rooms[j].users else []) + [user]
      && r[j].userCount == |r[j].users|
      && r[j].name == (if j < |rooms| then rooms[j].name else user.roomId.value)
      && forall i :: 0 <= i < |rooms| && i != j ==> r[i] == rooms[i]
  {
    if !InSomeRoom(user) then rooms
    else
      var id := user.roomId.value;
      var j := IndexOfRoom(rooms, id);
      if j < |rooms| then
        var users := rooms[j].users + [user];
        rooms[j := rooms[j].(users := users, userCount := |users|)]
      else
        rooms + [Room(id, id, 1, [user])]
  }

  lemma MembersOfNew(users: seq<User>, u: User, id: string)
    ensures Members(users + [u], id) == Members(users, id) + (if u.roomId == Some(id) then [u] else [])
  {
    FilterAppend(users, [u], (v: User) => v.roomId == Some(id));
  }

  /** A room id no user carries has no members. */
  lemma MembersOfAbsent(users: seq<User>, id: string)
    requires id != ""
    ensures id in RoomIdList(users) || Members(users, id) == []
  {
    var m := Members(users, id);
    if m != [] {
      assert m[0] in m;
    }
  }

  /** A user outside the rooms `ids` leaves their member lists as they were. */
  lemma MembersOfOthers(users: seq<User>, u: User, ids: seq<string>)
    requires forall i :: 0 <= i < |ids| ==> u.roomId != Some(ids[i])
    ensures forall i :: 0 <= i < |ids| ==> Members(users + [u], ids[i]) == Members(users, ids[i])
  {
    forall i | 0 <= i < |ids|
      ensures Members(users + [u], ids[i]) == Members(users, ids[i])
    {
      MembersOfNew(users, u, ids[i]);
    }
  }

  /** The room ids of a longer list: the prefix's, then the new user's if it is in a room. */
  lemma RoomIdListStep(users: seq<User>, u: User)
    ensures RoomIdList(users + [u]) == RoomIdList(users) + (if InSomeRoom(u) then [u.roomId.value] else [])
  {
    var us := users + [u];
    assert us[..|us| - 1] == users;
  }

  lemma {:induction false} GroupingStepNoRoom(users: seq<User>, u: User)
    requires !InSomeRoom(u)
    ensures Grouping(users + [u]) == AddToRoomMap(Grouping(users), u)
  {
    RoomIdListStep(users, u);
    assert RoomIdList(users + [u]) == RoomIdList(users);
    var ids := Distinct(RoomIdList(users));
    forall i | 0 <= i < |ids|
      ensures u.roomId != Some(ids[i])
    {
      assert ids[i] in RoomIdList(users);
    }
    MembersOfOthers(users, u, ids);
    var g, g' := Grouping(users), Grouping(users + [u]);
    assert |g'| == |g|;
    assert forall i :: 0 <= i < |g| ==> g'[i] == g[i];
  }

  lemma {:induction false} GroupingStepExisting(users: seq<User>, u: User)
    requires InSomeRoom(u) && u.roomId.value in RoomIdList(users)
    ensures Grouping(users + [u]) == AddToRoomMap(Grouping(users), u)
  {
    var us := users + [u];
    var id := u.roomId.value;
    RoomIdListStep(users, u);
    DistinctStepSeen(RoomIdList(users), id);
    var ids := Distinct(RoomIdList(users));
    var g, g' := Grouping(users), Grouping(us);
    var k := FirstIndex(ids, id);
    assert g[k].id == id;
    assert IndexOfRoom(g, id) == k;
    var r := AddToRoomMap(g, u);
    forall i | 0 <= i < |ids|
      ensures g'[i] == r[i]
    {
      MembersOfNew(users, u, ids[i]);
    }
  }

  /** Every listed room id differs from one no user carries. */
  lemma ListedIdsDiffer(users: seq<User>, id: string)
    requires id !in RoomIdList(users)
    ensures forall i :: 0 <= i < |Distinct(RoomIdList(users))| ==> Distinct(RoomIdList(users))[i] != id
  {
  }

  /** The first user carrying a room id is that room's only member. */
  lemma MembersOfFirst(users: seq<User>, u: User)
    requires InSomeRoom(u) && u.roomId.value !in RoomIdList(users)
    ensures Members(users + [u], u.roomId.value) == [u]
  {
    MembersOfNew(users, u, u.roomId.value);
    MembersOfAbsent(users, u.roomId.value);
  }

  lemma {:induction false} GroupingStepNew(users: seq<User>, u: User)
    requires InSomeRoom(u) && u.roomId.value !in RoomIdList(users)
    ensures Grouping(users + [u]) == AddToRoomMap(Grouping(users), u)
  {
    var us := users + [u];
    var id := u.roomId.value;
    RoomIdListStep(users, u);
    DistinctStepNew(RoomIdList(users), id);
    var ids := Distinct(RoomIdList(users));
    var g, g' := Grouping(users), Grouping(us);
    assert |g'| == |g| + 1;
    ListedIdsDiffer(users, id);
    MembersOfOthers(users, u, ids);
    forall i | 0 <= i < |g|
      ensures g'[i] == g[i]
    {
    }
    MembersOfFirst(users, u);
    assert g'[|g|] == Room(id, id, 1, [u]);
    assert IndexOfRoom(g, id) == |g|;
    assert g' == g + [Room(id, id, 1, [u])];
  }

  /** The grouping of a longer list is one map step on the grouping of its prefix. */
  lemma GroupingStep(users: seq<User>, u: User)
    ensures Grouping(users + [u]) == AddToRoomMap(Grouping(users), u)
  {
    if !InSomeRoom(u) {
      GroupingStepNoRoom(users, u);
    } else if u.roomId.value in RoomIdList(users) {
      GroupingStepExisting(users, u);
    } else {
      GroupingStepNew(users, u);
    }
  }

  /** One more user of the list: the grouping of the longer prefix is one map step further. */
  lemma GroupingPrefixStep(users: seq<User>, k: nat)
    requires k < |users|
    ensures Grouping(users[..k + 1]) == AddToRoomMap(Grouping(users[..k]), users[k])
  {
    assert users[..k + 1] == users[..k] + [users[k]];
    GroupingStep(users[..k], users[k]);
  }

  /**
   * The `forEach` that builds the room map for an ONLINE_USERS message: it
   * computes exactly the reference grouping.
   */
  method GroupUsersByRoom(users: seq<User>) returns (rooms: seq<Room>)
    ensures rooms == Grouping(users)
  {
    rooms := [];
    var k := 0;
    while k < |users|
      invariant 0 <= k <= |users|
      invariant rooms == Grouping(users[..k])
    {
      GroupingPrefixStep(users, k);
      rooms := AddToRoomMap(rooms, users[k]);
      k := k + 1;
    }
    assert users[..k] == users;
  }

  /**
   * Shape of the grouping: room ids are distinct and are exactly the room ids
   * of users in a room; each room is named by its id, counts its users, and
   * holds exactly the users carrying its id, in input order.
   */
  lemma GroupingShape(users: seq<User>)
    ensures var rooms := Grouping(users);
      && (forall i, j :: 0 <= i < j < |rooms| ==> rooms[i].id != rooms[j].id)
      && (forall i :: 0 <= i < |rooms| ==> rooms[i].id in RoomIdList(users))
      && (forall u :: u in users && InSomeRoom(u) ==>
            exists i :: 0 <= i < |rooms| && rooms[i].id == u.roomId.value)
      && (forall i :: 0 <= i < |rooms| ==>
            && rooms[i].name == rooms[i].id
            && rooms[i].userCount == |rooms[i].users|
            && SubsequenceOf(rooms[i].users, users)
            && (forall u :: u in rooms[i].users <==> u in users && u.roomId == Some(rooms[i].id)))
  {
    var rooms := Grouping(users);
    var ids := Distinct(RoomIdList(users));
    forall u | u in users && InSomeRoom(u)
      ensures exists i :: 0 <= i < |rooms| && rooms[i].id == u.roomId.value
    {
      var id := u.roomId.value;
      assert id in ids;
      var i := FirstIndex(ids, id);
      assert rooms[i].id == id;
    }
    forall i | 0 <= i < |rooms|
      ensures rooms[i].name == rooms[i].id && rooms[i].userCount == |rooms[i].users|
      ensures SubsequenceOf(rooms[i].users, users)
      ensures forall u :: u in rooms[i].users <==> u in users && u.roomId == Some(rooms[i].id)
    {
      assert rooms[i] == RoomOf(ids[i], Members(users, ids[i]));
      assert ids[i] in RoomIdList(users);
      FilterIsSubsequence(users, (u: User) => u.roomId == Some(ids[i]));
    }
  }

  /** Rooms appear in the order in which their ids first occur among the users. */
  lemma GroupingOrder(users: seq<User>, i: nat, j: nat)
    requires i < j < |Grouping(users)|
    ensures Grouping(users)[i].id in RoomIdList(users) && Grouping(users)[j].id in RoomIdList(users)
    ensures FirstIndex(RoomIdList(users), Grouping(users)[i].id) < FirstIndex(RoomIdList(users), Grouping(users)[j].id)
  {
    DistinctInFirstAppearanceOrder(RoomIdList(users), i, j);
  }

  function SumCounts(rooms: seq<Room>): int
  {
    if rooms == [] then 0 else rooms[0].userCount + SumCounts(rooms[1..])
  }

  lemma {:induction false} SumCountsAppend(rooms: seq<Room>, r: Room)
    ensures SumCounts(rooms + [r]) == SumCounts(rooms) + r.userCount
  {
    if rooms != [] {
      assert (rooms + [r])[1..] == rooms[1..] + [r];
      SumCountsAppend(rooms[1..], r);
    }
  }

  lemma {:induction false} SumCountsUpdate(rooms: seq<Room>, j: nat, r: Room)
    requires j < |rooms|
    ensures SumCounts(rooms[j := r]) == SumCounts(rooms) - rooms[j].userCount + r.userCount
  {
    if j > 0 {
      assert rooms[j := r][1..] == rooms[1..][j - 1 := r];
      SumCountsUpdate(rooms[1..], j - 1, r);
    }
  }

  /**
   * Every user in a room is counted exactly once: the room counts add up to the
   * number of users whose room id is set, and users without one are in no room.
   */
  lemma {:induction false} GroupingCountsRoomedUsers(users: seq<User>)
    ensures SumCounts(Grouping(users)) == |Filter(users, InSomeRoom)|
  {
    if users != [] {
      var init, u := users[..|users| - 1], users[|users| - 1];
      assert users == init + [u];
      GroupingCountsRoomedUsers(init);
      GroupingStep(init, u);
      FilterAppend(init, [u], InSomeRoom);
      var g := Grouping(init);
      if InSomeRoom(u) {
        var j := IndexOfRoom(g, u.roomId.value);
        if j < |g| {
          var users' := g[j].users + [u];
          SumCountsUpdate(g, j, g[j].(users := users', userCount := |users'|));
          GroupingShape(init);
        } else {
          SumCountsAppend(g, Room(u.roomId.value, u.roomId.value, 1, [u]));
        }
      }
    }
  }

  /** Users without a (truthy) room id are in no room. */
  lemma GroupingHoldsOnlyRoomedUsers(users: seq<User>)
    ensures forall i, u :: 0 <= i < |Grouping(users)| && u in Grouping(users)[i].users ==> InSomeRoom(u)
  {
    var rooms := Grouping(users);
    GroupingShape(users);
    forall i, u | 0 <= i < |rooms| && u in rooms[i].users
      ensures InSomeRoom(u)
    {
      var w :| w in users && InSomeRoom(w) && w.roomId.value == rooms[i].id;
      assert u.roomId == Some(rooms[i].id);
    }
  }

  // ---------------------------------------------------------------------------
  // Room-list transforms used by the mock transitions.
  // ---------------------------------------------------------------------------

  /** First room with id `id` (`Array.prototype.find`). */
  function FindRoom(rooms: seq<Room>, id: string): (r: Option<Room>)
    ensures r.Some? <==> exists i :: 0 <= i < |rooms| && rooms[i].id == id
    ensures r.Some? ==> r.value.id == id && r.value == rooms[IndexOfRoom(rooms, id)]
  {
    var j := IndexOfRoom(rooms, id);
    if j < |rooms| then Some(rooms[j]) else None
  }

  /** `rooms.map(r => r.id === id ? room : r)`. */
  function ReplaceRoom(rooms: seq<Room>, id: string, room: Room): (r: seq<Room>)
    ensures |r| == |rooms|
    ensures forall i :: 0 <= i < |rooms| && rooms[i].id != id ==> r[i] == rooms[i]
    ensures forall i :: 0 <= i < |rooms| && rooms[i].id == id ==> r[i] == room
  {
    MapSeq(rooms, (x: Room) => if x.id == id then room else x)
  }

  /** `users.filter(u => u.id !== userId)`: the other users, in order, every occurrence kept. */
  function RemoveUser(users: seq<User>, userId: string): (r: seq<User>)
    ensures forall u :: u in r <==> u in users && u.id != userId
    ensures SubsequenceOf(r, users)
    ensures forall u :: multiset(r)[u] == (if u.id != userId then multiset(users)[u] else 0)
  {
    FilterIsSubsequence(users, (u: User) => u.id != userId);
    FilterCounts(users, (u: User) => u.id != userId);
    Filter(users, (u: User) => u.id != userId)
  }

  /** A room after the user `userId` left it: without that user, one fewer counted. */
  function Departed(room: Room, userId: string): (r: Room)
    ensures r.id == room.id && r.name == room.name
    ensures r.userCount == room.userCount - 1
    ensures forall u :: u in r.users <==> u in room.users && u.id != userId
    ensures SubsequenceOf(r.users, room.users)
    ensures forall u :: multiset(r.users)[u] == (if u.id != userId then multiset(room.users)[u] else 0)
  {
    room.(users := RemoveUser(room.users, userId), userCount := room.userCount - 1)
  }

  /** The `map` stage of leaving: the room being left departs, every other room stays at its index. */
  function DepartRoom(rooms: seq<Room>, roomId: string, userId: string): (r: seq<Room>)
    ensures |r| == |rooms|
    ensures forall i :: 0 <= i < |rooms| && rooms[i].id != roomId ==> r[i] == rooms[i]
    ensures forall i :: 0 <= i < |rooms| && rooms[i].id == roomId ==> r[i] == Departed(rooms[i], userId)
  {
    MapSeq(rooms, (x: Room) => if x.id == roomId then Departed(x, userId) else x)
  }

  /** Membership in the `map` stage: other rooms are kept as they were, the left room departs. */
  lemma DepartRoomMembers(rooms: seq<Room>, roomId: string, userId: string)
    ensures forall x :: x in rooms && x.id != roomId ==> x in DepartRoom(rooms, roomId, userId)
    ensures forall y :: y in rooms && y.id == roomId ==> Departed(y, userId) in DepartRoom(rooms, roomId, userId)
    ensures forall x :: x in DepartRoom(rooms, roomId, userId) && x.id != roomId ==> x in rooms
    ensures forall x :: x in DepartRoom(rooms, roomId, userId) && x.id == roomId ==>
      exists y :: y in rooms && y.id == roomId && x == Departed(y, userId)
  {
    var updated := DepartRoom(rooms, roomId, userId);
    forall x | x in rooms && x.id != roomId
      ensures x in updated
    {
      var i :| 0 <= i < |rooms| && rooms[i] == x;
      assert updated[i] == x;
    }
    forall y | y in rooms && y.id == roomId
      ensures Departed(y, userId) in updated
    {
      var i :| 0 <= i < |rooms| && rooms[i] == y;
      assert updated[i] == Departed(y, userId);
    }
    forall x | x in updated
      ensures x.id != roomId ==> x in rooms
      ensures x.id == roomId ==> exists y :: y in rooms && y.id == roomId && x == Departed(y, userId)
    {
      var i :| 0 <= i < |updated| && updated[i] == x;
      if rooms[i].id == roomId {
        assert x == Departed(rooms[i], userId);
      } else {
        assert x == rooms[i];
      }
    }
  }

  /**
   * The room list after the user `userId` left room `roomId`: the left room
   * loses the user and one count, other rooms are kept, and rooms left with no
   * count are dropped.
   */
  function LeaveRooms(rooms: seq<Room>, roomId: string, userId: string): (r: seq<Room>)
    ensures forall x :: x in r ==> x.userCount > 0
    ensures forall x :: x in rooms && x.id != roomId && x.userCount > 0 ==> x in r
    ensures forall y :: y in rooms && y.id == roomId && y.userCount > 1 ==> Departed(y, userId) in r
    ensures forall x :: x in r && x.id != roomId ==> x in rooms
    ensures forall x :: x in r && x.id == roomId ==>
      (exists y :: y in rooms && y.id == roomId && x == Departed(y, userId))
    ensures forall x, u :: x in r && x.id == roomId && u in x.users ==> u.id != userId
  {
    DepartRoomMembers(rooms, roomId, userId);
    Filter(DepartRoom(rooms, roomId, userId), (x: Room) => x.userCount > 0)
  }

  /** Leaving keeps the order of the surviving rooms and drops exactly those whose count is not positive. */
  lemma LeaveRoomsInOrder(rooms: seq<Room>, roomId: string, userId: string)
    ensures SubsequenceOf(LeaveRooms(rooms, roomId, userId), DepartRoom(rooms, roomId, userId))
    ensures forall x :: (multiset(LeaveRooms(rooms, roomId, userId))[x] ==
      if x.userCount > 0 then multiset(DepartRoom(rooms, roomId, userId))[x] else 0)
  {
    FilterIsSubsequence(DepartRoom(rooms, roomId, userId), (x: Room) => x.userCount > 0);
    FilterCounts(DepartRoom(rooms, roomId, userId), (x: Room) => x.userCount > 0);
  }

  // ---------------------------------------------------------------------------
  // Fixture data of the mock mode.
  // ---------------------------------------------------------------------------

  /** The clock readings taken when the fixtures are created (module load). */
  datatype LoadTimes = LoadTimes(
    now: string,
    fiveMinutesAgo: string,
    oneMinuteAgo: string,
    fortyFiveSecondsAgo: string,
    thirtySecondsAgo: string,
    fifteenSecondsAgo: string)

  function MockUsers(t: LoadTimes): seq<User>
  {
    [ User("user-1", "Alice", Online, Some("general"), t.now),
      User("user-2", "Bob", Online, Some("general"), t.now),
      User("user-3", "Charlie", Away, Some("dev-team"), t.fiveMinutesAgo),
      User("user-4", "Diana", Online, Some("dev-team"), t.now),
      User("user-5", "Eve", Online, Some("design"), t.now) ]
  }

  function MockRooms(t: LoadTimes): (rooms: seq<Room>)
    ensures |rooms| == 3
    ensures rooms[0].id == "general" && rooms[1].id == "dev-team" && rooms[2].id == "design"
  {
    [ Room("general", "General", 2, Members(MockUsers(t), "general")),
      Room("dev-team", "Dev Team", 2, Members(MockUsers(t), "dev-team")),
      Room("design", "Design", 1, Members(MockUsers(t), "design")) ]
  }

  function MockSystemEvents(t: LoadTimes): seq<SystemEvent>
  {
    [ SystemEvent("1", "Alice joined the room", t.oneMinuteAgo, JoinEvent, Some("general")),
      SystemEvent("2", "Bob joined the room", t.fortyFiveSecondsAgo, JoinEvent, Some("general")),
      SystemEvent("3", "System initialized", t.thirtySecondsAgo, SystemNotice, None),
      SystemEvent("4", "Charlie went away", t.fifteenSecondsAgo, SystemNotice, Some("dev-team")) ]
  }

  // ---------------------------------------------------------------------------
  // mockJoinRoom's effect on the room list and the current room.
  // ---------------------------------------------------------------------------

  /**
   * The room a join puts the user in: the fixture room with that id plus the
   * user, or a new room of one.
   */
  function JoinedRoom(fixture: seq<Room>, roomId: string, user: User): (r: Room)
    ensures r.id == roomId
    ensures |r.users| > 0 && r.users[|r.users| - 1] == user
    ensures FindRoom(fixture, roomId).None? ==> r == Room(roomId, roomId, 1, [user])
    ensures FindRoom(fixture, roomId).Some? ==>
      var f := FindRoom(fixture, roomId).value;
      r.name == f.name && r.users == f.users + [user] && r.userCount == f.userCount + 1
  {
    match FindRoom(fixture, roomId)
    case Some(existing) =>
      existing.(users := existing.users + [user], userCount := existing.userCount + 1)
    case None => Room(roomId, roomId, 1, [user])
  }

  /**
   * The room list after a join: a fixture room replaces every entry with its id
   * (and is not added when there is none); any other room is appended.
   */
  function RoomsAfterJoin(rooms: seq<Room>, fixture: seq<Room>, roomId: string, user: User): (r: seq<Room>)
    ensures FindRoom(fixture, roomId).Some? ==> r == ReplaceRoom(rooms, roomId, JoinedRoom(fixture, roomId, user))
    ensures FindRoom(fixture, roomId).None? ==> r == rooms + [Room(roomId, roomId, 1, [user])]
  {
    var room := JoinedRoom(fixture, roomId, user);
    if FindRoom(fixture, roomId).Some? then ReplaceRoom(rooms, roomId, room) else rooms + [room]
  }

  /** A join leaves every room with another id where it was: nobody is taken out of a previous room. */
  lemma JoinKeepsOtherRooms(rooms: seq<Room>, fixture: seq<Room>, roomId: string, user: User)
    ensures var r := RoomsAfterJoin(rooms, fixture, roomId, user);
      |rooms| <= |r| <= |rooms| + 1 &&
      forall i :: 0 <= i < |rooms| && rooms[i].id != roomId ==> r[i] == rooms[i]
  {
  }

  /** Joining a room unknown to the fixture twice leaves two entries for that room. */
  lemma {:induction false} JoinUnknownRoomTwiceDuplicates(rooms: seq<Room>, fixture: seq<Room>, roomId: string, u1: User, u2: User)
    requires FindRoom(fixture, roomId).None?
    ensures var r := RoomsAfterJoin(RoomsAfterJoin(rooms, fixture, roomId, u1), fixture, roomId, u2);
      |r| == |rooms| + 2 && r[|rooms|].id == roomId && r[|rooms| + 1].id == roomId
  {
    var r1 := RoomsAfterJoin(rooms, fixture, roomId, u1);
    assert r1 == rooms + [Room(roomId, roomId, 1, [u1])];
    assert RoomsAfterJoin(r1, fixture, roomId, u2) == r1 + [Room(roomId, roomId, 1, [u2])];
  }

  /**
   * Joining a fixture room starts from the fixture's entry, not from the
   * current list: after a second join the room again holds the fixture's users
   * plus only the latest user.
   */
  lemma JoinFixtureRoomForgetsEarlierJoin(rooms: seq<Room>, fixture: seq<Room>, roomId: string, u1: User, u2: User)
    requires FindRoom(fixture, roomId).Some?
    ensures var r := RoomsAfterJoin(RoomsAfterJoin(rooms, fixture, roomId, u1), fixture, roomId, u2);
      forall i :: 0 <= i < |r| && r[i].id == roomId ==>
        r[i].userCount == FindRoom(fixture, roomId).value.userCount + 1 &&
        r[i].users == FindRoom(fixture, roomId).value.users + [u2]
  {
  }

  // ---------------------------------------------------------------------------
  // The hook.
  // ---------------------------------------------------------------------------

  /** The six pieces of hook state, as one value. */
  datatype HookState = HookState(
    connectionState: ConnectionState,
    currentUser: Option<User>,
    onlineUsers: seq<User>,
    rooms: seq<Room>,
    currentRoom: Option<Room>,
    systemEvents: seq<SystemEvent>)

  class PresenceClient {
    /** Clock readings of the fixtures, fixed when the module is loaded. */
    const loadTimes: LoadTimes

    var connectionState: ConnectionState
    var currentUser: Option<User>
    var onlineUsers: seq<User>
    var rooms: seq<Room>
    var currentRoom: Option<Room>
    var systemEvents: seq<SystemEvent>

    /** The feed never holds more than 50 entries. */
    ghost predicate Valid()
      reads this
    {
      |systemEvents| <= MaxSystemEvents
    }

    function State(): HookState
      reads this
    {
      HookState(connectionState, currentUser, onlineUsers, rooms, currentRoom, systemEvents)
    }

    constructor (loadTimes: LoadTimes)
      ensures Valid() && this.loadTimes == loadTimes
      ensures State() == HookState(Disconnected, None, [], [], None, [])
    {
      this.loadTimes := loadTimes;
      connectionState := Disconnected;
      currentUser := None;
      onlineUsers := [];
      rooms := [];
      currentRoom := None;
      systemEvents := [];
    }

    /** `isConnected` of the hook's result. */
    function IsConnected(): (b: bool)
      reads this
      ensures b <==> connectionState == Connected
    {
      connectionState == Connected
    }

    /** Logs `e` (whose `id` is the freshly generated one) at the head of the feed. */
    method AddSystemEvent(e: SystemEvent)
      requires Valid()
      modifies this
      ensures Valid()
      ensures State() == old(State()).(systemEvents := PrependEvent(old(systemEvents), e))
    {
      systemEvents := PrependEvent(systemEvents, e);
    }

    /**
     * Applies one inbound frame. `eventId` is the id a SYSTEM message's feed
     * entry receives; `userId` and `now` are the id and `lastSeen` of the user a
     * JOIN acknowledgement creates.
     */
    method HandleMessage(frame: Frame, eventId: string, userId: string, now: string)
      requires Valid()
      modifies this
      ensures Valid()
      ensures connectionState == old(connectionState)
      ensures (frame.Parsed? && frame.message.payload.Kind() == System) || systemEvents == old(systemEvents)
      ensures (frame.Parsed? && frame.message.payload.Kind() in {Join, Leave}) || currentUser == old(currentUser)
      ensures (frame.Parsed? && frame.message.payload.Kind() == OnlineUsers) || rooms == old(rooms)
      ensures match frame
        case Unparseable => State() == old(State())
        case UnknownType(_, _) => State() == old(State())
        case Parsed(m) =>
          match m.payload
          case SystemEventPayload(text, scope, kind) =>
            State() == old(State()).(systemEvents :=
              PrependEvent(old(systemEvents), SystemEvent(eventId, text, m.timestamp, kind, scope)))
          case OnlineUsersPayload(users, _) =>
            State() == old(State()).(onlineUsers := users, rooms := Grouping(users))
          case RoomPresencePayload(roomId, users) =>
            State() == old(State()).(currentRoom := Some(Room(roomId, roomId, |users|, users)))
          case JoinPayload(username, roomId) =>
            State() == old(State()).(currentUser := Some(User(userId, username, Online, Some(roomId), now)))
          case LeavePayload(_, _) =>
            State() == old(State()).(currentUser := None, currentRoom := None)
          case PingPayload(_) => State() == old(State())
    {
      match frame
      case Unparseable =>
      case UnknownType(_, _) =>
      case Parsed(m) =>
        match m.payload {
          case SystemEventPayload(text, scope, kind) =>
            AddSystemEvent(SystemEvent(eventId, text, m.timestamp, kind, scope));
          case OnlineUsersPayload(users, _) =>
            onlineUsers := users;
            rooms := GroupUsersByRoom(users);
          case RoomPresencePayload(roomId, users) =>
            currentRoom := Some(Room(roomId, roomId, |users|, users));
          case JoinPayload(username, roomId) =>
            currentUser := Some(User(userId, username, Online, Some(roomId), now));
          case LeavePayload(_, _) =>
            currentUser := None;
            currentRoom := None;
          case PingPayload(_) =>
        }
    }

    /** `mockConnect`: the state is `connecting` until the simulated delay elapses. */
    method MockConnect()
      requires Valid()
      modifies this
      ensures Valid()
      ensures State() == old(State()).(connectionState := Connecting)
    {
      connectionState := Connecting;
    }

    /**
     * The end of `mockConnect`'s simulated delay: connected, with the fixture
     * users, rooms and feed, and a notice logged on top of the fixture feed.
     */
    method MockConnectSettled(eventId: string, now: string)
      requires Valid()
      modifies this
      ensures Valid()
      ensures State() == old(State()).(
        connectionState := Connected,
        onlineUsers := MockUsers(loadTimes),
        rooms := MockRooms(loadTimes),
        systemEvents := PrependEvent(MockSystemEvents(loadTimes),
          SystemEvent(eventId, "Connected to presence server (Mock Mode)", now, SystemNotice, None)))
    {
      connectionState := Connected;
      onlineUsers := MockUsers(loadTimes);
      rooms := MockRooms(loadTimes);
      systemEvents := MockSystemEvents(loadTimes);
      AddSystemEvent(SystemEvent(eventId, "Connected to presence server (Mock Mode)", now, SystemNotice, None));
    }

    /** `mockDisconnect`: everything but the feed is cleared, and a notice is logged. */
    method MockDisconnect(eventId: string, now: string)
      requires Valid()
      modifies this
      ensures Valid()
      ensures State() == HookState(Disconnected, None, [], [], None,
        PrependEvent(old(systemEvents), SystemEvent(eventId, "Disconnected from presence server", now, SystemNotice, None)))
    {
      connectionState := Disconnected;
      currentUser := None;
      currentRoom := None;
      onlineUsers := [];
      rooms := [];
      AddSystemEvent(SystemEvent(eventId, "Disconnected from presence server", now, SystemNotice, None));
    }

    /**
     * `mockJoinRoom`: a new online user becomes the current user, is appended to
     * the online users and put in its room (looked up in the fixture rooms), and
     * a join is logged for the room.
     */
    method MockJoinRoom(username: string, roomId: string, userId: string, eventId: string, now: string)
      requires Valid()
      modifies this
      ensures Valid()
      ensures var user := User(userId, username, Online, Some(roomId), now);
        State() == old(State()).(
          currentUser := Some(user),
          onlineUsers := old(onlineUsers) + [user],
          currentRoom := Some(JoinedRoom(MockRooms(loadTimes), roomId, user)),
          rooms := RoomsAfterJoin(old(rooms), MockRooms(loadTimes), roomId, user),
          systemEvents := PrependEvent(old(systemEvents),
            SystemEvent(eventId, username + " joined " + roomId, now, JoinEvent, Some(roomId))))
    {
      var user := User(userId, username, Online, Some(roomId), now);
      currentUser := Some(user);
      onlineUsers := onlineUsers + [user];
      var fixture := MockRooms(loadTimes);
      match FindRoom(fixture, roomId) {
        case Some(existing) =>
          var updated := existing.(users := existing.users + [user], userCount := existing.userCount + 1);
          currentRoom := Some(updated);
          rooms := ReplaceRoom(rooms, roomId, updated);
        case None =>
          var created := Room(roomId, roomId, 1, [user]);
          currentRoom := Some(created);
          rooms := rooms + [created];
      }
      AddSystemEvent(SystemEvent(eventId, username + " joined " + roomId, now, JoinEvent, Some(roomId)));
    }

    /**
     * `mockLeaveRoom`: with a current user and room, logs the leave and removes
     * the user from the online users and from that room (dropping rooms whose
     * count is no longer positive); in every case the current user and room end
     * up cleared.
     */
    method MockLeaveRoom(eventId: string, now: string)
      requires Valid()
      modifies this
      ensures Valid()
      ensures old(currentUser).Some? && old(currentRoom).Some? ==>
        var u, r := old(currentUser).value, old(currentRoom).value;
        State() == old(State()).(
          currentUser := None,
          currentRoom := None,
          onlineUsers := RemoveUser(old(onlineUsers), u.id),
          rooms := LeaveRooms(old(rooms), r.id, u.id),
          systemEvents := PrependEvent(old(systemEvents),
            SystemEvent(eventId, u.username + " left " + r.name, now, LeaveEvent, Some(r.id))))
      ensures !(old(currentUser).Some? && old(currentRoom).Some?) ==>
        State() == old(State()).(currentUser := None, currentRoom := None)
    {
      if currentUser.Some? && currentRoom.Some? {
        var u, r := currentUser.value, currentRoom.value;
        AddSystemEvent(SystemEvent(eventId, u.username + " left " + r.name, now, LeaveEvent, Some(r.id)));
        onlineUsers := RemoveUser(onlineUsers, u.id);
        rooms := LeaveRooms(rooms, r.id, u.id);
      }
      currentUser := None;
      currentRoom := None;
    }

    /** `mockRequestRoomPresence`: the first room with the id becomes current, if there is one. */
    method MockRequestRoomPresence(roomId: string)
      requires Valid()
      modifies this
      ensures Valid()
      ensures FindRoom(old(rooms), roomId).Some? ==>
        State() == old(State()).(currentRoom := FindRoom(old(rooms), roomId))
      ensures FindRoom(old(rooms), roomId).None? ==> State() == old(State())
    {
      var found := FindRoom(rooms, roomId);
      if found.Some? {
        currentRoom := found;
      }
    }
  }
}
