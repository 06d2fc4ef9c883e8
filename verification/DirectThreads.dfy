/**
 create_direct under races: several calls look a thread up, fail to find it, and insert; the unique key
 lets one insert commit and sends the losers back to read the winner. Group operations run in between.
 */
module DirectThreads {
  import opened Wrappers
  import opened Database
  import opened Groups
  import opened Rooms

  datatype Phase =
    | Look
    | Insert
    | Raced                          // the insert hit the unique key and was rolled back
    | Done(reply: Result<View>)

  datatype Call = Call(user: Id, other: Id, phase: Phase)

  datatype Sys = Sys(rooms: Rooms, calls: map<nat, Call>)

  datatype Event =
    | Arrive(k: nat, user: Id, other: Id)
    | LookUp(k: nat)
    | Commit(k: nat, newId: Id, now: int)
    | Reread(k: nat)
    | Found(newId: Id, creator: Id, ids: set<Id>, now: int)
    | Change(c: Id, op: GroupOp, now: int)

  function Moved(s: Sys, k: nat, phase: Phase): Sys
    requires k in s.calls
  {
    s.(calls := s.calls[k := s.calls[k].(phase := phase)])
  }

  /** A call finds its key: it answers with that room. Which room of several is left open. */
  ghost predicate Answers(s: Sys, k: nat, s': Sys)
    requires k in s.calls
  {
    exists c :: c in s.rooms && HasKey(s.rooms[c], DirectKey(s.calls[k].user, s.calls[k].other))
                && s' == Moved(s, k, Done(Seen(s.rooms, s.calls[k].user, c)))
  }

  ghost predicate Next(users: set<Id>, s: Sys, e: Event, s': Sys) {
    match e
    case Arrive(k, user, other) =>
      && k !in s.calls && user in users
      && s' == s.(calls := s.calls[k := Call(user, other,
                    if other == user then Done(Failure(Validation))
                    else if other !in users then Done(Failure(NotFound))
                    else Look)])
    case LookUp(k) =>
      && k in s.calls && s.calls[k].phase.Look?
      && if Keyed(s.rooms, DirectKey(s.calls[k].user, s.calls[k].other)) then Answers(s, k, s')
         else s' == Moved(s, k, Insert)
    case Commit(k, newId, now) =>
      && k in s.calls && s.calls[k].phase.Insert? && newId !in s.rooms
      && var call := s.calls[k];
         if Keyed(s.rooms, DirectKey(call.user, call.other)) then s' == Moved(s, k, Raced)
         else
           var rooms := s.rooms[newId := DirectRoom(call.user, call.other, now)];
           s' == Moved(s.(rooms := rooms), k, Done(Seen(rooms, call.user, newId)))
    case Reread(k) =>
      && k in s.calls && s.calls[k].phase.Raced?
      && if Keyed(s.rooms, DirectKey(s.calls[k].user, s.calls[k].other)) then Answers(s, k, s')
         else s' == Moved(s, k, Done(Failure(Integrity)))
    case Found(newId, creator, ids, now) =>
      && newId !in s.rooms
      && s' == s.(rooms := s.rooms[newId := Room(true, None, NewRoster(creator, ids, now))])
    case Change(c, op, now) =>
      if Refusal(users, s.rooms, c, op).Some? then s' == s
      else
        && c in s'.rooms && c in s.rooms
        && Step(s.rooms[c].roster, op, users, now, s'.rooms[c].roster)
        && s' == s.(rooms := WithRoster(s.rooms, c, s'.rooms[c].roster))
  }

  ghost predicate Run(users: set<Id>, ss: seq<Sys>, es: seq<Event>) {
    && |ss| == |es| + 1
    && ss[0] == Sys(map[], map[])
    && forall i | 0 <= i < |es| :: Next(users, ss[i], es[i], ss[i + 1])
  }

  // ---------- the invariant ----------

  /** A direct room of the pair, with exactly that pair in it. */
  predicate IsThread(room: Room, a: Id, b: Id) {
    !room.group && a != b && room.directKey == Some(DirectKey(a, b)) && ActiveMembers(room.roster) == {a, b}
  }

  ghost predicate Paired(users: set<Id>, room: Room) {
    exists a, b :: a in users && b in users && IsThread(room, a, b)
  }

  ghost predicate RoomsOk(users: set<Id>, rooms: Rooms) {
    && (forall c | c in rooms && rooms[c].group :: rooms[c].directKey.None?)
    && (forall c | c in rooms && !rooms[c].group :: Paired(users, rooms[c]))
  }

  ghost predicate KeysUnique(rooms: Rooms) {
    forall c, d | c in rooms && d in rooms && rooms[c].directKey.Some? && rooms[c].directKey == rooms[d].directKey ::
        c == d
  }

  ghost predicate CallOk(users: set<Id>, rooms: Rooms, call: Call) {
    && call.user in users
    && match call.phase
       case Look => call.user != call.other && call.other in users
       case Insert => call.user != call.other && call.other in users
       case Raced => call.user != call.other && call.other in users && Keyed(rooms, DirectKey(call.user, call.other))
       case Done(reply) => ReplyOk(users, rooms, call.user, call.other, reply)
  }

  /** The only replies there are: the pair's own thread, or the two refusals of a bad request. */
  ghost predicate ReplyOk(users: set<Id>, rooms: Rooms, user: Id, other: Id, reply: Result<View>) {
    if user == other then reply == Failure(Validation)
    else if other !in users then reply == Failure(NotFound)
    else
      && reply.Success?
      && reply.value.id in rooms
      && IsThread(rooms[reply.value.id], user, other)
      && reply.value.members == {user, other}
  }

  ghost predicate CallsOk(users: set<Id>, s: Sys) {
    forall k | k in s.calls :: CallOk(users, s.rooms, s.calls[k])
  }

  ghost predicate SysOk(users: set<Id>, s: Sys) {
    RoomsOk(users, s.rooms) && KeysUnique(s.rooms) && CallsOk(users, s)
  }

  ghost predicate ColonFreeIds(users: set<Id>) {
    forall u | u in users :: ColonFree(u)
  }

  /** Nothing of a direct room ever changes. */
  ghost predicate Kept(before: Rooms, after: Rooms) {
    forall c | c in before && !before[c].group :: c in after && after[c] == before[c]
  }

  /** The room found under a pair's key is that pair's thread. */
  lemma KeyedRoomIsThread(users: set<Id>, rooms: Rooms, c: Id, a: Id, b: Id)
    requires ColonFreeIds(users) && RoomsOk(users, rooms) && a in users && b in users && a != b
    requires c in rooms && HasKey(rooms[c], DirectKey(a, b))
    ensures IsThread(rooms[c], a, b)
  {
    var x, y :| x in users && y in users && IsThread(rooms[c], x, y);
    DirectKeyInjective(x, y, a, b);
  }

  lemma CallsStay(users: set<Id>, s: Sys, rooms: Rooms)
    requires CallsOk(users, s) && Kept(s.rooms, rooms) && RoomsOk(users, s.rooms)
    ensures CallsOk(users, s.(rooms := rooms))
  {
    forall k | k in s.calls ensures CallOk(users, rooms, s.calls[k]) {
      var call := s.calls[k];
      if call.phase.Raced? {
        var c :| c in s.rooms && HasKey(s.rooms[c], DirectKey(call.user, call.other));
        assert c in rooms && HasKey(rooms[c], DirectKey(call.user, call.other));
      }
    }
  }

  lemma AnswerKeeps(users: set<Id>, s: Sys, k: nat, s': Sys)
    requires ColonFreeIds(users) && SysOk(users, s) && k in s.calls && Answers(s, k, s')
    requires s.calls[k].phase.Look? || s.calls[k].phase.Raced?
    ensures SysOk(users, s')
  {
    var call := s.calls[k];
    var c :| c in s.rooms && HasKey(s.rooms[c], DirectKey(call.user, call.other))
             && s' == Moved(s, k, Done(Seen(s.rooms, call.user, c)));
    KeyedRoomIsThread(users, s.rooms, c, call.user, call.other);
    assert call.user in ActiveMembers(s.rooms[c].roster);
  }

  lemma CommitKeeps(users: set<Id>, s: Sys, k: nat, newId: Id, now: int, s': Sys)
    requires SysOk(users, s) && Next(users, s, Commit(k, newId, now), s')
    ensures SysOk(users, s') && Kept(s.rooms, s'.rooms)
  {
    var call := s.calls[k];
    var key := DirectKey(call.user, call.other);
    if !Keyed(s.rooms, key) {
      var room := DirectRoom(call.user, call.other, now);
      assert ActiveMembers(room.roster) == {call.user, call.other};
      assert IsThread(room, call.user, call.other);
      assert forall c | c in s.rooms :: !HasKey(s.rooms[c], key);
      CallsStay(users, s, s'.rooms);
    }
  }

  lemma ChangeKeeps(users: set<Id>, s: Sys, c: Id, op: GroupOp, now: int, s': Sys)
    requires SysOk(users, s) && Next(users, s, Change(c, op, now), s')
    ensures SysOk(users, s') && Kept(s.rooms, s'.rooms)
  {
    if Refusal(users, s.rooms, c, op).None? {
      CallsStay(users, s, s'.rooms);
    }
  }

  lemma StepKeeps(users: set<Id>, s: Sys, e: Event, s': Sys)
    requires ColonFreeIds(users) && SysOk(users, s) && Next(users, s, e, s')
    ensures SysOk(users, s') && Kept(s.rooms, s'.rooms)
  {
    match e
    case Arrive(_, _, _) =>
    case LookUp(k) =>
      if Keyed(s.rooms, DirectKey(s.calls[k].user, s.calls[k].other)) {
        AnswerKeeps(users, s, k, s');
      }
    case Commit(k, newId, now) => CommitKeeps(users, s, k, newId, now, s');
    case Reread(k) => AnswerKeeps(users, s, k, s');
    case Found(_, _, _, _) => CallsStay(users, s, s'.rooms);
    case Change(c, op, now) => ChangeKeeps(users, s, c, op, now, s');
  }

  lemma {:induction false} RunKeeps(users: set<Id>, ss: seq<Sys>, es: seq<Event>, i: nat)
    requires ColonFreeIds(users) && Run(users, ss, es) && i < |ss|
    ensures SysOk(users, ss[i])
  {
    if i > 0 {
      RunKeeps(users, ss, es, i - 1);
      assert Next(users, ss[i - 1], es[i - 1], ss[i]);
      StepKeeps(users, ss[i - 1], es[i - 1], ss[i]);
    }
  }

  // ---------- what callers rely on ----------

  /** Main result: however calls race, the threads of one unordered pair are one room, and every finished
      call about the pair, from either side, answered with it. The IntegrityError is never passed on. */
  lemma ThreadsAreUnique(users: set<Id>, ss: seq<Sys>, es: seq<Event>, i: nat, k: nat, l: nat)
    requires ColonFreeIds(users) && Run(users, ss, es) && i < |ss|
    requires k in ss[i].calls && l in ss[i].calls
    requires ss[i].calls[k].phase.Done? && ss[i].calls[l].phase.Done?
    requires {ss[i].calls[k].user, ss[i].calls[k].other} == {ss[i].calls[l].user, ss[i].calls[l].other}
    ensures ss[i].calls[k].phase.reply.Success? <==>
            ss[i].calls[k].user != ss[i].calls[k].other && ss[i].calls[k].other in users
    ensures ss[i].calls[k].phase.reply == ss[i].calls[l].phase.reply
  {
    RunKeeps(users, ss, es, i);
    var s := ss[i];
    var a, b := s.calls[k], s.calls[l];
    assert CallOk(users, s.rooms, a) && CallOk(users, s.rooms, b);
    assert a.other in {b.user, b.other} && a.user in {b.user, b.other};
    assert b.user in {a.user, a.other} && b.other in {a.user, a.other};
    DirectKeySymmetric(a.user, a.other);
  }

  lemma OneThreadPerPair(users: set<Id>, ss: seq<Sys>, es: seq<Event>, i: nat, c: Id, d: Id)
    requires ColonFreeIds(users) && Run(users, ss, es) && i < |ss|
    requires c in ss[i].rooms && d in ss[i].rooms && !ss[i].rooms[c].group && !ss[i].rooms[d].group
    ensures c == d <==> ActiveMembers(ss[i].rooms[c].roster) == ActiveMembers(ss[i].rooms[d].roster)
  {
    RunKeeps(users, ss, es, i);
    var rooms := ss[i].rooms;
    assert Paired(users, rooms[c]) && Paired(users, rooms[d]);
    var a, b :| a in users && b in users && IsThread(rooms[c], a, b);
    var x, y :| x in users && y in users && IsThread(rooms[d], x, y);
    DirectKeyInjective(a, b, x, y);
  }

  /** A thread, once there, stays as it is: nobody joins, leaves or is removed. */
  lemma {:induction false} ThreadsAreForever(users: set<Id>, ss: seq<Sys>, es: seq<Event>, i: nat, j: nat, c: Id)
    requires ColonFreeIds(users) && Run(users, ss, es) && i <= j < |ss|
    requires c in ss[i].rooms && !ss[i].rooms[c].group
    ensures c in ss[j].rooms && ss[j].rooms[c] == ss[i].rooms[c] && Paired(users, ss[j].rooms[c])
    decreases j
  {
    if i == j {
      RunKeeps(users, ss, es, i);
    } else {
      ThreadsAreForever(users, ss, es, i, j - 1, c);
      RunKeeps(users, ss, es, j - 1);
      assert Next(users, ss[j - 1], es[j - 1], ss[j]);
      StepKeeps(users, ss[j - 1], es[j - 1], ss[j]);
    }
  }

  /** Why the ids must have no colon: two different pairs could share a key. */
  lemma ColonsCollide()
    ensures DirectKey("a:b", "c") == DirectKey("a", "b:c") && {"a:b", "c"} != {"a", "b:c"}
  {
    assert Ordering.Precedes("a:b", "c") && Ordering.Precedes("a", "b:c");
    assert !Ordering.Precedes("c", "a:b") && !Ordering.Precedes("b:c", "a");
    assert DirectKey("a:b", "c") == "a:b:c" && DirectKey("a", "b:c") == "a:b:c";
    assert "c" in {"a:b", "c"} && "c" !in {"a", "b:c"};
  }
}
