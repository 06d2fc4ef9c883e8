/**
 What a call of create_direct comes to: by itself, and when another call wins the race for the pair's room.
 */
module DirectCalls {
  import opened Wrappers
  import opened Database
  import opened Groups
  import opened Rooms
  import opened DirectThreads

  /** The call is over, with this reply and these rooms. */
  predicate Ended(s: Sys, k: nat, reply: Result<View>, rooms: Rooms) {
    k in s.calls && s.calls[k].phase == Done(reply) && s.rooms == rooms
  }

  /** The pair's room of two plain members, both in it from now on. */
  predicate IsPair(room: Room, user: Id, other: Id, now: int) {
    !room.group && room.directKey == Some(DirectKey(user, other))
    && room.roster == map[user := Row(Regular, now, true), other := Row(Regular, now, true)]
  }

  /** A call for oneself or for an unknown user is over at once. */
  lemma BadCall(users: set<Id>, s: Sys, k: nat, user: Id, other: Id, s': Sys)
    requires user in users && (other == user || other !in users)
    ensures Next(users, s, Arrive(k, user, other), s') ==>
            Ended(s', k, Failure(if other == user then Validation else NotFound), s.rooms)
    ensures k !in s.calls ==> exists t :: Next(users, s, Arrive(k, user, other), t)
  {
    if k !in s.calls {
      var phase := Done(Failure(if other == user then Validation else NotFound));
      var t := s.(calls := s.calls[k := Call(user, other, phase)]);
      assert Next(users, s, Arrive(k, user, other), t);
    }
  }

  /** Any other call begins by looking for the room. */
  lemma GoodCall(users: set<Id>, s: Sys, k: nat, user: Id, other: Id)
    returns (t: Sys)
    requires user in users && other in users && other != user && k !in s.calls
    ensures Next(users, s, Arrive(k, user, other), t)
    ensures t == Sys(s.rooms, s.calls[k := Call(user, other, Look)])
    ensures forall s' :: Next(users, s, Arrive(k, user, other), s') ==> s' == t
  {
    t := s.(calls := s.calls[k := Call(user, other, Look)]);
  }

  /** With a room for the pair there, a call that looks, or looks again after losing a race, is over with it. */
  lemma RoomIsFound(users: set<Id>, s: Sys, k: nat, c: Id) returns (t: Sys)
    requires k in s.calls && (s.calls[k].phase.Look? || s.calls[k].phase.Raced?) && c in s.rooms
    requires s.rooms[c].directKey == Some(DirectKey(s.calls[k].user, s.calls[k].other))
    requires s.calls[k].user in s.rooms[c].roster && s.rooms[c].roster[s.calls[k].user].active
    ensures Next(users, s, if s.calls[k].phase.Look? then LookUp(k) else Reread(k), t)
    ensures Ended(t, k, Success(View(c, ActiveMembers(s.rooms[c].roster))), s.rooms)
  {
    var call := s.calls[k];
    assert HasKey(s.rooms[c], DirectKey(call.user, call.other));
    t := Moved(s, k, Done(Seen(s.rooms, call.user, c)));
    assert Answers(s, k, t);
  }

  /** Without one, a call that looks goes on to insert it; at that, the row is new, and so is the reply. */
  lemma RoomIsMade(users: set<Id>, s: Sys, k: nat, newId: Id, now: int) returns (t: Sys, t': Sys)
    requires k in s.calls && s.calls[k].phase.Look? && s.calls[k].user != s.calls[k].other && newId !in s.rooms
    requires forall c | c in s.rooms :: s.rooms[c].directKey != Some(DirectKey(s.calls[k].user, s.calls[k].other))
    ensures Next(users, s, LookUp(k), t) && t.rooms == s.rooms
    ensures Next(users, t, Commit(k, newId, now), t')
    ensures newId in t'.rooms && IsPair(t'.rooms[newId], s.calls[k].user, s.calls[k].other, now)
    ensures Ended(t', k, Success(View(newId, {s.calls[k].user, s.calls[k].other})), s.rooms[newId := t'.rooms[newId]])
  {
    var call := s.calls[k];
    assert !Keyed(s.rooms, DirectKey(call.user, call.other));
    t := Moved(s, k, Insert);
    var rooms := s.rooms[newId := DirectRoom(call.user, call.other, now)];
    t' := Moved(t.(rooms := rooms), k, Done(Seen(rooms, call.user, newId)));
    assert ActiveMembers(rooms[newId].roster) == {call.user, call.other};
  }

  /** An insert that finds the key taken is rolled back, and the call looks again: it ends with the winner's room. */
  lemma RaceIsLost(users: set<Id>, s: Sys, k: nat, c: Id, newId: Id, now: int) returns (t: Sys, t': Sys)
    requires k in s.calls && s.calls[k].phase.Insert? && newId !in s.rooms && c in s.rooms
    requires s.rooms[c].directKey == Some(DirectKey(s.calls[k].user, s.calls[k].other))
    requires s.calls[k].user in s.rooms[c].roster && s.rooms[c].roster[s.calls[k].user].active
    ensures Next(users, s, Commit(k, newId, now), t) && t.rooms == s.rooms
    ensures Next(users, t, Reread(k), t')
    ensures Ended(t', k, Success(View(c, ActiveMembers(s.rooms[c].roster))), s.rooms)
  {
    assert HasKey(s.rooms[c], DirectKey(s.calls[k].user, s.calls[k].other));
    t := Moved(s, k, Raced);
    t' := RoomIsFound(users, t, k, c);
  }

  /** Whatever a step of one call does, the other calls stay where they are. */
  lemma OthersWait(users: set<Id>, s: Sys, e: Event, s': Sys, l: nat)
    requires Next(users, s, e, s') && l in s.calls && !(e.LookUp? && e.k == l)
    requires !(e.Commit? && e.k == l) && !(e.Reread? && e.k == l)
    ensures l in s'.calls && s'.calls[l] == s.calls[l]
  {
    if (e.LookUp? || e.Reread?) && Keyed(s.rooms, DirectKey(s.calls[e.k].user, s.calls[e.k].other)) {
      assert Answers(s, e.k, s');
    }
  }

  /** Whatever the roster machine allows can be done to a group beside them. */
  lemma ChangesGoOn(users: set<Id>, s: Sys, c: Id, op: GroupOp, now: int, r: Roster)
    requires c in s.rooms && s.rooms[c].group && Accepted(s.rooms[c].roster, op, users)
    requires Step(s.rooms[c].roster, op, users, now, r)
    ensures Next(users, s, Change(c, op, now), Sys(s.rooms[c := Room(true, s.rooms[c].directKey, r)], s.calls))
  {
    RefusalIsExact(users, s.rooms, c, op);
    var t := Sys(s.rooms[c := Room(true, s.rooms[c].directKey, r)], s.calls);
    assert t == s.(rooms := WithRoster(s.rooms, c, t.rooms[c].roster));
  }

  /** Groups are founded and changed beside them. */
  lemma GroupsGoOn(users: set<Id>, s: Sys, newId: Id, creator: Id, ids: set<Id>, c: Id, op: GroupOp, now: int, s': Sys)
    ensures Next(users, s, Found(newId, creator, ids, now), s') ==>
              newId in s'.rooms && s'.rooms[newId].group && s'.rooms[newId].roster == NewRoster(creator, ids, now)
    ensures newId !in s.rooms ==> exists t :: Next(users, s, Found(newId, creator, ids, now), t)
    ensures Next(users, s, Change(c, op, now), s') && c in s.rooms && s.rooms[c].group &&
            Accepted(s.rooms[c].roster, op, users) ==>
              c in s'.rooms && Step(s.rooms[c].roster, op, users, now, s'.rooms[c].roster)
  {
    if newId !in s.rooms {
      var t := s.(rooms := s.rooms[newId := Room(true, None, NewRoster(creator, ids, now))]);
      assert Next(users, s, Found(newId, creator, ids, now), t);
    }
    if c in s.rooms && s.rooms[c].group {
      RefusalIsExact(users, s.rooms, c, op);
    }
  }
}
