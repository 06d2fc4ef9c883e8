/**
 What each group operation does to the roster, row by row, and who may do it.
 */
module RosterEffects {
  import opened Wrappers
  import opened Database
  import opened Groups
  import Rooms

  predicate In(r: Roster, u: Id) {
    u in r.Keys && r[u].active
  }

  predicate Administers(r: Roster, u: Id) {
    u in r.Keys && r[u] == Row(Admin, r[u].joinedAt, true)
  }

  /** Rows other than these are what they were. */
  ghost predicate OthersKeep(r: Roster, r': Roster, us: set<Id>) {
    forall u | u !in us :: (u in r' <==> u in r) && (u in r ==> r'[u] == r[u])
  }

  /** add_members: by an active admin, of known users only; who was in stays as they were, everybody else is in as a
      plain member from now on. */
  lemma AddingIs(r: Roster, actor: Id, ids: set<Id>, users: set<Id>, now: int, r': Roster)
    ensures Step(r, AddMembers(actor, ids), users, now, r') <==>
            if Administers(r, actor) && ids <= users
            then
              && OthersKeep(r, r', ids)
              && (forall u | u in ids && In(r, u) :: u in r' && r'[u] == r[u])
              && (forall u | u in ids && !In(r, u) :: u in r' && r'[u] == Row(Regular, now, true))
            else r' == r
  {
    if Administers(r, actor) && ids <= users {
      assert IsAdmin(r, actor);
      if OthersKeep(r, r', ids) && (forall u | u in ids && In(r, u) :: u in r' && r'[u] == r[u])
         && (forall u | u in ids && !In(r, u) :: u in r' && r'[u] == Row(Regular, now, true)) {
        assert r'.Keys == r.Keys + ids;
        assert r' == Added(r, ids, now);
      }
    }
  }

  /** remove_member: by an active admin, of somebody who is in; their row stays, marked as left. */
  lemma RemovingIs(r: Roster, actor: Id, member: Id, users: set<Id>, now: int, r': Roster)
    ensures Step(r, RemoveMember(actor, member), users, now, r') <==>
            if Administers(r, actor) && In(r, member)
            then r' == r[member := Row(r[member].role, r[member].joinedAt, false)]
            else r' == r
  {
  }

  /** Nobody else administers the group. */
  ghost predicate LastAdmin(r: Roster, u: Id) {
    Administers(r, u) && forall v | Administers(r, v) :: v == u
  }

  /** In after the departure, and nobody who is joined earlier. */
  ghost predicate Heir(r: Roster, leaver: Id, heir: Id) {
    && In(r, heir) && heir != leaver
    && forall v | In(r, v) && v != leaver :: r[heir].joinedAt <= r[v].joinedAt
  }

  lemma AdminsAre(r: Roster, u: Id)
    ensures Admins(r) == {u} <==> LastAdmin(r, u)
    ensures forall v :: v in Admins(r) <==> Administers(r, v)
  {
    forall v ensures v in Admins(r) <==> Administers(r, v) {
    }
    if LastAdmin(r, u) {
      assert forall v | v in Admins(r) :: v == u;
      assert u in Admins(r);
    }
    if Admins(r) == {u} {
      assert u in Admins(r);
    }
  }

  lemma HeirIs(r: Roster, u: Id, heir: Id)
    requires In(r, u)
    ensures IsSuccessor(Left(r, u), heir) <==> Heir(r, u, heir)
  {
    var after := Left(r, u);
    assert forall v :: Active(after, v) <==> In(r, v) && v != u;
    if IsSuccessor(after, heir) {
      forall v | In(r, v) && v != u ensures r[heir].joinedAt <= r[v].joinedAt {
        assert Active(after, v);
      }
    }
  }

  /** leave: one's own row is marked as left; if one was the last admin and somebody stays, one of those who joined
      first becomes admin, and nothing else changes. */
  lemma LeavingIs(r: Roster, u: Id, users: set<Id>, now: int, r': Roster)
    requires In(r, u)
    ensures var left := r[u := Row(r[u].role, r[u].joinedAt, false)];
            Step(r, Leave(u), users, now, r') <==>
            if LastAdmin(r, u) && exists v :: v != u && In(r, v)
            then exists heir :: Heir(r, u, heir) && r' == left[heir := Row(Admin, r[heir].joinedAt, true)]
            else r' == left
  {
    var left := r[u := Row(r[u].role, r[u].joinedAt, false)];
    assert Left(r, u) == left;
    AdminsAre(r, u);
    assert ActiveMembers(left) != {} <==> exists v :: v != u && In(r, v) by {
      forall v ensures v in ActiveMembers(left) <==> v != u && In(r, v) {
      }
    }
    forall heir ensures IsSuccessor(left, heir) <==> Heir(r, u, heir) {
      HeirIs(r, u, heir);
    }
    forall heir | Heir(r, u, heir)
      ensures Promoted(left, heir, Admin) == left[heir := Row(Admin, r[heir].joinedAt, true)]
    {
    }
  }

  lemma StrangersDoNotLeave(r: Roster, u: Id, users: set<Id>, now: int, r': Roster)
    requires !In(r, u)
    ensures Step(r, Leave(u), users, now, r') <==> r' == r
  {
  }

  /** set_role: by an active admin, for somebody who is in; the last admin cannot be made a plain member. */
  lemma AssigningIs(r: Roster, actor: Id, member: Id, role: Role, users: set<Id>, now: int, r': Roster)
    ensures Step(r, SetRole(actor, member, role), users, now, r') <==>
            if Administers(r, actor) && In(r, member) && !(role == Regular && LastAdmin(r, member))
            then r' == r[member := Row(role, r[member].joinedAt, true)]
            else r' == r
  {
    AdminsAre(r, member);
    if |Admins(r)| == 1 && member in Admins(r) {
      OneIsAll(Admins(r), member);
    }
  }

  lemma OneIsAll(s: set<Id>, u: Id)
    requires u in s && |s| == 1
    ensures s == {u}
  {
    assert |s - {u}| == 0;
    assert s - {u} == {};
  }

  /** Which refusal it is. */
  lemma RefusalSays(users: set<Id>, rooms: Rooms.Rooms, c: Id, op: GroupOp)
    ensures var refusal := Rooms.Refusal(users, rooms, c, op);
      var group := c in rooms.Keys && rooms[c].group;
      && (refusal == Some(Validation) <==> c in rooms.Keys && !rooms[c].group)
      && (refusal == Some(Forbidden) <==>
          group && In(rooms[c].roster, op.actor) && !Administers(rooms[c].roster, op.actor) && !op.Leave?)
      && (refusal == Some(Conflict) <==>
          && group && op.SetRole? && op.role == Regular
          && Administers(rooms[c].roster, op.actor) && LastAdmin(rooms[c].roster, op.member))
      && (refusal == Some(NotFound) <==>
          || c !in rooms.Keys
          || (group && !In(rooms[c].roster, op.actor))
          || (group && Administers(rooms[c].roster, op.actor)
              && (|| (op.AddMembers? && exists u :: u in op.ids && u !in users)
                  || (op.RemoveMember? && !In(rooms[c].roster, op.member))
                  || (op.SetRole? && !In(rooms[c].roster, op.member)))))
      && (refusal.Some? ==> refusal.value in {NotFound, Validation, Forbidden, Conflict})
  {
    if c in rooms && op.SetRole? {
      AdminsAre(rooms[c].roster, op.member);
      if |Admins(rooms[c].roster)| == 1 && op.member in Admins(rooms[c].roster) {
        OneIsAll(Admins(rooms[c].roster), op.member);
      }
    }
    if c in rooms && op.AddMembers? {
      assert op.ids <= users <==> !(exists u :: u in op.ids && u !in users);
    }
  }

  /** A room is shown to its active members, with exactly them listed; to anybody else it is not there. */
  lemma SeeingIs(rooms: Rooms.Rooms, u: Id, c: Id)
    ensures var r := Rooms.Seen(rooms, u, c);
      && (r.Success? <==> c in rooms.Keys && In(rooms[c].roster, u))
      && (r.Success? ==> r.value.id == c && forall v :: v in r.value.members <==> In(rooms[c].roster, v))
      && (r.Failure? ==> r == Failure(NotFound))
  {
  }

  /** A changed roster leaves the rest of its room, and every other room. */
  lemma ChangingIs(rooms: Rooms.Rooms, c: Id, r: Roster)
    requires c in rooms
    ensures Rooms.WithRoster(rooms, c, r) == rooms[c := Rooms.Room(rooms[c].group, rooms[c].directKey, r)]
  {
  }

  /** A new group: its creator as admin, the others as plain members, all from now on. */
  lemma FoundingIs(creator: Id, ids: set<Id>, now: int)
    ensures var r := NewRoster(creator, ids, now);
      && creator in r && r[creator] == Row(Admin, now, true)
      && (forall u | u != creator :: u in r <==> u in ids)
      && (forall u | u != creator && u in ids :: r[u] == Row(Regular, now, true))
  {
  }
}
