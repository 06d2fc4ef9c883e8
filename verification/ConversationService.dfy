/**
 backend/app/services/conversation_service.py as a class over its tables, each method proved against the
 roster machine of Groups and the refusals of Rooms.
 */
module ConversationService {
  import opened Wrappers
  import opened Collections
  import opened Database
  import opened Groups
  import opened Rooms

  /** One served group operation: refused for the stated reason and nothing moved, or exactly the roster of
      that room made the step. */
  ghost predicate Served(users: set<Id>, before: Rooms, c: Id, op: GroupOp, now: int,
                         after: Rooms, error: Option<Error>) {
    && error == Refusal(users, before, c, op)
    && if error.Some? then after == before
       else
         && c in before && c in after
         && after == WithRoster(before, c, after[c].roster)
         && Step(before[c].roster, op, users, now, after[c].roster)
  }

  function ErrorOf<T>(r: Result<T>): Option<Error> {
    if r.Failure? then Some(r.error) else None
  }

  /** What the router's DELETE of a member asks for. */
  function Dispatched(user: Id, member: Id): (op: GroupOp)
    ensures Routed(op)
  {
    if member == user then GroupOp.Leave(user) else GroupOp.RemoveMember(user, member)
  }

  class ConversationService {
    var users: set<Id>
    var rooms: Rooms

    /** `list(dict.fromkeys(ids))`. */
    static method Distinct(ids: seq<Id>) returns (wanted: seq<Id>)
      ensures SetOf(wanted) == SetOf(ids)
      ensures forall i, j | 0 <= i < j < |wanted| :: wanted[i] != wanted[j]
    {
      wanted := [];
      for i := 0 to |ids|
        invariant SetOf(wanted) == SetOf(ids[..i])
        invariant forall i, j | 0 <= i < j < |wanted| :: wanted[i] != wanted[j]
      {
        assert ids[..i + 1] == ids[..i] + [ids[i]];
        if ids[i] !in wanted {
          wanted := wanted + [ids[i]];
        }
        assert SetOf(ids[..i + 1]) == SetOf(ids[..i]) + {ids[i]};
      }
      assert ids[..|ids|] == ids;
    }

    /** `_require_group` then `_require_admin`. */
    method RequireGroupAdmin(c: Id, u: Id) returns (refusal: Option<Error>)
      ensures refusal.None? <==> c in rooms && rooms[c].group && IsAdmin(rooms[c].roster, u)
      ensures refusal == Some(Validation) <==> c in rooms && !rooms[c].group
      ensures refusal == Some(NotFound) <==> c !in rooms || (rooms[c].group && Seen(rooms, u, c).Failure?)
      ensures refusal.Some? ==> refusal.value in {NotFound, Validation, Forbidden}
    {
      if c !in rooms {
        return Some(NotFound);
      }
      if !rooms[c].group {
        return Some(Validation);
      }
      if !Active(rooms[c].roster, u) {
        return Some(NotFound);
      }
      refusal := if rooms[c].roster[u].role != Admin then Some(Forbidden) else None;
    }

    method CreateGroup(user: Id, ids: seq<Id>, newId: Id, now: int) returns (r: Result<View>)
      requires newId !in rooms
      modifies this`rooms
      ensures !(SetOf(ids) + {user} <= users) ==> r == Failure(NotFound) && rooms == old(rooms)
      ensures SetOf(ids) + {user} <= users ==>
        && rooms == old(rooms)[newId := Room(true, None, NewRoster(user, SetOf(ids), now))]
        && r == Success(View(newId, SetOf(ids) + {user}))
    {
      var wanted := Distinct([user] + ids);
      assert SetOf(wanted) == SetOf(ids) + {user};
      if !(SetOf(wanted) <= users) {
        return Failure(NotFound);
      }
      var roster: Roster := map[];
      for i := 0 to |wanted|
        invariant roster == map u | u in SetOf(wanted[..i]) :: Row(if u == user then Admin else Regular, now, true)
      {
        assert SetOf(wanted[..i + 1]) == SetOf(wanted[..i]) + {wanted[i]};
        roster := roster[wanted[i] := Row(if wanted[i] == user then Admin else Regular, now, true)];
      }
      assert wanted[..|wanted|] == wanted;
      assert ActiveMembers(roster) == SetOf(wanted);
      rooms := rooms[newId := Room(true, None, roster)];
      r := Seen(rooms, user, newId);
    }

    /** The loop of add_members over the distinct ids. */
    static method Enrol(r: Roster, wanted: seq<Id>, now: int) returns (roster: Roster)
      ensures roster == Added(r, SetOf(wanted), now)
    {
      roster := r;
      for i := 0 to |wanted|
        invariant roster == Added(r, SetOf(wanted[..i]), now)
      {
        AddedOneMore(r, wanted, i, now);
        var id := wanted[i];
        if id !in roster {
          roster := roster[id := Row(Regular, now, true)];
        } else if !roster[id].active {
          roster := roster[id := roster[id].(role := Regular, joinedAt := now, active := true)];
        }
      }
      assert wanted[..|wanted|] == wanted;
    }

    method AddMembers(actor: Id, c: Id, ids: seq<Id>, now: int) returns (r: Result<View>)
      modifies this`rooms
      ensures Served(users, old(rooms), c, GroupOp.AddMembers(actor, SetOf(ids)), now, rooms, ErrorOf(r))
      ensures r.Success? ==> r.value == View(c, ActiveMembers(old(rooms[c].roster)) + SetOf(ids))
    {
      var refusal := RequireGroupAdmin(c, actor);
      if refusal.Some? {
        return Failure(refusal.value);
      }
      var wanted := Distinct(ids);
      if !(SetOf(wanted) <= users) {
        return Failure(NotFound);
      }
      var before := rooms[c].roster;
      var roster := Enrol(before, wanted, now);
      assert ActiveMembers(roster) == ActiveMembers(before) + SetOf(ids);
      rooms := WithRoster(rooms, c, roster);
      r := Seen(rooms, actor, c);
    }

    method RemoveMember(actor: Id, c: Id, member: Id, now: int) returns (r: Result<()>)
      modifies this`rooms
      ensures Served(users, old(rooms), c, GroupOp.RemoveMember(actor, member), now, rooms, ErrorOf(r))
    {
      var refusal := RequireGroupAdmin(c, actor);
      if refusal.Some? {
        return Failure(refusal.value);
      }
      if !Active(rooms[c].roster, member) {
        return Failure(NotFound);
      }
      rooms := WithRoster(rooms, c, Left(rooms[c].roster, member));
      r := Success(());
    }

    /** The longest-standing active member of a roster, by a scan. */
    static method Successor(r: Roster) returns (heir: Option<Id>)
      ensures heir.None? <==> ActiveMembers(r) == {}
      ensures heir.Some? ==> IsSuccessor(r, heir.value)
      ensures heir.Some? ==> heir.value in r && r[heir.value].active
      ensures heir.Some? ==> forall v | v in r && r[v].active :: r[heir.value].joinedAt <= r[v].joinedAt
    {
      heir := None;
      var rest := ActiveMembers(r);
      while rest != {}
        invariant rest <= ActiveMembers(r)
        invariant heir.None? ==> rest == ActiveMembers(r)
        invariant heir.Some? ==> heir.value in ActiveMembers(r)
        invariant heir.Some? ==> forall v | v in r && Active(r, v) && v !in rest ::
                  r[heir.value].joinedAt <= r[v].joinedAt
      {
        var u :| u in rest;
        if heir.None? || r[u].joinedAt < r[heir.value].joinedAt {
          heir := Some(u);
        }
        rest := rest - {u};
      }
    }

    method Leave(actor: Id, c: Id, now: int) returns (r: Result<()>)
      modifies this`rooms
      ensures Served(users, old(rooms), c, GroupOp.Leave(actor), now, rooms, ErrorOf(r))
    {
      if c !in rooms {
        return Failure(NotFound);
      }
      if !rooms[c].group {
        return Failure(Validation);
      }
      if !Active(rooms[c].roster, actor) {
        return Failure(NotFound);
      }
      var roster := rooms[c].roster;
      LastAdmin(roster, actor);
      var leavesNoAdmin := roster[actor].role == Admin && |Admins(roster)| == 1;
      rooms := WithRoster(rooms, c, Left(roster, actor));
      if leavesNoAdmin {
        var heir := Successor(rooms[c].roster);
        if heir.Some? {
          rooms := WithRoster(rooms, c, Promoted(rooms[c].roster, heir.value, Admin));
        }
      }
      r := Success(());
    }

    method SetRole(actor: Id, c: Id, member: Id, role: Role, now: int) returns (r: Result<View>)
      modifies this`rooms
      ensures Served(users, old(rooms), c, GroupOp.SetRole(actor, member, role), now, rooms, ErrorOf(r))
      ensures r.Success? ==> r.value == View(c, ActiveMembers(old(rooms[c].roster)))
    {
      var refusal := RequireGroupAdmin(c, actor);
      if refusal.Some? {
        return Failure(refusal.value);
      }
      var roster := rooms[c].roster;
      if !Active(roster, member) {
        return Failure(NotFound);
      }
      if roster[member].role == Admin && role == Regular && |Admins(roster)| == 1 {
        return Failure(Conflict);
      }
      rooms := WithRoster(rooms, c, Promoted(roster, member, role));
      assert ActiveMembers(rooms[c].roster) == ActiveMembers(roster);
      r := Seen(rooms, actor, c);
    }

    /** The router's DELETE: a member removing itself leaves. */
    method Delete(user: Id, c: Id, member: Id, now: int) returns (r: Result<()>)
      modifies this`rooms
      ensures Served(users, old(rooms), c, Dispatched(user, member), now, rooms, ErrorOf(r))
    {
      if member == user {
        r := Leave(user, c, now);
      } else {
        r := RemoveMember(user, c, member, now);
      }
    }

    /** `_by_direct_key`. */
    method ByDirectKey(key: string) returns (found: Option<Id>)
      ensures found.Some? <==> Keyed(rooms, key)
      ensures found.Some? ==> found.value in rooms && HasKey(rooms[found.value], key)
    {
      found := None;
      var rest := rooms.Keys;
      while rest != {}
        invariant rest <= rooms.Keys
        invariant found.None? ==> forall c | c in rooms && HasKey(rooms[c], key) :: c in rest
        invariant found.Some? ==> found.value in rooms && HasKey(rooms[found.value], key)
      {
        var c :| c in rest;
        if HasKey(rooms[c], key) {
          found := Some(c);
        }
        rest := rest - {c};
      }
    }

    /** create_direct when no other request commits meanwhile; DirectThreads lets them interleave. */
    method CreateDirect(user: Id, other: Id, newId: Id, now: int) returns (r: Result<View>)
      requires newId !in rooms
      modifies this`rooms
      ensures user == other ==> r == Failure(Validation)
      ensures user != other && other !in users ==> r == Failure(NotFound)
      ensures user == other || other !in users || Keyed(old(rooms), DirectKey(user, other)) ==> rooms == old(rooms)
      ensures user != other && other in users ==>
        && (Keyed(rooms, DirectKey(user, other)))
        && exists c :: c in rooms && HasKey(rooms[c], DirectKey(user, other)) && r == Seen(rooms, user, c)
      ensures user != other && other in users && !Keyed(old(rooms), DirectKey(user, other)) ==>
        && rooms == old(rooms)[newId := DirectRoom(user, other, now)]
        && rooms[newId].roster == map[user := Row(Regular, now, true), other := Row(Regular, now, true)]
        && r == Success(View(newId, {user, other}))
    {
      if other == user {
        return Failure(Validation);
      }
      if other !in users {
        return Failure(NotFound);
      }
      var key := DirectKey(user, other);
      var existing := ByDirectKey(key);
      if existing.Some? {
        r := Seen(rooms, user, existing.value);
        return;
      }
      rooms := rooms[newId := DirectRoom(user, other, now)];
      assert HasKey(rooms[newId], key);
      assert ActiveMembers(rooms[newId].roster) == {user, other};
      r := Seen(rooms, user, newId);
    }
  }

  lemma AddedOneMore(r: Roster, wanted: seq<Id>, i: nat, now: int)
    requires i < |wanted|
    ensures var roster, id := Added(r, SetOf(wanted[..i]), now), wanted[i];
            Added(r, SetOf(wanted[..i + 1]), now) == if Active(roster, id) then roster
                else roster[id := Row(Regular, now, true)]
  {
    assert SetOf(wanted[..i + 1]) == SetOf(wanted[..i]) + {wanted[i]};
  }

  /** Counting admins finds out whether a member is the only one. */
  lemma LastAdmin(r: Roster, u: Id)
    requires Active(r, u)
    ensures r[u].role == Admin && |Admins(r)| == 1 <==> Admins(r) == {u}
  {
    if r[u].role == Admin && |Admins(r)| == 1 {
      assert u in Admins(r) && |Admins(r) - {u}| == 0;
    }
    if Admins(r) == {u} {
      assert u in Admins(r);
    }
  }
}
