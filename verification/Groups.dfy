/**
 Group membership: the roster of one conversation, as the role, joined_at and left_at columns of its
 membership rows. Every group reachable through the API that has an active member has an active admin.
 */
module Groups {
  import opened Database

  datatype Role = Admin | Regular

  datatype Row = Row(role: Role, joinedAt: int, active: bool)

  type Roster = map<Id, Row>

  predicate Active(r: Roster, u: Id) {
    u in r && r[u].active
  }

  predicate IsAdmin(r: Roster, u: Id) {
    Active(r, u) && r[u].role == Admin
  }

  function Admins(r: Roster): set<Id> {
    set u | u in r && IsAdmin(r, u)
  }

  function ActiveMembers(r: Roster): set<Id> {
    set u | u in r && Active(r, u)
  }

  // ---------- the operations ----------

  datatype GroupOp =
    | AddMembers(actor: Id, ids: set<Id>)
    | RemoveMember(actor: Id, member: Id)
    | Leave(actor: Id)
    | SetRole(actor: Id, member: Id, role: Role)

  /** add_members: absent users get a row, departed ones come back as plain members. */
  function Added(r: Roster, ids: set<Id>, now: int): Roster {
    map u | u in r.Keys + ids ::
      if u in ids && !Active(r, u) then Row(Regular, now, true) else r[u]
  }

  function Left(r: Roster, u: Id): Roster
    requires u in r
  {
    r[u := r[u].(active := false)]
  }

  function Promoted(r: Roster, u: Id, role: Role): Roster
    requires u in r
  {
    r[u := r[u].(role := role)]
  }

  /** The member who takes over: active, and nobody active joined earlier. */
  ghost predicate IsSuccessor(r: Roster, u: Id) {
    Active(r, u) && forall v | v in r && Active(r, v) :: r[u].joinedAt <= r[v].joinedAt
  }

  /** `leave` by a member; a departing last admin hands over, if anyone is left. Ties in joined_at may be
      broken either way. */
  ghost predicate Departed(r: Roster, u: Id, r': Roster) {
    && Active(r, u)
    && var after := Left(r, u);
       if Admins(r) == {u} && ActiveMembers(after) != {}
       then exists heir :: IsSuccessor(after, heir) && r' == Promoted(after, heir, Admin)
       else r' == after
  }

  ghost predicate Accepted(r: Roster, op: GroupOp, users: set<Id>) {
    match op
    case AddMembers(actor, ids) => IsAdmin(r, actor) && ids <= users
    case RemoveMember(actor, member) => IsAdmin(r, actor) && Active(r, member)
    case Leave(actor) => Active(r, actor)
    case SetRole(actor, member, role) =>
      IsAdmin(r, actor) && Active(r, member) && !(r[member].role == Admin && role == Regular && |Admins(r)| == 1)
  }

  ghost predicate Step(r: Roster, op: GroupOp, users: set<Id>, now: int, r': Roster) {
    if !Accepted(r, op, users) then r' == r
    else
      match op
      case AddMembers(_, ids) => r' == Added(r, ids, now)
      case RemoveMember(_, member) => r' == Left(r, member)
      case Leave(actor) => Departed(r, actor, r')
      case SetRole(_, member, role) => r' == Promoted(r, member, role)
  }

  /** The router sends a member's removal of itself to `leave`. */
  predicate Routed(op: GroupOp) {
    op.RemoveMember? ==> op.actor != op.member
  }

  // ---------- the invariant ----------

  predicate HasAdmin(r: Roster) {
    ActiveMembers(r) != {} ==> Admins(r) != {}
  }

  lemma OtherAdmin(r: Roster, u: Id) returns (v: Id)
    requires IsAdmin(r, u) && |Admins(r)| != 1
    ensures v != u && IsAdmin(r, v)
  {
    assert u in Admins(r) && (Admins(r) <= {u} ==> Admins(r) == {u});
    v :| v in Admins(r) && v != u;
  }

  lemma SomeAdmin(r: Roster, u: Id)
    requires IsAdmin(r, u)
    ensures HasAdmin(r)
  {
    assert u in Admins(r);
  }

  lemma LeaveKeepsAdmin(r: Roster, u: Id, r': Roster)
    requires HasAdmin(r) && Departed(r, u, r')
    ensures HasAdmin(r')
  {
    var after := Left(r, u);
    if Admins(r) == {u} && ActiveMembers(after) != {} {
      var heir :| IsSuccessor(after, heir) && r' == Promoted(after, heir, Admin);
      SomeAdmin(r', heir);
    } else if ActiveMembers(after) != {} {
      assert u in ActiveMembers(r);
      var v :| v in Admins(r) && v != u;
      SomeAdmin(r', v);
    }
  }

  lemma StepKeepsAdmin(r: Roster, op: GroupOp, users: set<Id>, now: int, r': Roster)
    requires HasAdmin(r) && Step(r, op, users, now, r') && Routed(op)
    ensures HasAdmin(r')
  {
    if Accepted(r, op, users) {
      match op
      case Leave(actor) => LeaveKeepsAdmin(r, actor, r');
      case SetRole(actor, member, role) =>
        if actor == member && role == Regular {
          var v := OtherAdmin(r, actor);
          SomeAdmin(r', v);
        } else {
          SomeAdmin(r', actor);
        }
      case AddMembers(actor, _) => SomeAdmin(r', actor);
      case RemoveMember(actor, _) => SomeAdmin(r', actor);
    }
  }


  /** create_group: the creator as admin, everyone else as member. */
  function NewRoster(creator: Id, ids: set<Id>, now: int): Roster {
    map u | u in ids + {creator} :: Row(if u == creator then Admin else Regular, now, true)
  }

  ghost predicate Goes(r: Roster, op: GroupOp, users: set<Id>, r': Roster) {
    Routed(op) && exists now :: Step(r, op, users, now, r')
  }

  /** A history of one group through the API. */
  ghost predicate History(rs: seq<Roster>, ops: seq<GroupOp>, users: set<Id>) {
    && |rs| == |ops| + 1
    && (exists creator, ids, now :: rs[0] == NewRoster(creator, ids, now))
    && (forall i | 0 <= i < |ops| :: Goes(rs[i], ops[i], users, rs[i + 1]))
  }

  /** Main result: no group is ever left without an admin while somebody is in it. */
  lemma {:induction false} GroupsKeepAnAdmin(rs: seq<Roster>, ops: seq<GroupOp>, users: set<Id>, i: nat)
    requires History(rs, ops, users) && i < |rs|
    ensures HasAdmin(rs[i])
  {
    if i == 0 {
      var creator, ids, now :| rs[0] == NewRoster(creator, ids, now);
      SomeAdmin(rs[0], creator);
    } else {
      GroupsKeepAnAdmin(rs, ops, users, i - 1);
      assert Goes(rs[i - 1], ops[i - 1], users, rs[i]);
      var now :| Step(rs[i - 1], ops[i - 1], users, now, rs[i]);
      StepKeepsAdmin(rs[i - 1], ops[i - 1], users, now, rs[i]);
    }
  }

  lemma EmptyGoesNowhere(r: Roster, op: GroupOp, users: set<Id>, r': Roster)
    requires ActiveMembers(r) == {} && Goes(r, op, users, r')
    ensures r' == r
  {
    assert forall u | u in r :: u !in ActiveMembers(r);
  }

  /** An emptied group is never entered again. */
  lemma {:induction false} EmptyGroupsStayEmpty(rs: seq<Roster>, ops: seq<GroupOp>, users: set<Id>, i: nat, j: nat)
    requires History(rs, ops, users) && i <= j < |rs| && ActiveMembers(rs[i]) == {}
    ensures rs[j] == rs[i]
    decreases j
  {
    if i < j {
      EmptyGroupsStayEmpty(rs, ops, users, i, j - 1);
      EmptyGoesNowhere(rs[j - 1], ops[j - 1], users, rs[j]);
    }
  }

  /** Why the router matters: an admin removing itself keeps the invariant exactly when another admin
      stays or nobody does. */
  lemma RemovingOneselfExactly(r: Roster, u: Id)
    requires IsAdmin(r, u)
    ensures HasAdmin(Left(r, u)) <==> Admins(r) != {u} || ActiveMembers(r) == {u}
  {
    var r' := Left(r, u);
    assert u in Admins(r) && u in ActiveMembers(r);
    assert Admins(r') == Admins(r) - {u} && ActiveMembers(r') == ActiveMembers(r) - {u};
    if Admins(r) != {u} {
      var v :| v in Admins(r) && v != u;
      assert v in Admins(r');
    }
    if ActiveMembers(r) != {u} {
      var v :| v in ActiveMembers(r) && v != u;
      assert v in ActiveMembers(r');
    }
  }
}
