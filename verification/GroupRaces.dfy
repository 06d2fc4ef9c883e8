/**
 Group operations that overlap. Each one checks committed rows first and writes its own changes later, in one
 transaction; in between, others may write. A group is left without an admin exactly by a write that takes
 the last admin away, and only a write whose check is out of date does that.
 */
module GroupRaces {
  import opened Collections
  import opened Database
  import opened Groups

  /** What an operation that passed its checks is going to write. Columns that already had the value when they
      were read are not written. */
  datatype Effect =
    | Enrol(missing: set<Id>, back: set<Id>, stripped: set<Id>) // rows to insert, rows to revive, admins' among these
    | Depart(member: Id, handover: bool)                        // left_at, and a successor if the check said so
    | Assign(member: Id, role: Role)
    | Nothing

  /** The reading half of an operation. */
  function Checked(r: Roster, op: GroupOp): Effect
    requires op.SetRole? ==> op.member in r
  {
    match op
    case AddMembers(_, ids) =>
      var back := set u | u in ids && u in r && !r[u].active;
      Enrol(ids - r.Keys, back, set u | u in back && r[u].role == Admin)
    case RemoveMember(_, member) => Depart(member, false)
    case Leave(actor) => Depart(actor, Admins(r) == {actor})
    case SetRole(_, member, role) => if r[member].role == role then Nothing else Assign(member, role)
  }

  /** What a check notes down: of the users named, those without a row, those who left, and of these the former
      admins; a departing member, with a handover if nobody else is an admin; a role that is to change. */
  lemma ChecksNote(r: Roster, op: GroupOp, u: Id)
    requires op.SetRole? ==> op.member in r
    ensures op.AddMembers? ==> Checked(r, op).Enrol?
    ensures op.AddMembers? ==>
      var note := Checked(r, op);
      && (u in note.missing <==> u in op.ids && u !in r)
      && (u in note.back <==> u in op.ids && u in r && !r[u].active)
      && (u in note.stripped <==> u in op.ids && u in r && !r[u].active && r[u].role == Admin)
    ensures op.RemoveMember? ==> Checked(r, op) == Depart(op.member, false)
    ensures op.Leave? && u != op.actor && u in r && r[u] == Row(Admin, r[u].joinedAt, true) ==>
              Checked(r, op) == Depart(op.actor, false)
    ensures op.SetRole? ==>
      Checked(r, op) == if r[op.member].role == op.role then Nothing else Assign(op.member, op.role)
  {
    if op.Leave? && u != op.actor && u in r && r[u] == Row(Admin, r[u].joinedAt, true) {
      assert u in Admins(r);
    }
  }

  predicate Writable(r: Roster, effect: Effect) {
    match effect
    case Enrol(_, back, stripped) => back <= r.Keys && stripped <= back
    case Depart(member, _) => member in r
    case Assign(member, _) => member in r
    case Nothing => true
  }

  /** A row that is there by now fails the insert, and the whole write with it. */
  function Enrolled(r: Roster, missing: set<Id>, back: set<Id>, stripped: set<Id>, now: int): Roster
    requires back <= r.Keys
  {
    if !(missing !! r.Keys) then r
    else
      map u | u in r.Keys + missing ::
        if u in missing then Row(Regular, now, true)
        else if u in back then Row(if u in stripped then Regular else r[u].role, now, true)
        else r[u]
  }

  /** The writing half, on the roster as it is by then. */
  ghost predicate Written(r: Roster, effect: Effect, now: int, r': Roster)
    requires Writable(r, effect)
  {
    match effect
    case Enrol(missing, back, stripped) => r' == Enrolled(r, missing, back, stripped, now)
    case Depart(member, handover) =>
      var after := Left(r, member);
      if handover && ActiveMembers(after) != {}
      then exists heir :: IsSuccessor(after, heir) && r' == Promoted(after, heir, Admin)
      else r' == after
    case Assign(member, role) => r' == Promoted(r, member, role)
    case Nothing => r' == r
  }

  // ---------- one write ----------

  /** The write takes away the last admin of a group that still has, or thereby gets, members. */
  predicate Strips(r: Roster, effect: Effect) {
    match effect
    case Enrol(missing, back, stripped) =>
      && missing !! r.Keys && back <= r.Keys && ActiveMembers(r) + missing + back != {}
      && Admins(r) <= stripped && (forall u | u in back && u !in stripped :: r[u].role == Regular)
    case Depart(member, handover) => !handover && Admins(r) <= {member} && ActiveMembers(r) - {member} != {}
    case Assign(member, role) => role == Regular && Admins(r) <= {member} && ActiveMembers(r) != {}
    case Nothing => false
  }

  lemma EnrolKeepsExactly(r: Roster, missing: set<Id>, back: set<Id>, stripped: set<Id>, now: int)
    requires HasAdmin(r) && stripped <= back <= r.Keys && missing !! r.Keys
    ensures HasAdmin(Enrolled(r, missing, back, stripped, now)) <==> !Strips(r, Enrol(missing, back, stripped))
  {
    var r' := Enrolled(r, missing, back, stripped, now);
    assert ActiveMembers(r') == ActiveMembers(r) + missing + back;
    if u :| u in Admins(r) && u !in stripped {
      assert u in r && u !in missing && IsAdmin(r', u);
      SomeAdmin(r', u);
    }
    if u :| u in back && u !in stripped && r[u].role == Admin {
      assert u in r && u !in missing && IsAdmin(r', u);
      SomeAdmin(r', u);
    }
    assert forall u | u in Admins(r') :: u in r && u !in missing && u !in stripped && (u in Admins(r) || u in back);
    if Strips(r, Enrol(missing, back, stripped)) {
      assert Admins(r') == {};
    }
  }

  lemma DepartKeepsExactly(r: Roster, member: Id, handover: bool, now: int, r': Roster)
    requires HasAdmin(r) && member in r && Written(r, Depart(member, handover), now, r')
    ensures HasAdmin(r') <==> !Strips(r, Depart(member, handover))
  {
    var after := Left(r, member);
    assert ActiveMembers(after) == ActiveMembers(r) - {member} && Admins(after) == Admins(r) - {member};
    if handover && ActiveMembers(after) != {} {
      var heir :| IsSuccessor(after, heir) && r' == Promoted(after, heir, Admin);
      SomeAdmin(r', heir);
    }
  }

  lemma AssignKeepsExactly(r: Roster, member: Id, role: Role)
    requires HasAdmin(r) && member in r
    ensures HasAdmin(Promoted(r, member, role)) <==> !Strips(r, Assign(member, role))
  {
    var r' := Promoted(r, member, role);
    assert ActiveMembers(r') == ActiveMembers(r);
    if role == Regular {
      assert Admins(r') == Admins(r) - {member};
    } else {
      assert Admins(r) <= Admins(r');
    }
  }

  /** Exactly which writes leave a group that had an admin without one. */
  lemma WriteKeepsExactly(r: Roster, effect: Effect, now: int, r': Roster)
    requires HasAdmin(r) && Writable(r, effect) && Written(r, effect, now, r')
    ensures HasAdmin(r') <==> !Strips(r, effect)
  {
    match effect
    case Enrol(missing, back, stripped) =>
      if missing !! r.Keys {
        EnrolKeepsExactly(r, missing, back, stripped, now);
      }
    case Depart(member, handover) => DepartKeepsExactly(r, member, handover, now, r');
    case Assign(member, role) => AssignKeepsExactly(r, member, role);
    case Nothing =>
  }

  /** Nobody in between: the two halves are the step of the roster machine. */
  lemma UndisturbedIsStep(r: Roster, op: GroupOp, users: set<Id>, now: int, r': Roster)
    requires Accepted(r, op, users)
    ensures Writable(r, Checked(r, op))
    ensures Written(r, Checked(r, op), now, r') <==> Step(r, op, users, now, r')
  {
    match op
    case AddMembers(_, ids) =>
      var e := Checked(r, op);
      assert e.missing !! r.Keys;
      assert Enrolled(r, e.missing, e.back, e.stripped, now) == Added(r, ids, now);
    case RemoveMember(_, _) =>
    case Leave(_) =>
    case SetRole(_, member, role) => assert r[member].role == role ==> Promoted(r, member, role) == r;
  }

  /** So only a write whose check is out of date strips a group. */
  lemma OnlyStaleChecksStrip(r: Roster, op: GroupOp, users: set<Id>)
    requires HasAdmin(r) && Accepted(r, op, users) && Routed(op)
    ensures !Strips(r, Checked(r, op))
  {
    match op
    case AddMembers(actor, _) => assert actor in Admins(r);
    case RemoveMember(actor, _) => assert actor in Admins(r);
    case Leave(_) =>
    case SetRole(actor, member, role) =>
      assert actor in Admins(r);
      assert member in Admins(r) && Admins(r) <= {member} ==> Admins(r) == {member};
  }

  // ---------- whole runs ----------

  datatype Sys = Sys(roster: Roster, pending: map<nat, Effect>)

  datatype Event = Check(k: nat, op: GroupOp) | Write(k: nat, now: int)

  /** A check that fails answers with its error and is over. */
  ghost predicate Next(users: set<Id>, s: Sys, e: Event, s': Sys) {
    match e
    case Check(k, op) =>
      && k !in s.pending && Routed(op)
      && s' == if Accepted(s.roster, op, users) then s.(pending := s.pending[k := Checked(s.roster, op)]) else s
    case Write(k, now) =>
      && k in s.pending && Writable(s.roster, s.pending[k])
      && Written(s.roster, s.pending[k], now, s'.roster)
      && s'.pending == s.pending - {k}
  }

  ghost predicate Run(users: set<Id>, ss: seq<Sys>, es: seq<Event>) {
    && |ss| == |es| + 1
    && (exists creator, ids, now :: ss[0] == Sys(NewRoster(creator, ids, now), map[]))
    && forall i | 0 <= i < |es| :: Next(users, ss[i], es[i], ss[i + 1])
  }

  predicate StripsAt(s: Sys, e: Event) {
    e.Write? && e.k in s.pending && Strips(s.roster, s.pending[e.k])
  }

  /** Main result: over every interleaving, the group has an admin all along if and only if no write strips it. */
  lemma AdminsStayExactly(users: set<Id>, ss: seq<Sys>, es: seq<Event>)
    requires Run(users, ss, es)
    ensures (forall i | 0 <= i < |ss| :: HasAdmin(ss[i].roster)) <==>
            (forall i | 0 <= i < |es| :: !StripsAt(ss[i], es[i]))
  {
    var good := seq(|ss|, i requires 0 <= i < |ss| => HasAdmin(ss[i].roster));
    var clean := seq(|es|, i requires 0 <= i < |es| => !StripsAt(ss[i], es[i]));
    var creator, ids, now :| ss[0] == Sys(NewRoster(creator, ids, now), map[]);
    SomeAdmin(ss[0].roster, creator);
    forall i | 0 <= i < |es| && good[i] ensures good[i + 1] == clean[i] {
      assert Next(users, ss[i], es[i], ss[i + 1]);
      if es[i].Write? {
        WriteKeepsExactly(ss[i].roster, ss[i].pending[es[i].k], es[i].now, ss[i + 1].roster);
      }
    }
    AllAlong(good, clean);
    assert forall i | 0 <= i < |ss| :: good[i] == HasAdmin(ss[i].roster);
    assert forall i | 0 <= i < |es| :: clean[i] == !StripsAt(ss[i], es[i]);
  }

  /** Rows are never deleted, so what was checked can always be written. */
  lemma {:induction false} PendingIsWritable(users: set<Id>, ss: seq<Sys>, es: seq<Event>, i: nat)
    requires Run(users, ss, es) && i < |ss|
    ensures forall k | k in ss[i].pending :: Writable(ss[i].roster, ss[i].pending[k])
  {
    if i > 0 {
      PendingIsWritable(users, ss, es, i - 1);
      assert Next(users, ss[i - 1], es[i - 1], ss[i]);
      if es[i - 1].Write? {
        assert ss[i - 1].roster.Keys <= ss[i].roster.Keys;
      }
    }
  }

  // ---------- two leaving admins ----------

  /** Both check, then both write: the group keeps an admin if and only if there is a third one, or nobody else. */
  lemma TwoLeavesExactly(r: Roster, a: Id, b: Id, now: int, r1: Roster, r2: Roster)
    requires a != b && IsAdmin(r, a) && IsAdmin(r, b)
    requires Written(r, Checked(r, Leave(a)), now, r1) && b in r1 && Written(r1, Checked(r, Leave(b)), now, r2)
    ensures HasAdmin(r2) <==> Admins(r) != {a, b} || ActiveMembers(r) == {a, b}
  {
    assert a in Admins(r) && b in Admins(r);
    assert r1 == Left(r, a) && r2 == Left(r1, b);
    assert Admins(r2) == Admins(r) - {a, b} && ActiveMembers(r2) == ActiveMembers(r) - {a, b};
    assert {a, b} <= Admins(r) <= ActiveMembers(r);
  }

  lemma RunBy(users: set<Id>, ss: seq<Sys>, es: seq<Event>, e: Event, s: Sys) returns (ss': seq<Sys>, es': seq<Event>)
    requires Run(users, ss, es) && Next(users, ss[|es|], e, s)
    ensures Run(users, ss', es') && ss' == ss + [s] && es' == es + [e]
  {
    ss', es' := ss + [s], es + [e];
    forall i | 0 <= i < |es'| ensures Next(users, ss'[i], es'[i], ss'[i + 1]) {
      if i < |es| {
        assert Next(users, ss[i], es[i], ss[i + 1]);
      }
    }
  }

  /** A new group whose creator made a second member an admin. */
  lemma TwoAdmins(a: Id, b: Id, m: Id) returns (ss: seq<Sys>, es: seq<Event>, r: Roster)
    requires a != b && b != m && m != a
    ensures Run({a, b, m}, ss, es) && es == [Check(0, SetRole(a, b, Admin)), Write(0, 0)]
    ensures ss[2] == Sys(r, map[])
    ensures r == map[a := Row(Admin, 0, true), b := Row(Admin, 0, true), m := Row(Regular, 0, true)]
  {
    var r0 := NewRoster(a, {b, m}, 0);
    r := map[a := Row(Admin, 0, true), b := Row(Admin, 0, true), m := Row(Regular, 0, true)];
    assert Promoted(r0, b, Admin) == r;
    ss, es := [Sys(r0, map[])], [];
    ss, es := RunBy({a, b, m}, ss, es, Check(0, SetRole(a, b, Admin)), Sys(r0, map[0 := Assign(b, Admin)]));
    ss, es := RunBy({a, b, m}, ss, es, Write(0, 0), Sys(r, map[]));
  }

  /** Both of them have checked that they may leave without handing over. */
  lemma BothLeaving(a: Id, b: Id, m: Id) returns (ss: seq<Sys>, es: seq<Event>, r: Roster)
    requires a != b && b != m && m != a
    ensures Run({a, b, m}, ss, es)
    ensures es == [Check(0, SetRole(a, b, Admin)), Write(0, 0), Check(1, Leave(a)), Check(2, Leave(b))]
    ensures ss[4] == Sys(r, map[1 := Depart(a, false), 2 := Depart(b, false)])
    ensures r == map[a := Row(Admin, 0, true), b := Row(Admin, 0, true), m := Row(Regular, 0, true)]
  {
    ss, es, r := TwoAdmins(a, b, m);
    assert a in Admins(r) && b in Admins(r);
    ss, es := RunBy({a, b, m}, ss, es, Check(1, Leave(a)), Sys(r, map[1 := Depart(a, false)]));
    ss, es := RunBy({a, b, m}, ss, es, Check(2, Leave(b)), Sys(r, map[1 := Depart(a, false), 2 := Depart(b, false)]));
  }

  /** It happens: a group of three loses both its admins and is left with a member nobody can promote. */
  lemma TwoLeavesHappen(a: Id, b: Id, m: Id) returns (ss: seq<Sys>, es: seq<Event>)
    requires a != b && b != m && m != a
    ensures Run({a, b, m}, ss, es)
    ensures es == [Check(0, SetRole(a, b, Admin)), Write(0, 0), Check(1, Leave(a)), Check(2, Leave(b)), Write(1, 0),
            Write(2, 0)]
    ensures ActiveMembers(ss[6].roster) == {m} && Admins(ss[6].roster) == {}
  {
    var r: Roster;
    ss, es, r := BothLeaving(a, b, m);
    var r1, r2 := Left(r, a), Left(Left(r, a), b);
    assert map[1 := Depart(a, false), 2 := Depart(b, false)] - {1} == map[2 := Depart(b, false)];
    ss, es := RunBy({a, b, m}, ss, es, Write(1, 0), Sys(r1, map[2 := Depart(b, false)]));
    ss, es := RunBy({a, b, m}, ss, es, Write(2, 0), Sys(r2, map[]));
    assert m in ActiveMembers(r2);
  }
}
