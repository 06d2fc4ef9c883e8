/**
 Refresh-token rotation. A refresh reads and checks its row, and only later writes: two refreshes of one
 token may both pass the check. What rotation guarantees, and exactly when, over all interleavings.
 */
module Sessions {
  import opened Wrappers
  import opened Database

  /** A refresh token, standing for its digest too: the digest is taken as injective. */
  type Token = string

  datatype Row = Row(user: Id, expiresAt: int, revoked: bool)

  type Rows = map<Token, Row>

  const REFRESH_TTL := 30 * 24 * 60 * 60

  predicate LiveRow(rows: Rows, u: Id, t: Token) {
    t in rows && rows[t].user == u && !rows[t].revoked
  }

  /** The user's unrevoked sessions. */
  function Live(rows: Rows, u: Id): set<Token> {
    set t | t in rows && LiveRow(rows, u, t)
  }

  function Revoked(rows: Rows, t: Token): Rows
    requires t in rows
  {
    rows[t := rows[t].(revoked := true)]
  }

  /** `_revoke_all_for_user`, one UPDATE. */
  function AllRevoked(rows: Rows, u: Id): Rows {
    map t | t in rows :: if rows[t].user == u then rows[t].(revoked := true) else rows[t]
  }

  function LoggedOut(rows: Rows, t: Token): Rows {
    if t in rows then Revoked(rows, t) else rows
  }

  function Opened(rows: Rows, t: Token, u: Id, now: int): Rows {
    rows[t := Row(u, now + REFRESH_TTL, false)]
  }

  /** What the read half of a refresh finds out. */
  datatype Verdict = Valid(user: Id) | Replay(user: Id) | Refused

  function Checked(users: set<Id>, rows: Rows, t: Token, now: int): Verdict {
    if t !in rows then Refused
    else if rows[t].revoked then Replay(rows[t].user)
    else if rows[t].expiresAt <= now then Refused
    else if rows[t].user !in users then Refused
    else Valid(rows[t].user)
  }

  /** The write half: the row read before is marked, whatever has happened to it since, and a new one added. */
  function Rotated(rows: Rows, t: Token, u: Id, next: Token, now: int): Rows
    requires t in rows
  {
    Opened(Revoked(rows, t), next, u, now)
  }

  class AuthService {
    const users: set<Id>
    var rows: Rows

    constructor (users: set<Id>)
      ensures this.users == users && rows == map[]
    {
      this.users := users;
      rows := map[];
    }

    method StartSession(u: Id, next: Token, now: int)
      requires next !in rows
      modifies this
      ensures rows == Opened(old(rows), next, u, now)
      ensures rows == old(rows)[next := Row(u, now + 2592000, false)]
      ensures Live(rows, u) == Live(old(rows), u) + {next}
    {
      rows := rows[next := Row(u, now + REFRESH_TTL, false)];
    }

    method RevokeAllForUser(u: Id)
      modifies this
      ensures rows == AllRevoked(old(rows), u) && Live(rows, u) == {}
      ensures forall s | s in old(rows) && old(rows)[s].user != u :: s in rows && rows[s] == old(rows)[s]
    {
      rows := map t | t in rows :: if rows[t].user == u then rows[t].(revoked := true) else rows[t];
    }

    /** A refresh that no other one of the same token overlaps: success trades the token for a new one of
        the same user, a replayed token ends all the user's sessions, anything else changes nothing. */
    method Refresh(t: Token, next: Token, now: int) returns (r: Result<(Id, Token)>)
      requires next !in rows
      modifies this
      ensures r.Success? <==>
              && t in old(rows) && !old(rows)[t].revoked && now < old(rows)[t].expiresAt
              && old(rows)[t].user in users
      ensures r.Success? ==>
                rows == old(rows)[t := old(rows)[t].(revoked := true)]
                                 [next := Row(old(rows)[t].user, now + 2592000, false)]
      ensures rows == old(rows) || r.Success? || (t in old(rows) && old(rows)[t].revoked)
      ensures Checked(users, old(rows), t, now).Valid? ==>
                var u := old(rows[t].user);
                && r == Success((u, next))
                && rows == Rotated(old(rows), t, u, next, now)
                && Live(rows, u) == Live(old(rows), u) - {t} + {next}
                && |Live(rows, u)| == |Live(old(rows), u)|
      ensures Checked(users, old(rows), t, now).Replay? ==>
                var u := old(rows[t].user);
                && r == Failure(Unauthorized)
                && rows == AllRevoked(old(rows), u)
                && Live(rows, u) == {}
      ensures Checked(users, old(rows), t, now).Refused? ==> r == Failure(Unauthorized) && rows == old(rows)
    {
      if t !in rows {
        return Failure(Unauthorized);
      }
      if rows[t].revoked {
        RevokeAllForUser(rows[t].user);
        return Failure(Unauthorized);
      }
      if rows[t].expiresAt <= now {
        return Failure(Unauthorized);
      }
      var u := rows[t].user;
      if u !in users {
        return Failure(Unauthorized);
      }
      RotationCounts(rows, t, u, next, now);
      rows := Revoked(rows, t);
      StartSession(u, next, now);
      r := Success((u, next));
    }

    method Logout(t: Token)
      modifies this
      ensures rows == LoggedOut(old(rows), t)
      ensures t in rows ==> rows == old(rows)[t := old(rows)[t].(revoked := true)]
      ensures t !in rows ==> rows == old(rows)
    {
      if t in rows && !rows[t].revoked {
        rows := Revoked(rows, t);
      }
      assert forall s | s in rows :: rows[s] == LoggedOut(old(rows), t)[s];
    }
  }

  /** A rotation keeps the number of the user's sessions exactly when the token was unrevoked as it wrote. */
  lemma RotationCounts(rows: Rows, t: Token, u: Id, next: Token, now: int)
    requires t in rows && rows[t].user == u && next !in rows
    ensures Live(Rotated(rows, t, u, next, now), u) == Live(rows, u) - {t} + {next}
    ensures |Live(Rotated(rows, t, u, next, now), u)| == |Live(rows, u)| <==> !rows[t].revoked
  {
    assert Live(Rotated(rows, t, u, next, now), u) == Live(rows, u) - {t} + {next};
    assert rows[t].revoked ==> Live(rows, u) - {t} == Live(rows, u);
    assert !rows[t].revoked ==> t in Live(rows, u);
  }

  // ---------- overlapping refreshes ----------

  datatype Phase =
    | Passed(token: Token, user: Id)    // the check was passed, the write is still to come
    | Caught(user: Id)                  // a revoked token was presented
    | Over

  datatype Sys = Sys(rows: Rows, requests: map<nat, Phase>)

  datatype Event =
    | SignIn(next: Token, user: Id, now: int)
    | Present(k: nat, token: Token, now: int)
    | Write(k: nat, next: Token, now: int)
    | Punish(k: nat)
    | SignOut(token: Token)

  predicate Enabled(users: set<Id>, s: Sys, e: Event) {
    match e
    case SignIn(next, u, _) => next !in s.rows && u in users
    case Present(k, _, _) => k !in s.requests
    case Write(k, next, _) =>
      k in s.requests && s.requests[k].Passed? && s.requests[k].token in s.rows && next !in s.rows
    case Punish(k) => k in s.requests && s.requests[k].Caught?
    case SignOut(_) => true
  }

  function After(users: set<Id>, s: Sys, e: Event): Sys
    requires Enabled(users, s, e)
  {
    match e
    case SignIn(next, u, now) => s.(rows := Opened(s.rows, next, u, now))
    case Present(k, t, now) =>
      s.(requests := s.requests[k :=
           match Checked(users, s.rows, t, now)
           case Valid(u) => Passed(t, u)
           case Replay(u) => Caught(u)
           case Refused => Over])
    case Write(k, next, now) =>
      Sys(Rotated(s.rows, s.requests[k].token, s.requests[k].user, next, now), s.requests[k := Over])
    case Punish(k) => Sys(AllRevoked(s.rows, s.requests[k].user), s.requests[k := Over])
    case SignOut(t) => s.(rows := LoggedOut(s.rows, t))
  }

  ghost predicate Steps(users: set<Id>, s: Sys, e: Event, s': Sys) {
    Enabled(users, s, e) && s' == After(users, s, e)
  }

  ghost predicate Run(users: set<Id>, ss: seq<Sys>, es: seq<Event>) {
    && |ss| == |es| + 1
    && ss[0] == Sys(map[], map[])
    && forall i | 0 <= i < |es| :: Steps(users, ss[i], es[i], ss[i + 1])
  }

  /** The i-th event trades the token for a new one. */
  predicate Redeems(ss: seq<Sys>, es: seq<Event>, i: nat, t: Token)
    requires |ss| == |es| + 1 && i < |es|
  {
    && es[i].Write? && es[i].k in ss[i].requests
    && ss[i].requests[es[i].k].Passed? && ss[i].requests[es[i].k].token == t
  }

  ghost predicate RedeemedTwice(ss: seq<Sys>, es: seq<Event>, t: Token)
    requires |ss| == |es| + 1
  {
    exists i, j :: 0 <= i < j < |es| && Redeems(ss, es, i, t) && Redeems(ss, es, j, t)
  }

  predicate Past(s: Sys, k: nat, t: Token) {
    k in s.requests && s.requests[k].Passed? && s.requests[k].token == t
  }

  /** Two refreshes of the token are past the check, neither has written. */
  ghost predicate TwoPast(s: Sys, t: Token) {
    exists k, l :: k != l && Past(s, k, t) && Past(s, l, t)
  }

  /** No refresh of the token is left between its check and its write. */
  ghost predicate Settled(s: Sys, t: Token) {
    forall k | k in s.requests :: !Past(s, k, t)
  }

  /** Rows stay, and once revoked stay revoked. */
  lemma {:induction false} RevokedForGood(users: set<Id>, ss: seq<Sys>, es: seq<Event>, i: nat, j: nat, t: Token)
    requires Run(users, ss, es) && i <= j < |ss| && t in ss[i].rows
    ensures t in ss[j].rows && (ss[i].rows[t].revoked ==> ss[j].rows[t].revoked) &&
            ss[j].rows[t].user == ss[i].rows[t].user
    decreases j
  {
    if i < j {
      RevokedForGood(users, ss, es, i, j - 1, t);
      assert Steps(users, ss[j - 1], es[j - 1], ss[j]);
    }
  }

  /** A request past its check presented that token earlier, when it was not revoked. */
  lemma {:induction false} PassedBefore(users: set<Id>, ss: seq<Sys>, es: seq<Event>, j: nat, k: nat) returns (r: nat)
    requires Run(users, ss, es) && j < |ss| && k in ss[j].requests && ss[j].requests[k].Passed?
    ensures r < j && es[r].Present? && es[r].k == k && es[r].token == ss[j].requests[k].token
    ensures es[r].token in ss[r].rows && !ss[r].rows[es[r].token].revoked
    decreases j
  {
    r := j - 1;
    assert Steps(users, ss[r], es[r], ss[j]);
    if !(es[r].Present? && es[r].k == k) {
      r := PassedBefore(users, ss, es, r, k);
    }
  }

  /** A request never returns to its check: past it now, it was past it ever since it came in. */
  lemma {:induction false} PastEverSince(users: set<Id>, ss: seq<Sys>, es: seq<Event>, i: nat, j: nat, k: nat, t: Token)
    requires Run(users, ss, es) && i <= j < |ss| && k in ss[i].requests && Past(ss[j], k, t)
    ensures Past(ss[i], k, t)
    decreases j - i
  {
    if i < j {
      assert Steps(users, ss[i], es[i], ss[i + 1]);
      PastEverSince(users, ss, es, i + 1, j, k, t);
    }
  }

  lemma {:induction false} RequestsStay(users: set<Id>, ss: seq<Sys>, es: seq<Event>, i: nat, j: nat, k: nat)
    requires Run(users, ss, es) && i <= j < |ss| && k in ss[i].requests
    ensures k in ss[j].requests
    decreases j
  {
    if i < j {
      RequestsStay(users, ss, es, i, j - 1, k);
      assert Steps(users, ss[j - 1], es[j - 1], ss[j]);
    }
  }

  /** When the first of two redemptions is written, the second one's request is past its check already. */
  lemma RedeemersMeet(users: set<Id>, ss: seq<Sys>, es: seq<Event>, i: nat, j: nat, t: Token)
    requires Run(users, ss, es) && i < j < |es| && Redeems(ss, es, i, t) && Redeems(ss, es, j, t)
    ensures TwoPast(ss[i], t)
  {
    var k, l := es[i].k, es[j].k;
    var r := PassedBefore(users, ss, es, j, l);
    assert Steps(users, ss[i], es[i], ss[i + 1]) && Steps(users, ss[r], es[r], ss[r + 1]);
    assert ss[i + 1].rows[t].revoked;
    if i < r {
      RevokedForGood(users, ss, es, i + 1, r, t);
    }
    RequestsStay(users, ss, es, r + 1, i, l);
    PastEverSince(users, ss, es, i, j, l, t);
    if k == l {
      PastEverSince(users, ss, es, i + 1, j, l, t);
    }
    assert Past(ss[i], k, t) && Past(ss[i], l, t);
  }

  /** A request that was past its check and no longer is has written in between. */
  lemma {:induction false} PastThenWrote(users: set<Id>, ss: seq<Sys>, es: seq<Event>, i: nat, j: nat, k: nat, t: Token)
    returns (w: nat)
    requires Run(users, ss, es) && i <= j < |ss| && Past(ss[i], k, t) && !Past(ss[j], k, t)
    ensures i <= w < j && Redeems(ss, es, w, t) && es[w].k == k
    decreases j - i
  {
    w := i;
    assert Steps(users, ss[i], es[i], ss[i + 1]);
    if Past(ss[i + 1], k, t) {
      w := PastThenWrote(users, ss, es, i + 1, j, k, t);
    }
  }

  /** Main result: over a run that leaves no refresh of the token half done, the token is redeemed twice if
      and only if at some moment two of its refreshes are past their check. */
  lemma RedeemedTwiceExactly(users: set<Id>, ss: seq<Sys>, es: seq<Event>, t: Token)
    requires Run(users, ss, es) && Settled(ss[|es|], t)
    ensures RedeemedTwice(ss, es, t) <==> exists i :: 0 <= i < |ss| && TwoPast(ss[i], t)
  {
    if RedeemedTwice(ss, es, t) {
      var i, j :| 0 <= i < j < |es| && Redeems(ss, es, i, t) && Redeems(ss, es, j, t);
      RedeemersMeet(users, ss, es, i, j, t);
    }
    if i :| 0 <= i < |ss| && TwoPast(ss[i], t) {
      var k, l :| k != l && Past(ss[i], k, t) && Past(ss[i], l, t);
      var v := PastThenWrote(users, ss, es, i, |es|, k, t);
      var w := PastThenWrote(users, ss, es, i, |es|, l, t);
      assert Redeems(ss, es, v, t) && Redeems(ss, es, w, t) && v != w;
    }
  }

  lemma {:induction false} PastHasRow(users: set<Id>, ss: seq<Sys>, es: seq<Event>, i: nat, k: nat, t: Token)
    requires Run(users, ss, es) && i < |ss| && Past(ss[i], k, t)
    ensures t in ss[i].rows
  {
    var r := PassedBefore(users, ss, es, i, k);
    RevokedForGood(users, ss, es, r, i, t);
  }

  /** From every state in which two are past the check nothing holds them back: both writes are enabled, one
      after the other, and they redeem the token twice. */
  lemma TwoPastCanRedeemTwice(users: set<Id>, ss: seq<Sys>, es: seq<Event>, t: Token, next: Token, other: Token,
      now: int)
    returns (ss': seq<Sys>, es': seq<Event>)
    requires Run(users, ss, es) && TwoPast(ss[|es|], t)
    requires next !in ss[|es|].rows && other !in ss[|es|].rows && next != other
    ensures Run(users, ss', es') && RedeemedTwice(ss', es', t)
    ensures |es'| == |es| + 2 && es <= es' && es'[|es|].Write? && es'[|es| + 1].Write?
  {
    var n := |es|;
    var k, l :| k != l && Past(ss[n], k, t) && Past(ss[n], l, t);
    PastHasRow(users, ss, es, n, k, t);
    var ss1, es1 := ss + [After(users, ss[n], Write(k, next, now))], es + [Write(k, next, now)];
    ss', es' := ss1 + [After(users, ss1[n + 1], Write(l, other, now))], es1 + [Write(l, other, now)];
    assert Redeems(ss', es', n, t) && Redeems(ss', es', n + 1, t);
  }

  // ---------- detection ----------

  predicate Punishes(s: Sys, e: Event, u: Id) {
    e.Punish? && e.k in s.requests && s.requests[e.k] == Caught(u)
  }

  /** What can give a punished user a session again: a sign-in, or the write of a refresh of the user's that
      was past its check when the sessions were ended. */
  predicate Reopens(punished: Sys, e: Event, u: Id) {
    || (e.SignIn? && e.user == u)
    || (e.Write? && e.k in punished.requests && punished.requests[e.k].Passed? && punished.requests[e.k].user == u)
  }

  lemma NoSessionNoPass(users: set<Id>, rows: Rows, u: Id, t: Token, now: int)
    requires Live(rows, u) == {}
    ensures Checked(users, rows, t, now) != Valid(u)
  {
    assert LiveRow(rows, u, t) <==> t in Live(rows, u);
  }

  /** While the user has no session, no refresh of the user's passes the check. */
  lemma {:induction false} NobodyPasses(users: set<Id>, ss: seq<Sys>, es: seq<Event>, p: nat, j: nat, u: Id, k: nat)
    requires Run(users, ss, es) && p <= j < |ss| && forall q | p <= q < j :: Live(ss[q].rows, u) == {}
    requires k in ss[j].requests && ss[j].requests[k].Passed? && ss[j].requests[k].user == u
    ensures k in ss[p].requests && ss[p].requests[k] == ss[j].requests[k]
    decreases j
  {
    if p < j {
      assert Steps(users, ss[j - 1], es[j - 1], ss[j]) && Live(ss[j - 1].rows, u) == {};
      if es[j - 1].Present? {
        NoSessionNoPass(users, ss[j - 1].rows, u, es[j - 1].token, es[j - 1].now);
      }
      NobodyPasses(users, ss, es, p, j - 1, u, k);
    }
  }

  lemma StaysEmptyExactly(users: set<Id>, s: Sys, e: Event, s': Sys, u: Id)
    requires Steps(users, s, e, s') && Live(s.rows, u) == {}
    ensures Live(s'.rows, u) == {} <==> !(e.SignIn? && e.user == u) && !(e.Write? && s.requests[e.k].user == u)
  {
    assert forall t | t in s.rows :: t !in Live(s.rows, u);
    if (e.SignIn? && e.user == u) || (e.Write? && s.requests[e.k].user == u) {
      assert e.next in Live(s'.rows, u);
    }
  }

  /** Main result on detection: a caught replay ends every session of the user, and they stay ended exactly
      until a sign-in or the write of a refresh that had passed its check by then. */
  lemma {:induction false} PunishedUntilReopened(users: set<Id>, ss: seq<Sys>, es: seq<Event>, p: nat, j: nat, u: Id)
    requires Run(users, ss, es) && p < j < |ss| && Punishes(ss[p], es[p], u)
    ensures Live(ss[p + 1].rows, u) == {}
    ensures (forall q | p < q <= j :: Live(ss[q].rows, u) == {}) <==>
            (forall q | p < q < j :: !Reopens(ss[p + 1], es[q], u))
    decreases j
  {
    assert Steps(users, ss[p], es[p], ss[p + 1]);
    if p + 1 < j {
      PunishedUntilReopened(users, ss, es, p, j - 1, u);
      var s, e := ss[j - 1], es[j - 1];
      assert Steps(users, s, e, ss[j]);
      if forall q | p < q <= j - 1 :: Live(ss[q].rows, u) == {} {
        StaysEmptyExactly(users, s, e, ss[j], u);
        if e.Write? && s.requests[e.k].user == u {
          NobodyPasses(users, ss, es, p + 1, j - 1, u, e.k);
        }
        if e.Write? && Reopens(ss[p + 1], e, u) {
          PassedEverSince(users, ss, es, p + 1, j - 1, e.k);
        }
      }
    }
  }

  lemma {:induction false} PassedEverSince(users: set<Id>, ss: seq<Sys>, es: seq<Event>, i: nat, j: nat, k: nat)
    requires Run(users, ss, es) && i <= j < |ss| && k in ss[i].requests && k in ss[j].requests &&
             ss[j].requests[k].Passed?
    ensures ss[i].requests[k] == ss[j].requests[k]
    decreases j - i
  {
    if i < j {
      assert Steps(users, ss[i], es[i], ss[i + 1]);
      PassedEverSince(users, ss, es, i + 1, j, k);
    }
  }

  /** The event hands the token to the server. */
  predicate Uses(e: Event, t: Token) {
    (e.Present? || e.SignOut?) && e.token == t
  }

  ghost predicate UsedOnceEach(es: seq<Event>) {
    forall i, j, t | 0 <= i < j < |es| && Uses(es[i], t) :: !Uses(es[j], t)
  }

  /** While every token is used once, only used tokens are revoked and nobody is caught. */
  lemma {:induction false} OnlyUsedTokensAreRevoked(users: set<Id>, ss: seq<Sys>, es: seq<Event>, i: nat)
    requires Run(users, ss, es) && UsedOnceEach(es) && i < |ss|
    ensures forall k | k in ss[i].requests :: !ss[i].requests[k].Caught?
    ensures forall k | k in ss[i].requests && ss[i].requests[k].Passed? ::
              exists r :: 0 <= r < i && Uses(es[r], ss[i].requests[k].token)
    ensures forall t | t in ss[i].rows && ss[i].rows[t].revoked :: exists r :: 0 <= r < i && Uses(es[r], t)
  {
    if i > 0 {
      OnlyUsedTokensAreRevoked(users, ss, es, i - 1);
      var s, e := ss[i - 1], es[i - 1];
      assert Steps(users, s, e, ss[i]);
      if e.Present? || e.SignOut? {
        assert Uses(e, e.token);
      }
      assert forall r | 0 <= r < i - 1 && (e.Present? || e.SignOut?) :: !Uses(es[r], e.token);
    }
  }

  /** Main result for well-behaved clients: if no token is handed to the server twice, no refresh is ever
      mistaken for a replay and nobody's sessions are ended for it. */
  lemma NoFalseAlarm(users: set<Id>, ss: seq<Sys>, es: seq<Event>, i: nat)
    requires Run(users, ss, es) && UsedOnceEach(es) && i < |es|
    ensures !es[i].Punish?
    ensures es[i].Present? && es[i].token in ss[i].rows ==> !ss[i].rows[es[i].token].revoked
  {
    OnlyUsedTokensAreRevoked(users, ss, es, i);
    OnlyUsedTokensAreRevoked(users, ss, es, i + 1);
    assert Steps(users, ss[i], es[i], ss[i + 1]);
  }

  // ---------- both happen ----------

  /** One token, presented twice before either refresh writes. */
  lemma BothPass(u: Id) returns (ss: seq<Sys>, es: seq<Event>)
    ensures Run({u}, ss, es) && es == [SignIn("a", u, 0), Present(0, "a", 1), Present(1, "a", 1)]
    ensures ss[3] == Sys(map["a" := Row(u, REFRESH_TTL, false)], map[0 := Passed("a", u), 1 := Passed("a", u)])
  {
    var rows := map["a" := Row(u, REFRESH_TTL, false)];
    es := [SignIn("a", u, 0), Present(0, "a", 1), Present(1, "a", 1)];
    ss := [Sys(map[], map[]), Sys(rows, map[]), Sys(rows, map[0 := Passed("a", u)]),
           Sys(rows, map[0 := Passed("a", u), 1 := Passed("a", u)])];
    assert Steps({u}, ss[0], es[0], ss[1]) && Steps({u}, ss[1], es[1], ss[2]) && Steps({u}, ss[2], es[2], ss[3]);
  }

  /** Overlaps happen, and then one token opens two sessions. */
  lemma OverlapHappens(u: Id) returns (ss: seq<Sys>, es: seq<Event>)
    ensures Run({u}, ss, es) && RedeemedTwice(ss, es, "a")
  {
    ss, es := BothPass(u);
    assert Past(ss[3], 0, "a") && Past(ss[3], 1, "a");
    ss, es := TwoPastCanRedeemTwice({u}, ss, es, "a", "b", "c", 1);
  }

  /** Punishment can be outrun: a user whose every session was just ended holds one again without signing in. */
  lemma PunishmentIsOutrun(u: Id) returns (ss: seq<Sys>, es: seq<Event>)
    ensures Run({u}, ss, es)
    ensures es == [SignIn("a", u, 0), Present(0, "a", 1), Present(1, "a", 1), Write(0, "b", 1), Present(2, "a", 1),
                   Punish(2), Write(1, "d", 1)]
    ensures Live(ss[6].rows, u) == {} && Live(ss[7].rows, u) == {"d"}
  {
    ss, es := BothPass(u);
    var a, b, d := Row(u, REFRESH_TTL, true), Row(u, 1 + REFRESH_TTL, false), Row(u, 1 + REFRESH_TTL, false);
    var s4 := Sys(map["a" := a, "b" := b], map[0 := Over, 1 := Passed("a", u)]);
    var s5 := s4.(requests := map[0 := Over, 1 := Passed("a", u), 2 := Caught(u)]);
    var s6 := Sys(map["a" := a, "b" := b.(revoked := true)], map[0 := Over, 1 := Passed("a", u), 2 := Over]);
    var s7 := Sys(map["a" := a, "b" := b.(revoked := true), "d" := d], map[0 := Over, 1 := Over, 2 := Over]);
    ss, es := RunBy({u}, ss, es, Write(0, "b", 1), s4);
    ss, es := RunBy({u}, ss, es, Present(2, "a", 1), s5);
    ss, es := RunBy({u}, ss, es, Punish(2), s6);
    ss, es := RunBy({u}, ss, es, Write(1, "d", 1), s7);
    assert Live(s6.rows, u) == {} && Live(s7.rows, u) == {"d"};
  }

  lemma RunBy(users: set<Id>, ss: seq<Sys>, es: seq<Event>, e: Event, s: Sys) returns (ss': seq<Sys>, es': seq<Event>)
    requires Run(users, ss, es) && Steps(users, ss[|es|], e, s)
    ensures Run(users, ss', es') && ss' == ss + [s] && es' == es + [e]
  {
    ss', es' := ss + [s], es + [e];
  }

  /** A sign-out that overtakes a refresh of the same token looks like a replay, and costs the user a session
      on another device. */
  lemma SignOutLooksLikeReplay(u: Id) returns (ss: seq<Sys>, es: seq<Event>)
    ensures Run({u}, ss, es) && es == [SignIn("a", u, 0), SignIn("z", u, 0), SignOut("a"), Present(0, "a", 1),
            Punish(0)]
    ensures Live(ss[3].rows, u) == {"z"} && Live(ss[5].rows, u) == {}
  {
    var a, z := Row(u, REFRESH_TTL, false), Row(u, REFRESH_TTL, false);
    var s1, s2 := Sys(map["a" := a], map[]), Sys(map["a" := a, "z" := z], map[]);
    var s3 := Sys(map["a" := a.(revoked := true), "z" := z], map[]);
    es := [SignIn("a", u, 0), SignIn("z", u, 0), SignOut("a"), Present(0, "a", 1), Punish(0)];
    var s4 := After({u}, s3, es[3]);
    ss := [Sys(map[], map[]), s1, s2, s3, s4, After({u}, s4, es[4])];
    assert Steps({u}, ss[0], es[0], s1) && Steps({u}, s1, es[1], s2) && Steps({u}, s2, es[2], s3);
    assert Steps({u}, s3, es[3], s4) && Steps({u}, s4, es[4], ss[5]);
  }
}
