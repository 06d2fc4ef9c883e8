/**
 How long a refresh token is good: from the sign-in or refresh that opened it, for thirty days, until a refresh, a
 sign-out or a punishment ends it. Said over whole runs, in terms of the events alone.
 */
module TokenLife {
  import opened Wrappers
  import opened Database
  import opened Sessions

  const THIRTY_DAYS := 2592000

  /** The event gives the user the token, at a time. */
  predicate Opens(s: Sys, e: Event, t: Token, u: Id, n: int) {
    || e == SignIn(t, u, n)
    || (e.Write? && e.next == t && e.now == n && e.k in s.requests && s.requests[e.k].Passed?
        && s.requests[e.k].user == u)
  }

  /** The event ends the user's token: it is refreshed, signed out, or all the user's tokens are ended. */
  predicate Ends(s: Sys, e: Event, t: Token, u: Id) {
    || e == SignOut(t)
    || (e.Write? && e.k in s.requests && s.requests[e.k].Passed? && s.requests[e.k].token == t)
    || (e.Punish? && e.k in s.requests && s.requests[e.k] == Caught(u))
  }

  predicate EndedBetween(ss: seq<Sys>, es: seq<Event>, j: nat, i: nat, t: Token, u: Id)
    requires i <= |es| < |ss|
  {
    exists r | j < r < i :: Ends(ss[r], es[r], t, u)
  }

  /** The token was opened for the user by the j-th event, at time `n`, and that is what its row says. */
  predicate Stands(ss: seq<Sys>, es: seq<Event>, j: nat, i: nat, t: Token, u: Id, n: int)
    requires i <= |es| < |ss|
  {
    && j < i && Opens(ss[j], es[j], t, u, n)
    && t in ss[i].rows
    && ss[i].rows[t].user == u
    && ss[i].rows[t].expiresAt == n + THIRTY_DAYS
    && (ss[i].rows[t].revoked <==> EndedBetween(ss, es, j, i, t, u))
  }

  lemma OpensRow(users: set<Id>, s: Sys, e: Event, s': Sys, t: Token)
    requires Steps(users, s, e, s') && t !in s.rows && t in s'.rows
    ensures Opens(s, e, t, s'.rows[t].user, s'.rows[t].expiresAt - THIRTY_DAYS) && !s'.rows[t].revoked
  {
  }

  lemma KeepsRow(users: set<Id>, s: Sys, e: Event, s': Sys, t: Token)
    requires Steps(users, s, e, s') && t in s.rows
    ensures t in s'.rows && s'.rows[t].user == s.rows[t].user && s'.rows[t].expiresAt == s.rows[t].expiresAt
    ensures s'.rows[t].revoked <==> s.rows[t].revoked || Ends(s, e, t, s.rows[t].user)
  {
  }

  lemma EndedOneMore(ss: seq<Sys>, es: seq<Event>, j: nat, i: nat, t: Token, u: Id)
    requires j < i < |es| + 1 == |ss| && i > 0
    ensures EndedBetween(ss, es, j, i, t, u) <==>
            (j < i - 1 && (EndedBetween(ss, es, j, i - 1, t, u) || Ends(ss[i - 1], es[i - 1], t, u)))
  {
  }

  /** Every row has its story. */
  lemma {:induction false} StoryOf(users: set<Id>, ss: seq<Sys>, es: seq<Event>, i: nat, t: Token)
    returns (j: nat, n: int)
    requires Run(users, ss, es) && i < |ss| && t in ss[i].rows
    ensures Stands(ss, es, j, i, t, ss[i].rows[t].user, n)
  {
    assert Steps(users, ss[i - 1], es[i - 1], ss[i]);
    if t in ss[i - 1].rows {
      j, n := StoryOf(users, ss, es, i - 1, t);
      KeepsRow(users, ss[i - 1], es[i - 1], ss[i], t);
    } else {
      OpensRow(users, ss[i - 1], es[i - 1], ss[i], t);
      j, n := i - 1, ss[i].rows[t].expiresAt - THIRTY_DAYS;
    }
    EndedOneMore(ss, es, j, i, t, ss[i].rows[t].user);
  }

  /** What an event opened is there from then on. */
  lemma {:induction false} OpenedStands(users: set<Id>, ss: seq<Sys>, es: seq<Event>, j: nat, i: nat, t: Token, u: Id,
      n: int)
    requires Run(users, ss, es) && j < i < |ss| && Opens(ss[j], es[j], t, u, n)
    ensures Stands(ss, es, j, i, t, u, n)
  {
    assert Steps(users, ss[i - 1], es[i - 1], ss[i]);
    if j < i - 1 {
      OpenedStands(users, ss, es, j, i - 1, t, u, n);
      KeepsRow(users, ss[i - 1], es[i - 1], ss[i], t);
    }
    EndedOneMore(ss, es, j, i, t, u);
  }

  /** Opened before, within the last thirty days, and not ended since. */
  predicate Good(ss: seq<Sys>, es: seq<Event>, j: nat, i: nat, t: Token, u: Id, n: int, now: int)
    requires i <= |es| < |ss|
  {
    j < i && Opens(ss[j], es[j], t, u, n) && now < n + THIRTY_DAYS && !EndedBetween(ss, es, j, i, t, u)
  }

  predicate Ended(ss: seq<Sys>, es: seq<Event>, j: nat, i: nat, t: Token, u: Id, n: int)
    requires i <= |es| < |ss|
  {
    j < i && Opens(ss[j], es[j], t, u, n) && EndedBetween(ss, es, j, i, t, u)
  }

  /** What a check answers, in terms of the row alone. */
  lemma PresentDecides(users: set<Id>, s: Sys, k: nat, t: Token, now: int)
    requires Enabled(users, s, Present(k, t, now))
    ensures var s' := After(users, s, Present(k, t, now));
            && s'.rows == s.rows && s'.requests.Keys == s.requests.Keys + {k}
            && (s'.requests[k].Passed? <==>
                t in s.rows && !s.rows[t].revoked && now < s.rows[t].expiresAt && s.rows[t].user in users)
            && (s'.requests[k].Passed? ==> s'.requests[k] == Passed(t, s.rows[t].user))
            && (s'.requests[k].Caught? <==> t in s.rows && s.rows[t].revoked)
            && (s'.requests[k].Caught? ==> s'.requests[k] == Caught(s.rows[t].user))
  {
  }

  /** Main result: over every run, a refresh passes its check for a user if and only if some earlier sign-in or
      refresh gave that user the token, less than thirty days ago, nothing has ended it since, and the user is known.
      It is taken for a replay if and only if the token was given to that user and has been ended since. */
  lemma RefreshPassesExactly(users: set<Id>, ss: seq<Sys>, es: seq<Event>, i: nat, u: Id)
    requires Run(users, ss, es) && i < |es| && es[i].Present?
    ensures var k, t, now := es[i].k, es[i].token, es[i].now;
      && k in ss[i + 1].requests
      && (ss[i + 1].requests[k] == Passed(t, u) <==> u in users && exists j, n :: Good(ss, es, j, i, t, u, n, now))
      && (ss[i + 1].requests[k] == Caught(u) <==> exists j, n :: Ended(ss, es, j, i, t, u, n))
      && (ss[i + 1].requests[k].Passed? ==> ss[i + 1].requests[k].token == t)
  {
    var k, t, now := es[i].k, es[i].token, es[i].now;
    assert Steps(users, ss[i], es[i], ss[i + 1]);
    PresentDecides(users, ss[i], k, t, now);
    if t in ss[i].rows {
      var j, n := StoryOf(users, ss, es, i, t);
      if ss[i].rows[t].user == u {
        assert ss[i].rows[t].revoked ==> Ended(ss, es, j, i, t, u, n);
        assert !ss[i].rows[t].revoked && now < n + THIRTY_DAYS ==> Good(ss, es, j, i, t, u, n, now);
      }
    }
    if j, n :| Good(ss, es, j, i, t, u, n, now) {
      OpenedStands(users, ss, es, j, i, t, u, n);
    }
    if j, n :| Ended(ss, es, j, i, t, u, n) {
      OpenedStands(users, ss, es, j, i, t, u, n);
    }
  }
}
