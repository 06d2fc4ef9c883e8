/**
 What the browser holds, read off the events that happened: the token it has stored, the requests that are out with a
 token, and those it gave up on. A refresh is shared: while one is out, a tab starts no other.
 */
module BrowserHistory {
  import opened Wrappers
  import opened SingleFlight

  /** The event stores a token, or clears what is stored. */
  predicate Stores(e: Event, t: Token) {
    e == SignIn(t) || (e.Renewed? && e.next == t)
  }

  predicate Clears(e: Event) {
    e.Refused? || e.SignedOut? || e.Discard?
  }

  predicate Untouched(es: seq<Event>, j: nat, i: nat)
    requires i <= |es|
  {
    forall r | j < r < i :: !Clears(es[r]) && !es[r].SignIn? && !es[r].Renewed?
  }

  lemma UntouchedMore(es: seq<Event>, j: nat, i: nat)
    requires j < i < |es|
    ensures Untouched(es, j, i + 1) <==>
            Untouched(es, j, i) && !Clears(es[i]) && !es[i].SignIn? && !es[i].Renewed?
  {
  }

  /** The token stored is the one that was stored last, if nothing has cleared it since. */
  lemma {:induction false} StoredExactly(bs: seq<Browser>, es: seq<Event>, i: nat, t: Token)
    requires Run(bs, es) && i < |bs|
    ensures bs[i].stored == Some(t) <==> exists j | 0 <= j < i :: Stores(es[j], t) && Untouched(es, j, i)
  {
    if i > 0 {
      StoredExactly(bs, es, i - 1, t);
      var e := es[i - 1];
      assert Steps(bs[i - 1], e, bs[i]);
      if bs[i].stored == Some(t) {
        if Stores(e, t) {
          assert Untouched(es, i - 1, i);
        } else {
          var j :| 0 <= j < i - 1 && Stores(es[j], t) && Untouched(es, j, i - 1);
          UntouchedMore(es, j, i - 1);
        }
      }
      if j :| 0 <= j < i && Stores(es[j], t) && Untouched(es, j, i) {
        if j < i - 1 {
          UntouchedMore(es, j, i - 1);
        }
      }
    }
  }

  /** The tab starts a refresh with the token. */
  predicate Starts(b: Browser, e: Event, tab: Tab, t: Token) {
    e == NeedSession(tab) && tab !in b.flights && b.stored == Some(t)
  }

  /** The tab's refresh is over, one way or another. */
  predicate Finishes(e: Event, tab: Tab) {
    (e.Renewed? || e.Refused? || e.Lost?) && e.tab == tab
  }

  predicate Running(es: seq<Event>, j: nat, i: nat, tab: Tab)
    requires i <= |es|
  {
    forall r | j < r < i :: !Finishes(es[r], tab)
  }

  lemma RunningMore(es: seq<Event>, j: nat, i: nat, tab: Tab)
    requires j < i < |es|
    ensures Running(es, j, i + 1, tab) <==> Running(es, j, i, tab) && !Finishes(es[i], tab)
  {
  }

  /** A refresh is out with a token exactly if the tab started it with that token and it is not over yet. */
  lemma {:induction false} FlightsExactly(bs: seq<Browser>, es: seq<Event>, i: nat, tab: Tab, t: Token)
    requires Run(bs, es) && i < |bs|
    ensures tab in bs[i].flights && bs[i].flights[tab] == t <==>
            exists j | 0 <= j < i :: Starts(bs[j], es[j], tab, t) && Running(es, j, i, tab)
  {
    if i > 0 {
      FlightsExactly(bs, es, i - 1, tab, t);
      var e := es[i - 1];
      assert Steps(bs[i - 1], e, bs[i]);
      if tab in bs[i].flights && bs[i].flights[tab] == t {
        if Starts(bs[i - 1], e, tab, t) {
          assert Running(es, i - 1, i, tab);
        } else {
          var j :| 0 <= j < i - 1 && Starts(bs[j], es[j], tab, t) && Running(es, j, i - 1, tab);
          RunningMore(es, j, i - 1, tab);
        }
      }
      if j :| 0 <= j < i && Starts(bs[j], es[j], tab, t) && Running(es, j, i, tab) {
        if j < i - 1 {
          RunningMore(es, j, i - 1, tab);
        }
      }
    }
  }

  /** A sign-out hands the token in, and is over when it is answered or the tab reloaded. */
  predicate Leaves(b: Browser, e: Event, call: nat, t: Token) {
    e == SignOut(call) && b.stored == Some(t)
  }

  predicate Left(e: Event, call: nat) {
    (e.SignedOut? || e.Abandoned?) && e.call == call
  }

  predicate Leaving(es: seq<Event>, j: nat, i: nat, call: nat)
    requires i <= |es|
  {
    forall r | j < r < i :: !Left(es[r], call)
  }

  lemma LeavingMore(es: seq<Event>, j: nat, i: nat, call: nat)
    requires j < i < |es|
    ensures Leaving(es, j, i + 1, call) <==> Leaving(es, j, i, call) && !Left(es[i], call)
  {
  }

  lemma {:induction false} SignOutsExactly(bs: seq<Browser>, es: seq<Event>, i: nat, call: nat, t: Token)
    requires Run(bs, es) && i < |bs|
    ensures call in bs[i].leaving && bs[i].leaving[call] == t <==>
            exists j | 0 <= j < i :: Leaves(bs[j], es[j], call, t) && Leaving(es, j, i, call)
  {
    if i > 0 {
      SignOutsExactly(bs, es, i - 1, call, t);
      var e := es[i - 1];
      assert Steps(bs[i - 1], e, bs[i]);
      if call in bs[i].leaving && bs[i].leaving[call] == t {
        if Leaves(bs[i - 1], e, call, t) {
          assert Leaving(es, i - 1, i, call);
        } else {
          var j :| 0 <= j < i - 1 && Leaves(bs[j], es[j], call, t) && Leaving(es, j, i - 1, call);
          LeavingMore(es, j, i - 1, call);
        }
      }
      if j :| 0 <= j < i && Leaves(bs[j], es[j], call, t) && Leaving(es, j, i, call) {
        if j < i - 1 {
          LeavingMore(es, j, i - 1, call);
        }
      }
    }
  }

  /** The event gives up on a request with the token. */
  predicate GivesUp(b: Browser, e: Event, t: Token) {
    || (e.Lost? && e.tab in b.flights && b.flights[e.tab] == t)
    || (e.Abandoned? && e.call in b.leaving && b.leaving[e.call] == t)
  }

  lemma {:induction false} LostExactly(bs: seq<Browser>, es: seq<Event>, i: nat, t: Token)
    requires Run(bs, es) && i < |bs|
    ensures t in bs[i].lost <==> exists j | 0 <= j < i :: GivesUp(bs[j], es[j], t)
  {
    if i > 0 {
      LostExactly(bs, es, i - 1, t);
      assert Steps(bs[i - 1], es[i - 1], bs[i]);
      assert t in bs[i].lost <==> t in bs[i - 1].lost || GivesUp(bs[i - 1], es[i - 1], t);
    }
  }

  /** Main result: however many requests of a tab come back 401, its refresh is sent once: from its start to its end
      nothing the tab needs hands a token in, and the first need after a renewal hands in the new token. */
  lemma OneRefreshAtATime(bs: seq<Browser>, es: seq<Event>, j: nat, i: nat, tab: Tab, t: Token)
    requires Run(bs, es) && j < i < |es| && Starts(bs[j], es[j], tab, t) && Running(es, j, i, tab)
    ensures bs[j + 1].sent == bs[j].sent + [t]
    ensures es[i] == NeedSession(tab) ==> bs[i + 1] == bs[i]
    ensures es[i].Renewed? && es[i].tab == tab ==>
      && Enabled(bs[i + 1], NeedSession(tab))
      && After(bs[i + 1], NeedSession(tab)).sent == bs[i].sent + [es[i].next]
  {
    assert Steps(bs[j], es[j], bs[j + 1]) && Steps(bs[i], es[i], bs[i + 1]);
    FlightsExactly(bs, es, i, tab, t);
  }

  /** Every event can happen whenever it makes sense, and a token sent stays sent. */
  lemma EventsGoOn(b: Browser, tab: Tab, call: nat, next: Token)
    ensures Enabled(b, NeedSession(tab)) && Enabled(b, Discard)
    ensures tab in b.flights ==> Enabled(b, Refused(tab)) && Enabled(b, Event.Lost(tab))
    ensures tab in b.flights && next !in b.issued ==> Enabled(b, Renewed(tab, next))
    ensures next !in b.issued ==> Enabled(b, SignIn(next))
    ensures if call in b.leaving then Enabled(b, SignedOut(call)) && Enabled(b, Abandoned(call))
            else Enabled(b, SignOut(call))
  {
  }
}
