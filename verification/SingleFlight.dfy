/**
 The browser side of rotation: requests that come back 401 share one refresh per tab, a sign-out hands the
 stored token in before it clears it, and the token is kept in storage that all tabs of the browser share.
 When does a browser hand a token to the server that it has handed in before, and what follows if no
 browser does?
 */
module SingleFlight {
  import opened Wrappers
  import opened Database
  import Sessions

  type Token = Sessions.Token

  type Tab = nat

  /** The stored token, the token each refreshing tab has sent, the token each running sign-out has sent,
      every token ever issued to this browser, those handed to the server in order, and those whose request
      was given up on. */
  datatype Browser = Browser(stored: Option<Token>, flights: map<Tab, Token>, leaving: map<nat, Token>,
                             issued: set<Token>, sent: seq<Token>, lost: set<Token>)

  const START := Browser(None, map[], map[], {}, [], {})

  datatype Event =
    | NeedSession(tab: Tab)               // a request came back 401, or the page was opened
    | Renewed(tab: Tab, next: Token)      // the refresh succeeded
    | Refused(tab: Tab)                   // the refresh was answered with an error
    | Lost(tab: Tab)                      // the refresh was never answered, or the tab was reloaded
    | SignIn(next: Token)
    | SignOut(call: nat)                  // hands the stored token in, if there is one
    | SignedOut(call: nat)                // answered or failed: clears whatever is stored by now
    | Abandoned(call: nat)                // the tab was reloaded before that
    | Discard                             // restore() gives up after a failed request

  /** Only a request in flight is answered; the server never issues a token twice. */
  predicate Enabled(b: Browser, e: Event) {
    match e
    case NeedSession(_) => true
    case Renewed(tab, next) => tab in b.flights && next !in b.issued
    case Refused(tab) => tab in b.flights
    case Lost(tab) => tab in b.flights
    case SignIn(next) => next !in b.issued
    case SignOut(call) => call !in b.leaving
    case SignedOut(call) => call in b.leaving
    case Abandoned(call) => call in b.leaving
    case Discard => true
  }

  /** The event hands the stored token to the server. `refreshing ??= refreshSession()` starts a refresh only
      when the tab has none in flight. */
  predicate HandsIn(b: Browser, e: Event) {
    b.stored.Some? && ((e.NeedSession? && e.tab !in b.flights) || e.SignOut?)
  }

  function After(b: Browser, e: Event): Browser
    requires Enabled(b, e)
  {
    match e
    case NeedSession(tab) =>
      if HandsIn(b, e)
      then b.(flights := b.flights[tab := b.stored.value], sent := b.sent + [b.stored.value])
      else b
    case Renewed(tab, next) => b.(stored := Some(next), flights := b.flights - {tab}, issued := b.issued + {next})
    case Refused(tab) => b.(stored := None, flights := b.flights - {tab})
    case Lost(tab) => b.(flights := b.flights - {tab}, lost := b.lost + {b.flights[tab]})
    case SignIn(next) => b.(stored := Some(next), issued := b.issued + {next})
    case SignOut(call) =>
      if HandsIn(b, e)
      then b.(leaving := b.leaving[call := b.stored.value], sent := b.sent + [b.stored.value])
      else b
    case SignedOut(call) => b.(stored := None, leaving := b.leaving - {call})
    case Abandoned(call) => b.(leaving := b.leaving - {call}, lost := b.lost + {b.leaving[call]})
    case Discard => b.(stored := None)
  }

  ghost predicate Steps(b: Browser, e: Event, b': Browser) {
    Enabled(b, e) && b' == After(b, e)
  }

  ghost predicate Run(bs: seq<Browser>, es: seq<Event>) {
    && |bs| == |es| + 1
    && bs[0] == START
    && forall i | 0 <= i < |es| :: Steps(bs[i], es[i], bs[i + 1])
  }

  // ---------- when a token is handed in again ----------

  ghost predicate Carried(m: map<nat, Token>, t: Token) {
    exists k :: k in m && m[k] == t
  }

  /** A request with the token is out, or was given up on. */
  ghost predicate Outstanding(b: Browser, t: Token) {
    Carried(b.flights, t) || Carried(b.leaving, t) || t in b.lost
  }

  /** A stored token was handed in before just when a request with it is outstanding. */
  ghost predicate Sound(b: Browser) {
    && (forall t | t in b.sent :: t in b.issued)
    && (forall t | Outstanding(b, t) :: t in b.sent)
    && (b.stored.Some? ==> b.stored.value in b.issued)
    && (b.stored.Some? && b.stored.value in b.sent ==> Outstanding(b, b.stored.value))
  }

  lemma CarriedAdd(m: map<nat, Token>, k: nat, t: Token, u: Token)
    requires k !in m
    ensures Carried(m[k := t], u) <==> Carried(m, u) || u == t
  {
    if Carried(m, u) {
      var l :| l in m && m[l] == u;
      assert l in m[k := t] && m[k := t][l] == u;
    }
    assert m[k := t][k] == t;
  }

  lemma CarriedDrop(m: map<nat, Token>, k: nat, u: Token)
    requires k in m
    ensures Carried(m - {k}, u) ==> Carried(m, u)
    ensures Carried(m, u) ==> Carried(m - {k}, u) || u == m[k]
  {
    if Carried(m, u) && u != m[k] {
      var l :| l in m && m[l] == u;
      assert l in m - {k} && (m - {k})[l] == u;
    }
  }

  lemma HandInKeeps(b: Browser, e: Event)
    requires Sound(b) && Enabled(b, e) && HandsIn(b, e)
    ensures Sound(After(b, e))
  {
    var b', s := After(b, e), b.stored.value;
    forall t ensures Outstanding(b', t) <==> Outstanding(b, t) || t == s {
      if e.NeedSession? {
        CarriedAdd(b.flights, e.tab, s, t);
      } else {
        CarriedAdd(b.leaving, e.call, s, t);
      }
    }
  }

  /** An answer takes a request off the list, and the stored token with it unless a newer one is stored. */
  lemma AnswerKeeps(b: Browser, e: Event)
    requires Sound(b) && Enabled(b, e) && !HandsIn(b, e)
    ensures Sound(After(b, e))
  {
    var b' := After(b, e);
    forall t
      ensures Outstanding(b', t) ==> Outstanding(b, t)
      ensures Outstanding(b, t) && (e.Lost? || e.Abandoned? || e.NeedSession? || e.SignOut? || e.SignIn?) ==>
              Outstanding(b', t)
    {
      if e.Renewed? || e.Refused? || e.Lost? {
        CarriedDrop(b.flights, e.tab, t);
      } else if e.SignedOut? || e.Abandoned? {
        CarriedDrop(b.leaving, e.call, t);
      }
    }
  }

  lemma {:induction false} RunIsSound(bs: seq<Browser>, es: seq<Event>, i: nat)
    requires Run(bs, es) && i < |bs|
    ensures Sound(bs[i])
  {
    if i > 0 {
      RunIsSound(bs, es, i - 1);
      assert Steps(bs[i - 1], es[i - 1], bs[i]);
      if HandsIn(bs[i - 1], es[i - 1]) {
        HandInKeeps(bs[i - 1], es[i - 1]);
      } else {
        AnswerKeeps(bs[i - 1], es[i - 1]);
      }
    }
  }

  /** Main result: a refresh or sign-out hands in a token handed in before exactly when a refresh of it is in
      flight (from another tab, if this is a refresh), a sign-out with it is, or one of those was given up on. */
  lemma PresentsAgainExactly(bs: seq<Browser>, es: seq<Event>, i: nat)
    requires Run(bs, es) && i < |es| && HandsIn(bs[i], es[i])
    ensures var b, t := bs[i], bs[i].stored.value;
      t in b.sent <==>
        || (exists tab :: tab in b.flights && b.flights[tab] == t && (es[i].NeedSession? ==> tab != es[i].tab))
        || (exists call :: call in b.leaving && b.leaving[call] == t)
        || t in b.lost
  {
    RunIsSound(bs, es, i);
    var b, t := bs[i], bs[i].stored.value;
    if Carried(b.flights, t) {
      var tab :| tab in b.flights && b.flights[tab] == t;
    }
    if Carried(b.leaving, t) {
      var call :| call in b.leaving && b.leaving[call] == t;
    }
  }

  ghost predicate Distinct(ts: seq<Token>) {
    forall i, j | 0 <= i < j < |ts| :: ts[i] != ts[j]
  }

  /** The event hands in a token with which a request is outstanding. */
  ghost predicate Repeats(b: Browser, e: Event) {
    HandsIn(b, e) && Outstanding(b, b.stored.value)
  }

  lemma DistinctSnoc(ts: seq<Token>, t: Token)
    ensures Distinct(ts + [t]) <==> Distinct(ts) && t !in ts
  {
    var all := ts + [t];
    if Distinct(all) {
      forall i, j | 0 <= i < j < |ts| ensures ts[i] != ts[j] {
        assert all[i] != all[j];
      }
      forall i | 0 <= i < |ts| ensures ts[i] != t {
        assert all[i] != all[|ts|];
      }
    }
  }

  /** Over a whole run, no token is handed in twice if and only if no event hands one in that is outstanding. */
  lemma {:induction false} NeverTwiceExactly(bs: seq<Browser>, es: seq<Event>, i: nat)
    requires Run(bs, es) && i < |bs|
    ensures Distinct(bs[i].sent) <==> forall j | 0 <= j < i :: !Repeats(bs[j], es[j])
  {
    if i == 0 {
      assert bs[0].sent == [];
    } else {
      NeverTwiceExactly(bs, es, i - 1);
      RunIsSound(bs, es, i - 1);
      assert Steps(bs[i - 1], es[i - 1], bs[i]);
      if HandsIn(bs[i - 1], es[i - 1]) {
        DistinctSnoc(bs[i - 1].sent, bs[i - 1].stored.value);
      } else {
        assert bs[i].sent == bs[i - 1].sent;
      }
    }
  }

  // ---------- one tab ----------

  predicate TabOf(e: Event, tab: Tab) {
    e.NeedSession? ==> e.tab == tab
  }

  /** A sign-out while a refresh or another sign-out of the stored token runs, or a refresh while a sign-out
      of it does. */
  ghost predicate SignOutCrosses(b: Browser, e: Event) {
    && b.stored.Some?
    && ((e.SignOut? && (Carried(b.flights, b.stored.value) || Carried(b.leaving, b.stored.value)))
        || (e.NeedSession? && e.tab !in b.flights && Carried(b.leaving, b.stored.value)))
  }

  lemma {:induction false} OneTabState(bs: seq<Browser>, es: seq<Event>, tab: Tab, i: nat)
    requires Run(bs, es) && i < |bs| && forall e | e in es :: TabOf(e, tab) && !e.Lost? && !e.Abandoned?
    ensures bs[i].lost == {} && bs[i].flights.Keys <= {tab}
  {
    if i > 0 {
      OneTabState(bs, es, tab, i - 1);
      assert Steps(bs[i - 1], es[i - 1], bs[i]) && es[i - 1] in es;
    }
  }

  /** One tab, nothing given up on: no token is handed in twice if and only if no sign-out crosses a refresh or
      another sign-out of the stored token. Signing in at any moment does no harm. */
  lemma OneTabNeverRepeatsExactly(bs: seq<Browser>, es: seq<Event>, tab: Tab, i: nat)
    requires Run(bs, es) && i < |bs| && forall e | e in es :: TabOf(e, tab) && !e.Lost? && !e.Abandoned?
    ensures Distinct(bs[i].sent) <==> forall j | 0 <= j < i :: !SignOutCrosses(bs[j], es[j])
  {
    NeverTwiceExactly(bs, es, i);
    forall j | 0 <= j < i ensures Repeats(bs[j], es[j]) <==> SignOutCrosses(bs[j], es[j]) {
      OneTabState(bs, es, tab, j);
      assert es[j] in es && TabOf(es[j], tab);
    }
  }

  // ---------- browsers and the server ----------

  /** Every hand-in the server sees was sent by one of the browsers, and each was delivered at most once. */
  ghost predicate Delivered(served: seq<Sessions.Event>, browsers: seq<Browser>, origin: seq<(nat, nat)>) {
    && |origin| == |served|
    && (forall i | 0 <= i < |served| && HandIn(served[i]) :: SentAs(served[i].token, browsers, origin[i]))
    && (forall i, j | 0 <= i < j < |served| && HandIn(served[i]) && HandIn(served[j]) :: origin[i] != origin[j])
  }

  predicate HandIn(e: Sessions.Event) {
    e.Present? || e.SignOut?
  }

  predicate SentAs(t: Token, browsers: seq<Browser>, at: (nat, nat)) {
    at.0 < |browsers| && at.1 < |browsers[at.0].sent| && browsers[at.0].sent[at.1] == t
  }

  /** The server issues each token to one browser. */
  ghost predicate Apart(browsers: seq<Browser>) {
    forall a, b, t | 0 <= a < b < |browsers| && t in browsers[a].issued :: t !in browsers[b].issued
  }

  /** Browsers none of which hands a token in twice use every token once between them. */
  lemma CarefulBrowsersUseOnce(served: seq<Sessions.Event>, browsers: seq<Browser>, origin: seq<(nat, nat)>)
    requires Delivered(served, browsers, origin) && Apart(browsers)
    requires forall b | 0 <= b < |browsers| :: Sound(browsers[b]) && Distinct(browsers[b].sent)
    ensures Sessions.UsedOnceEach(served)
  {
    forall i, j | 0 <= i < j < |served| && HandIn(served[i]) && HandIn(served[j])
      ensures served[i].token == served[j].token ==> origin[i] == origin[j]
    {
      if served[i].token == served[j].token {
        OneOrigin(browsers, served[i].token, origin[i], origin[j]);
      }
    }
  }

  lemma OneOrigin(browsers: seq<Browser>, t: Token, at: (nat, nat), to: (nat, nat))
    requires Apart(browsers) && SentAs(t, browsers, at) && SentAs(t, browsers, to)
    requires forall b | 0 <= b < |browsers| :: Sound(browsers[b]) && Distinct(browsers[b].sent)
    ensures at == to
  {
    assert t in browsers[at.0].issued && t in browsers[to.0].issued;
    assert Distinct(browsers[at.0].sent);
  }

  /** A browser of one tab whose sign-outs cross nothing, at the end of its run. */
  ghost predicate Careful(bs: seq<Browser>, es: seq<Event>, tab: Tab) {
    && Run(bs, es)
    && (forall e | e in es :: TabOf(e, tab) && !e.Lost? && !e.Abandoned?)
    && (forall j | 0 <= j < |es| :: !SignOutCrosses(bs[j], es[j]))
  }

  ghost predicate CarefulEnd(b: Browser) {
    exists bs, es, tab :: Careful(bs, es, tab) && b == bs[|es|]
  }

  /** Main result: if all tokens belong to such browsers, then whatever order and however late their requests
      arrive, the server never takes one for a replay and ends nobody's sessions. */
  lemma CarefulBrowsersRaiseNoAlarm(users: set<Id>, ss: seq<Sessions.Sys>, served: seq<Sessions.Event>,
                                    browsers: seq<Browser>, origin: seq<(nat, nat)>, i: nat)
    requires Sessions.Run(users, ss, served) && i < |served|
    requires Delivered(served, browsers, origin) && Apart(browsers)
    requires forall b | 0 <= b < |browsers| :: CarefulEnd(browsers[b])
    ensures !served[i].Punish?
    ensures served[i].Present? && served[i].token in ss[i].rows ==> !ss[i].rows[served[i].token].revoked
  {
    forall b | 0 <= b < |browsers| ensures Sound(browsers[b]) && Distinct(browsers[b].sent) {
      assert CarefulEnd(browsers[b]);
      var bs, es, tab :| Careful(bs, es, tab) && browsers[b] == bs[|es|];
      RunIsSound(bs, es, |es|);
      OneTabNeverRepeatsExactly(bs, es, tab, |es|);
    }
    CarefulBrowsersUseOnce(served, browsers, origin);
    Sessions.NoFalseAlarm(users, ss, served, i);
  }

  // ---------- the ways to repeat ----------

  /** Two tabs that come back from sleep together hand one token in twice. */
  lemma TwoTabsRepeat(t: Token) returns (bs: seq<Browser>, es: seq<Event>)
    ensures Run(bs, es) && bs[|bs| - 1].sent == [t, t] && es == [SignIn(t), NeedSession(0), NeedSession(1)]
  {
    es := [SignIn(t), NeedSession(0), NeedSession(1)];
    var b1 := After(START, es[0]);
    var b2 := After(b1, es[1]);
    bs := [START, b1, b2, After(b2, es[2])];
    assert [] + [t] + [t] == [t, t];
  }

  /** So does one tab in which a request comes back 401 while a sign-out is waiting for its answer, and the
      server may then end the user's sessions on other devices. */
  lemma SignOutCrossesRefresh(u: Id)
    returns (bs: seq<Browser>, es: seq<Event>, ss: seq<Sessions.Sys>, served: seq<Sessions.Event>)
    ensures Run(bs, es) && es == [SignIn("a"), SignOut(0), NeedSession(0)] && bs[3].sent == ["a", "a"]
    ensures Sessions.Run({u}, ss, served)
    ensures served == [Sessions.SignIn("a", u, 0), Sessions.SignIn("z", u, 0), Sessions.SignOut("a"),
                       Sessions.Present(0, "a", 1), Sessions.Punish(0)]
    ensures Sessions.Live(ss[3].rows, u) == {"z"} && Sessions.Live(ss[5].rows, u) == {}
  {
    es := [SignIn("a"), SignOut(0), NeedSession(0)];
    var b1 := After(START, es[0]);
    var b2 := After(b1, es[1]);
    bs := [START, b1, b2, After(b2, es[2])];
    assert [] + ["a"] + ["a"] == ["a", "a"];
    ss, served := Sessions.SignOutLooksLikeReplay(u);
  }
}
