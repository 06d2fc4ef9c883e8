/**
 The order of presence announcements. What add and remove answer is announced only after the handler has read and
 written the user's row, so two announcements about a user can be published in another order than they were issued.
 */
module Announcements {
  import opened Database
  import opened Registry

  /** The registry's history, and which notices were published, by their place among those issued, in the order of
      publication. */
  datatype Wire = Wire(history: History, published: seq<nat>)

  datatype Step = Happens(event: Event) | Publish(index: nat)

  /** Sockets come and go with no send failing; a notice is published once, at any time after it was issued. */
  predicate Possible(w: Wire, step: Step) {
    match step
    case Happens(e) => !e.Dropped? && Allowed(w.history, e)
    case Publish(i) => i < |w.history.notices| && i !in w.published
  }

  function Next(w: Wire, step: Step): Wire {
    match step
    case Happens(e) => w.(history := After(w.history, e))
    case Publish(i) => w.(published := w.published + [i])
  }

  ghost predicate WireRun(ws: seq<Wire>, steps: seq<Step>) {
    && |ws| == |steps| + 1
    && ws[0] == Wire(START, [])
    && forall i | 0 <= i < |steps| :: Possible(ws[i], steps[i]) && ws[i + 1] == Next(ws[i], steps[i])
  }

  /** How many notices were issued up to and with the one about the user that was published last; 0 for none. */
  function LastTold(notices: seq<Notice>, published: seq<nat>, u: Id): (n: nat)
    ensures n <= |notices|
  {
    if published == [] then 0
    else
      var p := published[|published| - 1];
      if p < |notices| && notices[p].user == u then p + 1 else LastTold(notices, published[..|published| - 1], u)
  }

  predicate IsAbout(notices: seq<Notice>, p: nat, u: Id) {
    p < |notices| && notices[p].user == u
  }

  /** It is the one about the user that stands last in the order of publication. */
  lemma {:induction false} LastToldIs(notices: seq<Notice>, published: seq<nat>, u: Id)
    ensures var n := LastTold(notices, published, u);
      && (n == 0 <==> forall p | p in published :: !IsAbout(notices, p, u))
      && (n > 0 ==> exists k :: 0 <= k < |published| && published[k] == n - 1 && IsAbout(notices, published[k], u)
                                && forall l | k < l < |published| :: !IsAbout(notices, published[l], u))
    decreases |published|
  {
    if published != [] {
      var last := |published| - 1;
      assert published == published[..last] + [published[last]];
      if IsAbout(notices, published[last], u) {
        assert published[last] in published;
      } else {
        LastToldIs(notices, published[..last], u);
        var n := LastTold(notices, published[..last], u);
        if n > 0 {
          var k :| 0 <= k < last && published[..last][k] == n - 1 && IsAbout(notices, published[..last][k], u)
                   && forall l | k < l < last :: !IsAbout(notices, published[..last][l], u);
          assert published[k] == n - 1;
          forall l | k < l < |published| ensures !IsAbout(notices, published[l], u) {
            if l < last {
              assert published[..last][l] == published[l];
            }
          }
        }
      }
    }
  }

  /** What the peers were told about the user last; nothing counts as offline. */
  function Told(w: Wire, u: Id): bool {
    Heard(w.history.notices[..LastTold(w.history.notices, w.published, u)], u)
  }

  function CountAbout(notices: seq<Notice>, u: Id): nat {
    if notices == [] then 0
    else CountAbout(notices[..|notices| - 1], u) + if notices[|notices| - 1].user == u then 1 else 0
  }

  lemma SlicesEnd(notices: seq<Notice>, k: nat)
    requires k < |notices|
    ensures notices[k..][..|notices| - k - 1] == notices[..|notices| - 1][k..]
    ensures notices[..|notices| - 1][..k] == notices[..k]
  {
  }

  /** Alternating notices: two prefixes end in the same word exactly when an even number lies between. */
  lemma {:induction false} Parity(notices: seq<Notice>, u: Id, k: nat)
    requires Alternates(notices, u) && k <= |notices|
    ensures Heard(notices[..k], u) == Heard(notices, u) <==> CountAbout(notices[k..], u) % 2 == 0
    decreases |notices|
  {
    if k == |notices| {
      assert notices[..k] == notices && notices[k..] == [];
    } else {
      var front := notices[..|notices| - 1];
      Parity(front, u, k);
      SlicesEnd(notices, k);
      assert notices[k..][|notices| - k - 1] == notices[|notices| - 1];
    }
  }

  lemma StepKeeps(w: Wire, step: Step)
    requires Sound(w.history) && Exact(w.history) && Possible(w, step)
    ensures Sound(Next(w, step).history) && Exact(Next(w, step).history)
  {
    match step
    case Happens(e) =>
      ExactnessKeeps(w.history, e);
      match e {
        case Added(u, s) => AddKeeps(w.history, u, s);
        case Removed(u, s) => RemoveKeeps(w.history, u, s);
      }
    case Publish(_) =>
  }

  lemma {:induction false} RunIsExact(ws: seq<Wire>, steps: seq<Step>, i: nat)
    requires WireRun(ws, steps) && i < |ws|
    ensures Sound(ws[i].history) && Exact(ws[i].history)
  {
    if i > 0 {
      RunIsExact(ws, steps, i - 1);
      assert Possible(ws[i - 1], steps[i - 1]) && ws[i] == Next(ws[i - 1], steps[i - 1]);
      StepKeeps(ws[i - 1], steps[i - 1]);
    }
  }

  /** Main result: what peers were told last about a user is right, that is whether the user has an open socket,
      if and only if an even number of notices about the user were issued after the one published last. */
  lemma ToldExactly(ws: seq<Wire>, steps: seq<Step>, i: nat, u: Id)
    requires WireRun(ws, steps) && i < |ws|
    ensures var notices := ws[i].history.notices;
            (Told(ws[i], u) <==> u in ws[i].history.open.Values) <==>
            CountAbout(notices[LastTold(notices, ws[i].published, u)..], u) % 2 == 0
  {
    var h := ws[i].history;
    RunIsExact(ws, steps, i);
    HeardIsOpen(h, u);
    Parity(h.notices, u, LastTold(h.notices, ws[i].published, u));
  }

  lemma WireBy(ws: seq<Wire>, steps: seq<Step>, step: Step, w: Wire) returns (ws': seq<Wire>, steps': seq<Step>)
    requires WireRun(ws, steps) && Possible(ws[|steps|], step) && w == Next(ws[|steps|], step)
    ensures WireRun(ws', steps') && ws' == ws + [w] && steps' == steps + [step]
  {
    ws', steps' := ws + [w], steps + [step];
    forall i | 0 <= i < |steps'| ensures Possible(ws'[i], steps'[i]) && ws'[i + 1] == Next(ws'[i], steps'[i]) {
      if i < |steps| {
        assert Possible(ws[i], steps[i]) && ws[i + 1] == Next(ws[i], steps[i]);
      }
    }
  }

  /** One socket closes and another opens. */
  lemma Reconnect(u: Id) returns (h1: History, h2: History, h3: History)
    ensures After(START, Added(u, 0)) == h1 && After(h1, Removed(u, 0)) == h2 && After(h2, Added(u, 1)) == h3
    ensures h1 == History(map[u := {0}], map[0 := u], {0}, [Notice(u, true)])
    ensures h2 == History(map[], map[], {0}, [Notice(u, true), Notice(u, false)])
    ensures h3 == History(map[u := {1}], map[1 := u], {0, 1}, [Notice(u, true), Notice(u, false), Notice(u, true)])
  {
    h1 := After(START, Added(u, 0));
    assert At(map[], u) + {0} == {0} && {} + {0} == {0};
    h2 := After(h1, Removed(u, 0));
    assert h1.sockets[u] - {0} == {} && h1.open - {0} == map[] && h1.sockets - {u} == map[];
    h3 := After(h2, Added(u, 1));
    assert At(map[], u) + {1} == {1} && {0} + {1} == {0, 1};
  }

  lemma TwiceUp(u: Id, h1: History, h2: History, h3: History) returns (ws: seq<Wire>, steps: seq<Step>)
    requires After(START, Added(u, 0)) == h1 && After(h1, Removed(u, 0)) == h2 && After(h2, Added(u, 1)) == h3
    requires 0 !in START.seen && 0 in h1.open && h1.open[0] == u && 1 !in h2.seen && |h1.notices| == 1
    ensures WireRun(ws, steps) && ws[|steps|] == Wire(h3, [0])
    ensures steps == [Happens(Added(u, 0)), Publish(0), Happens(Removed(u, 0)), Happens(Added(u, 1))]
  {
    ws, steps := [Wire(START, [])], [];
    ws, steps := WireBy(ws, steps, Happens(Added(u, 0)), Wire(h1, []));
    ws, steps := WireBy(ws, steps, Publish(0), Wire(h1, [0]));
    ws, steps := WireBy(ws, steps, Happens(Removed(u, 0)), Wire(h2, [0]));
    ws, steps := WireBy(ws, steps, Happens(Added(u, 1)), Wire(h3, [0]));
  }

  lemma ReconnectRun(u: Id) returns (ws: seq<Wire>, steps: seq<Step>)
    ensures WireRun(ws, steps)
    ensures steps == [Happens(Added(u, 0)), Publish(0), Happens(Removed(u, 0)), Happens(Added(u, 1)),
                      Publish(2), Publish(1)]
    ensures ws[6] == Wire(History(map[u := {1}], map[1 := u], {0, 1},
                                  [Notice(u, true), Notice(u, false), Notice(u, true)]), [0, 2, 1])
  {
    var h1, h2, h3 := Reconnect(u);
    ws, steps := TwiceUp(u, h1, h2, h3);
    ws, steps := WireBy(ws, steps, Publish(2), Wire(h3, [0, 2]));
    ws, steps := WireBy(ws, steps, Publish(1), Wire(h3, [0, 2, 1]));
  }

  /** A user reconnects at once, and the offline of the first socket is published last: peers see an open user as
      offline, with every notice published. */
  lemma ReconnectShowsOffline(u: Id) returns (ws: seq<Wire>, steps: seq<Step>)
    ensures WireRun(ws, steps) && |steps| == 6
    ensures steps[4] == Publish(2) && steps[5] == Publish(1)
    ensures u in ws[6].history.open.Values && |ws[6].history.notices| == 3 && !Told(ws[6], u)
  {
    ws, steps := ReconnectRun(u);
    assert ws[6].history.open[1] == u;
    assert ws[6].history.notices[..2] == [Notice(u, true), Notice(u, false)];
  }
}
