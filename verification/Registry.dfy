/**
 The socket registry: who is reachable, and what `add` and `remove` announce about it, over all histories
 in which each socket is added once, removed at most once, and possibly dropped by a failed delivery.
 */
module Registry {
  import opened Database
  import opened Collections

  type Socket = nat

  type Sockets = map<Id, set<Socket>>

  /** What the defaultdict answers. */
  function At(m: Sockets, u: Id): set<Socket> {
    if u in m then m[u] else {}
  }

  function Plus(m: Sockets, u: Id, s: Socket): Sockets {
    m[u := At(m, u) + {s}]
  }

  function Minus(m: Sockets, u: Id, s: Socket): Sockets {
    if At(m, u) - {s} == {} then m - {u} else m[u := At(m, u) - {s}]
  }

  /** `_drop` of every socket in a set. */
  function Without(m: Sockets, gone: set<Socket>): Sockets {
    map u | u in m && m[u] - gone != {} :: m[u] - gone
  }

  predicate IsSame(m: Sockets, m': Sockets, u: Id) {
    (u in m' <==> u in m) && (u in m ==> m'[u] == m[u])
  }

  predicate NoEmptySets(m: Sockets) {
    forall u | u in m :: m[u] != {}
  }

  /** The sockets an event for these users goes to. */
  function Reached(m: Sockets, users: seq<Id>): set<Socket> {
    set u, s | u in users && u in m && s in m[u] :: s
  }

  class ConnectionRegistry {
    var sockets: Sockets

    constructor ()
      ensures sockets == map[]
    {
      sockets := map[];
    }

    predicate IsOnline(u: Id)
      reads this
    {
      u in sockets
    }

    method Add(u: Id, s: Socket) returns (first: bool)
      modifies this
      ensures sockets == Plus(old(sockets), u, s) && IsOnline(u)
      ensures u in sockets && s in sockets[u] && forall t | t != s :: t in sockets[u] <==> t in At(old(sockets), u)
      ensures forall v | v != u :: IsSame(old(sockets), sockets, v)
      ensures first <==> At(old(sockets), u) == {}
    {
      first := At(sockets, u) == {};
      sockets := sockets[u := At(sockets, u) + {s}];
    }

    method Remove(u: Id, s: Socket) returns (last: bool)
      modifies this
      ensures sockets == Minus(old(sockets), u, s)
      ensures forall t :: t in At(sockets, u) <==> t in At(old(sockets), u) && t != s
      ensures forall v | v != u :: IsSame(old(sockets), sockets, v)
      ensures last <==> !IsOnline(u)
    {
      sockets := sockets[u := At(sockets, u) - {s}];
      if sockets[u] == {} {
        sockets := sockets - {u};
        return true;
      }
      last := false;
    }

    method Drop(s: Socket)
      requires NoEmptySets(sockets)
      modifies this
      ensures sockets == Without(old(sockets), {s}) && NoEmptySets(sockets)
      ensures forall v, t :: t in At(sockets, v) <==> t in At(old(sockets), v) && t != s
    {
      var rest := sockets.Keys;
      ghost var before := sockets;
      while rest != {}
        invariant rest <= before.Keys
        invariant forall u | u in rest :: u in sockets && sockets[u] == before[u]
        invariant forall u | u in before && u !in rest :: u in sockets <==> before[u] - {s} != {}
        invariant forall u | u in sockets && u !in rest :: u in before && sockets[u] == before[u] - {s}
      {
        var u :| u in rest;
        sockets := sockets[u := sockets[u] - {s}];
        if sockets[u] == {} {
          sockets := sockets - {u};
        }
        rest := rest - {u};
      }
    }

    /** The targets are fixed before anything is sent; the sockets whose send failed are dropped after. */
    method Deliver(recipients: seq<Id>, failing: set<Socket>) returns (targets: seq<Socket>)
      requires NoEmptySets(sockets)
      modifies this
      ensures SetOf(targets) == Reached(old(sockets), recipients)
      ensures sockets == Without(old(sockets), Reached(old(sockets), recipients) * failing)
      ensures NoEmptySets(sockets)
      ensures forall t :: t in targets <==> exists u :: u in recipients && t in At(old(sockets), u)
      ensures forall v, t :: t in At(sockets, v) <==> t in At(old(sockets), v) && !(t in targets && t in failing)
    {
      targets := [];
      for i := 0 to |recipients|
        invariant sockets == old(sockets) && SetOf(targets) == Reached(sockets, recipients[..i])
      {
        assert recipients[..i + 1] == recipients[..i] + [recipients[i]];
        var sent := Listed(At(sockets, recipients[i]));
        assert SetOf(targets + sent) == SetOf(targets) + SetOf(sent);
        targets := targets + sent;
        assert Reached(sockets, recipients[..i + 1]) == Reached(sockets, recipients[..i]) + At(sockets, recipients[i]);
      }
      assert recipients[..|recipients|] == recipients;
      ghost var before := sockets;
      assert forall u | u in before :: before[u] - {} == before[u];
      ghost var dropped: set<Socket> := {};
      for i := 0 to |targets|
        invariant NoEmptySets(sockets)
        invariant dropped == SetOf(targets[..i]) * failing
        invariant sockets == Without(before, dropped)
      {
        assert SetOf(targets[..i + 1]) == SetOf(targets[..i]) + {targets[i]};
        if targets[i] in failing {
          Drop(targets[i]);
          DropsAddUp(before, dropped, targets[i]);
          dropped := dropped + {targets[i]};
        }
      }
      assert targets[..|targets|] == targets;
    }

    /** `tuple(...)` of a set. */
    static method Listed(all: set<Socket>) returns (list: seq<Socket>)
      ensures SetOf(list) == all
    {
      list := [];
      var rest := all;
      while rest != {}
        invariant rest <= all && SetOf(list) == all - rest
      {
        var s :| s in rest;
        assert SetOf(list + [s]) == SetOf(list) + {s};
        list := list + [s];
        rest := rest - {s};
      }
    }
  }

  lemma DropsAddUp(m: Sockets, gone: set<Socket>, s: Socket)
    ensures Without(Without(m, gone), {s}) == Without(m, gone + {s})
  {
    assert forall u | u in m :: m[u] - gone - {s} == m[u] - (gone + {s});
  }

  // ---------- histories ----------

  /** `True` from add announces a user online, `True` from remove announces it offline. */
  datatype Notice = Notice(user: Id, online: bool)

  datatype Event = Added(user: Id, socket: Socket) | Removed(user: Id, socket: Socket) | Dropped(socket: Socket)

  /** The registry, the sockets added and not yet removed with their users, every socket ever added, and
      the announcements so far. */
  datatype History = History(sockets: Sockets, open: map<Socket, Id>, seen: set<Socket>, notices: seq<Notice>)

  const START := History(map[], map[], {}, [])

  /** Each socket is added once and removed once at most, by its own user. */
  predicate Allowed(h: History, e: Event) {
    match e
    case Added(_, s) => s !in h.seen
    case Removed(u, s) => s in h.open && h.open[s] == u
    case Dropped(_) => true
  }

  function After(h: History, e: Event): History {
    match e
    case Added(u, s) =>
      History(Plus(h.sockets, u, s), h.open[s := u], h.seen + {s},
              if At(h.sockets, u) == {} then h.notices + [Notice(u, true)] else h.notices)
    case Removed(u, s) =>
      var m := Minus(h.sockets, u, s);
      History(m, h.open - {s}, h.seen, if u !in m then h.notices + [Notice(u, false)] else h.notices)
    case Dropped(s) => h.(sockets := Without(h.sockets, {s}))
  }

  ghost predicate Run(hs: seq<History>, es: seq<Event>) {
    && |hs| == |es| + 1
    && hs[0] == START
    && forall i | 0 <= i < |es| :: Allowed(hs[i], es[i]) && hs[i + 1] == After(hs[i], es[i])
  }

  /** What was last announced about a user; nothing counts as offline. */
  function Heard(notices: seq<Notice>, u: Id): bool {
    if notices == [] then false
    else
      var n := |notices| - 1;
      if notices[n].user == u then notices[n].online else Heard(notices[..n], u)
  }

  /** Each announcement about the user is news. */
  predicate Alternates(notices: seq<Notice>, u: Id) {
    notices == []
    || var n := |notices| - 1;
       && Alternates(notices[..n], u)
       && (notices[n].user == u ==> notices[n].online != Heard(notices[..n], u))
  }

  lemma HeardAfter(notices: seq<Notice>, n: Notice, u: Id)
    ensures Heard(notices + [n], u) == if n.user == u then n.online else Heard(notices, u)
    ensures Alternates(notices + [n], u) <==>
            Alternates(notices, u) && (n.user == u ==> n.online != Heard(notices, u))
  {
    assert (notices + [n])[..|notices|] == notices;
  }

  /** What holds of a user whatever is dropped: registered sockets are open and the user's own, the user was
      announced if reachable, and is announced gone once all its sockets are removed. */
  ghost predicate Sound(h: History) {
    && NoEmptySets(h.sockets)
    && h.open.Keys <= h.seen
    && (forall u, s | u in h.sockets && s in h.sockets[u] :: s in h.open && h.open[s] == u)
    && (forall u | u in h.sockets :: Heard(h.notices, u))
    && (forall u | Heard(h.notices, u) :: u in h.open.Values)
  }

  /** What holds as long as no send has failed: every open socket is registered, so the announcements
      are exact and never repeat. */
  ghost predicate Exact(h: History) {
    && (forall s | s in h.open :: s in At(h.sockets, h.open[s]))
    && (forall u: Id :: Heard(h.notices, u) <==> u in h.sockets)
    && (forall u: Id :: Alternates(h.notices, u))
  }

  /** Only the event's own user is spoken of. */
  lemma NewsOf(h: History, e: Event, v: Id)
    requires !e.Dropped?
    ensures var h' := After(h, e);
            && Heard(h'.notices, v) ==
               (if v != e.user then Heard(h.notices, v)
                else if e.Added? then Heard(h.notices, v) || At(h.sockets, v) == {}
                else Heard(h.notices, v) && v in h'.sockets)
            && (Alternates(h'.notices, v) <==>
                && Alternates(h.notices, v)
                && (v == e.user && e.Added? && At(h.sockets, v) == {} ==> !Heard(h.notices, v))
                && (v == e.user && e.Removed? && v !in h'.sockets ==> Heard(h.notices, v)))
  {
    HeardAfter(h.notices, Notice(e.user, e.Added?), v);
  }

  /** Owners of open sockets other than the event's user stay owners. */
  lemma OwnersStay(h: History, e: Event, v: Id)
    requires !e.Dropped? && Allowed(h, e) && h.open.Keys <= h.seen && v in h.open.Values && v != e.user
    ensures v in After(h, e).open.Values
  {
    var t :| t in h.open && h.open[t] == v;
    assert t in After(h, e).open && After(h, e).open[t] == v;
  }

  lemma AddKeeps(h: History, u: Id, s: Socket)
    requires Sound(h) && Allowed(h, Added(u, s))
    ensures Sound(After(h, Added(u, s)))
  {
    var h' := After(h, Added(u, s));
    assert h'.open[s] == u && u in h'.open.Values;
    forall v | v in h'.sockets ensures Heard(h'.notices, v) {
      NewsOf(h, Added(u, s), v);
    }
    forall v | Heard(h'.notices, v) ensures v in h'.open.Values {
      NewsOf(h, Added(u, s), v);
      if v != u {
        OwnersStay(h, Added(u, s), v);
      }
    }
  }

  lemma RemoveKeeps(h: History, u: Id, s: Socket)
    requires Sound(h) && Allowed(h, Removed(u, s))
    ensures Sound(After(h, Removed(u, s)))
  {
    var h' := After(h, Removed(u, s));
    forall v | v in h'.sockets ensures Heard(h'.notices, v) {
      NewsOf(h, Removed(u, s), v);
    }
    forall v | Heard(h'.notices, v) ensures v in h'.open.Values {
      NewsOf(h, Removed(u, s), v);
      if v == u {
        var t :| t in h'.sockets[u];
        assert t in h'.open && h'.open[t] == u;
      } else {
        OwnersStay(h, Removed(u, s), v);
      }
    }
  }

  lemma ExactnessKeeps(h: History, e: Event)
    requires Sound(h) && Exact(h) && !e.Dropped? && Allowed(h, e)
    ensures Exact(After(h, e))
  {
    var h' := After(h, e);
    forall v ensures Heard(h'.notices, v) <==> v in h'.sockets ensures Alternates(h'.notices, v) {
      NewsOf(h, e, v);
    }
  }

  lemma {:induction false} RunIsSound(hs: seq<History>, es: seq<Event>, i: nat)
    requires Run(hs, es) && i < |hs|
    ensures Sound(hs[i])
  {
    if i > 0 {
      RunIsSound(hs, es, i - 1);
      assert Allowed(hs[i - 1], es[i - 1]) && hs[i] == After(hs[i - 1], es[i - 1]);
      match es[i - 1]
      case Added(u, s) => AddKeeps(hs[i - 1], u, s);
      case Removed(u, s) => RemoveKeeps(hs[i - 1], u, s);
      case Dropped(_) =>
    }
  }

  /** Main result with failed sends: `remove` answers True exactly when the user is unreachable after it,
      which it is once its last socket is removed, and by then the last word about the user is offline. */
  lemma LastRemovalIsAnnounced(hs: seq<History>, es: seq<Event>, i: nat, u: Id)
    requires Run(hs, es) && i < |hs|
    ensures u in hs[i].sockets ==> u in hs[i].open.Values && Heard(hs[i].notices, u)
    ensures u !in hs[i].open.Values ==> u !in hs[i].sockets && !Heard(hs[i].notices, u)
  {
    RunIsSound(hs, es, i);
    if u in hs[i].sockets {
      var s :| s in hs[i].sockets[u];
      assert s in hs[i].open && hs[i].open[s] == u;
    }
  }

  lemma HeardIsOpen(h: History, u: Id)
    requires Sound(h) && Exact(h)
    ensures Heard(h.notices, u) <==> u in h.open.Values
  {
    if u in h.open.Values {
      var s :| s in h.open && h.open[s] == u;
      assert s in At(h.sockets, u);
    }
  }

  /** Main result without failed sends: what was last announced is what is the case, and for each user the
      announcements alternate, beginning with online. */
  lemma {:induction false} NoticesAlternate(hs: seq<History>, es: seq<Event>, i: nat, u: Id)
    requires Run(hs, es) && i < |hs| && forall e | e in es :: !e.Dropped?
    ensures Exact(hs[i])
    ensures Alternates(hs[i].notices, u)
    ensures Heard(hs[i].notices, u) <==> u in hs[i].open.Values
  {
    RunIsSound(hs, es, i);
    if i > 0 {
      NoticesAlternate(hs, es, i - 1, u);
      RunIsSound(hs, es, i - 1);
      assert Allowed(hs[i - 1], es[i - 1]) && hs[i] == After(hs[i - 1], es[i - 1]) && es[i - 1] in es;
      ExactnessKeeps(hs[i - 1], es[i - 1]);
    }
    HeardIsOpen(hs[i], u);
  }

  /** The event announces what was announced last. A user is unreachable and still announced online when every
      registered socket was dropped; removing a socket that was dropped announces offline again. */
  predicate Repeats(h: History, e: Event, u: Id) {
    match e
    case Added(v, _) => v == u && u !in h.sockets && Heard(h.notices, u)
    case Removed(v, s) => v == u && At(h.sockets, u) <= {s} && !Heard(h.notices, u)
    case Dropped(_) => false
  }

  /** Main result with failed sends: over every history, the announcements about a user alternate if and only
      if no add finds the user unreachable but announced online, and no remove leaves the user unreachable who
      was last announced offline. */
  lemma {:induction false} AlternatesExactly(hs: seq<History>, es: seq<Event>, i: nat, u: Id)
    requires Run(hs, es) && i < |hs|
    ensures Alternates(hs[i].notices, u) <==> forall j | 0 <= j < i :: !Repeats(hs[j], es[j], u)
  {
    if i > 0 {
      AlternatesExactly(hs, es, i - 1, u);
      RunIsSound(hs, es, i - 1);
      var h, e := hs[i - 1], es[i - 1];
      assert Allowed(h, e) && hs[i] == After(h, e);
      if !e.Dropped? {
        NewsOf(h, e, u);
        assert e.Removed? ==> (At(h.sockets, e.user) <= {e.socket} <==> At(h.sockets, e.user) - {e.socket} == {});
      }
    }
  }

  /** Only drops do this: the user of a repeated online has an open socket, none of them registered, and a
      socket whose removal repeats an offline was itself dropped. */
  lemma RepeatsComeFromDrops(hs: seq<History>, es: seq<Event>, i: nat, u: Id)
    requires Run(hs, es) && i < |es| && Repeats(hs[i], es[i], u)
    ensures u in hs[i].open.Values
    ensures forall s | s in hs[i].open && hs[i].open[s] == u :: s !in At(hs[i].sockets, u)
  {
    RunIsSound(hs, es, i);
    assert Allowed(hs[i], es[i]);
    if es[i].Removed? {
      assert hs[i].open[es[i].socket] == u;
      assert u !in hs[i].sockets;
    }
  }

  lemma RunBy(hs: seq<History>, es: seq<Event>, e: Event, h: History) returns (hs': seq<History>, es': seq<Event>)
    requires Run(hs, es) && Allowed(hs[|es|], e) && h == After(hs[|es|], e)
    ensures Run(hs', es') && hs' == hs + [h] && es' == es + [e]
  {
    hs', es' := hs + [h], es + [e];
    forall i | 0 <= i < |es'| ensures Allowed(hs'[i], es'[i]) && hs'[i + 1] == After(hs'[i], es'[i]) {
      if i < |es| {
        assert Allowed(hs[i], es[i]) && hs[i + 1] == After(hs[i], es[i]);
      }
    }
  }

  lemma FirstAdded(u: Id) returns (hs: seq<History>, es: seq<Event>)
    ensures Run(hs, es) && es == [Added(u, 0)]
    ensures hs[1] == History(map[u := {0}], map[0 := u], {0}, [Notice(u, true)])
  {
    var h := History(map[u := {0}], map[0 := u], {0}, [Notice(u, true)]);
    assert At(map[], u) + {0} == {0} && [] + [Notice(u, true)] == [Notice(u, true)];
    hs, es := [START], [];
    hs, es := RunBy(hs, es, Added(u, 0), h);
  }

  /** A dropped socket lets `add` announce a user online twice. */
  lemma DropsRepeatOnline(u: Id) returns (hs: seq<History>, es: seq<Event>)
    ensures Run(hs, es) && es == [Added(u, 0), Dropped(0), Added(u, 1)]
    ensures hs[3].notices == [Notice(u, true), Notice(u, true)] && Repeats(hs[2], es[2], u)
  {
    hs, es := FirstAdded(u);
    var h2 := hs[1].(sockets := map[]);
    var h3 := History(map[u := {1}], map[0 := u, 1 := u], {0, 1}, [Notice(u, true), Notice(u, true)]);
    assert h2 == After(hs[1], Dropped(0)) by {
      assert hs[1].sockets[u] - {0} == {};
    }
    hs, es := RunBy(hs, es, Dropped(0), h2);
    assert h3 == After(h2, Added(u, 1)) by {
      assert At(map[], u) + {1} == {1} && {0} + {1} == {0, 1};
      assert [Notice(u, true)] + [Notice(u, true)] == [Notice(u, true), Notice(u, true)];
    }
    hs, es := RunBy(hs, es, Added(u, 1), h3);
    assert Heard([] + [Notice(u, true)], u) by {
      HeardAfter([], Notice(u, true), u);
    }
    assert [] + [Notice(u, true)] == [Notice(u, true)];
  }

  /** Two dropped sockets let `remove` announce the user offline twice. */
  lemma DropsRepeatOffline(u: Id) returns (hs: seq<History>, es: seq<Event>)
    ensures Run(hs, es)
    ensures es == [Added(u, 0), Added(u, 1), Dropped(0), Dropped(1), Removed(u, 0), Removed(u, 1)]
    ensures hs[6].notices == [Notice(u, true), Notice(u, false), Notice(u, false)] && Repeats(hs[5], es[5], u)
  {
    hs, es := FirstAdded(u);
    var online, offline := [Notice(u, true)], [Notice(u, true), Notice(u, false)];
    var h2 := History(map[u := {0, 1}], map[0 := u, 1 := u], {0, 1}, online);
    assert h2 == After(hs[1], Added(u, 1)) by {
      assert {0} + {1} == {0, 1};
    }
    hs, es := RunBy(hs, es, Added(u, 1), h2);
    var h3 := h2.(sockets := map[u := {1}]);
    assert h3 == After(h2, Dropped(0)) by {
      assert {0, 1} - {0} == {1};
    }
    hs, es := RunBy(hs, es, Dropped(0), h3);
    var h4 := h2.(sockets := map[]);
    assert h4 == After(h3, Dropped(1)) by {
      assert h3.sockets[u] - {1} == {};
    }
    hs, es := RunBy(hs, es, Dropped(1), h4);
    var h5 := History(map[], map[1 := u], {0, 1}, offline);
    assert h5 == After(h4, Removed(u, 0)) by {
      assert online + [Notice(u, false)] == offline && h4.open - {0} == map[1 := u];
    }
    hs, es := RunBy(hs, es, Removed(u, 0), h5);
    var h6 := History(map[], map[], {0, 1}, offline + [Notice(u, false)]);
    hs, es := RunBy(hs, es, Removed(u, 1), h6);
    HeardAfter(online, Notice(u, false), u);
    assert online + [Notice(u, false)] == offline;
  }
}
