/**
 Typing indicators and their expiry timers: in every run somebody is shown as typing exactly while one
 timer for them is pending, and, if the browser's timers are punctual, for six seconds after they last typed.
 */
module Presence {
  import opened Database
  import Ordering

  const TYPING_TTL_MS := 6000

  /** A pending setTimeout, with the call it will make. */
  datatype Timer = Timer(conversation: Id, user: Id, due: int)

  /** The module's timer handles by key, the browser's pending timers, and the lists shown. */
  datatype State = State(expiryTimers: map<string, nat>, pending: map<nat, Timer>, handles: nat,
                         typing: map<Id, seq<Id>>)

  const START := State(map[], map[], 1, map[])

  function Key(c: Id, u: Id): string {
    c + [':'] + u
  }

  function KeyOf(t: Timer): string {
    Key(t.conversation, t.user)
  }

  /** `filter((entry) => entry !== userId)`. */
  function Others(list: seq<Id>, u: Id): seq<Id> {
    if list == [] then []
    else
      var front := Others(list[..|list| - 1], u);
      if list[|list| - 1] == u then front else front + [list[|list| - 1]]
  }

  function Listed(s: State, c: Id): seq<Id> {
    if c in s.typing then s.typing[c] else []
  }

  /** Clears the key's timer. */
  function Cleared(s: State, key: string): State {
    if key in s.expiryTimers
    then s.(pending := s.pending - {s.expiryTimers[key]}, expiryTimers := s.expiryTimers - {key})
    else s
  }

  function Armed(s: State, c: Id, u: Id, now: int): State {
    s.(expiryTimers := s.expiryTimers[Key(c, u) := s.handles],
       pending := s.pending[s.handles := Timer(c, u, now + TYPING_TTL_MS)],
       handles := s.handles + 1)
  }

  function Shown(s: State, c: Id, u: Id, isTyping: bool): State {
    var others := Others(Listed(s, c), u);
    s.(typing := s.typing[c := if isTyping then others + [u] else others])
  }

  function SetTyping(s: State, c: Id, u: Id, isTyping: bool, now: int): State {
    var cleared := Cleared(s, Key(c, u));
    Shown(if isTyping then Armed(cleared, c, u, now) else cleared, c, u, isTyping)
  }

  /** The browser runs a timer: it is no longer pending, and makes its call. */
  function Fire(s: State, h: nat, now: int): State
    requires h in s.pending
  {
    SetTyping(s.(pending := s.pending - {h}), s.pending[h].conversation, s.pending[h].user, false, now)
  }

  class PresenceStore {
    var expiryTimers: map<string, nat>
    var pending: map<nat, Timer>
    var handles: nat
    var typing: map<Id, seq<Id>>

    ghost function Now(): State
      reads this
    {
      State(expiryTimers, pending, handles, typing)
    }

    constructor ()
      ensures Now() == START
    {
      expiryTimers, pending, handles, typing := map[], map[], 1, map[];
    }

    method ClearTimeout(h: nat)
      modifies this`pending
      ensures pending == old(pending) - {h}
    {
      pending := pending - {h};
    }

    method SetTimeout(t: Timer) returns (h: nat)
      modifies this`pending, this`handles
      ensures h == old(handles) && handles == h + 1 && pending == old(pending)[h := t]
    {
      h := handles;
      handles := handles + 1;
      pending := pending[h := t];
    }

    method SetTypingOf(c: Id, u: Id, isTyping: bool, now: int)
      modifies this
      ensures Now() == SetTyping(old(Now()), c, u, isTyping, now)
    {
      var key := Key(c, u);
      if key in expiryTimers {
        ClearTimeout(expiryTimers[key]);
      }
      expiryTimers := expiryTimers - {key};
      if isTyping {
        var h := SetTimeout(Timer(c, u, now + TYPING_TTL_MS));
        expiryTimers := expiryTimers[key := h];
      }
      var others := Others(if c in typing then typing[c] else [], u);
      typing := typing[c := if isTyping then others + [u] else others];
    }

    method Run(h: nat, now: int)
      requires h in pending
      modifies this
      ensures Now() == Fire(old(Now()), h, now)
    {
      var t := pending[h];
      ClearTimeout(h);
      SetTypingOf(t.conversation, t.user, false, now);
    }
  }

  // ---------- runs ----------

  predicate ColonFree(c: Id) {
    ':' !in c
  }

  /** The store, the clock, and for every (conversation, user) that last said it was typing, when it did. */
  datatype World = World(store: State, clock: int, typed: map<(Id, Id), int>)

  datatype Event = Said(conversation: Id, user: Id, isTyping: bool) | Fired(handle: nat) | Passed(clock: int)

  /** Any event may come at any time; a timer runs only while it is pending, early or late. */
  predicate Allowed(w: World, e: Event) {
    match e
    case Said(c, _, _) => ColonFree(c)
    case Fired(h) => h in w.store.pending
    case Passed(_) => true
  }

  /** With punctual timers: they run once they are due, and time does not pass one that is due. */
  predicate OnTime(w: World, e: Event) {
    match e
    case Said(_, _, _) => true
    case Fired(h) => h in w.store.pending && w.store.pending[h].due <= w.clock
    case Passed(t) => w.clock <= t && forall h | h in w.store.pending :: t <= w.store.pending[h].due
  }

  function After(w: World, e: Event): World
    requires Allowed(w, e)
  {
    match e
    case Said(c, u, isTyping) =>
      World(SetTyping(w.store, c, u, isTyping, w.clock), w.clock,
            if isTyping then w.typed[(c, u) := w.clock] else w.typed - {(c, u)})
    case Fired(h) => w.(store := Fire(w.store, h, w.clock))
    case Passed(t) => w.(clock := t)
  }

  ghost predicate Steps(w: World, e: Event, w': World) {
    Allowed(w, e) && w' == After(w, e)
  }

  ghost predicate Run(ws: seq<World>, es: seq<Event>) {
    && |ws| == |es| + 1
    && ws[0].store == START && ws[0].typed == map[]
    && forall i | 0 <= i < |es| :: Steps(ws[i], es[i], ws[i + 1])
  }

  ghost predicate PunctualRun(ws: seq<World>, es: seq<Event>) {
    Run(ws, es) && forall i | 0 <= i < |es| :: OnTime(ws[i], es[i])
  }

  // ---------- the invariant ----------

  ghost predicate NoRepeats(list: seq<Id>) {
    forall i, j | 0 <= i < j < |list| :: list[i] != list[j]
  }

  predicate IsFor(t: Timer, c: Id, u: Id) {
    t.conversation == c && t.user == u
  }

  ghost predicate HasTimer(s: State, c: Id, u: Id) {
    exists h :: h in s.pending && IsFor(s.pending[h], c, u)
  }

  /** Handles and pending timers answer to each other, one to one. */
  ghost predicate Paired(s: State) {
    && (forall h | h in s.pending :: h < s.handles && ColonFree(s.pending[h].conversation))
    && (forall h | h in s.pending :: KeyOf(s.pending[h]) in s.expiryTimers && s.expiryTimers[KeyOf(s.pending[h])] == h)
    && (forall key | key in s.expiryTimers ::
          s.expiryTimers[key] in s.pending && KeyOf(s.pending[s.expiryTimers[key]]) == key)
  }

  ghost predicate ListsMatch(s: State) {
    && (forall c | c in s.typing :: ColonFree(c) && NoRepeats(s.typing[c]))
    && (forall c: Id, u: Id :: u in Listed(s, c) <==> HasTimer(s, c, u))
  }

  predicate Due(w: World, t: Timer) {
    && (t.conversation, t.user) in w.typed
    && t.due == w.typed[(t.conversation, t.user)] + TYPING_TTL_MS
    && w.clock <= t.due
  }

  ghost predicate Punctual(w: World) {
    && (forall h | h in w.store.pending :: Due(w, w.store.pending[h]))
    && (forall c, u | (c, u) in w.typed :: w.clock < w.typed[(c, u)] + TYPING_TTL_MS ==> HasTimer(w.store, c, u))
  }

  lemma {:induction false} OthersDropsOne(list: seq<Id>, u: Id)
    requires NoRepeats(list)
    ensures NoRepeats(Others(list, u))
    ensures forall v :: v in Others(list, u) <==> v in list && v != u
  {
    if list == [] {
      assert Others(list, u) == [];
    } else {
      var n := |list| - 1;
      var front := Others(list[..n], u);
      OthersDropsOne(list[..n], u);
      assert list == list[..n] + [list[n]];
      assert list[n] !in list[..n] && list[n] !in front;
      assert Others(list, u) == if list[n] == u then front else front + [list[n]];
    }
  }

  /** Conversation ids without colons make the keys unambiguous. */
  lemma KeysApart(c: Id, u: Id, d: Id, v: Id)
    requires ColonFree(c) && ColonFree(d) && Key(c, u) == Key(d, v)
    ensures c == d && u == v
  {
    Ordering.SplitAtFirst(c, u, d, v, ':');
  }

  /** As Paired, but the timer of one key may have run already. */
  ghost predicate PairedBut(s: State, key: string) {
    && (forall h | h in s.pending :: h < s.handles && ColonFree(s.pending[h].conversation))
    && (forall h | h in s.pending :: KeyOf(s.pending[h]) in s.expiryTimers && s.expiryTimers[KeyOf(s.pending[h])] == h)
    && (forall k | k in s.expiryTimers && s.expiryTimers[k] in s.pending :: KeyOf(s.pending[s.expiryTimers[k]]) == k)
    && (forall k | k in s.expiryTimers && k != key :: s.expiryTimers[k] in s.pending)
  }

  lemma ArmedPairs(s: State, c: Id, u: Id, now: int)
    requires Paired(s) && Key(c, u) !in s.expiryTimers && ColonFree(c)
    ensures Paired(Armed(s, c, u, now))
  {
    var s' := Armed(s, c, u, now);
    assert KeyOf(s'.pending[s.handles]) == Key(c, u);
  }

  lemma SetTypingPairs(s: State, c: Id, u: Id, isTyping: bool, now: int)
    requires PairedBut(s, Key(c, u)) && ColonFree(c)
    ensures Paired(SetTyping(s, c, u, isTyping, now))
  {
    if isTyping {
      ArmedPairs(Cleared(s, Key(c, u)), c, u, now);
    }
  }

  /** The pending timers of everybody else are what they were; the pair's own is the new one, if any. */
  lemma TimersAfter(s: State, c: Id, u: Id, isTyping: bool, now: int, d: Id, v: Id)
    requires PairedBut(s, Key(c, u)) && ColonFree(c)
    ensures HasTimer(SetTyping(s, c, u, isTyping, now), d, v) <==>
            if d == c && v == u then isTyping else HasTimer(s, d, v)
  {
    var s' := SetTyping(s, c, u, isTyping, now);
    if isTyping {
      assert s'.pending[s.handles] == Timer(c, u, now + TYPING_TTL_MS);
    }
    if HasTimer(s, d, v) && !(d == c && v == u) {
      var h :| h in s.pending && IsFor(s.pending[h], d, v);
      if KeyOf(s.pending[h]) == Key(c, u) {
        KeysApart(d, v, c, u);
      }
      assert h in s'.pending && IsFor(s'.pending[h], d, v);
    }
    if HasTimer(s', d, v) {
      var h :| h in s'.pending && IsFor(s'.pending[h], d, v);
    }
  }

  /** As ListsMatch, leaving one pair aside. */
  ghost predicate ListsMatchBut(s: State, c: Id, u: Id) {
    && (forall d | d in s.typing :: ColonFree(d) && NoRepeats(s.typing[d]))
    && (forall d: Id, v: Id | !(d == c && v == u) :: v in Listed(s, d) <==> HasTimer(s, d, v))
  }

  lemma ShownLists(s: State, c: Id, u: Id, isTyping: bool, d: Id)
    requires NoRepeats(Listed(s, c)) && NoRepeats(Listed(s, d))
    ensures NoRepeats(Listed(Shown(s, c, u, isTyping), d))
    ensures forall v :: v in Listed(Shown(s, c, u, isTyping), d) <==>
                        if d == c && v == u then isTyping else v in Listed(s, d)
  {
    var others := Others(Listed(s, c), u);
    OthersDropsOne(Listed(s, c), u);
    assert u !in others;
    assert NoRepeats(others + [u]) && forall v :: v in others + [u] <==> v in others || v == u;
  }

  lemma SetTypingMatches(s: State, c: Id, u: Id, isTyping: bool, now: int)
    requires PairedBut(s, Key(c, u)) && ListsMatchBut(s, c, u) && ColonFree(c)
    ensures ListsMatch(SetTyping(s, c, u, isTyping, now))
  {
    var s' := SetTyping(s, c, u, isTyping, now);
    forall d: Id ensures NoRepeats(Listed(s', d)) {
      ShownLists(s, c, u, isTyping, d);
    }
    forall d: Id, v: Id ensures v in Listed(s', d) <==> HasTimer(s', d, v) {
      ShownLists(s, c, u, isTyping, d);
      TimersAfter(s, c, u, isTyping, now, d, v);
    }
    assert forall d | d in s'.typing :: NoRepeats(Listed(s', d));
  }

  /** A timer that has just run leaves its key's handle behind, and nothing else out of order. */
  lemma FiringLeavesOne(s: State, h: nat)
    requires Paired(s) && ListsMatch(s) && h in s.pending
    ensures var t := s.pending[h];
            var s' := s.(pending := s.pending - {h});
            PairedBut(s', KeyOf(t)) && ListsMatchBut(s', t.conversation, t.user)
  {
    var t := s.pending[h];
    var s' := s.(pending := s.pending - {h});
    forall d: Id, v: Id | !(d == t.conversation && v == t.user)
      ensures v in Listed(s', d) <==> HasTimer(s', d, v)
    {
      if HasTimer(s, d, v) {
        var g :| g in s.pending && IsFor(s.pending[g], d, v);
        assert g in s'.pending && IsFor(s'.pending[g], d, v);
      }
    }
  }

  /** One timer per indicator shown. */
  ghost predicate Matched(s: State) {
    Paired(s) && ListsMatch(s)
  }

  lemma StepKeepsMatched(w: World, e: Event)
    requires Matched(w.store) && Allowed(w, e)
    ensures Matched(After(w, e).store)
  {
    match e
    case Said(c, u, isTyping) =>
      SetTypingPairs(w.store, c, u, isTyping, w.clock);
      SetTypingMatches(w.store, c, u, isTyping, w.clock);
    case Fired(h) =>
      var t := w.store.pending[h];
      var left := w.store.(pending := w.store.pending - {h});
      FiringLeavesOne(w.store, h);
      SetTypingPairs(left, t.conversation, t.user, false, w.clock);
      SetTypingMatches(left, t.conversation, t.user, false, w.clock);
    case Passed(_) =>
  }

  /** Whoever says they are typing is listed, and whoever says they are not is not; when a timer runs, its pair is
      not listed any more; nobody else's listing changes. */
  lemma StepLists(w: World, e: Event, d: Id, v: Id)
    requires Matched(w.store) && Allowed(w, e)
    ensures e.Said? && d == e.conversation && v == e.user ==> (v in Listed(After(w, e).store, d) <==> e.isTyping)
    ensures e.Fired? && IsFor(w.store.pending[e.handle], d, v) ==>
              v !in Listed(After(w, e).store, d) && e.handle !in After(w, e).store.pending
    ensures !(e.Said? && d == e.conversation && v == e.user)
            && !(e.Fired? && IsFor(w.store.pending[e.handle], d, v)) ==>
              (v in Listed(After(w, e).store, d) <==> v in Listed(w.store, d))
    ensures e.Passed? ==> After(w, e).clock == e.clock
  {
    match e
    case Said(c, u, isTyping) =>
      assert NoRepeats(Listed(w.store, c)) && NoRepeats(Listed(w.store, d));
      ShownLists(w.store, c, u, isTyping, d);
    case Fired(h) =>
      var t := w.store.pending[h];
      assert NoRepeats(Listed(w.store, t.conversation)) && NoRepeats(Listed(w.store, d));
      ShownLists(w.store, t.conversation, t.user, false, d);
    case Passed(_) =>
  }

  lemma {:induction false} RunIsMatched(ws: seq<World>, es: seq<Event>, i: nat)
    requires Run(ws, es) && i < |ws|
    ensures Matched(ws[i].store)
  {
    if i > 0 {
      RunIsMatched(ws, es, i - 1);
      assert Steps(ws[i - 1], es[i - 1], ws[i]);
      StepKeepsMatched(ws[i - 1], es[i - 1]);
    }
  }

  /** Main result, however late or early timers run: shown means one pending timer, and one only; nobody is shown
      twice. */
  lemma ShownMeansOneTimer(ws: seq<World>, es: seq<Event>, i: nat, c: Id, u: Id)
    requires Run(ws, es) && i < |ws|
    ensures u in Listed(ws[i].store, c) <==> HasTimer(ws[i].store, c, u)
    ensures NoRepeats(Listed(ws[i].store, c))
    ensures forall g, h | g in ws[i].store.pending && h in ws[i].store.pending
              && IsFor(ws[i].store.pending[g], c, u) && IsFor(ws[i].store.pending[h], c, u) :: g == h
  {
    RunIsMatched(ws, es, i);
  }

  // ---------- punctual timers ----------

  lemma SaidKeepsDue(w: World, c: Id, u: Id, isTyping: bool, h: nat)
    requires Paired(w.store) && ColonFree(c) && h in After(w, Said(c, u, isTyping)).store.pending
    requires forall g | g in w.store.pending :: Due(w, w.store.pending[g])
    ensures Due(After(w, Said(c, u, isTyping)), After(w, Said(c, u, isTyping)).store.pending[h])
  {
    if h in w.store.pending {
      assert Due(w, w.store.pending[h]);
    }
  }

  lemma SaidStaysPunctual(w: World, c: Id, u: Id, isTyping: bool)
    requires Paired(w.store) && Punctual(w) && ColonFree(c)
    ensures Punctual(After(w, Said(c, u, isTyping)))
  {
    var w' := After(w, Said(c, u, isTyping));
    forall h | h in w'.store.pending ensures Due(w', w'.store.pending[h]) {
      SaidKeepsDue(w, c, u, isTyping, h);
    }
    forall d, v | (d, v) in w'.typed && w'.clock < w'.typed[(d, v)] + TYPING_TTL_MS ensures HasTimer(w'.store, d, v) {
      TimersAfter(w.store, c, u, isTyping, w.clock, d, v);
    }
  }

  lemma FiredStaysPunctual(w: World, h: nat)
    requires Paired(w.store) && Punctual(w) && Allowed(w, Fired(h)) && OnTime(w, Fired(h))
    ensures Punctual(After(w, Fired(h)))
  {
    var t := w.store.pending[h];
    var left := w.store.(pending := w.store.pending - {h});
    var w' := After(w, Fired(h));
    forall g | g in w'.store.pending ensures Due(w', w'.store.pending[g]) {
      assert g in w.store.pending && Due(w, w.store.pending[g]);
    }
    forall d, v | (d, v) in w'.typed && w'.clock < w'.typed[(d, v)] + TYPING_TTL_MS ensures HasTimer(w'.store, d, v) {
      FiredKeepsTimer(w, h, d, v);
    }
  }

  /** The timer that ran was due, so it was not that of somebody who typed within the last six seconds. */
  lemma FiredKeepsTimer(w: World, h: nat, d: Id, v: Id)
    requires Paired(w.store) && Punctual(w) && Allowed(w, Fired(h)) && OnTime(w, Fired(h))
    requires (d, v) in w.typed && w.clock < w.typed[(d, v)] + TYPING_TTL_MS
    ensures HasTimer(Fire(w.store, h, w.clock), d, v)
  {
    var t := w.store.pending[h];
    var left := w.store.(pending := w.store.pending - {h});
    assert Due(w, t);
    var g :| g in w.store.pending && IsFor(w.store.pending[g], d, v);
    assert g in left.pending;
    TimersAfter(left, t.conversation, t.user, false, w.clock, d, v);
  }

  lemma {:induction false} RunIsPunctual(ws: seq<World>, es: seq<Event>, i: nat)
    requires PunctualRun(ws, es) && i < |ws|
    ensures Punctual(ws[i])
  {
    if i > 0 {
      RunIsMatched(ws, es, i - 1);
      RunIsPunctual(ws, es, i - 1);
      assert Steps(ws[i - 1], es[i - 1], ws[i]) && OnTime(ws[i - 1], es[i - 1]);
      match es[i - 1]
      case Said(c, u, isTyping) => SaidStaysPunctual(ws[i - 1], c, u, isTyping);
      case Fired(h) => FiredStaysPunctual(ws[i - 1], h);
      case Passed(_) =>
    }
  }

  /** Main result with punctual timers: somebody who said they were typing, and not since that they were
      not, is shown for six seconds from then; and nobody else is shown. */
  lemma ShownForSixSeconds(ws: seq<World>, es: seq<Event>, i: nat, c: Id, u: Id)
    requires PunctualRun(ws, es) && i < |ws|
    ensures var w := ws[i];
            && (u in Listed(w.store, c) ==> (c, u) in w.typed && w.clock <= w.typed[(c, u)] + 6000)
            && ((c, u) in w.typed && w.clock < w.typed[(c, u)] + 6000 ==> u in Listed(w.store, c))
  {
    RunIsMatched(ws, es, i);
    RunIsPunctual(ws, es, i);
    if u in Listed(ws[i].store, c) {
      var h :| h in ws[i].store.pending && IsFor(ws[i].store.pending[h], c, u);
    }
  }
}
