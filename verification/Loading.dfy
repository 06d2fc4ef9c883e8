/**
 Opening a conversation and loading older messages, while messages are pushed. Both operations await a page and
 then replace the thread as a whole: opening by the page, loading by the page and the thread as it was captured
 before the wait. A push to a conversation not opened yet creates a thread that counts as opened.
 */
module Loading {
  import opened Wrappers
  import opened Collections
  import opened ChatTypes
  import opened Thread
  import opened Merge
  import opened Paging

  datatype Shown = Shown(messages: Entries, hasMore: bool, loading: bool)

  const EMPTY_THREAD := Shown([], false, false)

  /** What loadOlder captured, and how long the log was by then. */
  datatype Load = Load(captured: Entries, size: nat)

  /** The thread, how much of the log is posted, and the calls out: openings with the size of the log when they
      asked, and loads. */
  datatype Tab = Tab(shown: Shown, size: nat, opens: map<nat, nat>, loads: map<nat, Load>)

  datatype Step =
    | Post
    | Push(seqNo: nat)
    | Open(call: nat)
    | OpenPage(call: nat, read: nat)
    | Older(call: nat)
    | OlderPage(call: nat, read: nat)
    | Lost(call: nat)

  /** A page is read from the log as it is at some moment between the request and its arrival. */
  predicate Enabled(log: Entries, tab: Tab, step: Step) {
    match step
    case Post => tab.size < |log|
    case Push(n) => 1 <= n <= tab.size <= |log|
    case Open(c) => c !in tab.opens
    case OpenPage(c, read) => c in tab.opens && tab.opens[c] <= read <= tab.size <= |log|
    case Older(c) => c !in tab.loads
    case OlderPage(c, read) =>
      c in tab.loads && tab.loads[c].size <= read <= tab.size <= |log| && tab.loads[c].captured != []
    case Lost(_) => true
  }

  function NewestPage(log: Entries): Shown {
    var page := ListPage(log, None, None, CLIENT_PAGE_SIZE);
    Shown(page.items, page.hasMore, false)
  }

  function WrittenBack(log: Entries, captured: Entries): Shown
    requires captured != []
  {
    var page := ListPage(log, Some(captured[0].seqNo), None, CLIENT_PAGE_SIZE);
    Shown(page.items + captured, page.hasMore, false)
  }

  function After(log: Entries, tab: Tab, step: Step): Tab
    requires Enabled(log, tab, step)
  {
    match step
    case Post => tab.(size := tab.size + 1)
    case Push(n) => tab.(shown := tab.shown.(messages := ApplyIncoming(tab.shown.messages, log[n - 1])))
    case Open(c) =>
      if tab.shown.messages != [] then tab
      else tab.(shown := EMPTY_THREAD.(loading := true), opens := tab.opens[c := tab.size])
    case OpenPage(c, read) => tab.(shown := NewestPage(log[..read]), opens := tab.opens - {c})
    case Older(c) =>
      if !tab.shown.hasMore || tab.shown.loading || tab.shown.messages == [] then tab
      else tab.(shown := tab.shown.(loading := true), loads := tab.loads[c := Load(tab.shown.messages, tab.size)])
    case OlderPage(c, read) =>
      tab.(shown := WrittenBack(log[..read], tab.loads[c].captured), loads := tab.loads - {c})
    case Lost(c) => tab.(opens := tab.opens - {c}, loads := tab.loads - {c})
  }

  ghost predicate Steps(log: Entries, tabs: seq<Tab>, steps: seq<Step>) {
    && |tabs| == |steps| + 1
    && forall i | 0 <= i < |steps| :: Enabled(log, tabs[i], steps[i]) && tabs[i + 1] == After(log, tabs[i], steps[i])
  }

  /** From a conversation with no thread yet. */
  ghost predicate Run(log: Entries, tabs: seq<Tab>, steps: seq<Step>) {
    && LogShape(log) && Steps(log, tabs, steps)
    && tabs[0].shown == EMPTY_THREAD && tabs[0].opens == map[] && tabs[0].loads == map[] && tabs[0].size <= |log|
  }

  // ---------- what pages and pushes hold ----------

  lemma PrefixShape(log: Entries, n: nat)
    requires LogShape(log) && n <= |log|
    ensures LogShape(log[..n])
  {
  }

  /** Server entries are the log's, and posted by now. */
  ghost predicate Posted(t: Entries, log: Entries, size: nat) {
    FromLog(t, log) && forall e | e in t && e.seqNo != PENDING_SEQ :: e.seqNo <= size
  }

  lemma SliceIsPosted(log: Entries, from: nat, to: nat, size: nat)
    requires LogShape(log) && from <= to <= size <= |log|
    ensures Posted(log[from..to], log, size)
  {
    forall e | e in log[from..to] ensures EntryFromLog(e, log) && e.seqNo <= size {
      var i :| from <= i < to && log[i] == e;
    }
  }

  lemma {:induction false} SeqsOfConcat(a: Entries, b: Entries)
    ensures Seqs(a + b) == Seqs(a) + Seqs(b)
  {
    if b == [] {
      assert a + b == a;
    } else {
      var front, last := b[..|b| - 1], b[|b| - 1];
      SeqsOfConcat(a, front);
      assert (a + b)[..|a + b| - 1] == a + front && (a + b)[|a + b| - 1] == last;
    }
  }

  /** The seqs on the page before a seq. */
  function SeqsBefore(n: nat, before: nat): set<nat>
    requires before >= 1
  {
    var end := Min(n, before - 1);
    Range(Monus(end, CLIENT_PAGE_SIZE) + 1, end)
  }

  lemma NewestPageHolds(log: Entries, read: nat)
    requires LogShape(log) && read <= |log|
    ensures var shown := NewestPage(log[..read]);
      && Posted(shown.messages, log, read) && (shown.messages == [] <==> read == 0)
      && Seqs(shown.messages) == Range(Monus(read, CLIENT_PAGE_SIZE) + 1, read)
      && (shown.hasMore <==> read > CLIENT_PAGE_SIZE)
  {
    var from := Monus(read, CLIENT_PAGE_SIZE);
    LastPage(log[..read], CLIENT_PAGE_SIZE);
    assert log[..read][from..] == log[from..read];
    SliceSeqs(log, from, read);
    SliceIsPosted(log, from, read, read);
  }

  lemma OlderPageIs(log: Entries, read: nat, before: nat)
    requires LogShape(log) && read <= |log| && before >= 1
    ensures var end := Min(read, before - 1);
            ListPage(log[..read], Some(before), None, CLIENT_PAGE_SIZE) ==
            Page(log[Monus(end, CLIENT_PAGE_SIZE)..end], end > CLIENT_PAGE_SIZE)
  {
    var end := Min(read, before - 1);
    PrefixShape(log, read);
    PageBefore(log[..read], before, CLIENT_PAGE_SIZE);
    PrefixSlice(log, read, Monus(end, CLIENT_PAGE_SIZE), end);
  }

  lemma PrefixSlice(log: Entries, n: nat, from: nat, to: nat)
    requires from <= to <= n <= |log|
    ensures log[..n][from..to] == log[from..to]
  {
  }

  lemma OlderPageHolds(log: Entries, read: nat, before: nat)
    requires LogShape(log) && read <= |log| && before >= 1
    ensures var page, end := ListPage(log[..read], Some(before), None, CLIENT_PAGE_SIZE), Min(read, before - 1);
      && Posted(page.items, log, read) && Seqs(page.items) == SeqsBefore(read, before)
      && (page.hasMore <==> end > CLIENT_PAGE_SIZE)
  {
    var end := Min(read, before - 1);
    OlderPageIs(log, read, before);
    SliceSeqs(log, Monus(end, CLIENT_PAGE_SIZE), end);
    SliceIsPosted(log, Monus(end, CLIENT_PAGE_SIZE), end, read);
  }

  lemma PostedConcat(a: Entries, b: Entries, log: Entries, size: nat)
    requires Posted(a, log, size) && Posted(b, log, size)
    ensures Posted(a + b, log, size)
  {
  }

  lemma WrittenBackHolds(log: Entries, read: nat, captured: Entries)
    requires LogShape(log) && read <= |log| && captured != [] && Posted(captured, log, read)
    ensures captured[0].seqNo >= 1
    ensures var shown := WrittenBack(log[..read], captured);
      && Posted(shown.messages, log, read) && shown.messages != []
      && Seqs(shown.messages) == SeqsBefore(read, captured[0].seqNo) + Seqs(captured)
      && (shown.hasMore <==> Min(read, captured[0].seqNo - 1) > CLIENT_PAGE_SIZE)
  {
    assert captured[0] in captured && EntryFromLog(captured[0], log);
    var items := ListPage(log[..read], Some(captured[0].seqNo), None, CLIENT_PAGE_SIZE).items;
    OlderPageHolds(log, read, captured[0].seqNo);
    PostedConcat(items, captured, log, read);
    SeqsOfConcat(items, captured);
  }

  lemma SameElementsSameSeqs(t: Entries, t': Entries)
    requires forall e :: e in t <==> e in t'
    ensures Seqs(t) == Seqs(t')
  {
    SeqsElements(t);
    SeqsElements(t');
  }

  /** What a push shows, in whatever order the thread is. */
  lemma PushShows(log: Entries, t: Entries, m: LocalMessage)
    requires LogShape(log) && FromLog(t, log) && ImageOf(m, log)
    ensures FromLog(ApplyIncoming(t, m), log) && ApplyIncoming(t, m) != []
    ensures Seqs(ApplyIncoming(t, m)) == Seqs(t) + {m.seqNo}
  {
    PlacedFromLog(log, t, m);
    MatchHasSeq(log, t, m);
    PlacedSeqs(t, m);
    SortSorts(Placed(t, m));
    SameElementsSameSeqs(Placed(t, m), ApplyIncoming(t, m));
  }

  lemma PlacedFromLog(log: Entries, t: Entries, m: LocalMessage)
    requires FromLog(t, log) && EntryFromLog(m, log)
    ensures FromLog(Placed(t, m), log)
  {
    forall e | e in Placed(t, m) ensures EntryFromLog(e, log) {
      assert e == m || e in t;
    }
  }

  lemma PlacedSeqs(t: Entries, m: LocalMessage)
    requires m.seqNo != PENDING_SEQ
    requires var at := IndexOf(t, m); at < |t| ==> t[at].seqNo == PENDING_SEQ || t[at].seqNo == m.seqNo
    ensures Seqs(Placed(t, m)) == Seqs(t) + {m.seqNo}
  {
    var at := IndexOf(t, m);
    if at < |t| {
      SeqsReplace(t, at, m);
    } else {
      SeqsOfConcat(t, [m]);
      SeqsOfOne(m);
    }
  }

  lemma MatchHasSeq(log: Entries, t: Entries, m: LocalMessage)
    requires LogShape(log) && FromLog(t, log) && ImageOf(m, log)
    ensures var at := IndexOf(t, m); at < |t| ==> t[at].seqNo == PENDING_SEQ || t[at].seqNo == m.seqNo
  {
    var at := IndexOf(t, m);
    if at < |t| && t[at].seqNo != PENDING_SEQ {
      assert t[at] in t && EntryFromLog(t[at], log);
      ImagesAgree(log, m, t[at]);
    }
  }

  lemma {:induction false} SeqsReplace(t: Entries, at: nat, m: LocalMessage)
    requires at < |t| && (t[at].seqNo == PENDING_SEQ || t[at].seqNo == m.seqNo) && m.seqNo != PENDING_SEQ
    ensures Seqs(t[at := m]) == Seqs(t) + {m.seqNo}
  {
    var n := |t| - 1;
    if at == n {
      assert t[at := m][..n] == t[..n];
    } else {
      SeqsReplace(t[..n], at, m);
      assert t[at := m][..n] == t[..n][at := m];
    }
  }

  lemma SeqsOfOne(e: LocalMessage)
    ensures Seqs([e]) == if e.seqNo == PENDING_SEQ then {} else {e.seqNo}
  {
    assert [e][..0] == [];
  }

  lemma LogIsImage(log: Entries, n: nat)
    requires LogShape(log) && 1 <= n <= |log|
    ensures ImageOf(log[n - 1], log) && log[n - 1].seqNo == n
  {
  }

  // ---------- with nothing beside it ----------

  /** Nothing out, and the whole log posted. */
  predicate Quiet(tab: Tab, log: Entries) {
    tab.opens == map[] && tab.loads == map[] && tab.size == |log|
  }

  /** Opening a conversation asks for its newest page and shows that, ready to load more. */
  lemma OpeningShows(log: Entries, tab: Tab, c: nat)
    requires LogShape(log) && Quiet(tab, log) && tab.shown.messages == []
    ensures var asked, v := After(log, tab, Open(c)), OpenThread(log);
      && asked.shown == Shown([], false, true)
      && Enabled(log, asked, OpenPage(c, |log|))
      && After(log, asked, OpenPage(c, |log|)) == tab.(shown := Shown(v.messages, v.hasMore, false))
  {
    assert log[..|log|] == log;
    assert tab.opens[c := |log|] - {c} == map[];
  }

  /** Loading older messages asks for the page before the first and shows that in front, ready to load more; when
      there is nothing more, nothing is asked. An opened conversation is not asked for again. */
  lemma LoadingShows(log: Entries, tab: Tab, c: nat)
    requires LogShape(log) && Quiet(tab, log) && tab.shown.messages != [] && !tab.shown.loading
    ensures After(log, tab, Open(c)) == tab
    ensures !tab.shown.hasMore ==> After(log, tab, Older(c)) == tab
    ensures tab.shown.hasMore ==>
      var asked, v := After(log, tab, Older(c)), LoadOlder(log, View(tab.shown.messages, tab.shown.hasMore));
      && asked.shown == tab.shown.(loading := true)
      && Enabled(log, asked, OlderPage(c, |log|))
      && After(log, asked, OlderPage(c, |log|)) == tab.(shown := Shown(v.messages, v.hasMore, false))
  {
    assert log[..|log|] == log;
    assert tab.loads[c := Load(tab.shown.messages, tab.size)] - {c} == map[];
  }

  /** Any message that is posted can be pushed, and the next one can be posted. */
  lemma PushesAreShown(log: Entries, tab: Tab, n: nat)
    requires tab.size <= |log|
    ensures 1 <= n <= tab.size ==>
      && Enabled(log, tab, Push(n))
      && After(log, tab, Push(n)) == tab.(shown := After(log, tab, Push(n)).shown)
      && After(log, tab, Push(n)).shown == tab.shown.(messages := ApplyIncoming(tab.shown.messages, log[n - 1]))
    ensures tab.size < |log| ==>
      && Enabled(log, tab, Post)
      && After(log, tab, Post) == Tab(tab.shown, tab.size + 1, tab.opens, tab.loads)
  {
  }

  /** A failed request leaves the thread as it was shown while it waited. */
  lemma FailureShows(log: Entries, tab: Tab, c: nat)
    ensures Enabled(log, tab, Lost(c)) && After(log, tab, Lost(c)) ==
            Tab(tab.shown, tab.size, tab.opens - {c}, tab.loads - {c})
  {
  }

  // ---------- threads that begin with a push ----------

  /** The history before what is shown is never asked for: openConversation finds messages, loadOlder nothing more. */
  predicate CutOff(shown: Shown) {
    shown.messages != [] && !shown.hasMore && 1 !in Seqs(shown.messages)
  }

  predicate Arrives(step: Step) {
    step.OpenPage? || step.OlderPage?
  }

  predicate FetchedBy(step: Step, fetched: bool) {
    match step
    case OpenPage(_, read) => read > 0
    case OlderPage(_, _) => true
    case _ => fetched
  }

  /** The thread goes back to a page: the last page of an opening, unless empty, or one of older messages. */
  predicate Fetched(steps: seq<Step>, i: nat)
    requires i <= |steps|
  {
    i > 0 && FetchedBy(steps[i - 1], Fetched(steps, i - 1))
  }

  predicate FirstPushed(steps: seq<Step>, i: nat)
    requires i <= |steps|
  {
    exists j | 0 <= j < i :: steps[j] == Push(1)
  }

  lemma FirstPushedStep(steps: seq<Step>, i: nat)
    requires 0 < i <= |steps|
    ensures FirstPushed(steps, i) <==> FirstPushed(steps, i - 1) || steps[i - 1] == Push(1)
  {
  }

  ghost predicate LoadOk(log: Entries, load: Load, first: bool) {
    && load.captured != [] && load.size > 0 && Posted(load.captured, log, load.size)
    && (1 in Seqs(load.captured) ==> first)
  }

  ghost predicate LoadsOk(log: Entries, loads: map<nat, Load>, first: bool) {
    forall c | c in loads :: LoadOk(log, loads[c], first)
  }

  /** What a page's has_more says about seq 1; `first` is whether seq 1 was pushed. */
  ghost predicate MoreOk(shown: Shown, size: nat, fetched: bool, first: bool) {
    && (fetched ==> shown.messages != [])
    && (!fetched ==> !shown.hasMore)
    && (fetched && !shown.hasMore ==> 1 in Seqs(shown.messages))
    && (shown.hasMore ==> size > 0 && (1 in Seqs(shown.messages) ==> first))
  }

  ghost predicate Ok(log: Entries, tab: Tab, fetched: bool, first: bool) {
    && tab.size <= |log| && Posted(tab.shown.messages, log, tab.size)
    && MoreOk(tab.shown, tab.size, fetched, first)
    && LoadsOk(log, tab.loads, first)
  }

  lemma OlderPageOk(log: Entries, load: Load, read: nat, first: bool)
    requires LogShape(log) && LoadOk(log, load, first) && load.size <= read <= |log|
    ensures var shown := WrittenBack(log[..read], load.captured);
            Posted(shown.messages, log, read) && MoreOk(shown, read, true, first)
  {
    var f := load.captured[0];
    assert f in load.captured && EntryFromLog(f, log);
    WrittenBackHolds(log, read, load.captured);
    SeqsElements(load.captured);
  }

  lemma SeqsBound(t: Entries, size: nat)
    requires forall n | n in Seqs(t) :: n <= size
    ensures forall e | e in t && e.seqNo != PENDING_SEQ :: e.seqNo <= size
  {
    SeqsElements(t);
  }

  lemma BoundSeqs(t: Entries, size: nat)
    requires forall e | e in t && e.seqNo != PENDING_SEQ :: e.seqNo <= size
    ensures forall n | n in Seqs(t) :: n <= size
  {
    SeqsElements(t);
  }

  lemma PushIsPosted(log: Entries, t: Entries, m: LocalMessage, size: nat)
    requires LogShape(log) && ImageOf(m, log) && m.seqNo <= size && Posted(t, log, size)
    ensures Posted(ApplyIncoming(t, m), log, size)
  {
    PushShows(log, t, m);
    BoundSeqs(t, size);
    SeqsBound(ApplyIncoming(t, m), size);
  }

  lemma PushKeepsMore(shown: Shown, shown': Shown, n: nat, size: nat, fetched: bool, first: bool)
    requires MoreOk(shown, size, fetched, first)
    requires shown'.messages != [] && shown'.hasMore == shown.hasMore
    requires Seqs(shown'.messages) == Seqs(shown.messages) + {n}
    ensures MoreOk(shown', size, fetched, first || n == 1)
  {
  }

  lemma LoadsStayOk(log: Entries, loads: map<nat, Load>, first: bool, first': bool)
    requires LoadsOk(log, loads, first) && (first ==> first')
    ensures LoadsOk(log, loads, first')
  {
    forall c | c in loads ensures LoadOk(log, loads[c], first') {
      assert LoadOk(log, loads[c], first);
    }
  }

  lemma PushOk(log: Entries, shown: Shown, m: LocalMessage, size: nat, fetched: bool, first: bool)
    requires LogShape(log) && ImageOf(m, log) && m.seqNo <= size
    requires Posted(shown.messages, log, size) && MoreOk(shown, size, fetched, first)
    ensures var shown' := shown.(messages := ApplyIncoming(shown.messages, m));
            Posted(shown'.messages, log, size) && MoreOk(shown', size, fetched, first || m.seqNo == 1)
  {
    PushShows(log, shown.messages, m);
    PushIsPosted(log, shown.messages, m, size);
    PushKeepsMore(shown, shown.(messages := ApplyIncoming(shown.messages, m)), m.seqNo, size, fetched, first);
  }

  lemma PushStepOk(log: Entries, tab: Tab, n: nat, fetched: bool, first: bool)
    requires LogShape(log) && Ok(log, tab, fetched, first) && Enabled(log, tab, Push(n))
    ensures Ok(log, After(log, tab, Push(n)), fetched, first || n == 1)
  {
    var m := log[n - 1];
    assert ImageOf(m, log) && m.seqNo == n by {
      LogIsImage(log, n);
    }
    PushOk(log, tab.shown, m, tab.size, fetched, first);
    LoadsStayOk(log, tab.loads, first, first || n == 1);
  }

  lemma PageStepOk(log: Entries, tab: Tab, step: Step, fetched: bool, first: bool)
    requires LogShape(log) && Ok(log, tab, fetched, first) && Enabled(log, tab, step) && Arrives(step)
    ensures Ok(log, After(log, tab, step), FetchedBy(step, fetched), first)
  {
    match step
    case OpenPage(_, read) => NewestPageHolds(log, read);
    case OlderPage(c, read) => OlderPageOk(log, tab.loads[c], read, first);
  }

  lemma StepOk(log: Entries, tab: Tab, step: Step, fetched: bool, first: bool)
    requires LogShape(log) && Ok(log, tab, fetched, first) && Enabled(log, tab, step)
    ensures Ok(log, After(log, tab, step), FetchedBy(step, fetched), first || step == Push(1))
  {
    if step.Push? {
      PushStepOk(log, tab, step.seqNo, fetched, first);
    } else if Arrives(step) {
      PageStepOk(log, tab, step, fetched, first);
    }
  }

  lemma {:induction false} RunIsOk(log: Entries, tabs: seq<Tab>, steps: seq<Step>, i: nat)
    requires Run(log, tabs, steps) && i < |tabs|
    ensures Ok(log, tabs[i], Fetched(steps, i), FirstPushed(steps, i))
  {
    if i == 0 {
      assert Seqs([]) == {};
    } else {
      RunIsOk(log, tabs, steps, i - 1);
      assert Enabled(log, tabs[i - 1], steps[i - 1]) && tabs[i] == After(log, tabs[i - 1], steps[i - 1]);
      StepOk(log, tabs[i - 1], steps[i - 1], Fetched(steps, i - 1), FirstPushed(steps, i - 1));
      FirstPushedStep(steps, i);
    }
  }

  /** Main result: exactly when the older history is out of reach: the thread does not go back to a page, and seq 1
      was not pushed. */
  lemma CutOffExactly(log: Entries, tabs: seq<Tab>, steps: seq<Step>, i: nat)
    requires Run(log, tabs, steps) && i < |tabs|
    ensures var shown := tabs[i].shown;
            CutOff(shown) <==> shown.messages != [] && 1 !in Seqs(shown.messages) && !Fetched(steps, i)
  {
    RunIsOk(log, tabs, steps, i);
  }

  /** Main result: of a thread that goes back to a page, has_more tells whether seq 1 is missing, unless seq 1
      itself was pushed. */
  lemma HasMoreExactly(log: Entries, tabs: seq<Tab>, steps: seq<Step>, i: nat)
    requires Run(log, tabs, steps) && i < |tabs| && Fetched(steps, i) && !FirstPushed(steps, i)
    ensures tabs[i].shown.hasMore <==> 1 !in Seqs(tabs[i].shown.messages)
  {
    RunIsOk(log, tabs, steps, i);
  }

  /** A push to a conversation that is not opened cuts it off, unless it is of the very first message. */
  lemma PushCutsOffExactly(log: Entries, tab: Tab, n: nat)
    requires LogShape(log) && tab.shown == EMPTY_THREAD && Enabled(log, tab, Push(n))
    ensures CutOff(After(log, tab, Push(n)).shown) <==> n > 1
  {
    LogIsImage(log, n);
    PushShows(log, [], log[n - 1]);
    assert Seqs([]) == {};
  }

  /** Messages are shown, nothing more is said to be there, and no page is on its way. */
  ghost predicate Settled(log: Entries, tab: Tab) {
    && tab.shown.messages != [] && !tab.shown.hasMore && FromLog(tab.shown.messages, log)
    && tab.opens == map[] && tab.loads == map[]
  }

  lemma SettledStays(log: Entries, tab: Tab, step: Step)
    requires LogShape(log) && Settled(log, tab) && Enabled(log, tab, step)
    ensures Settled(log, After(log, tab, step))
    ensures 1 in Seqs(After(log, tab, step).shown.messages) <==> 1 in Seqs(tab.shown.messages) || step == Push(1)
  {
    if step.Push? {
      LogIsImage(log, step.seqNo);
      PushShows(log, tab.shown.messages, log[step.seqNo - 1]);
    }
  }

  lemma SettledStep(log: Entries, tabs: seq<Tab>, steps: seq<Step>, i: nat)
    requires LogShape(log) && Steps(log, tabs, steps) && 0 < i < |tabs| && Settled(log, tabs[i - 1])
    ensures Settled(log, tabs[i])
    ensures 1 in Seqs(tabs[i].shown.messages) <==> 1 in Seqs(tabs[i - 1].shown.messages) || steps[i - 1] == Push(1)
  {
    assert Enabled(log, tabs[i - 1], steps[i - 1]) && tabs[i] == After(log, tabs[i - 1], steps[i - 1]);
    SettledStays(log, tabs[i - 1], steps[i - 1]);
  }

  /** Main result: once cut off, with no page on its way, a thread stays so until seq 1 itself is pushed, and then
      is not; however often the user opens it or scrolls up, no page is ever asked for. */
  lemma {:induction false} CutOffForGood(log: Entries, tabs: seq<Tab>, steps: seq<Step>, i: nat)
    requires LogShape(log) && Steps(log, tabs, steps) && i < |tabs|
    requires CutOff(tabs[0].shown) && Settled(log, tabs[0])
    ensures CutOff(tabs[i].shown) <==> !FirstPushed(steps, i)
    ensures Settled(log, tabs[i])
  {
    if i > 0 {
      CutOffForGood(log, tabs, steps, i - 1);
      SettledStep(log, tabs, steps, i);
      FirstPushedStep(steps, i);
    }
  }

  /** Marked as loading, with no page on its way. */
  ghost predicate Blocked(log: Entries, tab: Tab) {
    && tab.shown.messages != [] && tab.shown.loading && FromLog(tab.shown.messages, log)
    && tab.opens == map[] && tab.loads == map[]
  }

  lemma BlockedStays(log: Entries, tab: Tab, step: Step)
    requires LogShape(log) && Blocked(log, tab) && Enabled(log, tab, step)
    ensures Blocked(log, After(log, tab, step))
  {
    if step.Push? {
      LogIsImage(log, step.seqNo);
      PushShows(log, tab.shown.messages, log[step.seqNo - 1]);
    }
  }

  /** A request for older messages that fails leaves the mark behind: whatever is pushed or tried after it, older
      messages are never asked for again. */
  lemma {:induction false} FailedLoadBlocks(log: Entries, tabs: seq<Tab>, steps: seq<Step>, call: nat, i: nat)
    requires LogShape(log) && Steps(log, tabs, steps) && 0 < i < |tabs| && steps[0] == Lost(call)
    requires tabs[0].loads.Keys == {call} && tabs[0].opens == map[]
    requires tabs[0].shown.loading && tabs[0].shown.messages != [] && FromLog(tabs[0].shown.messages, log)
    ensures tabs[i].shown.loading && tabs[i].loads == map[] && tabs[i].opens == map[]
    ensures Blocked(log, tabs[i])
  {
    assert Enabled(log, tabs[i - 1], steps[i - 1]) && tabs[i] == After(log, tabs[i - 1], steps[i - 1]);
    if i > 1 {
      FailedLoadBlocks(log, tabs, steps, call, i - 1);
      BlockedStays(log, tabs[i - 1], steps[i - 1]);
    }
  }

  // ---------- what a write-back loses ----------

  predicate Pushed(steps: seq<Step>, n: nat, i: nat)
    requires i <= |steps|
  {
    exists j | 0 <= j < i :: steps[j] == Push(n)
  }

  /** A run that starts as loadOlder captures a thread, with nothing but pushes arriving while it waits. */
  ghost predicate Waits(log: Entries, tabs: seq<Tab>, steps: seq<Step>, call: nat) {
    && LogShape(log) && Steps(log, tabs, steps) && steps != [] && steps[0] == Older(call)
    && tabs[0].shown.hasMore && !tabs[0].shown.loading && tabs[0].shown.messages != []
    && tabs[0].size <= |log| && Posted(tabs[0].shown.messages, log, tabs[0].size)
    && forall j | 0 < j < |steps| :: !Arrives(steps[j]) && steps[j] != Lost(call)
  }

  lemma {:induction false} HeldWhileWaiting(log: Entries, tabs: seq<Tab>, steps: seq<Step>, call: nat, i: nat, s: nat)
    requires Waits(log, tabs, steps, call) && 0 < i < |tabs|
    ensures call in tabs[i].loads && tabs[i].loads[call] == Load(tabs[0].shown.messages, tabs[0].size)
    ensures tabs[i].shown.loading && tabs[i].shown.messages != [] && FromLog(tabs[i].shown.messages, log)
    ensures s in Seqs(tabs[i].shown.messages) <==> s in Seqs(tabs[0].shown.messages) || Pushed(steps, s, i)
  {
    assert Enabled(log, tabs[i - 1], steps[i - 1]) && tabs[i] == After(log, tabs[i - 1], steps[i - 1]);
    if i > 1 {
      HeldWhileWaiting(log, tabs, steps, call, i - 1, s);
      assert Pushed(steps, s, i) <==> Pushed(steps, s, i - 1) || steps[i - 1] == Push(s);
      assert !Arrives(steps[i - 1]) && steps[i - 1] != Lost(call);
      if steps[i - 1].Push? {
        LogIsImage(log, steps[i - 1].seqNo);
        PushShows(log, tabs[i - 1].shown.messages, log[steps[i - 1].seqNo - 1]);
      }
    }
  }

  /** Main result: writing back the captured thread loses exactly the messages pushed meanwhile that it did not
      hold and that are not on the page. */
  lemma WriteBackLosesExactly(log: Entries, tabs: seq<Tab>, steps: seq<Step>, call: nat, read: nat, s: nat)
    requires Waits(log, tabs, steps, call) && Enabled(log, tabs[|steps|], OlderPage(call, read))
    ensures var captured, now := tabs[0].shown.messages, tabs[|steps|];
      && captured[0].seqNo >= 1
      && (s in Seqs(now.shown.messages) && s !in Seqs(After(log, now, OlderPage(call, read)).shown.messages) <==>
          && Pushed(steps, s, |steps|)
          && s !in Seqs(captured) && s !in SeqsBefore(read, captured[0].seqNo))
  {
    HeldWhileWaiting(log, tabs, steps, call, |steps|, s);
    assert Posted(tabs[0].shown.messages, log, read);
    WrittenBackHolds(log, read, tabs[0].shown.messages);
  }

  lemma {:induction false} ApplyAllShows(log: Entries, t: Entries, ms: seq<LocalMessage>)
    requires LogShape(log) && FromLog(t, log) && forall m | m in ms :: ImageOf(m, log)
    ensures FromLog(ApplyAll(t, ms), log) && Seqs(ApplyAll(t, ms)) == Seqs(t) + Seqs(ms)
  {
    if ms != [] {
      var front, last := ms[..|ms| - 1], ms[|ms| - 1];
      assert ms == front + [last] && last in ms;
      ApplyAllShows(log, t, front);
      PushShows(log, ApplyAll(t, front), last);
    }
  }

  lemma NewestStays(captured: Entries, t: Entries, read: nat)
    requires captured != [] && 1 <= captured[0].seqNo != PENDING_SEQ
    requires Seqs(t) == SeqsBefore(read, captured[0].seqNo) + Seqs(captured)
    ensures NewestRealSeq(t) == NewestRealSeq(captured)
  {
    NewestIsMaximum(t);
    NewestIsMaximum(captured);
    SeqsElements(captured);
    assert captured[0] in captured && captured[0].seqNo in Seqs(captured);
    assert NewestRealSeq(captured) in Seqs(t);
  }

  lemma AnswerShows(log: Entries, t: Entries, k: nat)
    requires LogShape(log) && FromLog(t, log)
    ensures Seqs(ApplyAll(t, PageAsked(log, k))) == Seqs(t) + Range(k + 1, Min(|log|, k + CLIENT_PAGE_SIZE))
  {
    PageHolds(log, k);
    ApplyAllShows(log, t, PageAsked(log, k));
  }

  /** A seq missing from a thread is brought by its next recovery exactly if it is one of the fifty after the newest
      held. */
  lemma RecoverBrings(log: Entries, t: Entries, s: nat)
    requires LogShape(log) && FromLog(t, log) && s !in Seqs(t) && s <= |log|
    ensures s in Seqs(Recover(t, log)) <==> NewestRealSeq(t) < s <= NewestRealSeq(t) + CLIENT_PAGE_SIZE
  {
    AnswerShows(log, t, NewestRealSeq(t));
  }

  /** Main result: the next recovery restores a lost message exactly if it is one of the next fifty after the newest
      one captured; a lost message older than that stays lost. */
  lemma LostIsRestoredExactly(log: Entries, read: nat, captured: Entries, s: nat)
    requires LogShape(log) && read <= |log| && captured != [] && Posted(captured, log, read)
    requires captured[0].seqNo != PENDING_SEQ && s <= |log|
    requires s !in Seqs(WrittenBack(log[..read], captured).messages)
    ensures s in Seqs(Recover(WrittenBack(log[..read], captured).messages, log)) <==>
            NewestRealSeq(captured) < s <= NewestRealSeq(captured) + CLIENT_PAGE_SIZE
  {
    var t := WrittenBack(log[..read], captured).messages;
    WrittenBackHolds(log, read, captured);
    NewestStays(captured, t, read);
    RecoverBrings(log, t, s);
  }
}
