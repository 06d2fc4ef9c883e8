/**
 Pushes and recoveries together, while the conversation grows. A recovery asks after the newest seq its thread
 held when it was captured, and its page arrives later, with pushes in between. A push of a message beyond the
 next one leaves a hole; it is closed by a late push of the missing message, or by a recovery that had asked
 before the hole was there, and by nothing else.
 */
module Holes {
  import opened Wrappers
  import opened Collections
  import opened ChatTypes
  import opened Thread
  import opened Merge
  import opened Paging

  predicate HeldBelow(t: Entries, n: nat) {
    exists low :: low in Seqs(t) && low < n
  }

  /** A seq missing between two that are held. */
  predicate HoleAt(t: Entries, hole: nat) {
    hole !in Seqs(t) && HeldBelow(t, hole) && hole < NewestRealSeq(t)
  }

  /** Threads only gain seqs, so a hole lasts until its own seq comes. */
  lemma HoleLasts(t: Entries, t': Entries, hole: nat)
    requires HoleAt(t, hole) && Seqs(t) <= Seqs(t')
    ensures HoleAt(t', hole) <==> hole !in Seqs(t')
  {
    NewestIsMaximum(t);
    NewestIsMaximum(t');
    var low :| low in Seqs(t) && low < hole;
    assert low in Seqs(t');
    assert NewestRealSeq(t) in Seqs(t');
  }

  lemma PushAddsSeq(t: Entries, log: Entries, m: LocalMessage)
    requires Tracks(t, log) && ImageOf(m, log)
    ensures Tracks(ApplyIncoming(t, m), log) && Seqs(ApplyIncoming(t, m)) == Seqs(t) + {m.seqNo}
    ensures 0 !in Seqs(ApplyIncoming(t, m))
  {
    assert ApplyAll(t, [m]) == ApplyIncoming(t, m) by {
      assert [m][..0] == [];
    }
    MergedTracks(t, log, [m]);
    assert Seqs([m]) == {m.seqNo} by {
      assert [m][..0] == [];
    }
    SeqsElements(ApplyIncoming(t, m));
  }

  /** Exactly which pushes leave a hole after what is held: those that skip a message. */
  lemma PushLeavesHoleExactly(t: Entries, log: Entries, m: LocalMessage)
    requires Tracks(t, log) && ImageOf(m, log)
    ensures HoleAt(ApplyIncoming(t, m), NewestRealSeq(t) + 1) <==>
            NewestRealSeq(t) > 0 && m.seqNo > NewestRealSeq(t) + 1
  {
    PushAddsSeq(t, log, m);
    OneMoreSeq(t, ApplyIncoming(t, m), m.seqNo);
  }

  lemma OneMoreSeq(t: Entries, t': Entries, n: nat)
    requires Seqs(t') == Seqs(t) + {n} && 0 !in Seqs(t')
    ensures NewestRealSeq(t') == if n > NewestRealSeq(t) then n else NewestRealSeq(t)
    ensures HoleAt(t', NewestRealSeq(t) + 1) <==> NewestRealSeq(t) > 0 && n > NewestRealSeq(t) + 1
  {
    var k := NewestRealSeq(t);
    NewestIsMaximum(t);
    NewestIsMaximum(t');
    assert n in Seqs(t');
    if k > 0 {
      assert k in Seqs(t');
      assert HeldBelow(t', k + 1);
    }
  }

  // ---------- runs of one thread ----------

  /** The log as it goes on: messages keep their place, id and client id; edits may change the rest. */
  ghost predicate Grown(log: Entries, log': Entries) {
    && |log| <= |log'| && LogShape(log')
    && forall i | 0 <= i < |log| :: log'[i].id == log[i].id && log'[i].clientId == log[i].clientId
  }

  /** Ids of unsent entries ("pending:...") are never ids of the server's. */
  ghost predicate PendingApart(t: Entries, log: Entries) {
    forall e, m | e in t && e.seqNo == PENDING_SEQ && m in log :: m.id != e.id
  }

  /** The thread as stored, and the recoveries out for it, with the seq each asked after. */
  datatype Tab = Tab(thread: Entries, calls: map<nat, nat>)

  datatype Step =
    | Ask(call: nat)
    | Answer(call: nat, read: Entries)
    | Lost(call: nat)
    | Push(message: LocalMessage)
    | Local(thread: Entries)

  /** The same entries, edited in place, and new unsent ones behind them. */
  ghost predicate SameKeys(t: Entries, t': Entries) {
    && |t| <= |t'|
    && (forall i | 0 <= i < |t| ::
          t'[i].seqNo == t[i].seqNo && t'[i].id == t[i].id && t'[i].clientId == t[i].clientId)
    && (forall i | |t| <= i < |t'| :: t'[i].seqNo == PENDING_SEQ)
  }

  /** A recovery captures the thread, gets its page, read from the log as it was at some moment up to now, or
      fails; a message is pushed, in any version; the user composes or retries, or an edit is shown. */
  ghost predicate Moves(tab: Tab, log: Entries, log': Entries, step: Step, tab': Tab) {
    && Grown(log, log') && PendingApart(tab.thread, log')
    && match step
       case Ask(c) =>
         c !in tab.calls && tab.thread != [] && tab' == tab.(calls := tab.calls[c := NewestRealSeq(tab.thread)])
       case Answer(c, read) =>
         && c in tab.calls && LogShape(read) && Grown(read, log')
         && tab' == Tab(ApplyAll(tab.thread, PageAsked(read, tab.calls[c])), tab.calls - {c})
       case Lost(c) => c in tab.calls && tab' == tab.(calls := tab.calls - {c})
       case Push(m) => ImageOf(m, log') && tab' == tab.(thread := ApplyIncoming(tab.thread, m))
       case Local(t) =>
         SameKeys(tab.thread, t) && Tidy(t) && PendingApart(t, log') && tab' == tab.(thread := t)
  }

  /** The seqs a step brings. */
  function Added(tab: Tab, step: Step): set<nat> {
    match step
    case Answer(c, read) =>
      if c in tab.calls then Range(tab.calls[c] + 1, Min(|read|, tab.calls[c] + CLIENT_PAGE_SIZE)) else {}
    case Push(m) => {m.seqNo}
    case _ => {}
  }

  ghost predicate Run(tabs: seq<Tab>, logs: seq<Entries>, steps: seq<Step>) {
    && |tabs| == |logs| == |steps| + 1
    && Tracks(tabs[0].thread, logs[0])
    && forall i | 0 <= i < |steps| :: Moves(tabs[i], logs[i], logs[i + 1], steps[i], tabs[i + 1])
  }

  // ---------- what one step does ----------

  lemma TracksOn(t: Entries, log: Entries, log': Entries)
    requires Tracks(t, log) && Grown(log, log') && PendingApart(t, log')
    ensures Tracks(t, log')
  {
    forall e | e in t ensures EntryFromLog(e, log') {
      assert EntryFromLog(e, log);
    }
  }

  lemma ImagesOn(ms: Entries, log: Entries, log': Entries)
    requires ImagesOf(ms, log) && Grown(log, log')
    ensures ImagesOf(ms, log')
  {
    forall m | m in ms ensures ImageOf(m, log') {
      assert ImageOf(m, log);
    }
  }

  lemma AnswerAdds(t: Entries, log: Entries, read: Entries, k: nat)
    requires Tracks(t, log) && LogShape(read) && Grown(read, log)
    ensures Tracks(ApplyAll(t, PageAsked(read, k)), log)
    ensures Seqs(ApplyAll(t, PageAsked(read, k))) ==
            Seqs(t) + Range(k + 1, Min(|read|, k + CLIENT_PAGE_SIZE))
  {
    PageHolds(read, k);
    ImagesOn(PageAsked(read, k), read, log);
    MergedTracks(t, log, PageAsked(read, k));
  }

  lemma {:induction false} SameKeysSameSeqs(t: Entries, t': Entries)
    requires SameKeys(t, t')
    ensures Seqs(t') == Seqs(t)
    decreases |t'|
  {
    if |t'| > |t| {
      SameKeysSameSeqs(t, t'[..|t'| - 1]);
    } else if t != [] {
      SameKeysSameSeqs(t[..|t| - 1], t'[..|t| - 1]);
    }
  }

  lemma SameKeysTrack(t: Entries, t': Entries, log: Entries)
    requires Tracks(t, log) && SameKeys(t, t') && Tidy(t') && PendingApart(t', log)
    ensures Tracks(t', log)
  {
    forall e | e in t' ensures EntryFromLog(e, log) {
      var i :| 0 <= i < |t'| && t'[i] == e;
      if i < |t| {
        assert EntryFromLog(t[i], log);
      }
    }
  }

  lemma MoveAdds(tab: Tab, log: Entries, log': Entries, step: Step, tab': Tab)
    requires Tracks(tab.thread, log) && Moves(tab, log, log', step, tab')
    ensures Tracks(tab'.thread, log')
    ensures Seqs(tab'.thread) == Seqs(tab.thread) + Added(tab, step)
  {
    TracksOn(tab.thread, log, log');
    match step
    case Answer(c, read) => AnswerAdds(tab.thread, log', read, tab.calls[c]);
    case Push(m) => PushAddsSeq(tab.thread, log', m);
    case Local(t) =>
      SameKeysSameSeqs(tab.thread, t);
      SameKeysTrack(tab.thread, t, log');
    case _ =>
  }

  // ---------- what a run does ----------

  lemma {:induction false} RunTracks(tabs: seq<Tab>, logs: seq<Entries>, steps: seq<Step>, i: nat)
    requires Run(tabs, logs, steps) && i < |tabs|
    ensures Tracks(tabs[i].thread, logs[i])
  {
    if i > 0 {
      RunTracks(tabs, logs, steps, i - 1);
      MoveAdds(tabs[i - 1], logs[i - 1], logs[i], steps[i - 1], tabs[i]);
    }
  }

  /** Each state holds what the last one held and what the step brought. */
  ghost predicate Gains(tabs: seq<Tab>, steps: seq<Step>) {
    && |tabs| == |steps| + 1
    && forall i | 0 <= i < |steps| :: Seqs(tabs[i + 1].thread) == Seqs(tabs[i].thread) + Added(tabs[i], steps[i])
  }

  lemma RunGains(tabs: seq<Tab>, logs: seq<Entries>, steps: seq<Step>)
    requires Run(tabs, logs, steps)
    ensures Gains(tabs, steps)
  {
    forall i | 0 <= i < |steps|
      ensures Seqs(tabs[i + 1].thread) == Seqs(tabs[i].thread) + Added(tabs[i], steps[i])
    {
      RunTracks(tabs, logs, steps, i);
      MoveAdds(tabs[i], logs[i], logs[i + 1], steps[i], tabs[i + 1]);
    }
  }

  /** One of the first `i` steps brings the seq. */
  predicate Filled(tabs: seq<Tab>, steps: seq<Step>, n: nat, i: nat)
    requires i <= |steps| < |tabs|
  {
    exists j | 0 <= j < i :: n in Added(tabs[j], steps[j])
  }

  lemma {:induction false} GainsHeld(tabs: seq<Tab>, steps: seq<Step>, n: nat, i: nat)
    requires Gains(tabs, steps) && i < |tabs|
    ensures n in Seqs(tabs[i].thread) <==> n in Seqs(tabs[0].thread) || Filled(tabs, steps, n, i)
  {
    if i > 0 {
      GainsHeld(tabs, steps, n, i - 1);
      assert Seqs(tabs[i - 1 + 1].thread) == Seqs(tabs[i - 1].thread) + Added(tabs[i - 1], steps[i - 1]);
      assert Filled(tabs, steps, n, i) <==> Filled(tabs, steps, n, i - 1) || n in Added(tabs[i - 1], steps[i - 1]);
    }
  }

  /** Main result: after any run a thread holds exactly what it held and what the pages and pushes brought. */
  lemma HeldExactly(tabs: seq<Tab>, logs: seq<Entries>, steps: seq<Step>, n: nat, i: nat)
    requires Run(tabs, logs, steps) && i < |tabs|
    ensures n in Seqs(tabs[i].thread) <==> n in Seqs(tabs[0].thread) || Filled(tabs, steps, n, i)
  {
    RunGains(tabs, logs, steps);
    GainsHeld(tabs, steps, n, i);
  }

  /** Main result: a hole is there until a late push of that message, or the answer of a recovery that asked
      after a smaller seq and whose page reaches it. */
  lemma HoleLastsExactly(tabs: seq<Tab>, logs: seq<Entries>, steps: seq<Step>, hole: nat, i: nat)
    requires Run(tabs, logs, steps) && i < |tabs| && HoleAt(tabs[0].thread, hole)
    ensures HoleAt(tabs[i].thread, hole) <==> !Filled(tabs, steps, hole, i)
  {
    RunGains(tabs, logs, steps);
    GainsHeld(tabs, steps, hole, i);
    forall n | n in Seqs(tabs[0].thread) ensures n in Seqs(tabs[i].thread) {
      GainsHeld(tabs, steps, n, i);
    }
    HoleLasts(tabs[0].thread, tabs[i].thread, hole);
  }

  /** Recoveries that ask after a seq below the hole were out when the hole was first there. */
  ghost predicate OldBelow(start: map<nat, nat>, calls: map<nat, nat>, hole: nat) {
    forall c | c in calls && calls[c] < hole :: c in start && start[c] == calls[c]
  }

  lemma MoveKeepsOld(tab: Tab, log: Entries, log': Entries, step: Step, tab': Tab, start: map<nat, nat>, hole: nat)
    requires Moves(tab, log, log', step, tab') && OldBelow(start, tab.calls, hole) && hole < NewestRealSeq(tab.thread)
    ensures OldBelow(start, tab'.calls, hole)
  {
  }

  lemma {:induction false} CallsBelowAreOld(tabs: seq<Tab>, logs: seq<Entries>, steps: seq<Step>, hole: nat, i: nat)
    requires Run(tabs, logs, steps) && i < |tabs| && HoleAt(tabs[0].thread, hole) && HoleAt(tabs[i].thread, hole)
    ensures OldBelow(tabs[0].calls, tabs[i].calls, hole)
  {
    if i > 0 {
      HoleWasThere(tabs, logs, steps, hole, i);
      CallsBelowAreOld(tabs, logs, steps, hole, i - 1);
      MoveKeepsOld(tabs[i - 1], logs[i - 1], logs[i], steps[i - 1], tabs[i], tabs[0].calls, hole);
    }
  }

  lemma HoleWasThere(tabs: seq<Tab>, logs: seq<Entries>, steps: seq<Step>, hole: nat, i: nat)
    requires Run(tabs, logs, steps) && 0 < i < |tabs| && HoleAt(tabs[0].thread, hole) && HoleAt(tabs[i].thread, hole)
    ensures HoleAt(tabs[i - 1].thread, hole)
  {
    HoleLastsExactly(tabs, logs, steps, hole, i);
    HoleLastsExactly(tabs, logs, steps, hole, i - 1);
  }

  predicate Pushed(steps: seq<Step>, n: nat, i: nat)
    requires i <= |steps|
  {
    exists j | 0 <= j < i :: steps[j].Push? && steps[j].message.seqNo == n
  }

  lemma PushedIsFilled(tabs: seq<Tab>, steps: seq<Step>, n: nat, i: nat)
    requires i <= |steps| < |tabs| && Pushed(steps, n, i)
    ensures Filled(tabs, steps, n, i)
  {
    var j :| 0 <= j < i && steps[j].Push? && steps[j].message.seqNo == n;
    assert n in Added(tabs[j], steps[j]);
  }

  lemma PushedOneMore(steps: seq<Step>, n: nat, i: nat)
    requires 0 < i <= |steps|
    ensures Pushed(steps, n, i) <==>
            Pushed(steps, n, i - 1) || (steps[i - 1].Push? && steps[i - 1].message.seqNo == n)
  {
  }

  /** While the hole is there, only a push of the missing message brings it, unless an old recovery does. */
  lemma OnlyPushesFill(tabs: seq<Tab>, logs: seq<Entries>, steps: seq<Step>, hole: nat, i: nat)
    requires Run(tabs, logs, steps) && 0 < i < |tabs|
    requires HoleAt(tabs[0].thread, hole) && HoleAt(tabs[i - 1].thread, hole)
    requires forall c | c in tabs[0].calls :: tabs[0].calls[c] >= hole
    requires !(steps[i - 1].Push? && steps[i - 1].message.seqNo == hole)
    ensures HoleAt(tabs[i].thread, hole)
  {
    CallsBelowAreOld(tabs, logs, steps, hole, i - 1);
    assert hole !in Added(tabs[i - 1], steps[i - 1]);
    RunTracks(tabs, logs, steps, i - 1);
    MoveAdds(tabs[i - 1], logs[i - 1], logs[i], steps[i - 1], tabs[i]);
    HoleLasts(tabs[i - 1].thread, tabs[i].thread, hole);
  }

  /** Main result: a hole that no recovery out at the time reaches below is closed by a late push of the missing
      message and by nothing else, however many recoveries follow. */
  lemma {:induction false} LaterRecoveriesNeverFill(tabs: seq<Tab>, logs: seq<Entries>, steps: seq<Step>, hole: nat,
      i: nat)
    requires Run(tabs, logs, steps) && i < |tabs| && HoleAt(tabs[0].thread, hole)
    requires forall c | c in tabs[0].calls :: tabs[0].calls[c] >= hole
    ensures HoleAt(tabs[i].thread, hole) <==> !Pushed(steps, hole, i)
  {
    if Pushed(steps, hole, i) {
      HoleLastsExactly(tabs, logs, steps, hole, i);
      PushedIsFilled(tabs, steps, hole, i);
    } else if i > 0 {
      PushedOneMore(steps, hole, i);
      LaterRecoveriesNeverFill(tabs, logs, steps, hole, i - 1);
      OnlyPushesFill(tabs, logs, steps, hole, i);
    }
  }

  // ---------- one recovery ----------

  predicate Keeps(step: Step, call: nat) {
    !(step.Answer? && step.call == call) && !(step.Lost? && step.call == call)
  }

  lemma {:induction false} CallIsKept(tabs: seq<Tab>, logs: seq<Entries>, steps: seq<Step>, call: nat, i: nat)
    requires Run(tabs, logs, steps) && 0 < i < |tabs| && steps[0] == Ask(call)
    requires forall j | 0 < j < i :: Keeps(steps[j], call)
    ensures call in tabs[i].calls && tabs[i].calls[call] == NewestRealSeq(tabs[0].thread)
  {
    assert Moves(tabs[i - 1], logs[i - 1], logs[i], steps[i - 1], tabs[i]);
    if i > 1 {
      CallIsKept(tabs, logs, steps, call, i - 1);
      assert Keeps(steps[i - 1], call);
    }
  }

  /** No seq from `lo` to `n` is missing. */
  predicate Complete(t: Entries, lo: nat, n: nat) {
    forall s: nat | lo <= s <= n :: s in Seqs(t)
  }

  /** A run that starts as a recovery captures the thread, and ends as its page, read from `read`, is applied. */
  ghost predicate Recovers(tabs: seq<Tab>, logs: seq<Entries>, steps: seq<Step>, call: nat, read: Entries) {
    && Run(tabs, logs, steps) && |steps| >= 2
    && steps[0] == Ask(call) && steps[|steps| - 1] == Answer(call, read)
    && forall j | 0 < j < |steps| - 1 :: Keeps(steps[j], call)
  }

  /** On the page after `k`, of a log of `n` messages. */
  predicate OnPage(s: nat, k: nat, n: nat) {
    k < s <= Min(n, k + CLIENT_PAGE_SIZE)
  }

  /** Held when the run began, or brought before its last step. */
  predicate Brought(tabs: seq<Tab>, steps: seq<Step>, s: nat)
    requires 0 < |steps| < |tabs|
  {
    s in Seqs(tabs[0].thread) || Filled(tabs, steps, s, |steps| - 1)
  }

  lemma HeldAfterRecovery(tabs: seq<Tab>, logs: seq<Entries>, steps: seq<Step>, call: nat, read: Entries, s: nat)
    requires Recovers(tabs, logs, steps, call, read)
    ensures s in Seqs(tabs[|steps|].thread) <==>
            OnPage(s, NewestRealSeq(tabs[0].thread), |read|) || Brought(tabs, steps, s)
  {
    var last := |steps| - 1;
    CallIsKept(tabs, logs, steps, call, last);
    RunTracks(tabs, logs, steps, last);
    MoveAdds(tabs[last], logs[last], logs[last + 1], steps[last], tabs[last + 1]);
    HeldExactly(tabs, logs, steps, s, last);
  }

  /** Main result: exactly when a recovery, with whatever lands while it waits, leaves nothing missing from `lo`
      to the end: what the thread missed up to the seq asked after, and what lies beyond the page, must have come
      meanwhile. */
  lemma GapClosesExactly(tabs: seq<Tab>, logs: seq<Entries>, steps: seq<Step>, call: nat, read: Entries, lo: nat)
    requires Recovers(tabs, logs, steps, call, read)
    ensures Complete(tabs[|steps|].thread, lo, |logs[|steps|]|) <==>
            forall s: nat | lo <= s <= |logs[|steps|]| && !OnPage(s, NewestRealSeq(tabs[0].thread), |read|) ::
              Brought(tabs, steps, s)
  {
    var end, k := |logs[|steps|]|, NewestRealSeq(tabs[0].thread);
    if Complete(tabs[|steps|].thread, lo, end) {
      forall s: nat | lo <= s <= end && !OnPage(s, k, |read|) ensures Brought(tabs, steps, s) {
        HeldAfterRecovery(tabs, logs, steps, call, read, s);
      }
    } else {
      var s: nat :| lo <= s <= end && s !in Seqs(tabs[|steps|].thread);
      HeldAfterRecovery(tabs, logs, steps, call, read, s);
      assert !OnPage(s, k, |read|) && !Brought(tabs, steps, s);
    }
  }

  /** A push that lands while a recovery waits leaves a hole, which that recovery's page closes; one that lands
      before the thread is captured leaves a hole that the recovery does not ask for. */
  lemma PushBeforeAskDiffers(t: Entries, log: Entries)
    requires Tracks(t, log) && 0 < NewestRealSeq(t) && NewestRealSeq(t) + 2 <= |log|
    ensures var k := NewestRealSeq(t);
            var t1 := ApplyIncoming(t, log[k + 1]);
            && HoleAt(t1, k + 1)
            && k + 1 in Seqs(ApplyAll(t1, PageAsked(log, k)))
            && HoleAt(ApplyAll(t1, PageAsked(log, NewestRealSeq(t1))), k + 1)
  {
    var k := NewestRealSeq(t);
    var t1 := ApplyIncoming(t, log[k + 1]);
    assert Grown(log, log);
    LogHasImages(log, [log[k + 1]]);
    assert log[k + 1] in [log[k + 1]];
    PushLeavesHoleExactly(t, log, log[k + 1]);
    PushAddsSeq(t, log, log[k + 1]);
    OneMoreSeq(t, t1, k + 2);
    AnswerAdds(t1, log, log, k);
    AnswerAdds(t1, log, log, k + 2);
    HoleLasts(t1, ApplyAll(t1, PageAsked(log, k + 2)), k + 1);
  }

  lemma TrackedApart(t: Entries, log: Entries)
    requires Tracks(t, log)
    ensures PendingApart(t, log) && Grown(log, log)
  {
    forall e, m | e in t && e.seqNo == PENDING_SEQ && m in log ensures m.id != e.id {
      assert EntryFromLog(e, log);
      var i :| 0 <= i < |log| && log[i] == m;
    }
  }

  /** A loaded thread can be captured; a call can be answered or lost, and is over then. */
  lemma CallsGoOn(tab: Tab, log: Entries, c: nat)
    requires Tracks(tab.thread, log)
    ensures c !in tab.calls && tab.thread != [] ==>
      Moves(tab, log, log, Ask(c), Tab(tab.thread, tab.calls[c := NewestRealSeq(tab.thread)]))
    ensures c in tab.calls ==>
      && Moves(tab, log, log, Lost(c), Tab(tab.thread, tab.calls - {c}))
      && Moves(tab, log, log, Answer(c, log), Tab(ApplyAll(tab.thread, PageAsked(log, tab.calls[c])), tab.calls - {c}))
  {
    TrackedApart(tab.thread, log);
  }

  /** A message can be pushed at any time, and leaves the calls alone; so do edits. */
  lemma PushesGoOn(tab: Tab, log: Entries, m: LocalMessage, t: Entries)
    requires Tracks(tab.thread, log)
    ensures ImageOf(m, log) ==> Moves(tab, log, log, Push(m), Tab(ApplyIncoming(tab.thread, m), tab.calls))
    ensures SameKeys(tab.thread, t) && Tidy(t) && PendingApart(t, log) ==>
      Moves(tab, log, log, Local(t), Tab(t, tab.calls))
  {
    TrackedApart(tab.thread, log);
  }

  lemma AnswerEnds(t: Entries, log: Entries, k: nat)
    requires Tracks(t, log)
    ensures Moves(Tab(t, map[0 := k]), log, log, Answer(0, log), Tab(ApplyAll(t, PageAsked(log, k)), map[]))
  {
    CallsGoOn(Tab(t, map[0 := k]), log, 0);
    assert map[0 := k] - {0} == map[];
  }

  /** A recovery answered after a push: it applies the page after the newest seq it captured. */
  lemma RecoveryHappens(t: Entries, log: Entries, m: LocalMessage)
    requires Tracks(t, log) && t != [] && ImageOf(m, log)
    ensures var k, pushed := NewestRealSeq(t), ApplyIncoming(t, m);
      && Moves(Tab(t, map[]), log, log, Ask(0), Tab(t, map[0 := k]))
      && Moves(Tab(t, map[0 := k]), log, log, Push(m), Tab(pushed, map[0 := k]))
      && Moves(Tab(pushed, map[0 := k]), log, log, Answer(0, log), Tab(ApplyAll(pushed, PageAsked(log, k)), map[]))
  {
    CallsGoOn(Tab(t, map[]), log, 0);
    PushesGoOn(Tab(t, map[0 := NewestRealSeq(t)]), log, m, t);
    PushAddsSeq(t, log, m);
    AnswerEnds(ApplyIncoming(t, m), log, NewestRealSeq(t));
  }

  /** A contiguous thread with at most a page missing is complete after one recovery, whatever messages from
      lo on are pushed meanwhile, again or for the first time, in any order with the page. */
  lemma PushesKeepContiguity(t: Entries, log: Entries, arrivals: seq<LocalMessage>, lo: nat)
    requires Tracks(t, log) && Holds(t, lo, NewestRealSeq(t)) && 1 <= lo <= NewestRealSeq(t) + 1
    requires |log| - NewestRealSeq(t) <= CLIENT_PAGE_SIZE
    requires forall m | m in arrivals :: m in log && m.seqNo >= lo
    requires forall m | m in PageAsked(log, NewestRealSeq(t)) :: m in arrivals
    ensures Holds(ApplyAll(t, arrivals), lo, |log|)
  {
    var k := NewestRealSeq(t);
    WholePage(t, log);
    LogHasImages(log, arrivals);
    MergedTracks(t, log, arrivals);
    SeqsBetween(log, arrivals, lo);
    RestArrives(log, k, arrivals);
  }

  lemma WholePage(t: Entries, log: Entries)
    requires Tracks(t, log) && |log| - NewestRealSeq(t) <= CLIENT_PAGE_SIZE
    ensures NewestRealSeq(t) <= |log|
    ensures PageAsked(log, NewestRealSeq(t)) == log[NewestRealSeq(t)..]
  {
    var k := NewestRealSeq(t);
    NewestInLog(t, log);
    PageAfter(log, k, CLIENT_PAGE_SIZE);
    assert log[k..Min(|log|, k + CLIENT_PAGE_SIZE)] == log[k..];
  }

  lemma RestArrives(log: Entries, k: nat, ms: seq<LocalMessage>)
    requires LogShape(log) && k <= |log| && forall m | m in log[k..] :: m in ms
    ensures Range(k + 1, |log|) <= Seqs(ms)
  {
    SeqsElements(ms);
    forall n | n in Range(k + 1, |log|) ensures n in Seqs(ms) {
      assert log[k..][n - 1 - k] == log[n - 1];
      assert log[n - 1] in ms;
    }
  }

  lemma SeqsBetween(log: Entries, ms: seq<LocalMessage>, lo: nat)
    requires LogShape(log) && forall m | m in ms :: m in log && m.seqNo >= lo
    ensures Seqs(ms) <= Range(lo, |log|)
  {
    SeqsElements(ms);
    forall n | n in Seqs(ms) ensures lo <= n <= |log| {
      var m :| m in ms && m.seqNo != PENDING_SEQ && m.seqNo == n;
      var i :| 0 <= i < |log| && log[i] == m;
    }
  }
}
