/**
 Applying server messages to a thread is confluent: order and repetition do not matter. The result
 holds the messages applied, the older server entries they do not replace, and the pending entries
 they do not answer, in a fixed order.
 */
module Merge {
  import opened ChatTypes
  import opened Thread

  /** A message as the server sends it. */
  predicate FromServer(m: LocalMessage) {
    m.seqNo < PENDING_SEQ && !m.pending && !m.failed
  }

  /** Id, client id and seq determine each other; a pending entry shares at most the client id. */
  predicate Agree(a: LocalMessage, b: LocalMessage) {
    if a.seqNo != PENDING_SEQ && b.seqNo != PENDING_SEQ
    then (a.id == b.id <==> a.clientId == b.clientId) && (a.id == b.id <==> a.seqNo == b.seqNo)
    else a.id != b.id
  }

  /** Sorted, duplicate-free, with pending entries last. */
  ghost predicate Tidy(t: Entries) {
    Sorted(t) && AllApart(t) && forall e | e in t :: e.seqNo <= PENDING_SEQ
  }

  ghost predicate Joins(t: Entries, m: LocalMessage) {
    FromServer(m) && forall e | e in t :: Agree(e, m)
  }

  /** Pending entries that `m` does not answer. */
  function Without(t: Entries, m: LocalMessage): Entries {
    if t == [] then []
    else if t[|t| - 1].clientId != m.clientId then Without(t[..|t| - 1], m) + [t[|t| - 1]]
    else Without(t[..|t| - 1], m)
  }

  // ---------- one application ----------

  lemma MatchIsUnique(t: Entries, m: LocalMessage)
    requires AllApart(t) && Joins(t, m)
    ensures forall j | 0 <= j < |t| && j != IndexOf(t, m) :: !Matches(t[j], m)
  {
    var at := IndexOf(t, m);
    if at < |t| {
      forall j | 0 <= j < |t| && j != at
        ensures !Matches(t[j], m)
      {
        assert t[at] in t && t[j] in t;
        assert Agree(t[at], m) && Agree(t[j], m);
        if at < j {
          assert Apart(t[at], t[j]);
        } else {
          assert Apart(t[j], t[at]);
        }
      }
    }
  }

  /** The array before sorting. */
  function Placed(t: Entries, m: LocalMessage): Entries {
    var at := IndexOf(t, m);
    if at < |t| then t[at := m] else t + [m]
  }

  lemma PlacedElements(t: Entries, m: LocalMessage)
    requires AllApart(t) && Joins(t, m)
    ensures forall e :: e in Placed(t, m) <==> e == m || (e in t && !Matches(e, m))
  {
    MatchIsUnique(t, m);
    var at, p := IndexOf(t, m), Placed(t, m);
    if at < |t| {
      assert p[at] == m;
      forall e | e in t && !Matches(e, m)
        ensures e in p
      {
        var j :| 0 <= j < |t| && t[j] == e;
        assert p[j] == e;
      }
    }
  }

  lemma PlacedApart(t: Entries, m: LocalMessage)
    requires AllApart(t) && Joins(t, m)
    ensures AllApart(Placed(t, m))
  {
    MatchIsUnique(t, m);
    var at, p := IndexOf(t, m), Placed(t, m);
    forall i, j | 0 <= i < j < |p|
      ensures Apart(p[i], p[j])
    {
      if i == at {
        assert t[j] in t;
      } else if j == at {
        assert t[i] in t;
      } else {
        assert Apart(t[i], t[j]);
      }
    }
  }

  lemma {:induction false} WithoutNone(t: Entries, m: LocalMessage)
    requires forall e | e in t :: e.clientId != m.clientId
    ensures Without(t, m) == t
  {
    if t != [] {
      assert t == t[..|t| - 1] + [t[|t| - 1]] && t[|t| - 1] in t;
      WithoutNone(t[..|t| - 1], m);
    }
  }

  lemma {:induction false} PlacedPendings(t: Entries, m: LocalMessage, at: nat)
    requires FromServer(m) && at < |t| && t[at].clientId == m.clientId
    requires forall j | 0 <= j < |t| && j != at :: t[j].clientId != m.clientId
    ensures Pendings(t[at := m]) == Without(Pendings(t), m)
  {
    var front, last := t[..|t| - 1], t[|t| - 1];
    if at == |t| - 1 {
      assert t[at := m] == front + [m];
      PendingsOfAppend(front, m);
      HalvesElements(front);
      WithoutNone(Pendings(front), m);
    } else {
      PlacedPendings(front, m, at);
      assert t[at := m] == front[at := m] + [last];
      PendingsOfAppend(front[at := m], last);
    }
  }

  lemma PlacedKeepsOrder(t: Entries, m: LocalMessage)
    requires AllApart(t) && Joins(t, m)
    ensures Pendings(Placed(t, m)) == Without(Pendings(t), m)
  {
    MatchIsUnique(t, m);
    var at := IndexOf(t, m);
    if at < |t| {
      assert t[at] in t && Agree(t[at], m);
      assert t[at].clientId == m.clientId;
      PlacedPendings(t, m, at);
    } else {
      PendingsOfAppend(t, m);
      HalvesElements(t);
      WithoutNone(Pendings(t), m);
    }
  }

  /** What one application does to a tidy thread. */
  lemma ApplyOne(t: Entries, m: LocalMessage)
    requires Tidy(t) && Joins(t, m)
    ensures Tidy(ApplyIncoming(t, m))
    ensures forall e :: e in ApplyIncoming(t, m) <==> e == m || (e in t && !Matches(e, m))
    ensures Pendings(ApplyIncoming(t, m)) == Without(Pendings(t), m)
  {
    PlacedElements(t, m);
    PlacedApart(t, m);
    PlacedKeepsOrder(t, m);
    SortSorts(Placed(t, m));
    SortKeepsApart(Placed(t, m));
    SortIsStable(Placed(t, m));
  }

  // ---------- any list of applications ----------

  /** One version of each message, all of them consistent with the thread. */
  ghost predicate Consistent(t: Entries, ms: seq<LocalMessage>) {
    && (forall m | m in ms :: Joins(t, m))
    && (forall a, b | a in ms && b in ms :: Agree(a, b) && (a.id == b.id ==> a == b))
  }

  function WithoutAll(t: Entries, ms: seq<LocalMessage>): Entries {
    if ms == [] then t else Without(WithoutAll(t, ms[..|ms| - 1]), ms[|ms| - 1])
  }

  lemma JoinsAfter(t: Entries, ms: seq<LocalMessage>, m: LocalMessage)
    requires Consistent(t, ms + [m])
    requires forall e | e in ApplyAll(t, ms) :: e in ms || e in t
    ensures Joins(ApplyAll(t, ms), m)
  {
    assert m in ms + [m];
    forall e | e in ApplyAll(t, ms)
      ensures Agree(e, m)
    {
      if e in ms {
        assert e in ms + [m];
      }
    }
  }

  lemma {:induction false} ApplyMany(t: Entries, ms: seq<LocalMessage>)
    requires Tidy(t) && Consistent(t, ms)
    ensures Tidy(ApplyAll(t, ms))
    ensures forall e :: e in ApplyAll(t, ms) <==> e in ms || (e in t && forall m | m in ms :: !Matches(e, m))
    ensures Pendings(ApplyAll(t, ms)) == WithoutAll(Pendings(t), ms)
  {
    if ms != [] {
      var front, m := ms[..|ms| - 1], ms[|ms| - 1];
      assert ms == front + [m];
      forall x | x in front
        ensures x in ms
      {
      }
      ApplyMany(t, front);
      JoinsAfter(t, front, m);
      ApplyOne(ApplyAll(t, front), m);
      forall x | x in front && Matches(x, m)
        ensures x == m
      {
        assert x in ms && m in ms;
        assert Agree(x, m);
        assert Joins(t, x) && Joins(t, m);
      }
    }
  }

  predicate Answered(e: LocalMessage, ms: seq<LocalMessage>) {
    exists m | m in ms :: m.clientId == e.clientId
  }

  /** Deleting answered entries depends on which messages were applied, not on their order. */
  function Unanswered(t: Entries, ms: seq<LocalMessage>): Entries {
    if t == [] then []
    else if Answered(t[|t| - 1], ms) then Unanswered(t[..|t| - 1], ms)
    else Unanswered(t[..|t| - 1], ms) + [t[|t| - 1]]
  }

  lemma {:induction false} UnansweredStep(t: Entries, ms: seq<LocalMessage>, m: LocalMessage)
    ensures Without(Unanswered(t, ms), m) == Unanswered(t, ms + [m])
  {
    if t != [] {
      var front, last := t[..|t| - 1], t[|t| - 1];
      UnansweredStep(front, ms, m);
      assert m in ms + [m];
      forall x | x in ms
        ensures x in ms + [m]
      {
      }
      assert Answered(last, ms + [m]) <==> Answered(last, ms) || last.clientId == m.clientId;
    }
  }

  lemma {:induction false} UnansweredNone(t: Entries)
    ensures Unanswered(t, []) == t
  {
    if t != [] {
      UnansweredNone(t[..|t| - 1]);
    }
  }

  lemma {:induction false} WithoutAllIsUnanswered(t: Entries, ms: seq<LocalMessage>)
    ensures WithoutAll(t, ms) == Unanswered(t, ms)
  {
    if ms == [] {
      UnansweredNone(t);
    } else {
      var front, m := ms[..|ms| - 1], ms[|ms| - 1];
      WithoutAllIsUnanswered(t, front);
      UnansweredStep(t, front, m);
      assert ms == front + [m];
    }
  }

  lemma {:induction false} UnansweredBySet(t: Entries, ms: seq<LocalMessage>, ns: seq<LocalMessage>)
    requires forall m :: m in ms <==> m in ns
    ensures Unanswered(t, ms) == Unanswered(t, ns)
  {
    if t != [] {
      UnansweredBySet(t[..|t| - 1], ms, ns);
    }
  }

  /** Main result: a merged thread in closed form. */
  lemma MergedThread(t: Entries, ms: seq<LocalMessage>)
    requires Tidy(t) && Consistent(t, ms)
    ensures Tidy(ApplyAll(t, ms)) && Ascending(Reals(ApplyAll(t, ms)))
    ensures ApplyAll(t, ms) == Reals(ApplyAll(t, ms)) + Unanswered(Pendings(t), ms)
    ensures forall e :: e in Reals(ApplyAll(t, ms)) <==>
            e in ms || (e in Reals(t) && forall m | m in ms :: e.id != m.id)
  {
    ApplyMany(t, ms);
    SortedSplits(ApplyAll(t, ms));
    RealsAscend(ApplyAll(t, ms));
    WithoutAllIsUnanswered(Pendings(t), ms);
    HalvesElements(t);
    HalvesElements(ApplyAll(t, ms));
    forall e, m | e in Reals(t) && m in ms
      ensures Matches(e, m) <==> e.id == m.id
    {
      assert Joins(t, m);
      assert Agree(e, m);
    }
    forall m | m in ms
      ensures m.seqNo != PENDING_SEQ
    {
      assert Joins(t, m);
    }
  }

  /** Main result: two deliveries of the same messages, in any order and with any repetition, end in
      the same thread. */
  lemma MergeIsConfluent(t: Entries, ms: seq<LocalMessage>, ns: seq<LocalMessage>)
    requires Tidy(t) && Consistent(t, ms) && Consistent(t, ns)
    requires forall m :: m in ms <==> m in ns
    ensures ApplyAll(t, ms) == ApplyAll(t, ns)
  {
    MergedThread(t, ms);
    MergedThread(t, ns);
    UnansweredBySet(Pendings(t), ms, ns);
    AscendingIsUnique(Reals(ApplyAll(t, ms)), Reals(ApplyAll(t, ns)));
  }

  // ---------- the conversation's last_seq ----------

  function LastSeqAfter(lastSeq: nat, ms: seq<LocalMessage>): nat {
    if ms == [] then lastSeq
    else
      var rest := LastSeqAfter(lastSeq, ms[..|ms| - 1]);
      if rest < ms[|ms| - 1].seqNo then ms[|ms| - 1].seqNo else rest
  }

  lemma {:induction false} LastSeqIsMaximum(lastSeq: nat, ms: seq<LocalMessage>)
    ensures LastSeqAfter(lastSeq, ms) >= lastSeq
    ensures forall m | m in ms :: m.seqNo <= LastSeqAfter(lastSeq, ms)
    ensures LastSeqAfter(lastSeq, ms) == lastSeq || exists m :: m in ms && m.seqNo == LastSeqAfter(lastSeq, ms)
  {
    if ms != [] {
      var front, m := ms[..|ms| - 1], ms[|ms| - 1];
      assert ms == front + [m];
      LastSeqIsMaximum(lastSeq, front);
    }
  }
}
