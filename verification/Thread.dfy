/**
 A thread on the client: server messages sorted by seq, then messages still being sent. Applying a
 server message replaces the entry with its id or client id, or appends it, and sorts again.
 */
module Thread {
  import opened ChatTypes

  type Entries = seq<LocalMessage>

  predicate Matches(e: LocalMessage, m: LocalMessage) {
    e.id == m.id || e.clientId == m.clientId
  }

  /** findIndex, with the length for "not found". */
  function IndexOf(t: Entries, m: LocalMessage): (i: nat)
    ensures i <= |t|
    ensures i < |t| ==> Matches(t[i], m)
    ensures forall j | 0 <= j < i :: !Matches(t[j], m)
  {
    if t == [] || Matches(t[0], m) then 0 else 1 + IndexOf(t[1..], m)
  }

  /** One step of a stable insertion: after every entry whose seq is no greater. */
  function InsertBySeq(t: Entries, m: LocalMessage): Entries {
    if t == [] || t[|t| - 1].seqNo <= m.seqNo then t + [m]
    else InsertBySeq(t[..|t| - 1], m) + [t[|t| - 1]]
  }

  /** Array.prototype.sort by seq, which is stable. */
  function SortBySeq(t: Entries): Entries {
    if t == [] then [] else InsertBySeq(SortBySeq(t[..|t| - 1]), t[|t| - 1])
  }

  /** The thread part of applyIncomingMessage. */
  function ApplyIncoming(t: Entries, m: LocalMessage): Entries {
    var at := IndexOf(t, m);
    SortBySeq(if at < |t| then t[at := m] else t + [m])
  }

  function ApplyAll(t: Entries, ms: seq<LocalMessage>): Entries {
    if ms == [] then t else ApplyIncoming(ApplyAll(t, ms[..|ms| - 1]), ms[|ms| - 1])
  }

  function NewestRealSeq(t: Entries): (n: nat)
    ensures forall e | e in t && e.seqNo != PENDING_SEQ :: e.seqNo <= n
    ensures n == 0 || exists e :: e in t && e.seqNo != PENDING_SEQ && e.seqNo == n
  {
    if t == [] then 0
    else
      var rest := NewestRealSeq(t[..|t| - 1]);
      var e := t[|t| - 1];
      assert t == t[..|t| - 1] + [e];
      if e.seqNo == PENDING_SEQ || e.seqNo <= rest then rest else e.seqNo
  }

  // ---------- sorting ----------

  ghost predicate Sorted(t: Entries) {
    forall i, j | 0 <= i < j < |t| :: t[i].seqNo <= t[j].seqNo
  }

  lemma {:induction false} InsertSorts(t: Entries, m: LocalMessage)
    requires Sorted(t)
    ensures Sorted(InsertBySeq(t, m)) && |InsertBySeq(t, m)| == |t| + 1
    ensures forall e :: e in InsertBySeq(t, m) <==> e == m || e in t
  {
    if t != [] && t[|t| - 1].seqNo > m.seqNo {
      var front, last := t[..|t| - 1], t[|t| - 1];
      InsertSorts(front, m);
      assert t == front + [last];
      forall e | e in InsertBySeq(front, m)
        ensures e.seqNo <= last.seqNo
      {
      }
    }
  }

  lemma {:induction false} SortSorts(t: Entries)
    ensures Sorted(SortBySeq(t)) && |SortBySeq(t)| == |t|
    ensures forall e :: e in SortBySeq(t) <==> e in t
  {
    if t != [] {
      var front, last := t[..|t| - 1], t[|t| - 1];
      assert t == front + [last];
      SortSorts(front);
      InsertSorts(SortBySeq(front), last);
    }
  }

  /** No shared id, client id or server seq. */
  predicate Apart(a: LocalMessage, b: LocalMessage) {
    a.id != b.id && a.clientId != b.clientId && (a.seqNo == b.seqNo ==> a.seqNo == PENDING_SEQ)
  }

  ghost predicate AllApart(t: Entries) {
    forall i, j | 0 <= i < j < |t| :: Apart(t[i], t[j])
  }

  lemma {:induction false} InsertKeepsApart(t: Entries, m: LocalMessage)
    requires AllApart(t) && forall e | e in t :: Apart(e, m)
    ensures AllApart(InsertBySeq(t, m))
    ensures forall e :: e in InsertBySeq(t, m) <==> e == m || e in t
  {
    if t != [] && t[|t| - 1].seqNo > m.seqNo {
      var front, last := t[..|t| - 1], t[|t| - 1];
      assert t == front + [last];
      InsertKeepsApart(front, m);
      forall e | e in InsertBySeq(front, m)
        ensures Apart(e, last)
      {
        if e == m {
          assert last in t;
        } else {
          var i :| 0 <= i < |front| && front[i] == e;
          assert Apart(t[i], t[|t| - 1]);
        }
      }
    }
  }

  lemma {:induction false} SortKeepsApart(t: Entries)
    requires AllApart(t)
    ensures AllApart(SortBySeq(t))
  {
    if t != [] {
      var front, last := t[..|t| - 1], t[|t| - 1];
      SortKeepsApart(front);
      SortSorts(front);
      InsertKeepsApart(SortBySeq(front), last);
    }
  }

  // ---------- the two halves of a thread ----------

  function Reals(t: Entries): Entries {
    if t == [] then []
    else if t[|t| - 1].seqNo != PENDING_SEQ then Reals(t[..|t| - 1]) + [t[|t| - 1]]
    else Reals(t[..|t| - 1])
  }

  function Pendings(t: Entries): Entries {
    if t == [] then []
    else if t[|t| - 1].seqNo == PENDING_SEQ then Pendings(t[..|t| - 1]) + [t[|t| - 1]]
    else Pendings(t[..|t| - 1])
  }

  lemma {:induction false} HalvesElements(t: Entries)
    ensures forall e :: e in Reals(t) <==> e in t && e.seqNo != PENDING_SEQ
    ensures forall e :: e in Pendings(t) <==> e in t && e.seqNo == PENDING_SEQ
  {
    if t != [] {
      assert t == t[..|t| - 1] + [t[|t| - 1]];
      HalvesElements(t[..|t| - 1]);
    }
  }

  lemma PendingsOfAppend(t: Entries, m: LocalMessage)
    ensures Pendings(t + [m]) == if m.seqNo == PENDING_SEQ then Pendings(t) + [m] else Pendings(t)
  {
    assert (t + [m])[..|t|] == t;
  }

  lemma {:induction false} InsertIsStable(t: Entries, m: LocalMessage)
    requires forall e | e in t :: e.seqNo <= PENDING_SEQ
    requires m.seqNo <= PENDING_SEQ
    ensures Pendings(InsertBySeq(t, m)) == if m.seqNo == PENDING_SEQ then Pendings(t) + [m] else Pendings(t)
  {
    if t == [] || t[|t| - 1].seqNo <= m.seqNo {
      PendingsOfAppend(t, m);
    } else {
      var front, last := t[..|t| - 1], t[|t| - 1];
      InsertIsStable(front, m);
      assert t == front + [last] && last in t;
      PendingsOfAppend(InsertBySeq(front, m), last);
    }
  }

  lemma {:induction false} SortIsStable(t: Entries)
    requires forall e | e in t :: e.seqNo <= PENDING_SEQ
    ensures Pendings(SortBySeq(t)) == Pendings(t)
  {
    if t != [] {
      var front, last := t[..|t| - 1], t[|t| - 1];
      assert t == front + [last];
      SortIsStable(front);
      SortSorts(front);
      InsertIsStable(SortBySeq(front), last);
    }
  }

  lemma NoPendingBelow(t: Entries, n: nat)
    requires n < PENDING_SEQ && forall e | e in t :: e.seqNo <= n
    ensures Pendings(t) == []
  {
    HalvesElements(t);
    if Pendings(t) != [] {
      assert Pendings(t)[0] in Pendings(t);
    }
  }

  lemma HalvesOfAppend(front: Entries, last: LocalMessage)
    requires front == Reals(front) + Pendings(front)
    requires last.seqNo != PENDING_SEQ ==> Pendings(front) == []
    ensures front + [last] == Reals(front + [last]) + Pendings(front + [last])
  {
    var t := front + [last];
    assert t[..|t| - 1] == front;
    if last.seqNo == PENDING_SEQ {
      assert Reals(front) + (Pendings(front) + [last]) == (Reals(front) + Pendings(front)) + [last];
    }
  }

  /** A sorted thread is its server messages followed by its pending ones. */
  lemma {:induction false} SortedSplits(t: Entries)
    requires Sorted(t) && forall e | e in t :: e.seqNo <= PENDING_SEQ
    ensures t == Reals(t) + Pendings(t)
  {
    if t != [] {
      var front, last := t[..|t| - 1], t[|t| - 1];
      SortedSplits(front);
      if last.seqNo != PENDING_SEQ {
        NoPendingBelow(front, last.seqNo);
      }
      HalvesOfAppend(front, last);
    }
  }

  ghost predicate Ascending(t: Entries) {
    forall i, j | 0 <= i < j < |t| :: t[i].seqNo < t[j].seqNo
  }

  lemma {:induction false} RealsAscend(t: Entries)
    requires Sorted(t) && AllApart(t)
    ensures Ascending(Reals(t))
  {
    if t != [] {
      var front, last := t[..|t| - 1], t[|t| - 1];
      RealsAscend(front);
      HalvesElements(front);
      if last.seqNo != PENDING_SEQ {
        forall e | e in Reals(front)
          ensures e.seqNo < last.seqNo
        {
          var i :| 0 <= i < |front| && front[i] == e;
          assert Apart(t[i], t[|t| - 1]);
        }
      }
    }
  }

  lemma HasFirst(a: Entries)
    ensures a == [] || a[0] in a
  {
  }

  lemma FrontOf(a: Entries, e: LocalMessage)
    requires Ascending(a) && a != []
    ensures e in a[..|a| - 1] <==> e in a && e != a[|a| - 1]
  {
    var front, last := a[..|a| - 1], a[|a| - 1];
    assert a == front + [last];
    if e in front {
      var i :| 0 <= i < |front| && front[i] == e;
      assert a[i].seqNo < last.seqNo;
    }
  }

  /** A strictly ascending list is determined by its elements. */
  lemma {:induction false} AscendingIsUnique(a: Entries, b: Entries)
    requires Ascending(a) && Ascending(b) && forall e :: e in a <==> e in b
    ensures a == b
  {
    if a == [] {
      HasFirst(b);
    } else {
      assert a[0] in b;
      var x, y := a[|a| - 1], b[|b| - 1];
      assert x in b && y in a;
      assert x.seqNo <= y.seqNo && y.seqNo <= x.seqNo;
      assert x == y;
      var a', b' := a[..|a| - 1], b[..|b| - 1];
      forall e | e in a'
        ensures e in b'
      {
        FrontOf(a, e);
        FrontOf(b, e);
      }
      forall e | e in b'
        ensures e in a'
      {
        FrontOf(a, e);
        FrontOf(b, e);
      }
      AscendingIsUnique(a', b');
      assert a == a' + [x] && b == b' + [x];
    }
  }
}
