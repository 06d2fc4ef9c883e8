/**
 Reading a conversation by pages: the server's query, backward paging from the newest page, and
 gap recovery after a reconnect.
 */
module Paging {
  import opened Wrappers
  import opened Collections
  import opened ChatTypes
  import opened Thread
  import opened Merge

  const MAX_PAGE_SIZE := 100
  const CLIENT_PAGE_SIZE := 50

  datatype Page = Page(items: Entries, hasMore: bool)

  /** A conversation's rows in seq order, as the log invariant guarantees them, serialised. */
  ghost predicate LogShape(log: Entries) {
    && |log| < PENDING_SEQ
    && (forall i | 0 <= i < |log| :: log[i].seqNo == i + 1 && FromServer(log[i]))
    && (forall i, j | 0 <= i < |log| && 0 <= j < |log| && Matches(log[i], log[j]) :: i == j)
  }

  function Monus(a: nat, b: nat): nat {
    if a < b then 0 else a - b
  }

  function Take(rows: Entries, n: nat): Entries {
    rows[..Min(n, |rows|)]
  }

  function Reverse(rows: Entries): (r: Entries)
    ensures |r| == |rows|
    ensures forall i | 0 <= i < |rows| :: r[i] == rows[|rows| - 1 - i]
  {
    if rows == [] then [] else Reverse(rows[1..]) + [rows[0]]
  }

  /** WHERE seq > n */
  function Above(log: Entries, n: nat): Entries {
    if log == [] then []
    else if log[0].seqNo > n then [log[0]] + Above(log[1..], n)
    else Above(log[1..], n)
  }

  /** WHERE seq < n */
  function Below(log: Entries, n: nat): Entries {
    if log == [] then []
    else if log[0].seqNo < n then [log[0]] + Below(log[1..], n)
    else Below(log[1..], n)
  }

  /** list_for_conversation over the rows in seq order: one row more than the page tells whether
      there are more, and a page that is not after a seq is read from its end and turned round. */
  function ListPage(log: Entries, before: Option<nat>, after: Option<nat>, limit: nat): Page {
    var size := Min(limit, MAX_PAGE_SIZE);
    if after.Some? then
      var rows := Take(Above(log, after.value), size + 1);
      Page(Take(rows, size), |rows| > size)
    else
      PageFromEnd(if before.Some? then Below(log, before.value) else log, size)
  }

  /** ORDER BY seq DESC LIMIT size + 1, then the page turned round. */
  function PageFromEnd(matching: Entries, size: nat): Page {
    var rows := Take(Reverse(matching), size + 1);
    Page(Reverse(Take(rows, size)), |rows| > size)
  }

  // ---------- what a page holds ----------

  lemma DropOne(log: Entries, from: nat)
    requires from < |log|
    ensures log[from..][0] == log[from] && log[from..][1..] == log[from + 1..]
    ensures log[from..] == [log[from]] + log[from + 1..]
  {
  }

  lemma AboveFrom(log: Entries, n: nat, from: nat)
    requires from < |log|
    ensures Above(log[from..], n) ==
            if log[from].seqNo > n then [log[from]] + Above(log[from + 1..], n) else Above(log[from + 1..], n)
  {
    DropOne(log, from);
  }

  lemma BelowFrom(log: Entries, n: nat, from: nat)
    requires from < |log|
    ensures Below(log[from..], n) ==
            if log[from].seqNo < n then [log[from]] + Below(log[from + 1..], n) else Below(log[from + 1..], n)
  {
    DropOne(log, from);
  }

  ghost predicate Numbered(log: Entries) {
    forall i | 0 <= i < |log| :: log[i].seqNo == i + 1
  }

  lemma {:induction false} AboveIsSuffix(log: Entries, n: nat, from: nat)
    requires from <= |log| && Numbered(log)
    ensures Above(log[from..], n) == log[Min(|log|, if from < n then n else from)..]
    decreases |log| - from
  {
    if from == |log| {
      assert log[from..] == [];
    } else {
      AboveFrom(log, n, from);
      AboveIsSuffix(log, n, from + 1);
      assert log[from].seqNo == from + 1;
      if from >= n {
        DropOne(log, from);
      }
    }
  }

  lemma {:induction false} BelowIsPrefix(log: Entries, n: nat, from: nat)
    requires from <= |log| && Numbered(log)
    ensures Below(log[from..], n) == if from < Min(|log|, Monus(n, 1)) then log[from..Min(|log|, Monus(n, 1))] else []
    decreases |log| - from
  {
    if from == |log| {
      assert log[from..] == [];
    } else {
      BelowFrom(log, n, from);
      BelowIsPrefix(log, n, from + 1);
    }
  }

  lemma SliceOfSuffix(log: Entries, from: nat, limit: nat)
    requires from <= |log|
    ensures log[from..][..Min(limit, |log| - from)] == log[from..Min(|log|, from + limit)]
  {
  }

  /** LIMIT limit + 1, then the first limit of those. */
  lemma TakeOfTake(rows: Entries, limit: nat)
    ensures Take(Take(rows, limit + 1), limit) == rows[..Min(limit, |rows|)]
    ensures |Take(rows, limit + 1)| > limit <==> |rows| > limit
  {
  }

  /** The page after a seq: the next stretch of the log, of a hundred messages at most. */
  lemma PageAfter(log: Entries, after: nat, limit: nat)
    requires LogShape(log)
    ensures var page, size := ListPage(log, None, Some(after), limit), Min(limit, 100);
      && page.items == log[Min(|log|, after)..Min(|log|, after + size)]
      && (page.hasMore <==> |log| > after + size)
  {
    var from := Min(|log|, after);
    AboveAll(log, after);
    TakeOfTake(log[from..], Min(limit, MAX_PAGE_SIZE));
    SliceOfSuffix(log, from, Min(limit, MAX_PAGE_SIZE));
  }

  /** The rows after a seq. */
  lemma AboveAll(log: Entries, after: nat)
    requires Numbered(log)
    ensures Above(log, after) == log[Min(|log|, after)..]
  {
    AboveIsSuffix(log, after, 0);
    assert log[0..] == log;
  }

  /** The rows before a seq. */
  lemma BelowAll(log: Entries, before: nat)
    requires 1 <= before && Numbered(log)
    ensures Below(log, before) == log[..Min(|log|, before - 1)]
  {
    BelowIsPrefix(log, before, 0);
    assert log[0..] == log;
  }

  /** The page before a seq: the stretch of the log that ends there, of a hundred messages at most. */
  lemma PageBefore(log: Entries, before: nat, limit: nat)
    requires LogShape(log) && 1 <= before
    ensures var page, end, size := ListPage(log, Some(before), None, limit), Min(|log|, before - 1), Min(limit, 100);
      && page.items == log[Monus(end, size)..end]
      && (page.hasMore <==> end > size)
  {
    var end, size := Min(|log|, before - 1), Min(limit, MAX_PAGE_SIZE);
    BelowAll(log, before);
    LastPage(log[..end], size);
    assert log[..end][Monus(end, size)..] == log[Monus(end, size)..end];
  }

  /** The newest page. */
  lemma PageNewest(log: Entries, limit: nat)
    ensures var page, size := ListPage(log, None, None, limit), Min(limit, 100);
      && page.items == log[Monus(|log|, size)..]
      && (page.hasMore <==> |log| > size)
  {
    LastPage(log, Min(limit, MAX_PAGE_SIZE));
  }

  lemma LastPage(rows: Entries, limit: nat)
    ensures PageFromEnd(rows, limit) == Page(rows[Monus(|rows|, limit)..], |rows| > limit)
  {
    var shown := Take(Reverse(rows), limit + 1);
    assert Take(shown, limit) == Take(Reverse(rows), limit);
    assert Reverse(Take(shown, limit)) == rows[Monus(|rows|, limit)..];
  }

  // ---------- opening a thread and paging back ----------

  datatype View = View(messages: Entries, hasMore: bool)

  /** openConversation on a thread not loaded yet. */
  function OpenThread(log: Entries): View {
    var page := ListPage(log, None, None, CLIENT_PAGE_SIZE);
    View(page.items, page.hasMore)
  }

  /** loadOlder, with no store change while it waits for the page. */
  function LoadOlder(log: Entries, v: View): View {
    if !v.hasMore || v.messages == [] then v
    else
      var page := ListPage(log, Some(v.messages[0].seqNo), None, CLIENT_PAGE_SIZE);
      View(page.items + v.messages, page.hasMore)
  }

  function LoadOlderTimes(log: Entries, v: View, times: nat): View {
    if times == 0 then v else LoadOlder(log, LoadOlderTimes(log, v, times - 1))
  }

  /** The log from some seq on, then whatever arrived or was composed since. */
  ghost predicate Tiles(v: View, log: Entries, lo: nat, since: Entries) {
    && lo <= |log| && v.messages == log[lo..] + since
    && (v.hasMore <==> lo > 0)
    && (lo > 0 ==> lo < |log|)
  }

  lemma SlicesJoin(log: Entries, lo': nat, lo: nat, since: Entries)
    requires lo' <= lo <= |log|
    ensures log[lo'..lo] + (log[lo..] + since) == log[lo'..] + since
  {
    assert log[lo'..lo] + log[lo..] == log[lo'..];
    assert log[lo'..lo] + (log[lo..] + since) == (log[lo'..lo] + log[lo..]) + since;
  }

  lemma LoadOlderTiles(log: Entries, v: View, lo: nat, since: Entries)
    requires LogShape(log) && Tiles(v, log, lo, since)
    ensures Tiles(LoadOlder(log, v), log, Monus(lo, CLIENT_PAGE_SIZE), since)
  {
    if v.hasMore {
      assert v.messages[0] == log[lo];
      PageBefore(log, lo + 1, CLIENT_PAGE_SIZE);
      SlicesJoin(log, Monus(lo, CLIENT_PAGE_SIZE), lo, since);
    }
  }

  lemma OpenTiles(log: Entries)
    requires LogShape(log)
    ensures Tiles(OpenThread(log), log, Monus(|log|, CLIENT_PAGE_SIZE), [])
  {
    LastPage(log, CLIENT_PAGE_SIZE);
    assert log[Monus(|log|, CLIENT_PAGE_SIZE)..] + [] == log[Monus(|log|, CLIENT_PAGE_SIZE)..];
  }

  /** Main result: pages read backwards hold every message once, in order, ending at the newest; the
      client stops asking exactly when seq 1 is loaded. */
  lemma {:induction false} BackwardPagingTiles(log: Entries, times: nat)
    requires LogShape(log)
    ensures var v, lo := LoadOlderTimes(log, OpenThread(log), times), Monus(|log|, 50 * (times + 1));
      && v.messages == log[lo..]
      && (v.hasMore <==> lo > 0)
      && (log != [] ==> v.messages != [] && (v.messages[0].seqNo == 1 <==> !v.hasMore))
  {
    PagingInvariant(log, times);
    var lo := Monus(|log|, CLIENT_PAGE_SIZE * (times + 1));
    assert log[lo..] + [] == log[lo..];
  }

  lemma {:induction false} PagingInvariant(log: Entries, times: nat)
    requires LogShape(log)
    ensures Tiles(LoadOlderTimes(log, OpenThread(log), times), log, Monus(|log|, CLIENT_PAGE_SIZE * (times + 1)), [])
  {
    OpenTiles(log);
    if times > 0 {
      PagingInvariant(log, times - 1);
      LoadOlderTiles(log, LoadOlderTimes(log, OpenThread(log), times - 1), Monus(|log|, CLIENT_PAGE_SIZE * times), []);
    }
  }

  // ---------- gap recovery ----------

  /** A server entry comes from the log, perhaps in an older version; a pending entry does not. */
  ghost predicate EntryFromLog(e: LocalMessage, log: Entries) {
    if e.seqNo == PENDING_SEQ then forall i | 0 <= i < |log| :: log[i].id != e.id
    else 1 <= e.seqNo <= |log| && log[e.seqNo - 1].id == e.id && log[e.seqNo - 1].clientId == e.clientId
  }

  ghost predicate FromLog(t: Entries, log: Entries) {
    forall e | e in t :: EntryFromLog(e, log)
  }

  /** A thread as the client keeps it, of a conversation with this log. */
  ghost predicate Tracks(t: Entries, log: Entries) {
    LogShape(log) && FromLog(t, log) && Tidy(t)
  }

  /** The seqs of the server messages held. */
  function Seqs(t: Entries): set<nat> {
    if t == [] then {}
    else if t[|t| - 1].seqNo == PENDING_SEQ then Seqs(t[..|t| - 1])
    else Seqs(t[..|t| - 1]) + {t[|t| - 1].seqNo}
  }

  function Range(lo: nat, hi: nat): (r: set<nat>)
    ensures forall n: nat :: n in r <==> lo <= n <= hi
  {
    if hi < lo then {} else if hi == 0 then {0} else Range(lo, hi - 1) + {hi}
  }

  /** The thread's server messages are exactly seqs lo..hi. */
  predicate Holds(t: Entries, lo: nat, hi: nat) {
    Seqs(t) == Range(lo, hi)
  }

  lemma {:induction false} SeqsElements(t: Entries)
    ensures forall e | e in t && e.seqNo != PENDING_SEQ :: e.seqNo in Seqs(t)
    ensures forall n | n in Seqs(t) :: exists e :: e in t && e.seqNo != PENDING_SEQ && e.seqNo == n
  {
    if t == [] {
    } else {
      var front, last := t[..|t| - 1], t[|t| - 1];
      assert t == front + [last];
      SeqsElements(front);
      forall n | n in Seqs(t)
        ensures exists e :: e in t && e.seqNo != PENDING_SEQ && e.seqNo == n
      {
        if n in Seqs(front) {
          var e :| e in front && e.seqNo != PENDING_SEQ && e.seqNo == n;
          assert e in t;
        } else {
          assert last in t;
        }
      }
    }
  }

  lemma NewestIsMaximum(t: Entries)
    ensures forall n | n in Seqs(t) :: n <= NewestRealSeq(t)
    ensures NewestRealSeq(t) > 0 ==> NewestRealSeq(t) in Seqs(t)
  {
    SeqsElements(t);
  }

  /** The page a recovery that asked after `k` is answered with. */
  function PageAsked(read: Entries, k: nat): Entries {
    ListPage(read, None, Some(k), CLIENT_PAGE_SIZE).items
  }

  /** One conversation's turn in recoverMissedMessages. */
  function Recover(t: Entries, log: Entries): Entries {
    ApplyAll(t, PageAsked(log, NewestRealSeq(t)))
  }

  /** Threads each of which is the last one after a recovery. */
  ghost predicate Recoveries(chain: seq<Entries>, log: Entries) {
    chain != [] && forall j | 0 < j < |chain| :: chain[j] == Recover(chain[j - 1], log)
  }

  /** Some version of a message of the log, as the server sent it. */
  predicate ImageOf(m: LocalMessage, log: Entries) {
    && FromServer(m) && 1 <= m.seqNo <= |log|
    && log[m.seqNo - 1].id == m.id && log[m.seqNo - 1].clientId == m.clientId
  }

  /** Messages of the log, one version of each. */
  ghost predicate ImagesOf(ms: seq<LocalMessage>, log: Entries) {
    (forall m | m in ms :: ImageOf(m, log)) && forall a, b | a in ms && b in ms && a.id == b.id :: a == b
  }

  lemma LogHasImages(log: Entries, ms: seq<LocalMessage>)
    requires LogShape(log) && forall m | m in ms :: m in log
    ensures ImagesOf(ms, log)
  {
    forall m | m in ms ensures ImageOf(m, log) {
      var i :| 0 <= i < |log| && log[i] == m;
    }
    forall a, b | a in ms && b in ms && a.id == b.id ensures a == b {
      var i :| 0 <= i < |log| && log[i] == a;
      var j :| 0 <= j < |log| && log[j] == b;
      assert Matches(log[i], log[j]);
    }
  }

  lemma ImagesAgree(log: Entries, a: LocalMessage, b: LocalMessage)
    requires LogShape(log) && ImageOf(a, log) && b.seqNo != PENDING_SEQ && EntryFromLog(b, log)
    ensures Agree(b, a) && Agree(a, b)
  {
    assert Matches(log[a.seqNo - 1], log[b.seqNo - 1]) ==> a.seqNo == b.seqNo;
  }

  lemma ImagesAreConsistent(t: Entries, log: Entries, ms: seq<LocalMessage>)
    requires Tracks(t, log) && ImagesOf(ms, log)
    ensures Consistent(t, ms)
  {
    forall m | m in ms ensures Joins(t, m) {
      assert ImageOf(m, log);
      forall e | e in t ensures Agree(e, m) {
        assert EntryFromLog(e, log);
        if e.seqNo != PENDING_SEQ {
          ImagesAgree(log, m, e);
        }
      }
    }
    forall a, b | a in ms && b in ms ensures Agree(a, b) && (a.id == b.id ==> a == b) {
      assert ImageOf(a, log) && ImageOf(b, log);
      ImagesAgree(log, a, b);
    }
  }

  lemma MergedTracks(t: Entries, log: Entries, ms: seq<LocalMessage>)
    requires Tracks(t, log) && ImagesOf(ms, log)
    ensures Tracks(ApplyAll(t, ms), log) && Seqs(ApplyAll(t, ms)) == Seqs(t) + Seqs(ms)
  {
    ImagesAreConsistent(t, log, ms);
    ApplyMany(t, ms);
    MergedSeqs(t, ms);
  }

  lemma MergedSeqs(t: Entries, ms: seq<LocalMessage>)
    requires Tidy(t) && Consistent(t, ms)
    ensures Seqs(ApplyAll(t, ms)) == Seqs(t) + Seqs(ms)
  {
    ApplyMany(t, ms);
    SeqsElements(t);
    SeqsElements(ms);
    SeqsElements(ApplyAll(t, ms));
    forall n | n in Seqs(t)
      ensures n in Seqs(ApplyAll(t, ms))
    {
      var e :| e in t && e.seqNo != PENDING_SEQ && e.seqNo == n;
      if exists m :: m in ms && Matches(e, m) {
        var m :| m in ms && Matches(e, m);
        assert Joins(t, m);
        assert Agree(e, m);
        assert m in ApplyAll(t, ms);
      } else {
        assert e in ApplyAll(t, ms);
      }
    }
    forall n | n in Seqs(ms)
      ensures n in Seqs(ApplyAll(t, ms))
    {
      var m :| m in ms && m.seqNo != PENDING_SEQ && m.seqNo == n;
      assert m in ApplyAll(t, ms);
    }
  }

  lemma SliceSnoc(log: Entries, from: nat, to: nat)
    requires from < to <= |log|
    ensures log[from..to] == log[from..to - 1] + [log[to - 1]]
  {
  }

  lemma {:induction false} SliceSeqs(log: Entries, from: nat, to: nat)
    requires LogShape(log) && from <= to <= |log|
    ensures Seqs(log[from..to]) == Range(from + 1, to)
    ensures forall m | m in log[from..to] :: m in log
  {
    if from == to {
      assert Range(from + 1, to) == {};
    } else {
      SliceSeqs(log, from, to - 1);
      SliceSnoc(log, from, to);
      assert Range(from + 1, to) == Range(from + 1, to - 1) + {to};
    }
  }

  lemma PageHolds(read: Entries, k: nat)
    requires LogShape(read)
    ensures ImagesOf(PageAsked(read, k), read)
    ensures Seqs(PageAsked(read, k)) == Range(k + 1, Min(|read|, k + CLIENT_PAGE_SIZE))
  {
    var from, to := Min(|read|, k), Min(|read|, k + CLIENT_PAGE_SIZE);
    PageAfter(read, k, CLIENT_PAGE_SIZE);
    SliceSeqs(read, from, to);
    LogHasImages(read, PageAsked(read, k));
  }

  /** `r` holds what `t` holds and the page after `t`'s newest seq, of a log of `n` messages. */
  predicate AddsPage(t: Entries, r: Entries, n: nat) {
    var k := NewestRealSeq(t);
    k <= n && Seqs(r) == Seqs(t) + Range(k + 1, Min(n, k + CLIENT_PAGE_SIZE))
  }

  /** What one recovery adds: the next fifty after the newest seq held when it asked. */
  lemma RecoverAdds(t: Entries, log: Entries)
    requires Tracks(t, log)
    ensures Tracks(Recover(t, log), log) && AddsPage(t, Recover(t, log), |log|)
    ensures Seqs(Recover(t, log)) == Seqs(t) + Range(NewestRealSeq(t) + 1, Min(|log|, NewestRealSeq(t) + 50))
  {
    NewestInLog(t, log);
    PageHolds(log, NewestRealSeq(t));
    MergedTracks(t, log, PageAsked(log, NewestRealSeq(t)));
  }

  lemma NewestInLog(t: Entries, log: Entries)
    requires FromLog(t, log)
    ensures NewestRealSeq(t) <= |log|
  {
    if NewestRealSeq(t) > 0 {
      var e :| e in t && e.seqNo != PENDING_SEQ && e.seqNo == NewestRealSeq(t);
      assert EntryFromLog(e, log);
    }
  }

  lemma ContiguousPage(t: Entries, r: Entries, n: nat, lo: nat, k: nat)
    requires AddsPage(t, r, n) && 1 <= lo <= k && Holds(t, lo, k)
    ensures k <= n && Holds(r, lo, Min(n, k + CLIENT_PAGE_SIZE))
  {
    NewestIsMaximum(t);
    assert k in Range(lo, k);
    assert NewestRealSeq(t) == k;
  }

  lemma {:induction false} RecoveriesTrack(chain: seq<Entries>, log: Entries, i: nat)
    requires Recoveries(chain, log) && Tracks(chain[0], log) && i < |chain|
    ensures Tracks(chain[i], log)
    ensures i > 0 ==> AddsPage(chain[i - 1], chain[i], |log|)
  {
    if i > 0 {
      RecoveriesTrack(chain, log, i - 1);
      RecoverAdds(chain[i - 1], log);
    }
  }

  /** Each thread of the chain is the last one with a page added. */
  ghost predicate Chain(chain: seq<Entries>, n: nat) {
    chain != [] && forall j | 0 < j < |chain| :: AddsPage(chain[j - 1], chain[j], n)
  }

  lemma RecoveriesChain(chain: seq<Entries>, log: Entries)
    requires Recoveries(chain, log) && Tracks(chain[0], log)
    ensures Chain(chain, |log|)
  {
    forall j | 0 < j < |chain|
      ensures AddsPage(chain[j - 1], chain[j], |log|)
    {
      RecoveriesTrack(chain, log, j);
    }
  }

  lemma {:induction false} ChainExtends(chain: seq<Entries>, n: nat, lo: nat, k: nat, i: nat)
    requires Chain(chain, n) && i < |chain| && 1 <= lo <= k <= n && Holds(chain[0], lo, k)
    ensures Holds(chain[i], lo, Min(n, k + CLIENT_PAGE_SIZE * i))
  {
    if i > 0 {
      ChainExtends(chain, n, lo, k, i - 1);
      assert AddsPage(chain[i - 1], chain[i], n);
      ContiguousPage(chain[i - 1], chain[i], n, lo, Min(n, k + CLIENT_PAGE_SIZE * (i - 1)));
    }
  }

  /** Contiguity: `i` recoveries take lo..k to lo..min(n, k + 50 * i). */
  lemma RecoveriesExtend(chain: seq<Entries>, log: Entries, lo: nat, k: nat, i: nat)
    requires Recoveries(chain, log) && Tracks(chain[0], log) && i < |chain|
    requires 1 <= lo <= k <= |log| && Holds(chain[0], lo, k)
    ensures Holds(chain[i], lo, Min(|log|, k + CLIENT_PAGE_SIZE * i))
  {
    RecoveriesChain(chain, log);
    ChainExtends(chain, |log|, lo, k, i);
  }

  /** The end of the log is reached in ceil((n - k) / 50) recoveries. */
  lemma RecoveriesReachEnd(chain: seq<Entries>, log: Entries, lo: nat, k: nat)
    requires Recoveries(chain, log) && Tracks(chain[0], log) && 1 <= lo <= k <= |log| && Holds(chain[0], lo, k)
    requires |chain| > (|log| - k + CLIENT_PAGE_SIZE - 1) / CLIENT_PAGE_SIZE
    ensures Holds(chain[(|log| - k + CLIENT_PAGE_SIZE - 1) / CLIENT_PAGE_SIZE], lo, |log|)
  {
    RecoveriesExtend(chain, log, lo, k, (|log| - k + CLIENT_PAGE_SIZE - 1) / CLIENT_PAGE_SIZE);
  }

  lemma ClosedMeansNoHole(t: Entries, r: Entries, n: nat, lo: nat)
    requires AddsPage(t, r, n) && Holds(r, lo, n) && 1 <= lo
    requires lo in Seqs(t) || (Seqs(t) == {} && lo == 1)
    ensures Holds(t, lo, NewestRealSeq(t)) && n - NewestRealSeq(t) <= CLIENT_PAGE_SIZE
  {
    var k := NewestRealSeq(t);
    NewestIsMaximum(t);
    forall i | i in Range(lo, k)
      ensures i in Seqs(t)
    {
      assert i in Seqs(r);
    }
    forall i | i in Seqs(t)
      ensures i in Range(lo, k)
    {
      assert i in Seqs(r);
    }
    assert n >= lo ==> n in Seqs(r);
  }

  /** Exactly when a recovery with nothing arriving beside it closes the gap: the thread had no hole below its
      newest seq, and at most a page was missing. A thread with no server message yet counts from 1. */
  lemma RecoveryClosesGapExactly(t: Entries, log: Entries, lo: nat)
    requires Tracks(t, log) && 1 <= lo && (lo in Seqs(t) || (Seqs(t) == {} && lo == 1))
    ensures Holds(Recover(t, log), lo, |log|)
            <==> Holds(t, lo, NewestRealSeq(t)) && |log| - NewestRealSeq(t) <= CLIENT_PAGE_SIZE
  {
    RecoverAdds(t, log);
    NewestIsMaximum(t);
    if Holds(Recover(t, log), lo, |log|) {
      ClosedMeansNoHole(t, Recover(t, log), |log|, lo);
    }
    if Holds(t, lo, NewestRealSeq(t)) && |log| - NewestRealSeq(t) <= CLIENT_PAGE_SIZE {
      assert lo <= NewestRealSeq(t) + 1;
    }
  }

  /** Pushes of messages on the page, arriving between the request and its application or mixed into
      it, do not change the result. */
  lemma PushesDuringRecovery(t: Entries, log: Entries, arrivals: seq<LocalMessage>)
    requires Tracks(t, log)
    requires forall m :: m in arrivals <==> m in PageAsked(log, NewestRealSeq(t))
    ensures ApplyAll(t, arrivals) == Recover(t, log)
  {
    var page := PageAsked(log, NewestRealSeq(t));
    PageIsFromLog(t, log);
    SameMessagesSameThread(t, log, arrivals, page);
  }

  lemma PageIsFromLog(t: Entries, log: Entries)
    requires LogShape(log) && FromLog(t, log)
    ensures forall m | m in PageAsked(log, NewestRealSeq(t)) :: m in log
  {
    var k := NewestRealSeq(t);
    PageAfter(log, k, CLIENT_PAGE_SIZE);
  }

  lemma SameMessagesSameThread(t: Entries, log: Entries, ms: seq<LocalMessage>, ns: seq<LocalMessage>)
    requires Tracks(t, log) && (forall m | m in ns :: m in log) && forall m :: m in ms <==> m in ns
    ensures ApplyAll(t, ms) == ApplyAll(t, ns)
  {
    LogHasImages(log, ms);
    LogHasImages(log, ns);
    ImagesAreConsistent(t, log, ms);
    ImagesAreConsistent(t, log, ns);
    MergeIsConfluent(t, ms, ns);
  }
}
