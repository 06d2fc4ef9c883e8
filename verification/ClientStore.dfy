/**
 The chat store and its outbox, as the browser updates them: threads by conversation, and the
 persistent queue of messages not known to be saved.
 */
module ClientStore {
  import opened Wrappers
  import opened Collections
  import opened Database
  import opened ChatTypes
  import opened Thread
  import opened Paging

  /** What the user composed. */
  datatype Draft = Draft(conv: Id, body: string, replyTo: Option<Id>, attachmentIds: seq<Id>)

  datatype Queued = Queued(clientId: Id, draft: Draft)

  function ThreadFor(threads: map<Id, Entries>, c: Id): Entries {
    if c in threads then threads[c] else []
  }

  /** The entry sendMessage shows at once. */
  function Optimistic(clientId: Id, draft: Draft): LocalMessage {
    LocalMessage("pending:" + clientId, PENDING_SEQ, None, Text, Some(draft.body), draft.replyTo, clientId, false, [],
                 draft.attachmentIds, true, false)
  }

  predicate HasClientId(t: Entries, clientId: Id) {
    exists e :: e in t && e.clientId == clientId
  }

  /** messages.find by client id. */
  function Find(t: Entries, clientId: Id): (e: LocalMessage)
    requires HasClientId(t, clientId)
    ensures e in t && e.clientId == clientId
  {
    if t[0].clientId == clientId then t[0] else Find(t[1..], clientId)
  }

  /** What retryMessage sends for an entry: its body, or "" for a deleted message. */
  function DraftOf(e: LocalMessage, c: Id): Draft {
    Draft(c, if e.body.Some? then e.body.value else "", e.replyTo, e.attachments)
  }

  function Flagged(t: Entries, clientId: Id, pending: bool): Entries {
    seq(|t|, i requires 0 <= i < |t| =>
      if t[i].clientId == clientId then t[i].(pending := pending, failed := !pending) else t[i])
  }

  // ---------- retrying and flushing, with the network's answers given ----------

  datatype Store = Store(threads: map<Id, Entries>, outbox: map<Id, Draft>)

  function Shown(s: Store, c: Id, t: Entries): Store {
    s.(threads := s.threads[c := t])
  }

  /** A saved message is shown, then leaves the outbox. */
  function Saved(s: Store, c: Id, clientId: Id, saved: LocalMessage): Store {
    Shown(s, c, ApplyIncoming(ThreadFor(s.threads, c), saved)).(outbox := s.outbox - {clientId})
  }

  /** retryMessage; `answer` is None when the request fails. */
  function Retried(s: Store, c: Id, clientId: Id, answer: Option<LocalMessage>): Store {
    if !HasClientId(ThreadFor(s.threads, c), clientId) then s
    else
      var sending := Shown(s, c, Flagged(ThreadFor(s.threads, c), clientId, true));
      match answer
      case Some(saved) => Saved(sending, c, clientId, saved)
      case None => Shown(sending, c, Flagged(ThreadFor(sending.threads, c), clientId, false))
  }

  /** One turn of flushOutbox, and whether the loop goes on. */
  function FlushTurn(s: Store, q: Queued, answer: Option<LocalMessage>): (Store, bool) {
    if HasClientId(ThreadFor(s.threads, q.draft.conv), q.clientId)
        then (Retried(s, q.draft.conv, q.clientId, answer), true)
    else
      match answer
      case Some(saved) => (Saved(s, q.draft.conv, q.clientId, saved), true)
      case None => (s, false)
  }

  /** flushOutbox over what it read from the queue. */
  function Flushed(s: Store, pending: seq<Queued>, answers: seq<Option<LocalMessage>>): Store
    requires |answers| == |pending|
    decreases |pending|
  {
    if pending == [] then s
    else
      var (next, go) := FlushTurn(s, pending[0], answers[0]);
      if go then Flushed(next, pending[1..], answers[1..]) else next
  }

  /** A message with no positive answer stays queued, wherever the flush stops. */
  lemma {:induction false} FlushKeepsUnanswered(s: Store, pending: seq<Queued>, answers: seq<Option<LocalMessage>>,
      clientId: Id)
    requires |answers| == |pending| && clientId in s.outbox
    requires forall i | 0 <= i < |pending| && pending[i].clientId == clientId :: answers[i].None?
    ensures clientId in Flushed(s, pending, answers).outbox
    ensures Flushed(s, pending, answers).outbox[clientId] == s.outbox[clientId]
    decreases |pending|
  {
    if pending != [] {
      var (next, go) := FlushTurn(s, pending[0], answers[0]);
      assert clientId in next.outbox && next.outbox[clientId] == s.outbox[clientId];
      if go {
        FlushKeepsUnanswered(next, pending[1..], answers[1..], clientId);
      }
    }
  }

  function ClientIds(pending: seq<Queued>): set<Id> {
    set q | q in pending :: q.clientId
  }

  /** When every request is answered, exactly the listed messages leave the queue. */
  lemma {:induction false} FlushEmptiesQueue(s: Store, pending: seq<Queued>, answers: seq<Option<LocalMessage>>)
    requires |answers| == |pending| && forall i | 0 <= i < |answers| :: answers[i].Some?
    ensures Flushed(s, pending, answers).outbox == s.outbox - ClientIds(pending)
    decreases |pending|
  {
    if pending == [] {
      assert ClientIds(pending) == {};
    } else {
      FlushEmptiesQueue(FlushTurn(s, pending[0], answers[0]).0, pending[1..], answers[1..]);
    }
  }

  /** What each loaded thread becomes when its page arrives. */
  function Targets(threads: map<Id, Entries>, logs: map<Id, Entries>): map<Id, Entries> {
    map c | c in threads && threads[c] != [] && c in logs :: Recover(threads[c], logs[c])
  }

  /** The fifty after the newest seq held are added, and the thread still follows the log. */
  ghost predicate GetsPage(t: Entries, t': Entries, log: Entries) {
    && Tracks(t', log)
    && Seqs(t') == Seqs(t) + Range(NewestRealSeq(t) + 1, Min(|log|, NewestRealSeq(t) + 50))
  }

  function Overlaid(threads: map<Id, Entries>, targets: map<Id, Entries>, done: set<Id>): map<Id, Entries> {
    map c | c in threads :: if c in done && c in targets then targets[c] else threads[c]
  }

  lemma OverlaidOneMore(threads: map<Id, Entries>, targets: map<Id, Entries>, done: set<Id>, c: Id)
    requires c in threads && c !in done
    ensures Overlaid(threads, targets, done)[c] == threads[c]
    ensures c in targets ==> Overlaid(threads, targets, done + {c}) == Overlaid(threads, targets, done)[c := targets[c]]
    ensures c !in targets ==> Overlaid(threads, targets, done + {c}) == Overlaid(threads, targets, done)
  {
  }

  /** An applied message is there, and so is everything it does not replace. */
  lemma IncomingIsShown(t: Entries, m: LocalMessage)
    ensures m in ApplyIncoming(t, m)
    ensures forall e | e in t && !Matches(e, m) :: e in ApplyIncoming(t, m)
  {
    var at := IndexOf(t, m);
    var placed := if at < |t| then t[at := m] else t + [m];
    SortSorts(placed);
    assert m in placed by {
      assert placed[at] == m;
    }
    forall e | e in t && !Matches(e, m) ensures e in placed {
      var i :| 0 <= i < |t| && t[i] == e;
      assert placed[i] == e;
    }
  }

  /** What stands in a thread after an application: the message, and entries that were there. */
  lemma IncomingComesFrom(t: Entries, m: LocalMessage)
    ensures forall e | e in ApplyIncoming(t, m) :: e == m || e in t
  {
    var at := IndexOf(t, m);
    var placed := if at < |t| then t[at := m] else t + [m];
    SortSorts(placed);
    forall e | e in placed ensures e == m || e in t {
      var i :| 0 <= i < |placed| && placed[i] == e;
      assert i == at || e == t[i];
    }
  }

  lemma OtherStaysFlagged(t: Entries, clientId: Id, pending: bool, e: LocalMessage)
    requires e in t && e.clientId != clientId
    ensures e in Flagged(t, clientId, pending)
  {
    var i :| 0 <= i < |t| && t[i] == e;
    assert Flagged(t, clientId, pending)[i] == e;
  }

  /** Entries with that client id are marked as failed, all others are what they were, where they were. */
  predicate OnlyMarked(t: Entries, t': Entries, clientId: Id) {
    && |t'| == |t|
    && (forall i | 0 <= i < |t| && t[i].clientId != clientId :: t'[i] == t[i])
    && (forall i | 0 <= i < |t| && t[i].clientId == clientId :: t'[i] == t[i].(pending := false, failed := true))
  }

  lemma FailureMarks(t: Entries, clientId: Id)
    ensures OnlyMarked(t, Flagged(Flagged(t, clientId, true), clientId, false), clientId)
  {
  }

  /** An entry as it was, or one with that client id, marked as being sent. */
  predicate WasThere(t: Entries, clientId: Id, e: LocalMessage) {
    || (e in t && e.clientId != clientId)
    || exists o :: o in t && o.clientId == clientId && e == o.(pending := true, failed := false)
  }

  /** The answer is there, and so is every entry with another id and client id; nothing else comes in. */
  predicate AnswerShown(t: Entries, t': Entries, clientId: Id, answer: LocalMessage) {
    && answer in t'
    && (forall e | e in t && e.clientId != clientId && e.clientId != answer.clientId && e.id != answer.id :: e in t')
    && (forall e | e in t' && e != answer :: WasThere(t, clientId, e))
  }

  lemma AnswerReplaces(t: Entries, clientId: Id, answer: LocalMessage)
    ensures AnswerShown(t, ApplyIncoming(Flagged(t, clientId, true), answer), clientId, answer)
  {
    var sending := Flagged(t, clientId, true);
    IncomingIsShown(sending, answer);
    IncomingComesFrom(sending, answer);
    forall e | e in t && e.clientId != clientId ensures e in sending {
      OtherStaysFlagged(t, clientId, true, e);
    }
    forall e | e in sending ensures WasThere(t, clientId, e) {
      var i :| 0 <= i < |sending| && sending[i] == e;
      assert t[i] in t;
    }
  }

  /** The status shown whoever looks, among whatever members. */
  ghost predicate Shows(m: LocalMessage, status: Status) {
    forall members, viewer :: StatusOf(m, members, viewer) == Some(status)
  }

  /** A tick for its sender, and nothing for anybody else. */
  ghost predicate ShowsTick(m: LocalMessage) {
    forall members, viewer ::
      if m.sender == Some(viewer) then StatusOf(m, members, viewer) in {Some(Sent), Some(Delivered), Some(Read)}
      else StatusOf(m, members, viewer) == None
  }

  lemma SentShowsTick(m: LocalMessage)
    requires !m.pending && !m.failed
    ensures ShowsTick(m)
  {
  }

  lemma FoundInTail(t: Entries, clientId: Id)
    requires t != [] && t[0].clientId != clientId
    ensures HasClientId(t, clientId) <==> HasClientId(t[1..], clientId)
    ensures HasClientId(t, clientId) ==> Find(t, clientId) == Find(t[1..], clientId)
  {
    assert t == [t[0]] + t[1..];
    if HasClientId(t, clientId) {
      var e :| e in t && e.clientId == clientId;
      assert e in t[1..];
    }
    if HasClientId(t[1..], clientId) {
      var e :| e in t[1..] && e.clientId == clientId;
      assert e in t;
    }
  }

  lemma FlaggedTail(t: Entries, clientId: Id, pending: bool)
    requires t != []
    ensures Flagged(t, clientId, pending)[1..] == Flagged(t[1..], clientId, pending)
  {
  }

  /** Flagging changes no client id. */
  lemma {:induction false} FlaggedIsFound(t: Entries, clientId: Id, pending: bool)
    requires HasClientId(t, clientId)
    ensures HasClientId(Flagged(t, clientId, pending), clientId)
    ensures Find(Flagged(t, clientId, pending), clientId) == Find(t, clientId).(pending := pending, failed := !pending)
  {
    var f := Flagged(t, clientId, pending);
    if t[0].clientId == clientId {
      assert f[0] in f;
    } else {
      FoundInTail(t, clientId);
      FlaggedIsFound(t[1..], clientId, pending);
      FlaggedTail(t, clientId, pending);
      FoundInTail(f, clientId);
    }
  }

  /** What a failed retry leaves of a thread. */
  lemma FailureIsShown(t: Entries, clientId: Id)
    requires HasClientId(t, clientId)
    ensures var t' := Flagged(Flagged(t, clientId, true), clientId, false);
      && OnlyMarked(t, t', clientId)
      && HasClientId(t', clientId) && Shows(Find(t', clientId), Status.Failed)
  {
    FlaggedIsFound(t, clientId, true);
    FlaggedIsFound(Flagged(t, clientId, true), clientId, false);
    FailureMarks(t, clientId);
  }

  class ChatStore {
    var threads: map<Id, Entries>
    var outbox: map<Id, Draft>

    function State(): Store
      reads this
    {
      Store(threads, outbox)
    }

    constructor ()
      ensures State() == Store(map[], map[])
    {
      threads, outbox := map[], map[];
    }

    method ApplyIncomingMessage(c: Id, message: LocalMessage)
      modifies this`threads
      ensures State() == Shown(old(State()), c, ApplyIncoming(ThreadFor(old(threads), c), message))
      ensures HasClientId(threads[c], message.clientId) && message in threads[c]
      ensures forall e | e in ThreadFor(old(threads), c) && !Matches(e, message) :: e in threads[c]
      ensures forall d | d != c :: ThreadFor(threads, d) == ThreadFor(old(threads), d)
    {
      IncomingIsShown(ThreadFor(threads, c), message);
      threads := threads[c := ApplyIncoming(ThreadFor(threads, c), message)];
    }

    /** sendMessage up to the first await, then the completed enqueue. */
    method Compose(clientId: Id, draft: Draft)
      modifies this
      ensures State() == Shown(old(State()), draft.conv,
              ThreadFor(old(threads), draft.conv) + [Optimistic(clientId, draft)])
                         .(outbox := old(outbox)[clientId := draft])
      ensures HasClientId(threads[draft.conv], clientId) && ThreadFor(old(threads), draft.conv) < threads[draft.conv]
      ensures var e := threads[draft.conv][|threads[draft.conv]| - 1];
        && |threads[draft.conv]| == |ThreadFor(old(threads), draft.conv)| + 1
        && e.id == "pending:" + clientId && e.clientId == clientId && e.seqNo == 9007199254740991
        && e.sender == None && e.kind == Text && !e.deleted && e.reactions == []
      ensures !HasClientId(ThreadFor(old(threads), draft.conv), clientId) ==>
        && DraftOf(Find(threads[draft.conv], clientId), draft.conv) == outbox[clientId] == draft
        && Shows(Find(threads[draft.conv], clientId), Sending)
      ensures forall d | d != draft.conv :: ThreadFor(threads, d) == ThreadFor(old(threads), d)
    {
      threads := threads[draft.conv := ThreadFor(threads, draft.conv) + [Optimistic(clientId, draft)]];
      outbox := outbox[clientId := draft];
    }

    method RetryMessage(c: Id, clientId: Id, answer: Option<LocalMessage>)
      modifies this
      ensures State() == Retried(old(State()), c, clientId, answer)
      ensures var onScreen := HasClientId(ThreadFor(old(threads), c), clientId);
        && outbox == (if onScreen && answer.Some? then old(outbox) - {clientId} else old(outbox))
        && (onScreen && answer.Some? ==> answer.value in threads[c])
        && (!onScreen ==> threads == old(threads))
      ensures HasClientId(ThreadFor(old(threads), c), clientId) && answer.None? ==>
        && OnlyMarked(old(threads)[c], threads[c], clientId)
        && HasClientId(threads[c], clientId) && Shows(Find(threads[c], clientId), Status.Failed)
      ensures HasClientId(ThreadFor(old(threads), c), clientId) && answer.Some? ==>
        && AnswerShown(old(threads)[c], threads[c], clientId, answer.value)
        && (!answer.value.pending && !answer.value.failed ==> ShowsTick(answer.value))
      ensures forall d | d != c :: ThreadFor(threads, d) == ThreadFor(old(threads), d)
    {
      if !HasClientId(ThreadFor(threads, c), clientId) {
        return;
      }
      threads := threads[c := Flagged(ThreadFor(threads, c), clientId, true)];
      if answer.Some? {
        AnswerReplaces(old(threads)[c], clientId, answer.value);
        if !answer.value.pending && !answer.value.failed {
          SentShowsTick(answer.value);
        }
        ApplyIncomingMessage(c, answer.value);
        outbox := outbox - {clientId};
      } else {
        FailureIsShown(old(threads)[c], clientId);
        threads := threads[c := Flagged(ThreadFor(threads, c), clientId, false)];
      }
    }

    /** One request for each queued message in turn; a failure stops the flush unless the message is on
        screen, where it is marked failed instead. */
    method FlushOutbox(pending: seq<Queued>, answers: seq<Option<LocalMessage>>)
      requires |answers| == |pending|
      modifies this
      ensures State() == Flushed(old(State()), pending, answers)
    {
      var i := 0;
      while i < |pending|
        invariant 0 <= i <= |pending|
        invariant Flushed(old(State()), pending, answers) == Flushed(State(), pending[i..], answers[i..])
      {
        var q, answer := pending[i], answers[i];
        assert pending[i..][1..] == pending[i + 1..] && answers[i..][1..] == answers[i + 1..];
        if HasClientId(ThreadFor(threads, q.draft.conv), q.clientId) {
          RetryMessage(q.draft.conv, q.clientId, answer);
        } else if answer.Some? {
          ApplyIncomingMessage(q.draft.conv, answer.value);
          outbox := outbox - {q.clientId};
        } else {
          break;
        }
        i := i + 1;
      }
    }

    method ApplyPage(c: Id, items: Entries)
      requires c in threads
      modifies this`threads
      ensures threads == old(threads)[c := ApplyAll(old(threads)[c], items)]
    {
      var i := 0;
      while i < |items|
        invariant 0 <= i <= |items|
        invariant threads == old(threads)[c := ApplyAll(old(threads)[c], items[..i])]
      {
        assert items[..i + 1][..i] == items[..i];
        ApplyIncomingMessage(c, items[i]);
        i := i + 1;
      }
      assert items[..i] == items;
    }

    /** One thread's turn: the page after the newest seq it held when the pass began. */
    method RecoverThread(c: Id, after: nat, log: Entries)
      requires c in threads && after == NewestRealSeq(threads[c])
      modifies this`threads
      ensures threads == old(threads)[c := Recover(old(threads)[c], log)]
    {
      var page := ListPage(log, None, Some(after), CLIENT_PAGE_SIZE);
      ApplyPage(c, page.items);
    }

    /** One pass over the loaded threads; `logs` holds what the server would page from, and lacks the
        conversations whose request fails. */
    method RecoverMissedMessages(logs: map<Id, Entries>)
      modifies this`threads
      ensures threads == Overlaid(old(threads), Targets(old(threads), logs), old(threads).Keys)
      ensures threads.Keys == old(threads).Keys
      ensures forall c | c in threads && old(threads)[c] != [] && c in logs ::
                threads[c] == Recover(old(threads)[c], logs[c])
      ensures forall c | c in threads && (old(threads)[c] == [] || c !in logs) :: threads[c] == old(threads)[c]
      ensures forall c | c in threads && old(threads)[c] != [] && c in logs && Tracks(old(threads)[c], logs[c]) ::
                GetsPage(old(threads)[c], threads[c], logs[c])
    {
      forall c | c in threads && c in logs && Tracks(threads[c], logs[c])
        ensures GetsPage(threads[c], Recover(threads[c], logs[c]), logs[c])
      {
        RecoverAdds(threads[c], logs[c]);
      }
      var loaded := threads;
      ghost var before, targets := threads, Targets(threads, logs);
      var rest := set c | c in threads && threads[c] != [];
      ghost var done: set<Id> := before.Keys - rest;
      assert threads == Overlaid(before, targets, done);
      while rest != {}
        invariant rest !! done && rest + done == before.Keys
        invariant forall c | c in rest :: before[c] != []
        invariant threads == Overlaid(before, targets, done)
        decreases rest
      {
        var c :| c in rest;
        OverlaidOneMore(before, targets, done, c);
        if c in logs {
          assert targets[c] == Recover(before[c], logs[c]);
          RecoverThread(c, NewestRealSeq(loaded[c]), logs[c]);
        }
        rest := rest - {c};
        done := done + {c};
      }
      assert done == before.Keys;
    }

    /** loadOlder when nothing else touches the thread while the page is fetched. */
    method LoadOlderMessages(c: Id, hasMore: bool, log: Entries) returns (more: bool)
      modifies this`threads
      ensures var v := LoadOlder(log, View(ThreadFor(old(threads), c), hasMore));
        && more == v.hasMore
        && threads == if hasMore && ThreadFor(old(threads), c) != [] then old(threads)[c := v.messages]
           else old(threads)
    {
      var thread := ThreadFor(threads, c);
      if !hasMore || thread == [] {
        return hasMore;
      }
      var page := ListPage(log, Some(thread[0].seqNo), None, CLIENT_PAGE_SIZE);
      threads := threads[c := page.items + thread];
      return page.hasMore;
    }
  }
}
