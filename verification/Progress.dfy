/**
 Exactly-once sending is not only safe: whatever state the browser is in, a queued message has a way through, and
 what each step of the client leaves on screen and in the queue.
 */
module Progress {
  import opened Wrappers
  import opened Database
  import opened ServerSpec
  import opened LogInvariant
  import opened ChatTypes
  import opened Thread
  import opened ClientStore
  import opened Delivery

  /** Some message as the server serialises the row. */
  function Serialised(id: Id, m: Message): LocalMessage {
    LocalMessage(id, m.seqNo, Some(m.sender), m.kind, m.body, m.replyTo, m.clientId, m.deleted, [], [], false, false)
  }

  ghost function After(w: World, a: Step, b: Step, c: Step): World {
    Apply(Apply(Apply(w, a), b), c)
  }

  /** The request reaches the server. */
  lemma Arrives(w: World, call: Call, id: Id)
    requires call in w.calls && Postable(w.db, RequestOf(w, call), id) && IsServerId(id)
    ensures var saved := Apply(w, ServerOp(Post(RequestOf(w, call), id)));
      && saved == w.(db := saved.db)
      && id !in w.db.messages && id in saved.db.messages
      && SentBy(saved.db.messages[id], w.me, call.clientId) && saved.db.messages[id].conv == call.draft.conv
      && saved.db.messages[id].body == Some(call.draft.body) && saved.db.messages[id].replyTo == call.draft.replyTo
  {
    PostedTables(w.db, RequestOf(w, call), id);
  }

  lemma ReplyIs(w: World, answer: Answer)
    requires answer.id in w.db.messages && SentBy(w.db.messages[answer.id], w.me, answer.clientId)
    ensures Apply(w, Step.Reply(answer)) == w.(answers := w.answers + {answer})
  {
  }

  lemma ReceiveIs(w: World, answer: Answer, c: Id, m: LocalMessage)
    requires answer in w.answers && m.id == answer.id && m.clientId == answer.clientId && ImageOf(m, w.db)
    ensures var w' := Apply(w, Receive(answer, c, m));
      && w'.db == w.db && w'.outbox == w.outbox && w'.settled == w.settled + {answer.clientId}
      && m in ThreadFor(w'.threads, c)
  {
    IncomingIsShown(ThreadFor(w.threads, c), m);
  }

  lemma DequeueIs(w: World, clientId: Id)
    requires clientId in w.settled
    ensures var w' := Apply(w, Dequeue(clientId));
            w'.db == w.db && w'.threads == w.threads && w'.outbox == w.outbox - {clientId}
  {
  }

  /** The answer reaches the browser. */
  lemma Returns(w: World, call: Call, id: Id, m: LocalMessage)
    requires id in w.db.messages && SentBy(w.db.messages[id], w.me, call.clientId)
    requires m == Serialised(id, w.db.messages[id])
    ensures var answer := Answer(call.clientId, id);
      var w' := After(w, Step.Reply(answer), Receive(answer, call.draft.conv, m), Dequeue(call.clientId));
      && w'.db == w.db && w'.outbox == w.outbox - {call.clientId}
      && m in ThreadFor(w'.threads, call.draft.conv)
  {
    var answer := Answer(call.clientId, id);
    var answered := Apply(w, Step.Reply(answer));
    ReplyIs(w, answer);
    ReceiveIs(answered, answer, call.draft.conv, m);
    DequeueIs(Apply(answered, Receive(answer, call.draft.conv, m)), call.clientId);
  }

  /** The request is out: it is saved, answered, shown and taken off the queue. */
  lemma OutGetsThrough(w: World, call: Call, id: Id) returns (m: LocalMessage)
    requires call in w.calls && Postable(w.db, RequestOf(w, call), id) && IsServerId(id)
    ensures m.id == id && m.clientId == call.clientId && m.sender == Some(w.me)
    ensures var saved := Apply(w, ServerOp(Post(RequestOf(w, call), id)));
      var answer := Answer(call.clientId, id);
      var w' := After(saved, Step.Reply(answer), Receive(answer, call.draft.conv, m), Dequeue(call.clientId));
      && id !in w.db.messages && id in w'.db.messages
      && SentBy(w'.db.messages[id], w.me, call.clientId) && w'.db.messages[id].conv == call.draft.conv
      && w'.db.messages[id].body == Some(call.draft.body) && w'.db.messages[id].replyTo == call.draft.replyTo
      && w'.outbox == w.outbox - {call.clientId}
      && m in ThreadFor(w'.threads, call.draft.conv)
  {
    Arrives(w, call, id);
    var saved := Apply(w, ServerOp(Post(RequestOf(w, call), id)));
    m := Serialised(id, saved.db.messages[id]);
    Returns(saved, call, id, m);
  }

  /** Off screen, as after a reload: a flush lists the message and sends it as it was composed. */
  lemma FlushGetsThrough(w: World, clientId: Id, id: Id) returns (m: LocalMessage)
    requires WorldOk(w) && clientId in w.outbox
    requires !HasClientId(ThreadFor(w.threads, w.outbox[clientId].conv), clientId)
    requires Postable(w.db, RequestOf(w, Call(clientId, w.outbox[clientId])), id) && IsServerId(id)
    ensures var draft := w.composed[clientId];
      var call := Call(clientId, draft);
      var sent := Apply(Apply(w, ListQueue), FlushSend(call));
      var saved := Apply(sent, ServerOp(Post(RequestOf(w, call), id)));
      var w' := After(saved, Step.Reply(Answer(clientId, id)), Receive(Answer(clientId, id), draft.conv, m),
                      Dequeue(clientId));
      && clientId in w.composed && w.outbox[clientId] == draft
      && id in w'.db.messages && w'.db.messages[id].body == Some(draft.body)
      && w'.outbox == w.outbox - {clientId} && m.id == id && m in ThreadFor(w'.threads, draft.conv)
  {
    var call := Call(clientId, w.outbox[clientId]);
    var listed := Apply(w, ListQueue);
    assert call in listed.listed && listed.threads == w.threads && listed.db == w.db && listed.outbox == w.outbox;
    var sent := Apply(listed, FlushSend(call));
    assert call in sent.calls && sent.db == w.db && sent.outbox == w.outbox;
    assert RequestOf(sent, call) == RequestOf(w, call);
    m := OutGetsThrough(sent, call, id);
  }

  /** On screen: a retry sends what the entry says, which is what was composed as long as nothing of it is saved. */
  lemma RetryGetsThrough(w: World, clientId: Id, c: Id, id: Id) returns (m: LocalMessage)
    requires WorldOk(w) && clientId in w.composed && HasClientId(ThreadFor(w.threads, c), clientId)
    requires !HasDuplicate(w.db, w.me, clientId)
    requires Postable(w.db, RequestOf(w, Call(clientId, w.composed[clientId])), id) && IsServerId(id)
    ensures var draft := w.composed[clientId];
      var call := Call(clientId, draft);
      var sent := Apply(w, Retry(clientId, c));
      var saved := Apply(sent, ServerOp(Post(RequestOf(w, call), id)));
      var w' := After(saved, Step.Reply(Answer(clientId, id)), Receive(Answer(clientId, id), draft.conv, m),
                      Dequeue(clientId));
      && id in w'.db.messages && w'.db.messages[id].body == Some(draft.body)
      && w'.outbox == w.outbox - {clientId} && m.id == id && m in ThreadFor(w'.threads, draft.conv)
  {
    var e := Find(ThreadFor(w.threads, c), clientId);
    var call := Call(clientId, w.composed[clientId]);
    assert ThreadOk(w, c, w.threads[c]) && EntryOk(w, c, e);
    var sent := Apply(w, Retry(clientId, c));
    assert sent.calls == w.calls + {call} && sent.db == w.db && sent.outbox == w.outbox;
    assert RequestOf(sent, call) == RequestOf(w, call);
    m := OutGetsThrough(sent, call, id);
  }

  /** From composing to the queue. */
  lemma ComposedIsQueued(w: World, clientId: Id, draft: Draft)
    requires WorldOk(w) && clientId !in w.composed && !OnServer(w.db, clientId)
    ensures var w' := Apply(Apply(w, Compose(clientId, draft)), EnqueueDone(clientId));
      && w'.outbox == w.outbox[clientId := draft] && clientId in w'.enqueued
      && HasClientId(ThreadFor(w'.threads, draft.conv), clientId)
      && ThreadFor(w.threads, draft.conv) < ThreadFor(w'.threads, draft.conv)
      && (forall d | d != draft.conv :: ThreadFor(w'.threads, d) == ThreadFor(w.threads, d))
  {
    assert clientId !in w.enqueued;
    var e := Optimistic(clientId, draft);
    var t := ThreadFor(w.threads, draft.conv) + [e];
    assert e in t && e.clientId == clientId;
  }

  // ---------- what the steps show ----------

  /** The conversation whose thread a step changes. */
  function ConvOf(step: Step): Option<Id> {
    match step
    case Compose(_, draft) => Some(draft.conv)
    case Retry(_, c) => Some(c)
    case Receive(_, c, _) => Some(c)
    case MarkFailed(_, c) => Some(c)
    case Push(c, _) => Some(c)
    case PushEdit(c, _) => Some(c)
    case Load(c, _) => Some(c)
    case LoadOlder(c, _, _) => Some(c)
    case Forget(c) => Some(c)
    case _ => None
  }

  /** Entries with that client id are marked one way or the other, all others are what they were. */
  predicate Marked(t: Entries, t': Entries, clientId: Id, pending: bool) {
    && |t'| == |t|
    && (forall i | 0 <= i < |t| && t[i].clientId != clientId :: t'[i] == t[i])
    && (forall i | 0 <= i < |t| && t[i].clientId == clientId :: t'[i] == t[i].(pending := pending, failed := !pending))
  }

  /** A step touches its own thread only, and only two kinds touch the queue. */
  lemma StepFrame(w: World, step: Step)
    requires Enabled(w, step)
    ensures !step.Reload? ==>
      forall d | Some(d) != ConvOf(step) :: ThreadFor(Apply(w, step).threads, d) == ThreadFor(w.threads, d)
    ensures step.Reload? ==> Apply(w, step).threads == map[]
    ensures !step.EnqueueDone? && !step.Dequeue? ==> Apply(w, step).outbox == w.outbox
  {
  }

  /** What a step leaves of its own thread, in terms of the entries. */
  lemma StepShows(w: World, step: Step)
    requires Enabled(w, step) && ConvOf(step).Some?
    ensures var c := ConvOf(step).value;
      var t, t' := ThreadFor(w.threads, c), ThreadFor(Apply(w, step).threads, c);
      && (step.Retry? ==> Marked(t, t', step.clientId, true))
      && (step.MarkFailed? ==> Marked(t, t', step.clientId, false))
      && (step.Receive? || step.Push? ==>
            && step.message in t'
            && (forall e | e in t && !Matches(e, step.message) :: e in t')
            && (forall e | e in t' :: e == step.message || e in t))
      && (step.Load? ==> t' == step.rows)
      && (step.LoadOlder? ==> t' == step.rows + step.thread)
      && (step.Forget? ==> t' == [])
  {
    if step.Receive? || step.Push? {
      IncomingIsShown(ThreadFor(w.threads, ConvOf(step).value), step.message);
      IncomingComesFrom(ThreadFor(w.threads, ConvOf(step).value), step.message);
    }
  }

  /** A reload forgets everything but the queue and what is out; a failure, a capture, leaving a conversation and a
      reload can come at any time; a message taken off the queue is no longer settled. */
  lemma RecordsAre(w: World, c: Id, clientId: Id)
    ensures Enabled(w, Reload) && Enabled(w, Forget(c)) && Enabled(w, Capture(c)) && Enabled(w, MarkFailed(clientId, c))
    ensures Apply(w, Reload) ==
            World(w.me, w.db, map[], w.outbox, {}, {}, {}, w.calls, w.answers, w.composed, w.enqueued)
    ensures Apply(w, Capture(c)) == w.(captured := w.captured + {(c, ThreadFor(w.threads, c))})
    ensures clientId in w.settled ==>
      Apply(w, Dequeue(clientId)) == w.(outbox := w.outbox - {clientId}, settled := w.settled - {clientId})
  {
  }
}
