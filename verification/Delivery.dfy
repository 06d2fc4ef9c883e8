/**
 Exactly-once sending, end to end: one browser, its thread store and its persistent outbox, a network
 that loses and repeats requests and answers, page reloads at any moment, and the server. Each step is
 a stretch of client code between two awaits, or an atomic server operation.
 */
module Delivery {
  import opened Wrappers
  import opened Collections
  import opened Database
  import opened ServerSpec
  import opened LogInvariant
  import opened SendProtocol
  import opened ChatTypes
  import opened Thread
  import opened Merge
  import opened Replica
  import opened ClientStore

  /** A POST of a message. */
  datatype Call = Call(clientId: Id, draft: Draft)

  /** A positive answer names the saved row. */
  datatype Answer = Answer(clientId: Id, id: Id)

  datatype World = World(
    me: Id,
    db: Db,
    threads: map<Id, Entries>,
    outbox: map<Id, Draft>,      // survives a reload
    listed: set<Call>,           // what a running flush read from the outbox
    captured: set<(Id, Entries)>,// what a running loadOlder read from the store
    settled: set<Id>,            // answered and applied, dequeue not done yet
    calls: set<Call>,            // requests ever sent: each may arrive never, once or often
    answers: set<Answer>,        // answers ever sent, likewise
    composed: map<Id, Draft>,    // history
    enqueued: set<Id>)           // history: enqueue completed

  datatype Step =
    | Compose(clientId: Id, draft: Draft)
    | EnqueueDone(clientId: Id)
    | Retry(clientId: Id, conv: Id)
    | ListQueue
    | FlushSend(call: Call)
    | ServerOp(op: Op)
    | Reply(answer: Answer)
    | Receive(answer: Answer, conv: Id, message: LocalMessage)
    | Dequeue(clientId: Id)
    | MarkFailed(clientId: Id, conv: Id)
    | Push(conv: Id, message: LocalMessage)
    | PushEdit(conv: Id, event: Event)
    | Load(conv: Id, rows: Entries)
    | Capture(conv: Id)
    | LoadOlder(conv: Id, rows: Entries, thread: Entries)
    | Forget(conv: Id)
    | Reload

  function RequestOf(w: World, call: Call): SendRequest {
    SendRequest(w.me, call.draft.conv, call.clientId, call.draft.body, call.draft.replyTo, call.draft.attachmentIds)
  }

  /** A message the server serialised, perhaps before later edits. */
  predicate ImageOf(m: LocalMessage, db: Db) {
    m.id in db.messages && m.sender == Some(db.messages[m.id].sender) && m.clientId == db.messages[m.id].clientId
  }

  predicate ImagesOf(t: Entries, db: Db) {
    forall e | e in t :: ImageOf(e, db)
  }

  predicate Delivered(w: World, clientId: Id) {
    HasDuplicate(w.db, w.me, clientId)
  }

  /** Server ids are ULIDs, which hold no colon. */
  predicate IsServerId(id: Id) {
    ':' !in id
  }

  ghost predicate Enabled(w: World, step: Step) {
    match step
    case Compose(clientId, draft) =>
      // crypto.randomUUID: nobody has used it
      clientId !in w.composed && !OnServer(w.db, clientId)
    case EnqueueDone(clientId) => clientId in w.composed && clientId !in w.enqueued
    case Retry(clientId, c) => clientId in w.composed && HasClientId(ThreadFor(w.threads, c), clientId)
    case ListQueue => true
    case FlushSend(call) => call in w.listed && !HasClientId(ThreadFor(w.threads, call.draft.conv), call.clientId)
    case ServerOp(op) =>
      // this browser's client ids arrive only with its own requests; everything else is up to others
      op.Post? ==>
        && IsServerId(op.id)
        && (op.req.clientId in w.composed ==> exists call :: call in w.calls && op.req == RequestOf(w, call))
    case Reply(answer) => answer.id in w.db.messages && SentBy(w.db.messages[answer.id], w.me, answer.clientId)
    case Receive(answer, c, message) =>
      answer in w.answers && message.id == answer.id && message.clientId == answer.clientId && ImageOf(message, w.db)
    case Dequeue(clientId) => clientId in w.settled
    case MarkFailed(clientId, c) => true
    case Push(c, message) => ImageOf(message, w.db)
    case PushEdit(c, event) => !event.Created? && event.mid in w.db.messages
    case Load(c, rows) => ImagesOf(rows, w.db)
    case Capture(c) => true
    case LoadOlder(c, rows, thread) => (c, thread) in w.captured && ImagesOf(rows, w.db)
    case Forget(c) => true
    case Reload => true
  }

  function Show(w: World, c: Id, t: Entries): World {
    w.(threads := w.threads[c := t])
  }

  ghost function Apply(w: World, step: Step): World {
    if !Enabled(w, step) then w
    else
      match step
      case Compose(clientId, draft) =>
        var shown := ThreadFor(w.threads, draft.conv) + [Optimistic(clientId, draft)];
        Show(w, draft.conv, shown).(composed := w.composed[clientId := draft])
      case EnqueueDone(clientId) =>
        w.(outbox := w.outbox[clientId := w.composed[clientId]], enqueued := w.enqueued + {clientId})
      case Retry(clientId, c) =>
        Show(w, c, Flagged(ThreadFor(w.threads, c), clientId, true)).(
          calls := w.calls + {Call(clientId, DraftOf(Find(ThreadFor(w.threads, c), clientId), c))})
      case ListQueue => w.(listed := w.listed + set k | k in w.outbox :: Call(k, w.outbox[k]))
      case FlushSend(call) => w.(calls := w.calls + {call})
      case ServerOp(op) => w.(db := Exec(w.db, op))
      case Reply(answer) => w.(answers := w.answers + {answer})
      case Receive(answer, c, message) =>
        Show(w, c, ApplyIncoming(ThreadFor(w.threads, c), message)).(settled := w.settled + {answer.clientId})
      case Dequeue(clientId) => w.(outbox := w.outbox - {clientId}, settled := w.settled - {clientId})
      case MarkFailed(clientId, c) => Show(w, c, Flagged(ThreadFor(w.threads, c), clientId, false))
      case Push(c, message) => Show(w, c, ApplyIncoming(ThreadFor(w.threads, c), message))
      case PushEdit(c, event) => if c in w.threads then Show(w, c, ApplyEvent(w.threads[c], event)) else w
      case Load(c, rows) => Show(w, c, rows)
      case Capture(c) => w.(captured := w.captured + {(c, ThreadFor(w.threads, c))})
      case LoadOlder(c, rows, thread) => Show(w, c, rows + thread)
      case Forget(c) => w.(threads := w.threads - {c})
      case Reload => w.(threads := map[], listed := {}, captured := {}, settled := {})
  }

  ghost function Run(w: World, steps: seq<Step>): World {
    if steps == [] then w else Apply(Run(w, steps[..|steps| - 1]), steps[|steps| - 1])
  }

  // ---------- the invariant ----------

  predicate OnServer(db: Db, clientId: Id) {
    exists id | id in db.messages :: db.messages[id].clientId == clientId
  }

  /** An entry with one of my client ids still carries what was composed, or the server has the message;
      any other entry is a message of the server's. */
  predicate EntryOk(w: World, c: Id, e: LocalMessage) {
    if e.clientId in w.composed
    then Delivered(w, e.clientId) || (DraftOf(e, c) == w.composed[e.clientId] && !IsServerId(e.id))
    else OnServer(w.db, e.clientId)
  }

  ghost predicate ThreadOk(w: World, c: Id, t: Entries) {
    forall e | e in t :: EntryOk(w, c, e)
  }

  ghost predicate ThreadsOk(w: World) {
    && (forall c | c in w.threads :: ThreadOk(w, c, w.threads[c]))
    && (forall k | k in w.captured :: ThreadOk(w, k.0, k.1))
  }

  predicate CallOk(w: World, call: Call) {
    call.clientId in w.composed && (Delivered(w, call.clientId) || call.draft == w.composed[call.clientId])
  }

  ghost predicate CallsOk(w: World) {
    && (forall call | call in w.calls :: CallOk(w, call))
    && (forall call | call in w.listed :: CallOk(w, call))
  }

  /** My row holds what I composed, until I delete it. */
  ghost predicate Carries(db: Db, id: Id, draft: Draft)
    requires id in db.messages
  {
    var m := db.messages[id];
    && m.conv == draft.conv && m.replyTo == draft.replyTo && (m.deleted || m.body == Some(draft.body))
    && AttachmentsOf(db.attachments, id) == set a | a in draft.attachmentIds
  }

  ghost predicate RowsCarry(w: World) {
    forall id | id in w.db.messages && w.db.messages[id].clientId in w.composed ::
      w.db.messages[id].sender == w.me && Carries(w.db, id, w.composed[w.db.messages[id].clientId])
  }

  ghost predicate PromisesKept(w: World) {
    && (forall k | k in w.outbox :: k in w.composed && w.outbox[k] == w.composed[k])
    && w.enqueued <= w.composed.Keys
    && (forall k | k in w.settled :: Delivered(w, k))
    && (forall a | a in w.answers :: a.id in w.db.messages && SentBy(w.db.messages[a.id], w.me, a.clientId))
    && (forall k | k in w.enqueued :: k in w.outbox || Delivered(w, k))
  }

  ghost predicate ClientOk(w: World) {
    ThreadsOk(w) && CallsOk(w) && RowsCarry(w) && PromisesKept(w)
  }

  ghost predicate WorldOk(w: World) {
    LogOk(w.db) && (forall id | id in w.db.messages :: IsServerId(id)) && ClientOk(w)
  }

  // ---------- server steps ----------

  lemma DeliveredStays(db: Db, d: Db, me: Id, clientId: Id)
    requires Grows(db, d) && HasDuplicate(db, me, clientId)
    ensures HasDuplicate(d, me, clientId)
  {
    var id :| id in db.messages && SentBy(db.messages[id], me, clientId);
    assert SentBy(d.messages[id], me, clientId);
  }

  lemma EntryStays(w: World, d: Db, c: Id, e: LocalMessage)
    requires Grows(w.db, d) && EntryOk(w, c, e)
    ensures EntryOk(w.(db := d), c, e)
  {
    if e.clientId !in w.composed {
      var id :| id in w.db.messages && w.db.messages[id].clientId == e.clientId;
      assert d.messages[id].clientId == e.clientId;
    } else if Delivered(w, e.clientId) {
      DeliveredStays(w.db, d, w.me, e.clientId);
    }
  }

  lemma ThreadStays(w: World, d: Db, c: Id, t: Entries)
    requires Grows(w.db, d) && ThreadOk(w, c, t)
    ensures ThreadOk(w.(db := d), c, t)
  {
    forall e | e in t
      ensures EntryOk(w.(db := d), c, e)
    {
      EntryStays(w, d, c, e);
    }
  }

  lemma ServerKeepsClient(w: World, d: Db)
    requires Grows(w.db, d) && ThreadsOk(w) && CallsOk(w)
    ensures ThreadsOk(w.(db := d)) && CallsOk(w.(db := d))
  {
    var w' := w.(db := d);
    forall k | Delivered(w, k)
      ensures Delivered(w', k)
    {
      DeliveredStays(w.db, d, w.me, k);
    }
    forall c | c in w'.threads
      ensures ThreadOk(w', c, w'.threads[c])
    {
      ThreadStays(w, d, c, w.threads[c]);
    }
    forall k | k in w'.captured
      ensures ThreadOk(w', k.0, k.1)
    {
      ThreadStays(w, d, k.0, k.1);
    }
  }

  lemma ServerKeepsPromises(w: World, d: Db)
    requires Grows(w.db, d) && PromisesKept(w)
    ensures PromisesKept(w.(db := d))
  {
    var w' := w.(db := d);
    forall k | Delivered(w, k)
      ensures Delivered(w', k)
    {
      DeliveredStays(w.db, d, w.me, k);
    }
  }

  /** A row carries its draft through every operation on it. */
  lemma CarriesThroughPost(db: Db, req: SendRequest, k: Id, id: Id, draft: Draft)
    requires OwnersOk(db.attachments, db.messages) && Postable(db, req, k) && id in db.messages &&
             Carries(db, id, draft)
    ensures id in Posted(db, req, k).messages && Carries(Posted(db, req, k), id, draft)
  {
    PostedTables(db, req, k);
    ClaimedSets(db, req.sender, req.attachmentIds, k);
  }

  lemma CarriesThroughOther(db: Db, op: Op, id: Id, draft: Draft)
    requires Accepted(db, op) && !op.Post? && id in db.messages && Carries(db, id, draft)
    ensures id in Exec(db, op).messages && Carries(Exec(db, op), id, draft)
  {
    if op.Upload? {
      assert AttachmentsOf(Exec(db, op).attachments, id) == AttachmentsOf(db.attachments, id);
    } else {
      assert Exec(db, op).attachments == db.attachments;
    }
  }

  lemma CarriesStays(db: Db, op: Op, id: Id, draft: Draft)
    requires OwnersOk(db.attachments, db.messages) && id in db.messages && Carries(db, id, draft)
    ensures id in Exec(db, op).messages && Carries(Exec(db, op), id, draft)
  {
    if Accepted(db, op) {
      if op.Post? {
        CarriesThroughPost(db, op.req, op.id, id, draft);
      } else {
        CarriesThroughOther(db, op, id, draft);
      }
    }
  }

  lemma PostCarries(w: World, req: SendRequest, id: Id)
    requires LogOk(w.db) && RowsCarry(w) && CallsOk(w) && Enabled(w, ServerOp(Post(req, id))) && Postable(w.db, req, id)
    ensures RowsCarry(w.(db := Posted(w.db, req, id)))
  {
    var d := Posted(w.db, req, id);
    PostedTables(w.db, req, id);
    forall k | k in d.messages && d.messages[k].clientId in w.composed
      ensures d.messages[k].sender == w.me && Carries(d, k, w.composed[d.messages[k].clientId])
    {
      if k == id {
        NewRowCarries(w, req, id);
      } else {
        CarriesThroughPost(w.db, req, id, k, w.composed[d.messages[k].clientId]);
      }
    }
  }

  /** A row with one of this browser's client ids was posted by a call that holds the draft. */
  lemma NewRowCarries(w: World, req: SendRequest, id: Id)
    requires OwnersOk(w.db.attachments, w.db.messages) && CallsOk(w)
    requires Enabled(w, ServerOp(Post(req, id))) && Postable(w.db, req, id) && req.clientId in w.composed
    ensures req.sender == w.me && Carries(Posted(w.db, req, id), id, w.composed[req.clientId])
  {
    PostedTables(w.db, req, id);
    ClaimedSets(w.db, req.sender, req.attachmentIds, id);
    var call :| call in w.calls && req == RequestOf(w, call);
    assert CallOk(w, call) && !Delivered(w, req.clientId);
    assert SetOf(req.attachmentIds) == set a | a in req.attachmentIds;
  }

  lemma OtherOpCarries(w: World, op: Op)
    requires LogOk(w.db) && RowsCarry(w) && !op.Post?
    ensures RowsCarry(w.(db := Exec(w.db, op)))
  {
    var d := Exec(w.db, op);
    ExecGrows(w.db, op);
    forall k | k in d.messages && d.messages[k].clientId in w.composed
      ensures d.messages[k].sender == w.me && Carries(d, k, w.composed[d.messages[k].clientId])
    {
      CarriesStays(w.db, op, k, w.composed[w.db.messages[k].clientId]);
    }
  }

  lemma ServerIdsStay(w: World, op: Op)
    requires (forall id | id in w.db.messages :: IsServerId(id)) && Enabled(w, ServerOp(op))
    ensures forall id | id in Exec(w.db, op).messages :: IsServerId(id)
  {
    if Accepted(w.db, op) && op.Post? {
      PostedTables(w.db, op.req, op.id);
    }
  }

  lemma ServerOpOk(w: World, op: Op)
    requires WorldOk(w) && Enabled(w, ServerOp(op))
    ensures WorldOk(w.(db := Exec(w.db, op)))
  {
    ExecKeepsLog(w.db, op);
    ExecGrows(w.db, op);
    ServerIdsStay(w, op);
    ServerKeepsClient(w, Exec(w.db, op));
    ServerKeepsPromises(w, Exec(w.db, op));
    if op.Post? && Accepted(w.db, op) {
      PostCarries(w, op.req, op.id);
    } else if !op.Post? {
      OtherOpCarries(w, op);
    }
  }

  // ---------- client steps ----------

  lemma ShowOk(w: World, c: Id, t: Entries)
    requires ThreadsOk(w) && ThreadOk(w, c, t)
    ensures ThreadsOk(Show(w, c, t))
  {
    var w' := Show(w, c, t);
    forall k | k in w'.threads
      ensures ThreadOk(w', k, w'.threads[k])
    {
      if k != c {
        assert ThreadOk(w, k, w.threads[k]);
      } else {
        assert ThreadOk(w, c, t);
      }
    }
    forall k | k in w'.captured
      ensures ThreadOk(w', k.0, k.1)
    {
      assert ThreadOk(w, k.0, k.1);
    }
  }

  lemma ImageOk(w: World, c: Id, e: LocalMessage)
    requires RowsCarry(w) && ImageOf(e, w.db)
    ensures EntryOk(w, c, e)
  {
    if e.clientId in w.composed {
      assert SentBy(w.db.messages[e.id], w.me, e.clientId);
    } else {
      assert w.db.messages[e.id].clientId == e.clientId;
    }
  }

  lemma IncomingOk(w: World, c: Id, t: Entries, m: LocalMessage)
    requires RowsCarry(w) && ThreadOk(w, c, t) && ImageOf(m, w.db)
    ensures ThreadOk(w, c, ApplyIncoming(t, m))
  {
    ImageOk(w, c, m);
    var placed := Placed(t, m);
    SortSorts(placed);
    forall e | e in ApplyIncoming(t, m)
      ensures EntryOk(w, c, e)
    {
      assert e in placed;
    }
  }

  lemma FlaggedOk(w: World, c: Id, t: Entries, clientId: Id, pending: bool)
    requires ThreadOk(w, c, t)
    ensures ThreadOk(w, c, Flagged(t, clientId, pending))
  {
    forall e | e in Flagged(t, clientId, pending)
      ensures EntryOk(w, c, e)
    {
      var i :| 0 <= i < |t| && Flagged(t, clientId, pending)[i] == e;
      assert EntryOk(w, c, t[i]);
    }
  }

  lemma EditOk(w: World, c: Id, t: Entries, event: Event)
    requires ThreadOk(w, c, t) && !event.Created? && IsServerId(event.mid)
    ensures ThreadOk(w, c, ApplyEvent(t, event))
  {
    forall e | e in ApplyEvent(t, event)
      ensures EntryOk(w, c, e)
    {
      var i :| 0 <= i < |t| && ApplyEvent(t, event)[i] == e;
      assert EntryOk(w, c, t[i]);
    }
  }

  lemma ThreadForOk(w: World, c: Id)
    requires ThreadsOk(w)
    ensures ThreadOk(w, c, ThreadFor(w.threads, c))
  {
  }

  lemma RecordsKeepWithDraft(w: World, clientId: Id, draft: Draft)
    requires CallsOk(w) && RowsCarry(w) && PromisesKept(w) && clientId !in w.composed && !OnServer(w.db, clientId)
    ensures var w' := w.(composed := w.composed[clientId := draft]); CallsOk(w') && RowsCarry(w') && PromisesKept(w')
  {
    var w' := w.(composed := w.composed[clientId := draft]);
    forall call | CallOk(w, call)
      ensures CallOk(w', call)
    {
    }
  }

  /** A freshly composed message changes nothing for the others. */
  lemma ComposeOk(w: World, clientId: Id, draft: Draft)
    requires ClientOk(w) && Enabled(w, Compose(clientId, draft))
    ensures ClientOk(Apply(w, Compose(clientId, draft)))
  {
    var w', e := w.(composed := w.composed[clientId := draft]), Optimistic(clientId, draft);
    RecordsKeepWithDraft(w, clientId, draft);
    ThreadForOk(w', draft.conv);
    assert e.id[7] == ':';
    assert ThreadOk(w', draft.conv, ThreadFor(w.threads, draft.conv) + [e]);
    ShowOk(w', draft.conv, ThreadFor(w.threads, draft.conv) + [e]);
    assert Apply(w, Compose(clientId, draft)) == Show(w', draft.conv, ThreadFor(w.threads, draft.conv) + [e]);
  }

  lemma RetryOk(w: World, clientId: Id, c: Id)
    requires ClientOk(w) && Enabled(w, Retry(clientId, c))
    ensures ClientOk(Apply(w, Retry(clientId, c)))
  {
    var t := ThreadFor(w.threads, c);
    ThreadForOk(w, c);
    FlaggedOk(w, c, t, clientId, true);
    ShowOk(w, c, Flagged(t, clientId, true));
    assert EntryOk(w, c, Find(t, clientId));
  }

  lemma QueueOk(w: World)
    requires ClientOk(w)
    ensures ClientOk(Apply(w, ListQueue))
  {
    var w' := Apply(w, ListQueue);
    forall call | call in w'.listed
      ensures CallOk(w', call)
    {
      assert CallOk(w, call);
    }
    assert ThreadsOk(w') && PromisesKept(w') && RowsCarry(w');
  }

  lemma ReceiveOk(w: World, answer: Answer, c: Id, message: LocalMessage)
    requires ClientOk(w) && Enabled(w, Receive(answer, c, message))
    ensures ClientOk(Apply(w, Receive(answer, c, message)))
  {
    var t := ApplyIncoming(ThreadFor(w.threads, c), message);
    ThreadForOk(w, c);
    IncomingOk(w, c, ThreadFor(w.threads, c), message);
    ShowKeeps(w, c, t);
    SettleOk(Show(w, c, t), answer);
  }

  lemma SettleOk(w: World, answer: Answer)
    requires ClientOk(w) && answer in w.answers
    ensures ClientOk(w.(settled := w.settled + {answer.clientId}))
  {
    var w' := w.(settled := w.settled + {answer.clientId});
    assert ThreadsOk(w') && CallsOk(w') && RowsCarry(w');
  }

  /** Steps that only replace one thread. */
  lemma ThreadStepOk(w: World, step: Step)
    requires ClientOk(w) && Enabled(w, step) && forall id | id in w.db.messages :: IsServerId(id)
    requires step.MarkFailed? || step.Push? || step.PushEdit? || step.Load? || step.LoadOlder?
    ensures ClientOk(Apply(w, step))
  {
    match step
    case MarkFailed(clientId, c) =>
      ThreadForOk(w, c);
      FlaggedOk(w, c, ThreadFor(w.threads, c), clientId, false);
      ShowKeeps(w, c, Flagged(ThreadFor(w.threads, c), clientId, false));
    case Push(c, message) =>
      ThreadForOk(w, c);
      IncomingOk(w, c, ThreadFor(w.threads, c), message);
      ShowKeeps(w, c, ApplyIncoming(ThreadFor(w.threads, c), message));
    case PushEdit(c, event) =>
      if c in w.threads {
        EditOk(w, c, w.threads[c], event);
        ShowKeeps(w, c, ApplyEvent(w.threads[c], event));
      }
    case Load(c, rows) =>
      ShowKeeps(w, c, rows);
    case LoadOlder(c, rows, thread) => LoadOlderOk(w, c, rows, thread);
  }

  lemma LoadOlderOk(w: World, c: Id, rows: Entries, thread: Entries)
    requires ClientOk(w) && Enabled(w, LoadOlder(c, rows, thread))
    ensures ClientOk(Apply(w, LoadOlder(c, rows, thread)))
  {
    assert ThreadOk(w, c, thread);
    assert ThreadOk(w, c, rows + thread);
    ShowKeeps(w, c, rows + thread);
  }

  /** Showing sound entries touches nothing else. */
  lemma ShowKeeps(w: World, c: Id, t: Entries)
    requires ClientOk(w) && ThreadOk(w, c, t)
    ensures ClientOk(Show(w, c, t))
  {
    ShowOk(w, c, t);
  }

  lemma CaptureOk(w: World, c: Id)
    requires ClientOk(w)
    ensures ClientOk(Apply(w, Capture(c)))
  {
    ThreadForOk(w, c);
    var w' := Apply(w, Capture(c));
    forall k | k in w'.captured
      ensures ThreadOk(w', k.0, k.1)
    {
      assert k.1 == ThreadFor(w.threads, c) || k in w.captured;
    }
  }

  lemma ReloadOk(w: World)
    requires ClientOk(w)
    ensures ClientOk(Apply(w, Reload))
  {
  }

  /** Steps that touch no thread's entries. */
  lemma RecordStepOk(w: World, step: Step)
    requires ClientOk(w) && Enabled(w, step)
    requires step.EnqueueDone? || step.FlushSend? || step.Reply? || step.Dequeue? || step.Forget? || step.Reload?
    ensures ClientOk(Apply(w, step))
  {
    match step
    case Reload => ReloadOk(w);
    case Forget(c) => ForgetOk(w, c);
    case FlushSend(call) => FlushSendOk(w, call);
    case EnqueueDone(clientId) =>
      RecordKeepsTables(w, step);
      EnqueueKeepsPromises(w, clientId);
    case Reply(answer) =>
      RecordKeepsTables(w, step);
      ReplyKeepsPromises(w, answer);
    case Dequeue(clientId) =>
      RecordKeepsTables(w, step);
      DequeueKeepsPromises(w, clientId);
  }

  lemma ForgetOk(w: World, c: Id)
    requires ClientOk(w)
    ensures ClientOk(Apply(w, Forget(c)))
  {
  }

  lemma FlushSendOk(w: World, call: Call)
    requires ClientOk(w) && Enabled(w, FlushSend(call))
    ensures ClientOk(Apply(w, FlushSend(call)))
  {
  }

  lemma RecordKeepsTables(w: World, step: Step)
    requires ClientOk(w) && Enabled(w, step) && (step.EnqueueDone? || step.Reply? || step.Dequeue?)
    ensures ThreadsOk(Apply(w, step)) && CallsOk(Apply(w, step)) && RowsCarry(Apply(w, step))
  {
  }

  lemma EnqueueKeepsPromises(w: World, clientId: Id)
    requires PromisesKept(w) && Enabled(w, EnqueueDone(clientId))
    ensures PromisesKept(Apply(w, EnqueueDone(clientId)))
  {
  }

  lemma ReplyKeepsPromises(w: World, answer: Answer)
    requires PromisesKept(w) && Enabled(w, Step.Reply(answer))
    ensures PromisesKept(Apply(w, Step.Reply(answer)))
  {
  }

  lemma DequeueKeepsPromises(w: World, clientId: Id)
    requires PromisesKept(w) && Enabled(w, Dequeue(clientId))
    ensures PromisesKept(Apply(w, Dequeue(clientId)))
  {
  }

  lemma ClientStepOk(w: World, step: Step)
    requires ClientOk(w) && Enabled(w, step) && !step.ServerOp? && forall id | id in w.db.messages :: IsServerId(id)
    ensures ClientOk(Apply(w, step))
  {
    match step
    case Compose(clientId, draft) => ComposeOk(w, clientId, draft);
    case Retry(clientId, c) => RetryOk(w, clientId, c);
    case ListQueue => QueueOk(w);
    case Receive(answer, c, message) => ReceiveOk(w, answer, c, message);
    case Capture(c) => CaptureOk(w, c);
    case MarkFailed(_, _) => ThreadStepOk(w, step);
    case Push(_, _) => ThreadStepOk(w, step);
    case PushEdit(_, _) => ThreadStepOk(w, step);
    case Load(_, _) => ThreadStepOk(w, step);
    case LoadOlder(_, _, _) => ThreadStepOk(w, step);
    case _ => RecordStepOk(w, step);
  }

  /** Only server operations change the tables, and nothing changes who is signed in. */
  lemma StepFrame(w: World, step: Step)
    ensures Apply(w, step).me == w.me
    ensures !step.ServerOp? ==> Apply(w, step).db == w.db
  {
  }

  lemma StepOk(w: World, step: Step)
    requires WorldOk(w)
    ensures WorldOk(Apply(w, step))
  {
    if Enabled(w, step) {
      if step.ServerOp? {
        ServerOpOk(w, step.op);
      } else {
        StepFrame(w, step);
        ClientStepOk(w, step);
      }
    }
  }

  lemma {:induction false} RunOk(w: World, steps: seq<Step>)
    requires WorldOk(w)
    ensures WorldOk(Run(w, steps))
  {
    if steps != [] {
      RunOk(w, steps[..|steps| - 1]);
      StepOk(Run(w, steps[..|steps| - 1]), steps[|steps| - 1]);
    }
  }

  // ---------- the promise ----------

  /** A client that has composed nothing, beside any healthy server. */
  function Fresh(me: Id, db: Db): World {
    World(me, db, map[], map[], {}, {}, {}, {}, {}, map[], {})
  }

  /** Main result: in every run, a message whose enqueue completed is still in the outbox or is exactly
      one row on the server, holding what was composed. */
  lemma SentExactlyOnce(me: Id, db: Db, steps: seq<Step>, clientId: Id)
    requires LogOk(db) && forall id | id in db.messages :: IsServerId(id)
    requires clientId in Run(Fresh(me, db), steps).enqueued
    ensures var w := Run(Fresh(me, db), steps);
      && clientId in w.composed
      && (clientId in w.outbox || Delivered(w, clientId))
      && (clientId in w.outbox ==> w.outbox[clientId] == w.composed[clientId])
      && (forall id | id in w.db.messages && w.db.messages[id].clientId == clientId ::
            w.db.messages[id].sender == me && Carries(w.db, id, w.composed[clientId]))
      && (forall i, j | i in w.db.messages && j in w.db.messages
            && w.db.messages[i].clientId == clientId && w.db.messages[j].clientId == clientId :: i == j)
  {
    RunOk(Fresh(me, db), steps);
    MeIsFixed(Fresh(me, db), steps);
    var w := Run(Fresh(me, db), steps);
    forall i, j | i in w.db.messages && j in w.db.messages
      && w.db.messages[i].clientId == clientId && w.db.messages[j].clientId == clientId
      ensures i == j
    {
      assert SentBy(w.db.messages[i], w.db.messages[j].sender, w.db.messages[j].clientId);
    }
  }

  lemma {:induction false} MeIsFixed(w: World, steps: seq<Step>)
    ensures Run(w, steps).me == w.me
  {
    if steps != [] {
      MeIsFixed(w, steps[..|steps| - 1]);
      StepFrame(Run(w, steps[..|steps| - 1]), steps[|steps| - 1]);
    }
  }

  /** A replay of a committed send changes nothing on the server. */
  lemma ReplayChangesNothing(db: Db, req: SendRequest, id: Id)
    requires HasDuplicate(db, req.sender, req.clientId)
    ensures Exec(db, Post(req, id)) == db
    ensures IsMember(db, req.conv, req.sender) ==> CheckSend(db, req) == Replay
  {
    assert req.conv in db.convs ==> HasDuplicate(NextSeq(db, req.conv), req.sender, req.clientId);
  }
}
