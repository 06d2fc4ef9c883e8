/**
 Several sends in flight at once. A send checks committed state, then allocates its seq, which
 takes the database's single write lock, works on an uncommitted copy, and commits or aborts.
 Every run of these small steps is a run of atomic operations (RunRefines), so what the atomic
 operations keep holds in every interleaving.
 */
module SendProtocol {
  import opened Wrappers
  import opened Database
  import opened ServerSpec
  import opened LogInvariant

  datatype Stage = Allocated | RowFlushed | AttachmentsClaimed | AllCounted

  /** The holder of the write lock; `work` is what it alone can see. */
  datatype Writer = Writer(rid: nat, id: Id, stage: Stage, work: Db)

  /** What the caller of `send` got back. */
  datatype Outcome = Saved(id: Id) | Failed(error: Error)

  datatype Reply = Reply(req: SendRequest, outcome: Outcome)

  datatype Sys = Sys(db: Db, flights: map<nat, SendRequest>, writer: Option<Writer>, replies: map<nat, Reply>)

  datatype Step =
    | Check(rid: nat, req: SendRequest)
    | Allocate(rid: nat)
    | Flush(id: Id)
    | Claim
    | Count
    | Commit
    | Abort(error: Error)
    | GiveUp(rid: nat, error: Error)
    | Atomic(op: Op)

  datatype Verdict = Proceed | Replay | Reject(error: Error)

  /** The checks at the head of `send`, in order. */
  function CheckSend(db: Db, req: SendRequest): Verdict {
    if !IsMember(db, req.conv, req.sender) then Reject(NotFound)
    else if HasDuplicate(db, req.sender, req.clientId) then Replay
    else if req.conv !in db.convs then Reject(NotFound)
    else if Blank(req.body) && req.attachmentIds == [] then Reject(Validation)
    else if !ReplyOk(db, req.conv, req.replyTo) then Reject(Validation)
    else Proceed
  }

  /** Some row with that key; LogInvariant shows there is at most one. */
  ghost function TheDuplicate(db: Db, sender: Id, clientId: Id): (id: Id)
    requires HasDuplicate(db, sender, clientId)
    ensures id in db.messages && SentBy(db.messages[id], sender, clientId)
  {
    var id :| id in db.messages && SentBy(db.messages[id], sender, clientId);
    id
  }

  function Answered(s: Sys, rid: nat, req: SendRequest, outcome: Outcome): Sys {
    s.(flights := s.flights - {rid}, replies := s.replies[rid := Reply(req, outcome)])
  }

  function Rollback(s: Sys, error: Error): Sys
    requires s.writer.Some? && s.writer.value.rid in s.flights
  {
    Answered(s, s.writer.value.rid, s.flights[s.writer.value.rid], Failed(error)).(writer := None)
  }

  predicate Writing(s: Sys, stage: Stage) {
    && s.writer.Some? && s.writer.value.stage == stage && s.writer.value.rid in s.flights
    && s.flights[s.writer.value.rid].conv in s.writer.value.work.convs
  }

  ghost function CheckStep(s: Sys, rid: nat, req: SendRequest): Sys {
    match CheckSend(s.db, req)
    case Proceed => s.(flights := s.flights[rid := req])
    case Replay => Answered(s, rid, req, Saved(TheDuplicate(s.db, req.sender, req.clientId)))
    case Reject(error) => Answered(s, rid, req, Failed(error))
  }

  function FlushStep(s: Sys, id: Id): Sys
    requires Writing(s, Allocated)
  {
    var w := s.writer.value;
    var row := NewRow(s.flights[w.rid], id, w.work.convs[s.flights[w.rid].conv].lastSeq);
    if Fits(w.work, row)
    then s.(writer := Some(w.(id := id, stage := RowFlushed, work := Inserted(w.work, row))))
    else Rollback(s, Integrity)
  }

  function ClaimStep(s: Sys): Sys
    requires Writing(s, RowFlushed) && s.writer.value.id in s.writer.value.work.messages
  {
    var w := s.writer.value;
    if ClaimOk(w.work, s.flights[w.rid])
    then s.(writer := Some(w.(stage := AttachmentsClaimed, work := WithClaim(w.work, s.flights[w.rid], w.id))))
    else Rollback(s, Validation)
  }

  function CountStep(s: Sys): Sys
    requires Writing(s, AttachmentsClaimed)
  {
    var w := s.writer.value;
    var req := s.flights[w.rid];
    s.(writer := Some(w.(stage := AllCounted, work := Counted(w.work, req, w.id, w.work.convs[req.conv].lastSeq))))
  }

  function CommitStep(s: Sys): Sys
    requires Writing(s, AllCounted)
  {
    var w := s.writer.value;
    Answered(s, w.rid, s.flights[w.rid], Saved(w.id)).(db := w.work, writer := None)
  }

  predicate Enabled(s: Sys, step: Step) {
    match step
    case Check(rid, req) => rid !in s.flights && rid !in s.replies
    case Allocate(rid) => s.writer.None? && rid in s.flights && s.flights[rid].conv in s.db.convs
    case Flush(id) => Writing(s, Allocated)
    case Claim => Writing(s, RowFlushed) && s.writer.value.id in s.writer.value.work.messages
    case Count => Writing(s, AttachmentsClaimed)
    case Commit => Writing(s, AllCounted)
    case Abort(error) => s.writer.Some? && s.writer.value.rid in s.flights
    case GiveUp(rid, error) => rid in s.flights && (s.writer.Some? ==> s.writer.value.rid != rid)
    case Atomic(op) => s.writer.None? && !op.Post?
  }

  /** One atomic step of the server; a step that is not enabled changes nothing. */
  ghost function Apply(s: Sys, step: Step): Sys {
    if !Enabled(s, step) then s
    else
      match step
      case Check(rid, req) => CheckStep(s, rid, req)
      case Allocate(rid) => s.(writer := Some(Writer(rid, "", Allocated, NextSeq(s.db, s.flights[rid].conv))))
      case Flush(id) => FlushStep(s, id)
      case Claim => ClaimStep(s)
      case Count => CountStep(s)
      case Commit => CommitStep(s)
      case Abort(error) => Rollback(s, error)
      case GiveUp(rid, error) => Answered(s, rid, s.flights[rid], Failed(error))
      case Atomic(op) => s.(db := Exec(s.db, op))
  }

  ghost function Run(s: Sys, steps: seq<Step>): Sys {
    if steps == [] then s else Apply(Run(s, steps[..|steps| - 1]), steps[|steps| - 1])
  }

  // ---------- the invariant of every run ----------

  ghost predicate WorkOk(db: Db, w: Writer, req: SendRequest) {
    && req.conv in db.convs
    && match w.stage
       case Allocated => w.work == NextSeq(db, req.conv)
       case RowFlushed => FlushOk(db, req, w.id) && w.work == Flushed(db, req, w.id)
       case AttachmentsClaimed =>
         FlushOk(db, req, w.id) && ClaimOk(db, req) && w.work == WithClaim(Flushed(db, req, w.id), req, w.id)
       case AllCounted => Postable(db, req, w.id) && w.work == Posted(db, req, w.id)
  }

  ghost predicate WriterOk(s: Sys) {
    s.writer.Some? ==>
      && s.writer.value.rid in s.flights
      && WorkOk(s.db, s.writer.value, s.flights[s.writer.value.rid])
  }

  ghost predicate FlightsOk(db: Db, flights: map<nat, SendRequest>) {
    forall rid | rid in flights :: Sendable(db, flights[rid])
  }

  /** A positive reply names the row with the caller's key. */
  ghost predicate ReplyHolds(db: Db, reply: Reply) {
    match reply.outcome
    case Failed(_) => true
    case Saved(id) => id in db.messages && SentBy(db.messages[id], reply.req.sender, reply.req.clientId)
  }

  ghost predicate RepliesHold(db: Db, replies: map<nat, Reply>) {
    forall rid | rid in replies :: ReplyHolds(db, replies[rid])
  }

  ghost predicate SysOk(s: Sys) {
    LogOk(s.db) && FlightsOk(s.db, s.flights) && WriterOk(s) && RepliesHold(s.db, s.replies)
  }

  /** Rows keep their identity, and conversations and memberships are never removed. */
  predicate Grows(db: Db, d: Db) {
    && db.convs.Keys <= d.convs.Keys && db.members.Keys <= d.members.Keys
    && (forall id | id in db.messages :: id in d.messages && SameIdentity(db.messages[id], d.messages[id]))
  }

  predicate SameIdentity(m: Message, n: Message) {
    n.(body := m.body, deleted := m.deleted, reactions := m.reactions) == m
  }

  lemma PostGrows(db: Db, req: SendRequest, id: Id)
    requires Postable(db, req, id)
    ensures Grows(db, Posted(db, req, id))
    ensures id in Posted(db, req, id).messages && SentBy(Posted(db, req, id).messages[id], req.sender, req.clientId)
  {
    PostedTables(db, req, id);
  }

  lemma OtherGrows(db: Db, op: Op)
    requires Accepted(db, op) && !op.Post?
    ensures Grows(db, Exec(db, op))
  {
  }

  lemma ExecGrows(db: Db, op: Op)
    ensures Grows(db, Exec(db, op))
  {
    if Accepted(db, op) {
      if op.Post? {
        PostGrows(db, op.req, op.id);
      } else {
        OtherGrows(db, op);
      }
    }
  }

  lemma GrowsKeepsPromises(db: Db, d: Db, flights: map<nat, SendRequest>, replies: map<nat, Reply>)
    requires Grows(db, d) && FlightsOk(db, flights) && RepliesHold(db, replies)
    ensures FlightsOk(d, flights) && RepliesHold(d, replies)
  {
    forall rid | rid in flights
      ensures Sendable(d, flights[rid])
    {
      assert Sendable(db, flights[rid]);
    }
    forall rid | rid in replies
      ensures ReplyHolds(d, replies[rid])
    {
      assert ReplyHolds(db, replies[rid]);
    }
  }

  // ---------- refinement ----------

  /** The atomic operation a step performs on the committed tables, if any. */
  function Committed(s: Sys, step: Step): seq<Op> {
    if !Enabled(s, step) then []
    else
      match step
      case Commit => [Post(s.flights[s.writer.value.rid], s.writer.value.id)]
      case Atomic(op) => [op]
      case _ => []
  }

  lemma ExecOne(db: Db, op: Op)
    ensures ExecAll(db, [op]) == Exec(db, op)
  {
    assert [op][..0] == [];
  }

  lemma FlushKeepsWork(s: Sys, id: Id)
    requires WriterOk(s) && Writing(s, Allocated)
    ensures WriterOk(FlushStep(s, id))
  {
  }

  lemma ClaimKeepsWork(s: Sys)
    requires WriterOk(s) && Writing(s, RowFlushed)
    ensures s.writer.value.id in s.writer.value.work.messages && WriterOk(ClaimStep(s))
  {
  }

  lemma CountKeepsWork(s: Sys)
    requires WriterOk(s) && FlightsOk(s.db, s.flights) && Writing(s, AttachmentsClaimed)
    ensures WriterOk(CountStep(s))
  {
    var w := s.writer.value;
    var req := s.flights[w.rid];
    assert Sendable(s.db, req);
    assert w.work.convs == NextSeq(s.db, req.conv).convs;
  }

  lemma CommitIsPost(s: Sys)
    requires WriterOk(s) && Writing(s, AllCounted)
    ensures Postable(s.db, s.flights[s.writer.value.rid], s.writer.value.id)
    ensures CommitStep(s).db == Exec(s.db, Post(s.flights[s.writer.value.rid], s.writer.value.id))
  {
  }

  lemma StepRefines(s: Sys, step: Step)
    requires WriterOk(s) && FlightsOk(s.db, s.flights)
    ensures Apply(s, step).db == ExecAll(s.db, Committed(s, step))
    ensures WriterOk(Apply(s, step))
  {
    if Enabled(s, step) {
      match step
      case Flush(id) => FlushKeepsWork(s, id);
      case Claim => ClaimKeepsWork(s);
      case Count => CountKeepsWork(s);
      case Commit =>
        CommitIsPost(s);
        ExecOne(s.db, Post(s.flights[s.writer.value.rid], s.writer.value.id));
      case Atomic(op) => ExecOne(s.db, op);
      case _ =>
    }
  }

  lemma CheckKeepsPromises(s: Sys, rid: nat, req: SendRequest)
    requires FlightsOk(s.db, s.flights) && RepliesHold(s.db, s.replies)
    ensures FlightsOk(s.db, CheckStep(s, rid, req).flights) && RepliesHold(s.db, CheckStep(s, rid, req).replies)
  {
    assert CheckSend(s.db, req).Proceed? ==> Sendable(s.db, req);
  }

  lemma CommitKeepsPromises(s: Sys)
    requires FlightsOk(s.db, s.flights) && RepliesHold(s.db, s.replies) && WriterOk(s) && Writing(s, AllCounted)
    ensures FlightsOk(CommitStep(s).db, CommitStep(s).flights) && RepliesHold(CommitStep(s).db, CommitStep(s).replies)
  {
    var w := s.writer.value;
    CommitIsPost(s);
    PostGrows(s.db, s.flights[w.rid], w.id);
    GrowsKeepsPromises(s.db, CommitStep(s).db, s.flights, s.replies);
    assert CommitStep(s).replies == s.replies[w.rid := Reply(s.flights[w.rid], Saved(w.id))];
  }

  lemma AbortKeepsPromises(db: Db, s: Sys, rid: nat, req: SendRequest, error: Error)
    requires FlightsOk(db, s.flights) && RepliesHold(db, s.replies)
    ensures FlightsOk(db, Answered(s, rid, req, Failed(error)).flights)
    ensures RepliesHold(db, Answered(s, rid, req, Failed(error)).replies)
  {
  }

  lemma StepKeepsPromises(s: Sys, step: Step)
    requires FlightsOk(s.db, s.flights) && RepliesHold(s.db, s.replies) && WriterOk(s) && Enabled(s, step)
    ensures FlightsOk(Apply(s, step).db, Apply(s, step).flights) &&
            RepliesHold(Apply(s, step).db, Apply(s, step).replies)
  {
    match step
    case Check(rid, req) => CheckKeepsPromises(s, rid, req);
    case Flush(_) => AbortKeepsPromises(s.db, s, s.writer.value.rid, s.flights[s.writer.value.rid], Integrity);
    case Claim => AbortKeepsPromises(s.db, s, s.writer.value.rid, s.flights[s.writer.value.rid], Validation);
    case Commit => CommitKeepsPromises(s);
    case Abort(error) => AbortKeepsPromises(s.db, s, s.writer.value.rid, s.flights[s.writer.value.rid], error);
    case GiveUp(rid, error) => AbortKeepsPromises(s.db, s, rid, s.flights[rid], error);
    case Atomic(op) =>
      ExecGrows(s.db, op);
      GrowsKeepsPromises(s.db, Exec(s.db, op), s.flights, s.replies);
    case _ =>
  }

  lemma StepKeepsInvariant(s: Sys, step: Step)
    requires SysOk(s)
    ensures SysOk(Apply(s, step))
  {
    StepRefines(s, step);
    RunKeepsLog(s.db, Committed(s, step));
    if Enabled(s, step) {
      StepKeepsPromises(s, step);
    }
  }

  ghost function AllCommitted(s: Sys, steps: seq<Step>): seq<Op> {
    if steps == [] then []
    else
      var front := steps[..|steps| - 1];
      AllCommitted(s, front) + Committed(Run(s, front), steps[|steps| - 1])
  }

  lemma ExecAllOne(db: Db, ops: seq<Op>, more: seq<Op>)
    requires |more| <= 1
    ensures ExecAll(db, ops + more) == ExecAll(ExecAll(db, ops), more)
  {
    if |more| == 1 {
      assert (ops + more)[..|ops + more| - 1] == ops;
      assert more[..0] == [];
    } else {
      assert ops + more == ops;
    }
  }

  /** Main result: any interleaving is equivalent to its commits, performed one after another. */
  lemma {:induction false} RunRefines(s: Sys, steps: seq<Step>)
    requires SysOk(s)
    ensures SysOk(Run(s, steps))
    ensures Run(s, steps).db == ExecAll(s.db, AllCommitted(s, steps))
  {
    if steps != [] {
      var front := steps[..|steps| - 1];
      RunRefines(s, front);
      StepRefines(Run(s, front), steps[|steps| - 1]);
      StepKeepsInvariant(Run(s, front), steps[|steps| - 1]);
      ExecAllOne(s.db, AllCommitted(s, front), Committed(Run(s, front), steps[|steps| - 1]));
    }
  }
}
