/** What every interleaving of sends, retries and aborts guarantees. */
module SendTheorems {
  import opened Wrappers
  import opened Collections
  import opened Database
  import opened ServerSpec
  import opened LogInvariant
  import opened SendProtocol

  const INITIAL := Sys(EMPTY_DB, map[], None, map[])

  /** Safety of every run from an empty database: the tables are sound, and nobody is answered twice. */
  lemma EveryRunIsSafe(steps: seq<Step>)
    ensures SysOk(Run(INITIAL, steps)) && Answerable(Run(INITIAL, steps))
  {
    EmptyIsOk();
    RunRefines(INITIAL, steps);
    RunAnswersOnce(INITIAL, steps);
  }

  /** A request in flight has no answer yet. */
  predicate Answerable(s: Sys) {
    s.flights.Keys !! s.replies.Keys
  }

  lemma StepAnswersOnce(s: Sys, step: Step)
    requires Answerable(s)
    ensures Answerable(Apply(s, step))
    ensures s.replies.Keys <= Apply(s, step).replies.Keys
    ensures forall rid | rid in s.replies :: Apply(s, step).replies[rid] == s.replies[rid]
  {
  }

  lemma {:induction false} RunAnswersOnce(s: Sys, steps: seq<Step>)
    requires Answerable(s)
    ensures Answerable(Run(s, steps))
    ensures forall rid | rid in s.replies ::
              rid in Run(s, steps).replies && Run(s, steps).replies[rid] == s.replies[rid]
  {
    if steps != [] {
      RunAnswersOnce(s, steps[..|steps| - 1]);
      StepAnswersOnce(Run(s, steps[..|steps| - 1]), steps[|steps| - 1]);
    }
  }

  // ---------- no gap, no duplicate: as many rows as seqs handed out ----------

  function RowsUpTo(messages: Messages, c: Id, n: nat): set<Id> {
    set id | id in messages && messages[id].conv == c && messages[id].seqNo <= n
  }

  lemma NoRowsAtZero(messages: Messages, convs: Convs, members: Members, c: Id)
    requires RowsOk(messages, convs, members)
    ensures RowsUpTo(messages, c, 0) == {}
  {
    forall id | id in messages && messages[id].conv == c
      ensures messages[id].seqNo > 0
    {
      assert RowOk(messages[id], messages, convs, members);
    }
  }

  lemma OneMoreRow(messages: Messages, c: Id, n: nat)
    requires OneRowPerSeq(messages) && HasRow(messages, c, n) && n > 0
    ensures |RowsUpTo(messages, c, n)| == |RowsUpTo(messages, c, n - 1)| + 1
  {
    var id :| id in messages && AtSlot(messages[id], c, n);
    forall k | k in RowsUpTo(messages, c, n) && k != id
      ensures k in RowsUpTo(messages, c, n - 1)
    {
      assert !SameSlot(messages[k], messages[id]);
    }
    assert RowsUpTo(messages, c, n) == RowsUpTo(messages, c, n - 1) + {id};
  }

  lemma {:induction false} RowsUpToCount(messages: Messages, convs: Convs, members: Members, c: Id, n: nat)
    requires RowsOk(messages, convs, members) && OneRowPerSeq(messages) && NoGaps(convs, messages)
    requires c in convs && n <= convs[c].lastSeq
    ensures |RowsUpTo(messages, c, n)| == n
  {
    if n == 0 {
      NoRowsAtZero(messages, convs, members, c);
    } else {
      RowsUpToCount(messages, convs, members, c, n - 1);
      assert HasRow(messages, c, n);
      OneMoreRow(messages, c, n);
    }
  }

  /** In every reachable state a conversation holds exactly `last_seq` rows, however many sends failed. */
  lemma RowsMatchAllocator(steps: seq<Step>, c: Id)
    requires c in Run(INITIAL, steps).db.convs
    ensures var db := Run(INITIAL, steps).db;
      |set id | id in db.messages && db.messages[id].conv == c| == db.convs[c].lastSeq
  {
    EveryRunIsSafe(steps);
    var db := Run(INITIAL, steps).db;
    RowsUpToCount(db.messages, db.convs, db.members, c, db.convs[c].lastSeq);
    forall id | id in db.messages && db.messages[id].conv == c
      ensures id in RowsUpTo(db.messages, c, db.convs[c].lastSeq)
    {
      assert RowOk(db.messages[id], db.messages, db.convs, db.members);
    }
    assert RowsUpTo(db.messages, c, db.convs[c].lastSeq) == set id | id in db.messages && db.messages[id].conv == c;
  }

  // ---------- aborted sends ----------

  /** A send in its transaction, not yet committed: nobody else's step can touch the tables. */
  lemma {:induction false} LockHolds(s: Sys, rid: nat, steps: seq<Step>)
    requires Answerable(s) && s.writer.Some? && s.writer.value.rid == rid && rid in s.flights
    requires forall step | step in steps :: !step.Commit?
    ensures var t := Run(s, steps);
      && Answerable(t)
      && (rid in t.replies || (t.db == s.db && t.writer.Some? && t.writer.value.rid == rid && rid in t.flights))
  {
    if steps != [] {
      var front := steps[..|steps| - 1];
      LockHolds(s, rid, front);
      StepAnswersOnce(Run(s, front), steps[|steps| - 1]);
    }
  }

  /** Whatever runs beside it, a send that aborts after allocating leaves the tables as it found them:
      no row, no claimed attachment, no counter, no cursor, and its seq is handed out again. */
  lemma AbortedSendLeavesNoTrace(s: Sys, rid: nat, beside: seq<Step>, error: Error)
    requires Answerable(s) && Enabled(s, Allocate(rid))
    requires forall step | step in beside :: !step.Commit?
    requires var t := Run(Apply(s, Allocate(rid)), beside);
             t.writer.Some? && t.writer.value.rid == rid && rid in t.flights
    ensures var t := Apply(Run(Apply(s, Allocate(rid)), beside), Abort(error));
      && t.db == s.db && t.writer.None? && rid !in t.flights
      && rid in t.replies && t.replies[rid] == Reply(s.flights[rid], Failed(error))
  {
    var a := Apply(s, Allocate(rid));
    LockHolds(a, rid, beside);
    FlightIsFixed(a, rid, beside);
  }

  lemma {:induction false} FlightIsFixed(s: Sys, rid: nat, steps: seq<Step>)
    requires Answerable(s) && rid in s.flights
    ensures Answerable(Run(s, steps)) && Carried(Run(s, steps), rid, s.flights[rid])
  {
    if steps == [] {
      assert Run(s, steps) == s;
    } else {
      var front := steps[..|steps| - 1];
      FlightIsFixed(s, rid, front);
      StepAnswersOnce(Run(s, front), steps[|steps| - 1]);
      StepCarries(Run(s, front), rid, s.flights[rid], steps[|steps| - 1]);
    }
  }

  /** The request is still in flight as it came in, or is answered. */
  predicate Carried(s: Sys, rid: nat, req: SendRequest) {
    rid in s.replies || (rid in s.flights && s.flights[rid] == req)
  }

  lemma StepCarries(s: Sys, rid: nat, req: SendRequest, step: Step)
    requires Carried(s, rid, req)
    ensures Carried(Apply(s, step), rid, req)
  {
  }

  // ---------- two sends with one key ----------

  /** Both passed the duplicate check, one committed: the other fails at the flush, before the handler
      that would have looked up the winner, and changes nothing but the seq it gives back. */
  lemma RaceLoserFails(s: Sys, rid: nat, id: Id)
    requires SysOk(s) && Enabled(s, Allocate(rid))
    requires HasDuplicate(s.db, s.flights[rid].sender, s.flights[rid].clientId)
    ensures var t := Apply(Apply(s, Allocate(rid)), Flush(id));
      && t.db == s.db && t.writer.None? && rid !in t.flights
      && rid in t.replies && t.replies[rid].outcome == Failed(Integrity)
  {
    var w := Apply(s, Allocate(rid)).writer.value;
    var req := s.flights[rid];
    assert w.work.messages == s.db.messages;
    assert HasDuplicate(w.work, req.sender, req.clientId);
  }

  /** A member's row fits as long as nobody committed its key: the seq just allocated is free. */
  lemma FlushOkExactly(db: Db, req: SendRequest, id: Id)
    requires RowsOk(db.messages, db.convs, db.members) && req.conv in db.convs && id !in db.messages
    ensures FlushOk(db, req, id) <==> !HasDuplicate(db, req.sender, req.clientId)
  {
    assert forall k | k in db.messages :: RowOk(db.messages[k], db.messages, db.convs, db.members);
    assert HasDuplicate(NextSeq(db, req.conv), req.sender, req.clientId) <==>
           HasDuplicate(db, req.sender, req.clientId);
  }

  /** Main result on races: of a send past its checks, the flush raises the integrity error if and only if
      another send with its key was committed since, and otherwise it goes on holding the lock. */
  lemma RaceLoserFailsExactly(s: Sys, rid: nat, id: Id)
    requires SysOk(s) && Enabled(s, Allocate(rid)) && rid !in s.replies && id !in s.db.messages
    ensures var t := Apply(Apply(s, Allocate(rid)), Flush(id));
      && (rid in t.replies && t.replies[rid].outcome == Failed(Integrity)
          <==> HasDuplicate(s.db, s.flights[rid].sender, s.flights[rid].clientId))
      && (rid !in t.replies <==> Writing(t, RowFlushed) && t.writer.value.rid == rid)
  {
    var req := s.flights[rid];
    FlushOkExactly(s.db, req, id);
    assert Writing(Apply(s, Allocate(rid)), Allocated);
  }

  /** The handler around the commit never runs: the flushed rows satisfy every constraint already. */
  lemma CommitNeverConflicts(s: Sys)
    requires SysOk(s) && Writing(s, AllCounted)
    ensures OneRowPerSeq(s.writer.value.work.messages) && OneRowPerClientId(s.writer.value.work.messages)
    ensures LogOk(s.writer.value.work)
  {
    PostKeepsLog(s.db, s.flights[s.writer.value.rid], s.writer.value.id);
  }

  /** A member's retry of a committed send gets that very row and changes no table. */
  lemma RetryReplays(s: Sys, rid: nat, req: SendRequest, id: Id)
    requires SysOk(s) && Enabled(s, Check(rid, req)) && IsMember(s.db, req.conv, req.sender)
    requires id in s.db.messages && SentBy(s.db.messages[id], req.sender, req.clientId)
    ensures Apply(s, Check(rid, req)) ==
            s.(flights := s.flights - {rid}, replies := s.replies[rid := Reply(req, Saved(id))])
  {
    assert HasDuplicate(s.db, req.sender, req.clientId);
    var d := TheDuplicate(s.db, req.sender, req.clientId);
    assert SentBy(s.db.messages[d], s.db.messages[id].sender, s.db.messages[id].clientId);
  }

  // ---------- attachments ----------

  lemma ExecKeepsClaims(db: Db, op: Op, a: Id)
    requires a in db.attachments && db.attachments[a].messageId.Some?
    ensures a in Exec(db, op).attachments && Exec(db, op).attachments[a] == db.attachments[a]
  {
    if Accepted(db, op) && op.Post? {
      PostedTables(db, op.req, op.id);
    }
  }

  lemma {:induction false} OpsKeepClaims(db: Db, ops: seq<Op>, a: Id)
    requires a in db.attachments && db.attachments[a].messageId.Some?
    ensures a in ExecAll(db, ops).attachments && ExecAll(db, ops).attachments[a] == db.attachments[a]
  {
    if ops != [] {
      OpsKeepClaims(db, ops[..|ops| - 1], a);
      ExecKeepsClaims(ExecAll(db, ops[..|ops| - 1]), ops[|ops| - 1], a);
    }
  }

  /** Once committed, a claim is never changed, in any interleaving. */
  lemma ClaimsAreFinal(s: Sys, steps: seq<Step>, a: Id)
    requires SysOk(s) && a in s.db.attachments && s.db.attachments[a].messageId.Some?
    ensures a in Run(s, steps).db.attachments && Run(s, steps).db.attachments[a] == s.db.attachments[a]
  {
    RunRefines(s, steps);
    OpsKeepClaims(s.db, AllCommitted(s, steps), a);
  }

  /** A successful post claims exactly the attachments it named, as a set. */
  lemma PostClaimsExactly(db: Db, req: SendRequest, id: Id)
    requires LogOk(db) && Postable(db, req, id)
    ensures AttachmentsOf(Posted(db, req, id).attachments, id) == set a | a in req.attachmentIds
    ensures forall k | k != id ::
              AttachmentsOf(Posted(db, req, id).attachments, k) == AttachmentsOf(db.attachments, k)
  {
    PostedTables(db, req, id);
    ClaimedSets(db, req.sender, req.attachmentIds, id);
    assert SetOf(req.attachmentIds) == set a | a in req.attachmentIds;
  }

  // ---------- a send by itself ----------

  lemma RunSnoc(s: Sys, steps: seq<Step>, step: Step)
    ensures Run(s, steps + [step]) == Apply(Run(s, steps), step)
  {
    assert (steps + [step])[..|steps|] == steps;
  }

  function WholeSend(rid: nat, req: SendRequest, id: Id): seq<Step> {
    [Check(rid, req)] + [Allocate(rid)] + [Flush(id)] + [Claim] + [Count] + [Commit]
  }

  lemma WholeSendRuns(s: Sys, rid: nat, req: SendRequest, id: Id)
    ensures Run(s, WholeSend(rid, req, id)) ==
            Apply(Apply(Apply(Apply(Apply(Apply(s, Check(rid, req)), Allocate(rid)), Flush(id)), Claim), Count), Commit)
  {
    var a := [Check(rid, req)];
    assert [] + a == a && Run(s, []) == s;
    RunSnoc(s, [], Check(rid, req));
    RunSnoc(s, a, Allocate(rid));
    RunSnoc(s, a + [Allocate(rid)], Flush(id));
    RunSnoc(s, a + [Allocate(rid)] + [Flush(id)], Claim);
    RunSnoc(s, a + [Allocate(rid)] + [Flush(id)] + [Claim], Count);
    RunSnoc(s, a + [Allocate(rid)] + [Flush(id)] + [Claim] + [Count], Commit);
  }

  /** The send holds the write lock. */
  function Held(s: Sys, rid: nat, req: SendRequest, id: Id, stage: Stage, work: Db): Sys {
    s.(flights := s.flights[rid := req], writer := Some(Writer(rid, id, stage, work)))
  }

  function Ended(s: Sys, rid: nat, req: SendRequest, outcome: Outcome): Sys {
    s.(replies := s.replies[rid := Reply(req, outcome)])
  }

  predicate Idle(s: Sys, rid: nat) {
    s.writer.None? && rid !in s.flights && rid !in s.replies
  }

  lemma FlushHolds(s: Sys, rid: nat, req: SendRequest, id: Id)
    requires Idle(s, rid) && req.conv in s.db.convs
    ensures Apply(Held(s, rid, req, "", Allocated, NextSeq(s.db, req.conv)), Flush(id)) ==
            if FlushOk(s.db, req, id) then Held(s, rid, req, id, RowFlushed, Flushed(s.db, req, id))
            else Ended(s, rid, req, Failed(Integrity))
  {
    assert s.flights[rid := req] - {rid} == s.flights;
  }

  lemma ClaimHolds(s: Sys, rid: nat, req: SendRequest, id: Id)
    requires Idle(s, rid) && req.conv in s.db.convs
    ensures Apply(Held(s, rid, req, id, RowFlushed, Flushed(s.db, req, id)), Claim) ==
            if ClaimOk(s.db, req)
            then Held(s, rid, req, id, AttachmentsClaimed, WithClaim(Flushed(s.db, req, id), req, id))
            else Ended(s, rid, req, Failed(Validation))
  {
    assert s.flights[rid := req] - {rid} == s.flights;
    assert ClaimOk(Flushed(s.db, req, id), req) <==> ClaimOk(s.db, req);
  }

  lemma CountHolds(s: Sys, rid: nat, req: SendRequest, id: Id, work: Db)
    requires Idle(s, rid) && req.conv in work.convs
    ensures Apply(Held(s, rid, req, id, AttachmentsClaimed, work), Count) ==
            Held(s, rid, req, id, AllCounted, Counted(work, req, id, work.convs[req.conv].lastSeq))
  {
  }

  lemma CommitReleases(s: Sys, rid: nat, req: SendRequest, id: Id, work: Db)
    requires Idle(s, rid) && req.conv in work.convs
    ensures Apply(Held(s, rid, req, id, AllCounted, work), Commit) ==
            Ended(s, rid, req, Saved(id)).(db := work)
  {
    assert s.flights[rid := req] - {rid} == s.flights;
  }

  lemma CommitEnds(s: Sys, rid: nat, req: SendRequest, id: Id)
    requires Idle(s, rid) && req.conv in s.db.convs
    ensures Apply(Apply(Held(s, rid, req, id, AttachmentsClaimed, WithClaim(Flushed(s.db, req, id), req, id)), Count),
            Commit)
            == Ended(s, rid, req, Saved(id)).(db := Posted(s.db, req, id))
  {
    var work := WithClaim(Flushed(s.db, req, id), req, id);
    assert work.convs[req.conv].lastSeq == SeqOf(s.db, req);
    CountHolds(s, rid, req, id, work);
    CommitReleases(s, rid, req, id, Posted(s.db, req, id));
  }

  /** With nothing to write, the remaining steps do nothing. */
  lemma NothingHeld(s: Sys, step: Step)
    requires s.writer.None? && (step.Flush? || step.Claim? || step.Count? || step.Commit?)
    ensures Apply(s, step) == s
  {
  }

  /** Nothing beside it, the small steps of a send do what the one-piece operation does: the checks decide
      as they stand, and a send that passes them ends in exactly the posted tables or the untouched ones. */
  lemma UninterruptedSend(s: Sys, rid: nat, req: SendRequest, id: Id)
    requires Idle(s, rid)
    ensures Run(s, WholeSend(rid, req, id)) ==
      match CheckSend(s.db, req)
      case Reject(error) => Ended(s, rid, req, Failed(error))
      case Replay => Ended(s, rid, req, Saved(TheDuplicate(s.db, req.sender, req.clientId)))
      case Proceed =>
        if !FlushOk(s.db, req, id) then Ended(s, rid, req, Failed(Integrity))
        else if !ClaimOk(s.db, req) then Ended(s, rid, req, Failed(Validation))
        else Ended(s, rid, req, Saved(id)).(db := Exec(s.db, Post(req, id)))
  {
    WholeSendRuns(s, rid, req, id);
    if CheckSend(s.db, req).Proceed? {
      ProceedingSend(s, rid, req, id);
    } else {
      RefusedSend(s, rid, req, id);
    }
  }

  lemma RefusedSend(s: Sys, rid: nat, req: SendRequest, id: Id)
    requires Idle(s, rid) && !CheckSend(s.db, req).Proceed?
    ensures var t := Apply(s, Check(rid, req));
      && Apply(Apply(Apply(Apply(Apply(t, Allocate(rid)), Flush(id)), Claim), Count), Commit) == t
      && t == Ended(s, rid, req, if CheckSend(s.db, req).Replay?
         then Saved(TheDuplicate(s.db, req.sender, req.clientId))
                                 else Failed(CheckSend(s.db, req).error))
  {
    var t := Apply(s, Check(rid, req));
    assert s.flights - {rid} == s.flights;
    assert Apply(t, Allocate(rid)) == t;
    NothingHeld(t, Flush(id));
    NothingHeld(t, Claim);
    NothingHeld(t, Count);
    NothingHeld(t, Commit);
  }

  lemma ProceedingSend(s: Sys, rid: nat, req: SendRequest, id: Id)
    requires Idle(s, rid) && CheckSend(s.db, req).Proceed?
    ensures Apply(Apply(Apply(Apply(Apply(Apply(s, Check(rid, req)), Allocate(rid)), Flush(id)), Claim), Count),
            Commit) ==
        if !FlushOk(s.db, req, id) then Ended(s, rid, req, Failed(Integrity))
        else if !ClaimOk(s.db, req) then Ended(s, rid, req, Failed(Validation))
        else Ended(s, rid, req, Saved(id)).(db := Exec(s.db, Post(req, id)))
  {
    FlushHolds(s, rid, req, id);
    if !FlushOk(s.db, req, id) {
      var t := Ended(s, rid, req, Failed(Integrity));
      NothingHeld(t, Claim);
      NothingHeld(t, Count);
      NothingHeld(t, Commit);
    } else {
      ClaimHolds(s, rid, req, id);
      if !ClaimOk(s.db, req) {
        var t := Ended(s, rid, req, Failed(Validation));
        NothingHeld(t, Count);
        NothingHeld(t, Commit);
      } else {
        CommitEnds(s, rid, req, id);
      }
    }
  }

  // ---------- the race is reached ----------

  lemma {:induction false} RunConcat(s: Sys, steps: seq<Step>, more: seq<Step>)
    ensures Run(s, steps + more) == Run(Run(s, steps), more)
  {
    if more == [] {
      assert steps + more == steps;
    } else {
      var n := |more| - 1;
      RunConcat(s, steps, more[..n]);
      assert steps + more == (steps + more[..n]) + [more[n]];
      RunSnoc(s, steps + more[..n], more[n]);
    }
  }

  /** A conversation just opened, in which one request has passed its checks. */
  lemma OneChecked(c: Id, u: Id, req: SendRequest) returns (s: Sys)
    requires req.sender == u && req.conv == c && !Blank(req.body) && req.replyTo.None?
    ensures s == Run(INITIAL, [Atomic(Open(c, {u}))] + [Check(1, req)])
    ensures Idle(s, 0) && 1 !in s.replies && s.flights == map[1 := req]
    ensures s.db == Db(map[c := Conversation(0, None)], map[(c, u) := NEW_MEMBER], map[], map[])
  {
    var first := Atomic(Open(c, {u}));
    var db := Db(map[c := Conversation(0, None)], map[(c, u) := NEW_MEMBER], map[], map[]);
    RunSnoc(INITIAL, [], first);
    assert [] + [first] == [first] && Run(INITIAL, []) == INITIAL;
    assert Exec(EMPTY_DB, Open(c, {u})) == db by {
      assert Exec(EMPTY_DB, Open(c, {u})).members == map[(c, u) := NEW_MEMBER];
    }
    RunSnoc(INITIAL, [first], Check(1, req));
    s := Run(INITIAL, [first] + [Check(1, req)]);
    assert CheckSend(db, req) == Proceed;
  }

  /** Two requests with one key pass their checks, one is saved, and the other gets the integrity error. */
  lemma RaceHappens(c: Id, u: Id, req: SendRequest, id: Id, other: Id) returns (steps: seq<Step>)
    requires req.sender == u && req.conv == c && !Blank(req.body) && req.replyTo.None? && req.attachmentIds == []
    requires id != other
    ensures var t := Run(INITIAL, steps);
      && 0 in t.replies && t.replies[0] == Reply(req, Saved(id))
      && 1 in t.replies && t.replies[1] == Reply(req, Failed(Integrity))
  {
    var opening := [Atomic(Open(c, {u}))] + [Check(1, req)];
    var s := OneChecked(c, u, req);
    assert CheckSend(s.db, req) == Proceed && FlushOk(s.db, req, id) && ClaimOk(s.db, req);
    UninterruptedSend(s, 0, req, id);
    RunConcat(INITIAL, opening, WholeSend(0, req, id));
    var t := Run(s, WholeSend(0, req, id));
    SecondLoses(t, s.db, req, id, other);
    RunSnoc(INITIAL, opening + WholeSend(0, req, id), Allocate(1));
    RunSnoc(INITIAL, opening + WholeSend(0, req, id) + [Allocate(1)], Flush(other));
    steps := opening + WholeSend(0, req, id) + [Allocate(1)] + [Flush(other)];
  }

  lemma SecondLoses(t: Sys, db: Db, req: SendRequest, id: Id, other: Id)
    requires Postable(db, req, id) && t.db == Exec(db, Post(req, id)) && t.writer.None?
    requires 1 in t.flights && t.flights[1] == req && 0 in t.replies && t.replies[0] == Reply(req, Saved(id))
    ensures var r := Apply(Apply(t, Allocate(1)), Flush(other)).replies;
      0 in r && r[0] == Reply(req, Saved(id)) && 1 in r && r[1] == Reply(req, Failed(Integrity))
  {
    PostedTables(db, req, id);
    var w := Apply(t, Allocate(1)).writer.value;
    assert SentBy(w.work.messages[id], req.sender, req.clientId);
    assert HasDuplicate(w.work, req.sender, req.clientId);
  }
}
