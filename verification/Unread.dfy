/**
 The denormalised unread counter against the count it stands for. Deleting a message does not touch
 the counter, so it lies between the live count and the count that includes deleted messages.
 */
module Unread {
  import opened Collections
  import opened Database
  import opened ServerSpec
  import opened LogInvariant
  import opened Receipts

  /** live <= counter <= live and deleted, both counted above the member's read cursor. */
  ghost predicate Sandwiched(db: Db, c: Id, u: Id)
    requires (c, u) in db.members
  {
    var m := db.members[(c, u)];
    |LiveAbove(db, c, u, m.lastReadSeq)| <= m.unreadCount <= |AllAbove(db, c, u, m.lastReadSeq)|
  }

  /** Neither joining anew nor leaving: a member since creation who never left. */
  predicate Stays(c: Id, u: Id, op: Op) {
    op != Leave(c, u)
  }

  lemma LiveIsSubset(db: Db, c: Id, u: Id, read: nat)
    ensures LiveAbove(db, c, u, read) <= AllAbove(db, c, u, read)
    ensures |LiveAbove(db, c, u, read)| <= |AllAbove(db, c, u, read)|
  {
    SubsetSize(LiveAbove(db, c, u, read), AllAbove(db, c, u, read));
  }

  lemma PostCounts(db: Db, req: SendRequest, id: Id, u: Id, read: nat)
    requires Postable(db, req, id) && req.sender != u && read <= db.convs[req.conv].lastSeq
    ensures LiveAbove(Posted(db, req, id), req.conv, u, read) == LiveAbove(db, req.conv, u, read) + {id}
    ensures AllAbove(Posted(db, req, id), req.conv, u, read) == AllAbove(db, req.conv, u, read) + {id}
    ensures id !in AllAbove(db, req.conv, u, read) && id !in LiveAbove(db, req.conv, u, read)
  {
    PostedTables(db, req, id);
  }

  lemma ElsewhereUnchanged(db: Db, req: SendRequest, id: Id, c: Id, u: Id, read: nat)
    requires Postable(db, req, id) && req.conv != c
    ensures LiveAbove(Posted(db, req, id), c, u, read) == LiveAbove(db, c, u, read)
    ensures AllAbove(Posted(db, req, id), c, u, read) == AllAbove(db, c, u, read)
  {
    PostedTables(db, req, id);
  }

  lemma ForeignPostKeepsSandwich(db: Db, req: SendRequest, id: Id, u: Id)
    requires Postable(db, req, id) && req.sender != u
    requires IsMember(db, req.conv, u) && Sandwiched(db, req.conv, u)
    requires db.members[(req.conv, u)].lastReadSeq <= db.convs[req.conv].lastSeq
    ensures IsMember(Posted(db, req, id), req.conv, u) && Sandwiched(Posted(db, req, id), req.conv, u)
  {
    var m := db.members[(req.conv, u)];
    PostedTables(db, req, id);
    PostCounts(db, req, id, u, m.lastReadSeq);
    assert Posted(db, req, id).members[(req.conv, u)] == m.(unreadCount := m.unreadCount + 1);
  }

  lemma PostElsewhereKeepsSandwich(db: Db, req: SendRequest, id: Id, c: Id, u: Id)
    requires Postable(db, req, id) && req.conv != c && IsMember(db, c, u) && Sandwiched(db, c, u)
    ensures IsMember(Posted(db, req, id), c, u) && Sandwiched(Posted(db, req, id), c, u)
  {
    PostedTables(db, req, id);
    ElsewhereUnchanged(db, req, id, c, u, db.members[(c, u)].lastReadSeq);
    assert Posted(db, req, id).members[(c, u)] == db.members[(c, u)];
  }

  lemma PostKeepsSandwich(db: Db, req: SendRequest, id: Id, c: Id, u: Id)
    requires LogOk(db) && CursorsBounded(db) && Postable(db, req, id)
    requires IsMember(db, c, u) && Sandwiched(db, c, u)
    ensures IsMember(Posted(db, req, id), c, u) && Sandwiched(Posted(db, req, id), c, u)
  {
    if req.conv != c {
      PostElsewhereKeepsSandwich(db, req, id, c, u);
    } else if req.sender == u {
      PostedTables(db, req, id);
    } else {
      assert db.members[(c, u)].lastReadSeq <= db.members[(c, u)].lastDeliveredSeq <= db.convs[c].lastSeq;
      ForeignPostKeepsSandwich(db, req, id, u);
    }
  }

  lemma DeleteKeepsSandwich(db: Db, who: Id, mid: Id, c: Id, u: Id)
    requires Accepted(db, Delete(who, mid)) && IsMember(db, c, u) && Sandwiched(db, c, u)
    requires RowsOk(db.messages, db.convs, db.members)
    ensures Sandwiched(Exec(db, Delete(who, mid)), c, u)
  {
    var d, read := Exec(db, Delete(who, mid)), db.members[(c, u)].lastReadSeq;
    assert AllAbove(d, c, u, read) == AllAbove(db, c, u, read);
    SubsetSize(LiveAbove(d, c, u, read), LiveAbove(db, c, u, read));
  }

  /** The counts look at conversation, seq, sender and the deleted flag only. */
  lemma CountsFollowRows(db: Db, d: Db, c: Id, u: Id, read: nat)
    requires db.messages.Keys == d.messages.Keys
    requires forall id | id in db.messages ::
      SameSlot(db.messages[id], d.messages[id]) && db.messages[id].sender == d.messages[id].sender
      && db.messages[id].deleted == d.messages[id].deleted
    ensures LiveAbove(d, c, u, read) == LiveAbove(db, c, u, read) && AllAbove(d, c, u, read) == AllAbove(db, c, u, read)
  {
  }

  lemma ReadKeepsSandwich(db: Db, c: Id, u: Id, seqNo: int)
    requires IsMember(db, c, u)
    ensures IsMember(Exec(db, MarkRead(c, u, seqNo)), c, u) && Sandwiched(Exec(db, MarkRead(c, u, seqNo)), c, u)
  {
    var d := Exec(db, MarkRead(c, u, seqNo));
    CountsFollowRows(db, d, c, u, d.members[(c, u)].lastReadSeq);
    LiveIsSubset(db, c, u, d.members[(c, u)].lastReadSeq);
  }

  lemma OtherKeepsMember(db: Db, op: Op, c: Id, u: Id)
    requires Accepted(db, op) && !op.Post? && !op.Delete? && Stays(c, u, op) && IsMember(db, c, u)
    requires !(op.MarkRead? && op.c == c && op.u == u)
    ensures var d := Exec(db, op);
      IsMember(d, c, u) && d.members[(c, u)].(lastDeliveredSeq := 0) == db.members[(c, u)].(lastDeliveredSeq := 0)
  {
  }

  lemma OtherKeepsSandwich(db: Db, op: Op, c: Id, u: Id)
    requires Accepted(db, op) && !op.Post? && !op.Delete? && Stays(c, u, op)
    requires IsMember(db, c, u) && Sandwiched(db, c, u) && RowsOk(db.messages, db.convs, db.members)
    ensures IsMember(Exec(db, op), c, u) && Sandwiched(Exec(db, op), c, u)
  {
    if op.MarkRead? && op.c == c && op.u == u {
      ReadKeepsSandwich(db, c, u, op.seqNo);
    } else {
      OtherKeepsMember(db, op, c, u);
      CountsFollowRows(db, Exec(db, op), c, u, db.members[(c, u)].lastReadSeq);
    }
  }

  lemma ExecKeepsSandwich(db: Db, op: Op, c: Id, u: Id)
    requires LogOk(db) && CursorsBounded(db) && Stays(c, u, op)
    requires IsMember(db, c, u) && Sandwiched(db, c, u)
    ensures IsMember(Exec(db, op), c, u) && Sandwiched(Exec(db, op), c, u)
  {
    if Accepted(db, op) {
      match op
      case Post(req, id) => PostKeepsSandwich(db, req, id, c, u);
      case Delete(who, mid) => DeleteKeepsSandwich(db, who, mid, c, u);
      case _ => OtherKeepsSandwich(db, op, c, u);
    }
  }

  lemma {:induction false} RunKeepsSandwich(db: Db, ops: seq<Op>, c: Id, u: Id)
    requires LogOk(db) && CursorsBounded(db) && AcksBounded(db, ops)
    requires IsMember(db, c, u) && Sandwiched(db, c, u)
    requires forall op | op in ops :: Stays(c, u, op)
    ensures IsMember(ExecAll(db, ops), c, u) && Sandwiched(ExecAll(db, ops), c, u)
  {
    if ops != [] {
      var front := ops[..|ops| - 1];
      AcksBoundedPrefix(db, ops);
      RunKeepsSandwich(db, front, c, u);
      RunKeepsLog(db, front);
      CursorsNeverDecrease(db, front);
      ExecKeepsSandwich(ExecAll(db, front), ops[|ops| - 1], c, u);
    }
  }

  /** From the creation of a conversation on, for a founding member who never leaves. */
  lemma UnreadIsSandwiched(db: Db, users: set<Id>, ops: seq<Op>, c: Id, u: Id)
    requires LogOk(db) && CursorsBounded(db) && Accepted(db, Open(c, users)) && u in users
    requires AcksBounded(Exec(db, Open(c, users)), ops) && forall op | op in ops :: Stays(c, u, op)
    ensures var d := ExecAll(Exec(db, Open(c, users)), ops); IsMember(d, c, u) && Sandwiched(d, c, u)
  {
    var d := Exec(db, Open(c, users));
    ExecKeepsLog(db, Open(c, users));
    ExecKeepsBound(db, Open(c, users));
    RunKeepsSandwich(d, ops, c, u);
  }

  /** Whatever the counter was, an undisturbed mark_read makes it exact. */
  lemma MarkReadRecounts(db: Db, c: Id, u: Id, seqNo: int)
    requires IsMember(db, c, u)
    ensures var d := Exec(db, MarkRead(c, u, seqNo));
      d.members[(c, u)].unreadCount == |LiveAbove(d, c, u, d.members[(c, u)].lastReadSeq)|
  {
    var d := Exec(db, MarkRead(c, u, seqNo));
    CountsFollowRows(db, d, c, u, d.members[(c, u)].lastReadSeq);
  }

  /** The counter is exact right after mark_read, and while nothing above the cursor is deleted. */
  lemma UnreadIsExact(db: Db, c: Id, u: Id, seqNo: int)
    requires IsMember(db, c, u) && Sandwiched(db, c, u)
    ensures var d := Exec(db, MarkRead(c, u, seqNo));
      d.members[(c, u)].unreadCount == |LiveAbove(d, c, u, d.members[(c, u)].lastReadSeq)|
    ensures (forall id | id in AllAbove(db, c, u, db.members[(c, u)].lastReadSeq) :: !db.messages[id].deleted) ==>
      db.members[(c, u)].unreadCount == |LiveAbove(db, c, u, db.members[(c, u)].lastReadSeq)|
  {
    var m := db.members[(c, u)];
    MarkReadRecounts(db, c, u, seqNo);
    if forall id | id in AllAbove(db, c, u, m.lastReadSeq) :: !db.messages[id].deleted {
      assert LiveAbove(db, c, u, m.lastReadSeq) == AllAbove(db, c, u, m.lastReadSeq);
    }
  }
}
