/**
 mark_read beside other people's sends. The row is loaded first. If the seq moves a cursor, the cursor is
 flushed before the count, so count and write happen under the write lock; if it moves none, the count is taken
 outside it. Either way a counter that comes out equal to the one loaded is not written, because the mapper
 sees no change. What this does to the unread counter, and exactly when.
 */
module ReadRaces {
  import opened Database
  import opened ServerSpec
  import opened LogInvariant
  import opened Receipts
  import opened Unread

  /** A mark_read in flight, with the member row as it was loaded. */
  datatype Reading = Reading(c: Id, u: Id, seqNo: int, loaded: Member)

  /** A changed cursor is flushed by the count's query, which takes the write lock. */
  predicate MovesCursor(rd: Reading) {
    rd.seqNo > rd.loaded.lastReadSeq || rd.seqNo > rd.loaded.lastDeliveredSeq
  }

  /** That is, exactly when the larger of seq and cursor is not the cursor that was loaded, for one of the two. */
  lemma FlushWritesExactly(rd: Reading)
    ensures MovesCursor(rd) <==>
            Max(rd.loaded.lastReadSeq, rd.seqNo) != rd.loaded.lastReadSeq
            || Max(rd.loaded.lastDeliveredSeq, rd.seqNo) != rd.loaded.lastDeliveredSeq
  {
  }

  /** Only columns whose value differs from the loaded one are written. */
  function Saved(current: Member, rd: Reading, count: nat): Member {
    Member(if rd.seqNo > rd.loaded.lastReadSeq then rd.seqNo else current.lastReadSeq,
           if rd.seqNo > rd.loaded.lastDeliveredSeq then rd.seqNo else current.lastDeliveredSeq,
           if count != rd.loaded.unreadCount then count else current.unreadCount,
           current.active)
  }

  function Counted(db: Db, rd: Reading): nat {
    |LiveAbove(db, rd.c, rd.u, Max(rd.loaded.lastReadSeq, rd.seqNo))|
  }

  /** Flush, count and commit in one transaction. */
  function FinishLocked(db: Db, rd: Reading): Db
    requires (rd.c, rd.u) in db.members
  {
    WithMember(db, rd.c, rd.u, Saved(db.members[(rd.c, rd.u)], rd, Counted(db, rd)))
  }

  /** The commit of a count taken earlier. */
  function FinishUnlocked(db: Db, rd: Reading, count: nat): Db
    requires (rd.c, rd.u) in db.members
  {
    WithMember(db, rd.c, rd.u, Saved(db.members[(rd.c, rd.u)], rd, count))
  }

  function Load(db: Db, c: Id, u: Id, seqNo: int): Reading
    requires (c, u) in db.members
  {
    Reading(c, u, seqNo, db.members[(c, u)])
  }

  /** Nothing in between: either way to finish is the atomic mark_read. */
  lemma UndisturbedIsMarkRead(db: Db, c: Id, u: Id, seqNo: int)
    requires IsMember(db, c, u)
    ensures var rd := Load(db, c, u, seqNo);
      && FinishLocked(db, rd) == Exec(db, MarkRead(c, u, seqNo))
      && FinishUnlocked(db, rd, Counted(db, rd)) == Exec(db, MarkRead(c, u, seqNo))
  {
  }

  // ---------- sends of others meanwhile ----------

  predicate IsSend(db: Db, op: Op, c: Id, u: Id) {
    op.Post? && op.req.conv == c && op.req.sender != u && Accepted(db, op)
  }

  /** Messages of other members, posted to the conversation one after another. */
  predicate Sends(db: Db, ops: seq<Op>, c: Id, u: Id) {
    ops == [] || (Sends(db, ops[..|ops| - 1], c, u) && IsSend(ExecAll(db, ops[..|ops| - 1]), ops[|ops| - 1], c, u))
  }

  lemma SendCounts(db: Db, op: Op, c: Id, u: Id, read: nat)
    requires IsSend(db, op, c, u) && IsMember(db, c, u) && read <= db.convs[c].lastSeq
    ensures var d := Exec(db, op);
      && IsMember(d, c, u) && c in d.convs && d.convs[c].lastSeq == db.convs[c].lastSeq + 1
      && d.members[(c, u)] == db.members[(c, u)].(unreadCount := db.members[(c, u)].unreadCount + 1)
      && |LiveAbove(d, c, u, read)| == |LiveAbove(db, c, u, read)| + 1
      && |AllAbove(d, c, u, read)| == |AllAbove(db, c, u, read)| + 1
  {
    PostedTables(db, op.req, op.id);
    PostCounts(db, op.req, op.id, u, read);
  }

  /** Each of them adds one to the counter and one to what it counts. */
  lemma {:induction false} SendsCount(db: Db, ops: seq<Op>, c: Id, u: Id, read: nat)
    requires Sends(db, ops, c, u) && IsMember(db, c, u) && c in db.convs && read <= db.convs[c].lastSeq
    ensures var d := ExecAll(db, ops);
      && IsMember(d, c, u) && c in d.convs && d.convs[c].lastSeq == db.convs[c].lastSeq + |ops|
      && d.members[(c, u)] == db.members[(c, u)].(unreadCount := db.members[(c, u)].unreadCount + |ops|)
      && |LiveAbove(d, c, u, read)| == |LiveAbove(db, c, u, read)| + |ops|
      && |AllAbove(d, c, u, read)| == |AllAbove(db, c, u, read)| + |ops|
  {
    if ops == [] {
      assert ExecAll(db, ops) == db;
    } else {
      var front, last := ops[..|ops| - 1], ops[|ops| - 1];
      SendsCount(db, front, c, u, read);
      SendCounts(ExecAll(db, front), last, c, u, read);
    }
  }

  /** Finishing touches one member row only. */
  lemma FinishedCounts(db: Db, c: Id, u: Id, m: Member)
    requires (c, u) in db.members
    ensures var d := WithMember(db, c, u, m);
      && |LiveAbove(d, c, u, m.lastReadSeq)| == |LiveAbove(db, c, u, m.lastReadSeq)|
      && |AllAbove(d, c, u, m.lastReadSeq)| == |AllAbove(db, c, u, m.lastReadSeq)|
      && (Sandwiched(d, c, u) <==>
            |LiveAbove(db, c, u, m.lastReadSeq)| <= m.unreadCount <= |AllAbove(db, c, u, m.lastReadSeq)|)
  {
    var d := WithMember(db, c, u, m);
    assert LiveAbove(d, c, u, m.lastReadSeq) == LiveAbove(db, c, u, m.lastReadSeq);
    assert AllAbove(d, c, u, m.lastReadSeq) == AllAbove(db, c, u, m.lastReadSeq);
  }

  /** Main result for a cursor that moves: with `j` messages posted between load and lock, the counter is right
      unless the new count happens to equal the loaded one while fewer messages lie above the new cursor. */
  lemma LockedReadExactly(db: Db, c: Id, u: Id, seqNo: nat, sends: seq<Op>)
    requires IsMember(db, c, u) && c in db.convs && Sends(db, sends, c, u)
    requires db.members[(c, u)].lastReadSeq < seqNo <= db.convs[c].lastSeq
    ensures var rd, d := Load(db, c, u, seqNo), ExecAll(db, sends);
      && (c, u) in d.members
      && (Sandwiched(FinishLocked(d, rd), c, u) <==>
            |LiveAbove(db, c, u, seqNo)| + |sends| != rd.loaded.unreadCount
            || rd.loaded.unreadCount <= |AllAbove(db, c, u, seqNo)|)
  {
    var rd, d := Load(db, c, u, seqNo), ExecAll(db, sends);
    SendsCount(db, sends, c, u, seqNo);
    LiveIsSubset(d, c, u, seqNo);
    FinishedCounts(d, c, u, Saved(d.members[(c, u)], rd, Counted(d, rd)));
  }

  /** Main result for a cursor that stays: with `i` messages posted between load and count and `j` between count
      and commit, the counter is right if and only if none was in the second interval, or the count came out
      equal to the loaded counter and was not written. */
  lemma UnlockedReadExactly(db: Db, c: Id, u: Id, seqNo: int, before: seq<Op>, after: seq<Op>)
    requires IsMember(db, c, u) && c in db.convs && Sandwiched(db, c, u) &&
             db.members[(c, u)].lastReadSeq <= db.convs[c].lastSeq
    requires !MovesCursor(Load(db, c, u, seqNo))
    requires Sends(db, before, c, u) && Sends(ExecAll(db, before), after, c, u)
    ensures var rd, d, d' := Load(db, c, u, seqNo), ExecAll(db, before), ExecAll(ExecAll(db, before), after);
      && (c, u) in d'.members
      && (Sandwiched(FinishUnlocked(d', rd, Counted(d, rd)), c, u) <==>
            after == [] || |LiveAbove(db, c, u, rd.loaded.lastReadSeq)| + |before| == rd.loaded.unreadCount)
  {
    var rd, d, d' := Load(db, c, u, seqNo), ExecAll(db, before), ExecAll(ExecAll(db, before), after);
    var read := rd.loaded.lastReadSeq;
    SendsCount(db, before, c, u, read);
    SendsCount(d, after, c, u, read);
    LiveIsSubset(d', c, u, read);
    FinishedCounts(d', c, u, Saved(d'.members[(c, u)], rd, Counted(d, rd)));
  }

  // ---------- another mark_read meanwhile ----------

  /** Cursors are written as they were computed from the loaded row: they move back exactly when somebody moved
      one further than this seq since the load, and this seq was past the one loaded. */
  lemma CursorsMoveBackExactly(db: Db, rd: Reading)
    requires (rd.c, rd.u) in db.members
    ensures var now := db.members[(rd.c, rd.u)];
      !NotBehind(now, FinishLocked(db, rd).members[(rd.c, rd.u)]) <==>
        || rd.loaded.lastReadSeq < rd.seqNo < now.lastReadSeq
        || rd.loaded.lastDeliveredSeq < rd.seqNo < now.lastDeliveredSeq
  {
    var now := db.members[(rd.c, rd.u)];
    assert FinishLocked(db, rd).members[(rd.c, rd.u)] == Saved(now, rd, Counted(db, rd));
  }

  /** Two tabs acknowledge `seqNo` and a later `ahead`; if the first loads before the second commits and flushes
      after it, the cursors end up at the smaller seq. */
  lemma SlowerReadWins(db: Db, c: Id, u: Id, seqNo: int, ahead: int)
    requires IsMember(db, c, u) && db.members[(c, u)].lastDeliveredSeq < seqNo < ahead
    requires db.members[(c, u)].lastReadSeq < seqNo
    ensures var rd, d := Load(db, c, u, seqNo), Exec(db, MarkRead(c, u, ahead));
      && (c, u) in d.members && d.members[(c, u)].lastReadSeq == ahead
      && FinishLocked(d, rd).members[(c, u)].lastReadSeq == seqNo
      && FinishLocked(d, rd).members[(c, u)].lastDeliveredSeq == seqNo
  {
    CursorsMoveBackExactly(Exec(db, MarkRead(c, u, ahead)), Load(db, c, u, seqNo));
  }

  // ---------- both happen ----------

  /** Two posts of one member to a conversation just opened. */
  lemma TwoPosts(c: Id, u: Id, v: Id, req: SendRequest, other: SendRequest, id: Id, nextId: Id)
      returns (d1: Db, d2: Db, d3: Db)
    requires u != v && id != nextId && req.sender == v && other == req.(clientId := other.clientId) &&
             other.clientId != req.clientId
    requires req.conv == c && !Blank(req.body) && req.replyTo.None? && req.attachmentIds == []
    ensures Accepted(EMPTY_DB, Open(c, {u, v})) && d1 == Exec(EMPTY_DB, Open(c, {u, v}))
    ensures IsSend(d1, Post(req, id), c, u) && d2 == Exec(d1, Post(req, id))
    ensures IsSend(d2, Post(other, nextId), c, u) && d3 == Exec(d2, Post(other, nextId))
    ensures IsMember(d1, c, u) && d1.members[(c, u)] == NEW_MEMBER && c in d1.convs && d1.convs[c].lastSeq == 0
    ensures LiveAbove(d1, c, u, 0) == {} && d1.messages == map[]
  {
    d1 := PairOpened(c, u, v);
    assert Postable(d1, req, id);
    d2 := Exec(d1, Post(req, id));
    SecondMayPost(d1, req, other, id, nextId);
    d3 := Exec(d2, Post(other, nextId));
  }

  lemma SecondMayPost(db: Db, req: SendRequest, other: SendRequest, id: Id, nextId: Id)
    requires Postable(db, req, id) && db.messages == map[] && id != nextId && req.attachmentIds == [] &&
             req.replyTo.None?
    requires other == req.(clientId := other.clientId) && other.clientId != req.clientId
    ensures Postable(Posted(db, req, id), other, nextId)
  {
    PostedTables(db, req, id);
  }

  /** One message comes in between load and count, one between count and commit: the badge shows one for two. */
  lemma ReadLosesBump(c: Id, u: Id, v: Id, req: SendRequest, other: SendRequest, id: Id, nextId: Id)
    returns (d1: Db, d2: Db, d3: Db)
    requires u != v && id != nextId && req.sender == v && other == req.(clientId := other.clientId) &&
             other.clientId != req.clientId
    requires req.conv == c && !Blank(req.body) && req.replyTo.None? && req.attachmentIds == []
    ensures Accepted(EMPTY_DB, Open(c, {u, v})) && d1 == Exec(EMPTY_DB, Open(c, {u, v}))
    ensures IsSend(d1, Post(req, id), c, u) && d2 == Exec(d1, Post(req, id))
    ensures IsSend(d2, Post(other, nextId), c, u) && d3 == Exec(d2, Post(other, nextId))
    ensures IsMember(d1, c, u) && (c, u) in d3.members
    ensures var d := FinishUnlocked(d3, Load(d1, c, u, 0), Counted(d2, Load(d1, c, u, 0)));
      d.members[(c, u)].unreadCount == 1 && |LiveAbove(d, c, u, d.members[(c, u)].lastReadSeq)| == 2
  {
    d1, d2, d3 := TwoPosts(c, u, v, req, other, id, nextId);
    SendCounts(d1, Post(req, id), c, u, 0);
    SendCounts(d2, Post(other, nextId), c, u, 0);
    var rd := Load(d1, c, u, 0);
    FinishedCounts(d3, c, u, Saved(d3.members[(c, u)], rd, Counted(d2, rd)));
  }

  /** A chat with one unread message is opened just as the second one comes in: the badge shows two for one. */
  lemma ReadKeepsStaleCount(c: Id, u: Id, v: Id, req: SendRequest, other: SendRequest, id: Id, nextId: Id)
    returns (d1: Db, d2: Db, d3: Db)
    requires u != v && id != nextId && req.sender == v && other == req.(clientId := other.clientId) &&
             other.clientId != req.clientId
    requires req.conv == c && !Blank(req.body) && req.replyTo.None? && req.attachmentIds == []
    ensures Accepted(EMPTY_DB, Open(c, {u, v})) && d1 == Exec(EMPTY_DB, Open(c, {u, v}))
    ensures IsSend(d1, Post(req, id), c, u) && d2 == Exec(d1, Post(req, id))
    ensures IsSend(d2, Post(other, nextId), c, u) && d3 == Exec(d2, Post(other, nextId))
    ensures IsMember(d2, c, u) && (c, u) in d3.members
    ensures var d := FinishLocked(d3, Load(d2, c, u, 1));
      d.members[(c, u)].unreadCount == 2 && |LiveAbove(d, c, u, d.members[(c, u)].lastReadSeq)| == 1
  {
    d1, d2, d3 := TwoPosts(c, u, v, req, other, id, nextId);
    OneUnread(d1, req, id, u);
    StaleCountKept(d2, Post(other, nextId), c, u);
  }

  lemma OneUnread(db: Db, req: SendRequest, id: Id, u: Id)
    requires IsSend(db, Post(req, id), req.conv, u) && IsMember(db, req.conv, u) &&
             db.members[(req.conv, u)] == NEW_MEMBER
    requires db.messages == map[] && db.convs[req.conv].lastSeq == 0
    ensures var d := Exec(db, Post(req, id));
      && IsMember(d, req.conv, u) && d.members[(req.conv, u)] == NEW_MEMBER.(unreadCount := 1)
      && req.conv in d.convs && d.convs[req.conv].lastSeq == 1 && LiveAbove(d, req.conv, u, 1) == {}
  {
    SendCounts(db, Post(req, id), req.conv, u, 0);
    FirstIsRead(db, req, id, u);
  }

  lemma FirstIsRead(db: Db, req: SendRequest, id: Id, u: Id)
    requires Postable(db, req, id) && db.messages == map[] && req.conv in db.convs && db.convs[req.conv].lastSeq == 0
    ensures LiveAbove(Posted(db, req, id), req.conv, u, 1) == {}
  {
    PostedTables(db, req, id);
  }

  lemma StaleCountKept(db: Db, op: Op, c: Id, u: Id)
    requires IsSend(db, op, c, u) && IsMember(db, c, u) && db.convs[c].lastSeq == 1 && LiveAbove(db, c, u, 1) == {}
    requires db.members[(c, u)].lastReadSeq == 0 && db.members[(c, u)].unreadCount == 1
    ensures (c, u) in Exec(db, op).members
    ensures var d := FinishLocked(Exec(db, op), Load(db, c, u, 1));
      d.members[(c, u)].unreadCount == 2 && |LiveAbove(d, c, u, d.members[(c, u)].lastReadSeq)| == 1
  {
    var d, rd := Exec(db, op), Load(db, c, u, 1);
    SendCounts(db, op, c, u, 1);
    FinishedCounts(d, c, u, Saved(d.members[(c, u)], rd, Counted(d, rd)));
  }
}
