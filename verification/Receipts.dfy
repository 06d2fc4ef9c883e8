/**
 Two cursors per member stand for a table with one row per (message, recipient). The table is
 kept here as the design would have kept it, and the tick read off the cursors is shown to be
 the tick read off the table, in every run whose acknowledgements stay within the log.
 */
module Receipts {
  import opened Wrappers
  import opened Collections
  import opened Database
  import opened ServerSpec
  import opened LogInvariant
  import opened ChatTypes

  /** The naive rows of one message: who has it, who has read it. */
  datatype Ticks = Ticks(delivered: set<Id>, read: set<Id>)

  type Table = map<Id, Ticks>

  function Marked(t: Ticks, u: Id, read: bool): Ticks {
    Ticks(t.delivered + {u}, if read then t.read + {u} else t.read)
  }

  /** Marks every message of `c` up to `seqNo` for `u`. */
  function MarkUpTo(table: Table, messages: Messages, c: Id, u: Id, seqNo: int, read: bool): Table {
    map id | id in table ::
      if id in messages && messages[id].conv == c && messages[id].seqNo <= seqNo then Marked(table[id], u, read)
          else table[id]
  }

  /** What each operation does to the naive table: sending means having read all that came before. */
  function ExecTable(table: Table, db: Db, op: Op): Table {
    if !Accepted(db, op) then table
    else
      match op
      case Post(req, id) =>
        MarkUpTo(table, db.messages, req.conv, req.sender, SeqOf(db, req), true)[id :=
            Ticks({req.sender}, {req.sender})]
      case MarkRead(c, u, seqNo) => MarkUpTo(table, db.messages, c, u, seqNo, true)
      case MarkDelivered(c, u, seqNo) => MarkUpTo(table, db.messages, c, u, seqNo, false)
      case _ => table
  }

  // ---------- the refinement relation ----------

  predicate TickOk(t: Ticks, m: Message, members: Members, u: Id) {
    && (u in t.read <==> (m.conv, u) in members && m.seqNo <= members[(m.conv, u)].lastReadSeq)
    && (u in t.delivered <==> (m.conv, u) in members && m.seqNo <= members[(m.conv, u)].lastDeliveredSeq)
  }

  ghost predicate Refines(table: Table, db: Db) {
    && table.Keys == db.messages.Keys
    && (forall id, u: Id | id in table :: TickOk(table[id], db.messages[id], db.members, u))
  }

  /** No cursor is past the end of its log. */
  ghost predicate CursorsBounded(db: Db) {
    forall k | k in db.members :: k.0 in db.convs && db.members[k].lastDeliveredSeq <= db.convs[k.0].lastSeq
  }

  /** The client's side of the contract: it acknowledges only what it has been shown. */
  predicate AckBounded(db: Db, op: Op) {
    match op
    case MarkRead(c, _, seqNo) => c in db.convs ==> seqNo <= db.convs[c].lastSeq
    case MarkDelivered(c, _, seqNo) => c in db.convs ==> seqNo <= db.convs[c].lastSeq
    case _ => true
  }

  ghost predicate AcksBounded(db: Db, ops: seq<Op>) {
    forall i | 0 <= i < |ops| :: AckBounded(ExecAll(db, ops[..i]), ops[i])
  }

  function TableOf(table: Table, db: Db, ops: seq<Op>): Table {
    if ops == [] then table
    else ExecTable(TableOf(table, db, ops[..|ops| - 1]), ExecAll(db, ops[..|ops| - 1]), ops[|ops| - 1])
  }

  lemma PostKeepsBound(db: Db, req: SendRequest, id: Id)
    requires CursorsBounded(db) && Postable(db, req, id)
    ensures CursorsBounded(Posted(db, req, id))
  {
    PostedTables(db, req, id);
  }

  lemma ExecKeepsBound(db: Db, op: Op)
    requires CursorsBounded(db) && MembersOk(db.members, db.convs) && AckBounded(db, op)
    ensures CursorsBounded(Exec(db, op))
  {
    if Accepted(db, op) && op.Post? {
      PostKeepsBound(db, op.req, op.id);
    }
  }

  /** Nobody but the sender has a cursor past the end of the conversation. */
  ghost predicate OthersWithin(db: Db, req: SendRequest)
    requires req.conv in db.convs
  {
    forall k | k in db.members && k.0 == req.conv && k.1 != req.sender ::
      db.members[k].lastDeliveredSeq <= db.convs[req.conv].lastSeq
  }

  lemma PostRefines(table: Table, db: Db, req: SendRequest, id: Id)
    requires Refines(table, db) && Postable(db, req, id) && OthersWithin(db, req)
    requires MembersOk(db.members, db.convs) && RowsOk(db.messages, db.convs, db.members)
    ensures Refines(ExecTable(table, db, Post(req, id)), Posted(db, req, id))
  {
    PostedTables(db, req, id);
    var table', d := ExecTable(table, db, Post(req, id)), Posted(db, req, id);
    forall k, u: Id | k in table'
      ensures TickOk(table'[k], d.messages[k], d.members, u)
    {
      if k != id {
        assert TickOk(table[k], db.messages[k], db.members, u);
        assert RowOk(db.messages[k], db.messages, db.convs, db.members);
        PostKeepsTick(table, db, req, id, k, u);
      } else {
        NewRowTick(table, db, req, id, u);
      }
    }
  }

  /** The new message: its sender alone has it. */
  lemma NewRowTick(table: Table, db: Db, req: SendRequest, id: Id, u: Id)
    requires Postable(db, req, id) && OthersWithin(db, req) && MembersOk(db.members, db.convs)
    ensures TickOk(ExecTable(table, db, Post(req, id))[id], PostedRow(db, req, id), Posted(db, req, id).members, u)
  {
    PostedTables(db, req, id);
    if (req.conv, u) in db.members && u != req.sender {
      assert (req.conv, u).0 == req.conv;
    }
  }

  /** An older message's ticks: the sender has now read it, nobody else's have moved. */
  lemma PostKeepsTick(table: Table, db: Db, req: SendRequest, id: Id, k: Id, u: Id)
    requires Postable(db, req, id) && k in table && k in db.messages && k != id
    requires TickOk(table[k], db.messages[k], db.members, u)
    requires db.messages[k].conv in db.convs && db.messages[k].seqNo <= db.convs[db.messages[k].conv].lastSeq
    ensures TickOk(ExecTable(table, db, Post(req, id))[k], db.messages[k], Posted(db, req, id).members, u)
  {
    PostedTables(db, req, id);
  }

  lemma AckRefines(table: Table, db: Db, op: Op)
    requires Refines(table, db) && (op.MarkRead? || op.MarkDelivered?) && Accepted(db, op)
    ensures Refines(ExecTable(table, db, op), Exec(db, op))
  {
    var table', d := ExecTable(table, db, op), Exec(db, op);
    forall k, u: Id | k in table'
      ensures TickOk(table'[k], d.messages[k], d.members, u)
    {
      assert TickOk(table[k], db.messages[k], db.members, u);
    }
  }

  lemma JoinRefines(table: Table, db: Db, op: Op)
    requires Refines(table, db) && RowsOk(db.messages, db.convs, db.members)
    requires (op.Join? || op.Open? || op.Leave?) && Accepted(db, op)
    ensures Refines(table, Exec(db, op))
  {
    var d := Exec(db, op);
    forall k, u: Id | k in table
      ensures TickOk(table[k], d.messages[k], d.members, u)
    {
      assert TickOk(table[k], db.messages[k], db.members, u);
      assert RowOk(db.messages[k], db.messages, db.convs, db.members);
    }
  }

  lemma EditRefines(table: Table, db: Db, op: Op)
    requires Refines(table, db)
    requires (op.Delete? || op.React? || op.ClearReaction? || op.Upload?) && Accepted(db, op)
    ensures Refines(table, Exec(db, op))
  {
    var d := Exec(db, op);
    forall k, u: Id | k in table
      ensures TickOk(table[k], d.messages[k], d.members, u)
    {
      assert TickOk(table[k], db.messages[k], db.members, u);
    }
  }

  lemma ExecRefines(table: Table, db: Db, op: Op)
    requires LogOk(db) && Refines(table, db) && CursorsBounded(db)
    ensures Refines(ExecTable(table, db, op), Exec(db, op))
  {
    if Accepted(db, op) {
      match op
      case Post(req, id) => PostRefines(table, db, req, id);
      case MarkRead(_, _, _) => AckRefines(table, db, op);
      case MarkDelivered(_, _, _) => AckRefines(table, db, op);
      case Join(_, _) => JoinRefines(table, db, op);
      case Open(_, _) => JoinRefines(table, db, op);
      case Leave(_, _) => JoinRefines(table, db, op);
      case _ => EditRefines(table, db, op);
    }
  }

  lemma AcksBoundedPrefix(db: Db, ops: seq<Op>)
    requires AcksBounded(db, ops) && ops != []
    ensures AcksBounded(db, ops[..|ops| - 1]) && AckBounded(ExecAll(db, ops[..|ops| - 1]), ops[|ops| - 1])
  {
    var front := ops[..|ops| - 1];
    forall i | 0 <= i < |front|
      ensures AckBounded(ExecAll(db, front[..i]), front[i])
    {
      assert front[..i] == ops[..i];
    }
  }

  lemma {:induction false} RunRefinesTable(db: Db, table: Table, ops: seq<Op>)
    requires LogOk(db) && Refines(table, db) && CursorsBounded(db) && AcksBounded(db, ops)
    ensures LogOk(ExecAll(db, ops)) && Refines(TableOf(table, db, ops), ExecAll(db, ops)) &&
            CursorsBounded(ExecAll(db, ops))
  {
    if ops != [] {
      var front := ops[..|ops| - 1];
      AcksBoundedPrefix(db, ops);
      RunRefinesTable(db, table, front);
      ExecRefines(TableOf(table, db, front), ExecAll(db, front), ops[|ops| - 1]);
      ExecKeepsBound(ExecAll(db, front), ops[|ops| - 1]);
      ExecKeepsLog(ExecAll(db, front), ops[|ops| - 1]);
    }
  }

  // ---------- ticks ----------

  /** A listing of exactly the active members of `c` with their current cursors. */
  ghost predicate ViewOf(members: seq<Peer>, db: Db, c: Id) {
    && (forall p | p in members :: IsMember(db, c, p.user)
          && p == Peer(p.user, db.members[(c, p.user)].lastReadSeq, db.members[(c, p.user)].lastDeliveredSeq))
    && (forall u | IsMember(db, c, u) ::
          Peer(u, db.members[(c, u)].lastReadSeq, db.members[(c, u)].lastDeliveredSeq) in members)
  }

  /** The tick of the viewer's own message, counted from the naive rows. */
  function StatusFromRows(db: Db, table: Table, id: Id, viewer: Id): Status
    requires id in db.messages && id in table
  {
    var peers := PeerIds(db, db.messages[id].conv, viewer);
    if peers == {} then Sent
    else if peers <= table[id].read then Read
    else if peers <= table[id].delivered then Delivered
    else Sent
  }

  lemma ListedArePeers(db: Db, c: Id, viewer: Id, members: seq<Peer>)
    requires ViewOf(members, db, c)
    ensures PeersOf(members, viewer) == [] <==> PeerIds(db, c, viewer) == {}
    ensures forall p | p in PeersOf(members, viewer) :: p.user in PeerIds(db, c, viewer)
    ensures forall u | u in PeerIds(db, c, viewer) ::
      (IsMember(db, c, u) && u != viewer
       && Peer(u, db.members[(c, u)].lastReadSeq, db.members[(c, u)].lastDeliveredSeq) in PeersOf(members, viewer))
  {
    var listed, peers := PeersOf(members, viewer), PeerIds(db, c, viewer);
    forall p | p in listed
      ensures p.user in peers
    {
      assert (c, p.user) in db.members;
    }
    if listed != [] {
      assert listed[0].user in peers;
    }
    if peers != {} {
      var u :| u in peers;
      assert IsMember(db, c, u);
    }
  }

  lemma StatusFromRefinement(db: Db, table: Table, id: Id, members: seq<Peer>, message: LocalMessage)
    requires Refines(table, db) && id in db.messages && ViewOf(members, db, db.messages[id].conv)
    requires message.seqNo == db.messages[id].seqNo && message.sender == Some(db.messages[id].sender)
    requires !message.pending && !message.failed
    ensures StatusOf(message, members, db.messages[id].sender) ==
            Some(StatusFromRows(db, table, id, db.messages[id].sender))
  {
    var m := db.messages[id];
    var listed, peers := PeersOf(members, m.sender), PeerIds(db, m.conv, m.sender);
    ListedArePeers(db, m.conv, m.sender, members);
    forall p | p in listed
      ensures p.lastReadSeq >= m.seqNo <==> p.user in table[id].read
      ensures p.lastDeliveredSeq >= m.seqNo <==> p.user in table[id].delivered
    {
      assert TickOk(table[id], m, db.members, p.user);
    }
    forall u | u in peers
      ensures u in table[id].read <==> db.members[(m.conv, u)].lastReadSeq >= m.seqNo
      ensures u in table[id].delivered <==> db.members[(m.conv, u)].lastDeliveredSeq >= m.seqNo
    {
      assert TickOk(table[id], m, db.members, u);
    }
  }

  /** In every reachable state the cursor comparison gives the naive table's answer. */
  lemma StatusIsTableStatus(ops: seq<Op>, id: Id, members: seq<Peer>, message: LocalMessage)
    requires AcksBounded(EMPTY_DB, ops) && id in ExecAll(EMPTY_DB, ops).messages
    requires ViewOf(members, ExecAll(EMPTY_DB, ops), ExecAll(EMPTY_DB, ops).messages[id].conv)
    requires message.seqNo == ExecAll(EMPTY_DB, ops).messages[id].seqNo
    requires message.sender == Some(ExecAll(EMPTY_DB, ops).messages[id].sender) && !message.pending && !message.failed
    ensures var db, table := ExecAll(EMPTY_DB, ops), TableOf(map[], EMPTY_DB, ops);
      && id in table
      && StatusOf(message, members, db.messages[id].sender) ==
         Some(StatusFromRows(db, table, id, db.messages[id].sender))
  {
    EmptyIsOk();
    RunRefinesTable(EMPTY_DB, map[], ops);
    StatusFromRefinement(ExecAll(EMPTY_DB, ops), TableOf(map[], EMPTY_DB, ops), id, members, message);
  }

  /** Read never passes delivered, whatever seqs are acknowledged. */
  lemma ReadWithinDelivered(ops: seq<Op>)
    ensures forall k | k in ExecAll(EMPTY_DB, ops).members ::
      var m := ExecAll(EMPTY_DB, ops).members[k]; m.lastReadSeq <= m.lastDeliveredSeq
  {
    EmptyIsOk();
    RunKeepsLog(EMPTY_DB, ops);
  }

  // ---------- cursors only move forward, while acknowledgements are bounded ----------

  predicate NotBehind(old': Member, new': Member) {
    old'.lastReadSeq <= new'.lastReadSeq && old'.lastDeliveredSeq <= new'.lastDeliveredSeq
  }

  ghost predicate CursorsAdvance(db: Db, d: Db) {
    forall k | k in db.members :: k in d.members && NotBehind(db.members[k], d.members[k])
  }

  lemma ExecAdvances(db: Db, op: Op)
    requires CursorsBounded(db) && MembersOk(db.members, db.convs)
    ensures CursorsAdvance(db, Exec(db, op))
  {
    if Accepted(db, op) && op.Post? {
      PostedTables(db, op.req, op.id);
    }
  }

  lemma {:induction false} CursorsNeverDecrease(db: Db, ops: seq<Op>)
    requires LogOk(db) && CursorsBounded(db) && AcksBounded(db, ops)
    ensures CursorsAdvance(db, ExecAll(db, ops)) && CursorsBounded(ExecAll(db, ops))
  {
    if ops != [] {
      var front := ops[..|ops| - 1];
      AcksBoundedPrefix(db, ops);
      CursorsNeverDecrease(db, front);
      RunKeepsLog(db, front);
      ExecAdvances(ExecAll(db, front), ops[|ops| - 1]);
      ExecKeepsBound(ExecAll(db, front), ops[|ops| - 1]);
    }
  }

  /** Without the contract: sending overwrites the sender's cursors, and drops them exactly when one
      was already past the seq being allocated. */
  lemma SendDropsCursorExactly(db: Db, req: SendRequest, id: Id)
    requires Postable(db, req, id) && MembersOk(db.members, db.convs)
    ensures var k := (req.conv, req.sender);
      NotBehind(db.members[k], Posted(db, req, id).members[k]) <==> db.members[k].lastDeliveredSeq <= SeqOf(db, req)
  {
    PostedTables(db, req, id);
  }

  lemma OverAckBreaksTicks(table: Table, db: Db, u: Id, req: SendRequest, id: Id)
    requires Postable(db, req, id) && req.sender != u
    requires (req.conv, u) in db.members && db.members[(req.conv, u)].lastDeliveredSeq > db.convs[req.conv].lastSeq
    ensures !Refines(ExecTable(table, db, Post(req, id)), Exec(db, Post(req, id)))
  {
    PostedTables(db, req, id);
    var table', d := ExecTable(table, db, Post(req, id)), Exec(db, Post(req, id));
    assert d.members[(req.conv, u)].lastDeliveredSeq == db.members[(req.conv, u)].lastDeliveredSeq;
    assert !TickOk(table'[id], d.messages[id], d.members, u);
  }

  /** Whatever was acknowledged before, a new message's ticks are right if and only if nobody but its sender
      has a cursor past the end of the log as it is posted. */
  lemma PostRefinesExactly(table: Table, db: Db, req: SendRequest, id: Id)
    requires Refines(table, db) && Postable(db, req, id)
    requires MembersOk(db.members, db.convs) && RowsOk(db.messages, db.convs, db.members)
    ensures Refines(ExecTable(table, db, Post(req, id)), Exec(db, Post(req, id))) <==> OthersWithin(db, req)
  {
    if OthersWithin(db, req) {
      PostRefines(table, db, req, id);
    } else {
      var k :| k in db.members && k.0 == req.conv && k.1 != req.sender
               && db.members[k].lastDeliveredSeq > db.convs[req.conv].lastSeq;
      assert k == (req.conv, k.1);
      OverAckBreaksTicks(table, db, k.1, req, id);
    }
  }

  ghost predicate Clean(db: Db, op: Op) {
    op.Post? && Accepted(db, op) ==> OthersWithin(db, op.req)
  }

  lemma ExecRefinesExactly(table: Table, db: Db, op: Op)
    requires LogOk(db) && Refines(table, db)
    ensures Refines(ExecTable(table, db, op), Exec(db, op)) <==> Clean(db, op)
  {
    if Accepted(db, op) {
      if op.Post? {
        PostRefinesExactly(table, db, op.req, op.id);
      } else if op.MarkRead? || op.MarkDelivered? {
        AckRefines(table, db, op);
      } else if op.Join? || op.Open? || op.Leave? {
        JoinRefines(table, db, op);
      } else {
        EditRefines(table, db, op);
      }
    }
  }

  ghost predicate AgreeAt(ops: seq<Op>, i: nat)
    requires i <= |ops|
  {
    Refines(TableOf(map[], EMPTY_DB, ops[..i]), ExecAll(EMPTY_DB, ops[..i]))
  }

  ghost predicate CleanAt(ops: seq<Op>, i: nat)
    requires i < |ops|
  {
    Clean(ExecAll(EMPTY_DB, ops[..i]), ops[i])
  }

  lemma AgreementStep(ops: seq<Op>, i: nat)
    requires i < |ops| && AgreeAt(ops, i)
    ensures AgreeAt(ops, i + 1) <==> CleanAt(ops, i)
  {
    var front := ops[..i];
    assert ops[..i + 1][..i] == front;
    EmptyIsOk();
    RunKeepsLog(EMPTY_DB, front);
    ExecRefinesExactly(TableOf(map[], EMPTY_DB, front), ExecAll(EMPTY_DB, front), ops[i]);
  }

  /** Main result without any assumption on acknowledgements: over every run, the cursors and the naive rows
      agree all along if and only if no message is posted while another member's cursor is past the end. */
  lemma AgreementIsExact(ops: seq<Op>)
    ensures (forall i | 0 <= i <= |ops| :: AgreeAt(ops, i)) <==> (forall i | 0 <= i < |ops| :: CleanAt(ops, i))
  {
    var agree := seq(|ops| + 1, i requires 0 <= i <= |ops| => AgreeAt(ops, i));
    var clean := seq(|ops|, i requires 0 <= i < |ops| => CleanAt(ops, i));
    forall i | 0 <= i < |ops| && agree[i] ensures agree[i + 1] == clean[i] {
      AgreementStep(ops, i);
    }
    AllAlong(agree, clean);
    assert forall i | 0 <= i <= |ops| :: agree[i] == AgreeAt(ops, i);
    assert forall i | 0 <= i < |ops| :: clean[i] == CleanAt(ops, i);
  }

  /** The bound on one acknowledgement is exact: the next message's ticks come out right if and only if the
      acknowledged seq is within the log, or the acknowledging member is the one who sends that message. */
  lemma AckBoundIsExact(table: Table, db: Db, c: Id, u: Id, seqNo: int, ack: Op, req: SendRequest, id: Id)
    requires LogOk(db) && Refines(table, db) && CursorsBounded(db) && IsMember(db, c, u)
    requires ack == MarkDelivered(c, u, seqNo) || ack == MarkRead(c, u, seqNo)
    requires req.conv == c && Postable(Exec(db, ack), req, id)
    ensures Refines(ExecTable(ExecTable(table, db, ack), Exec(db, ack), Post(req, id)),
            Exec(Exec(db, ack), Post(req, id)))
            <==> seqNo <= db.convs[c].lastSeq || req.sender == u
  {
    ExecKeepsLog(db, ack);
    AckRefines(table, db, ack);
    PostRefinesExactly(ExecTable(table, db, ack), Exec(db, ack), req, id);
    AckMovesOne(db, c, u, seqNo, ack, req);
  }

  /** The acknowledging member is the only one whose cursor may have passed the end. */
  lemma AckMovesOne(db: Db, c: Id, u: Id, seqNo: int, ack: Op, req: SendRequest)
    requires CursorsBounded(db) && IsMember(db, c, u) && req.conv == c && c in db.convs
    requires ack == MarkDelivered(c, u, seqNo) || ack == MarkRead(c, u, seqNo)
    ensures OthersWithin(Exec(db, ack), req) <==> seqNo <= db.convs[c].lastSeq || req.sender == u
  {
    var d := Exec(db, ack);
    assert d.members == db.members[(c, u) := d.members[(c, u)]] && d.convs == db.convs;
    assert (c, u) in d.members;
  }

  lemma PairOpened(c: Id, u: Id, v: Id) returns (d: Db)
    ensures Accepted(EMPTY_DB, Open(c, {u, v})) && d == Exec(EMPTY_DB, Open(c, {u, v}))
    ensures d == Db(map[c := Conversation(0, None)], map[(c, u) := NEW_MEMBER, (c, v) := NEW_MEMBER], map[], map[])
  {
    d := Exec(EMPTY_DB, Open(c, {u, v}));
    assert d.members == map[(c, u) := NEW_MEMBER, (c, v) := NEW_MEMBER];
  }

  /** Such a run: the service accepts an acknowledgement of a message that does not exist yet, and when it is
      posted its sender is shown it delivered to somebody who has not got it. */
  lemma OverAckHappens(c: Id, u: Id, v: Id, req: SendRequest, id: Id) returns (d1: Db, d2: Db, d3: Db, table: Table)
    requires u != v && req.sender == u && req.conv == c && !Blank(req.body) && req.replyTo.None? &&
             req.attachmentIds == []
    ensures Accepted(EMPTY_DB, Open(c, {u, v})) && d1 == Exec(EMPTY_DB, Open(c, {u, v}))
    ensures Accepted(d1, MarkDelivered(c, v, 1)) && d2 == Exec(d1, MarkDelivered(c, v, 1))
    ensures Accepted(d2, Post(req, id)) && d3 == Exec(d2, Post(req, id))
    ensures table == ExecTable(ExecTable(ExecTable(map[], EMPTY_DB, Open(c, {u, v})), d1, MarkDelivered(c, v, 1)), d2,
            Post(req, id))
    ensures id in table && v !in table[id].delivered
    ensures id in d3.messages && (c, v) in d3.members && d3.members[(c, v)].lastDeliveredSeq >= d3.messages[id].seqNo
  {
    d1 := PairOpened(c, u, v);
    d2 := Exec(d1, MarkDelivered(c, v, 1));
    assert (c, v) in d1.members && d1.members[(c, v)] == NEW_MEMBER;
    assert Sendable(d2, req) && FlushOk(d2, req, id);
    PostedTables(d2, req, id);
    d3 := Exec(d2, Post(req, id));
    table := ExecTable(map[], d2, Post(req, id));
    assert ExecTable(map[], d1, MarkDelivered(c, v, 1)) == map[];
  }
}
