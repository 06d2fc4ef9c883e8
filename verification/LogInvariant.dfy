/**
 The conversation log: what every accepted operation keeps. The seqs of a conversation are
 exactly 1..lastSeq, (sender, client id) names at most one row, the last message is the row at
 lastSeq, an attachment belongs to one message of its uploader, and a message is media exactly
 when it carries one to five attachments.
 */
module LogInvariant {
  import opened Wrappers
  import opened Collections
  import opened Database
  import opened ServerSpec

  // ---------- the invariant, table by table ----------

  ghost predicate RowOk(m: Message, messages: Messages, convs: Convs, members: Members) {
    && m.conv in convs && 1 <= m.seqNo <= convs[m.conv].lastSeq
    && (m.conv, m.sender) in members
    && (m.replyTo.Some? ==> m.replyTo.value in messages && messages[m.replyTo.value].conv == m.conv)
    && (m.deleted <==> m.body.None?)
  }

  ghost predicate RowsOk(messages: Messages, convs: Convs, members: Members) {
    forall id | id in messages :: messages[id].id == id && RowOk(messages[id], messages, convs, members)
  }

  predicate SameSlot(m: Message, n: Message) {
    m.conv == n.conv && m.seqNo == n.seqNo
  }

  ghost predicate OneRowPerSeq(messages: Messages) {
    forall i, j | i in messages && j in messages && SameSlot(messages[i], messages[j]) :: i == j
  }

  ghost predicate OneRowPerClientId(messages: Messages) {
    forall i, j | i in messages && j in messages && SentBy(messages[i], messages[j].sender, messages[j].clientId) ::
        i == j
  }

  predicate AtSlot(m: Message, c: Id, n: nat) {
    m.conv == c && m.seqNo == n
  }

  ghost predicate HasRow(messages: Messages, c: Id, n: nat) {
    exists id | id in messages :: AtSlot(messages[id], c, n)
  }

  ghost predicate NoGaps(convs: Convs, messages: Messages) {
    forall c, n: nat | c in convs && 1 <= n <= convs[c].lastSeq :: HasRow(messages, c, n)
  }

  ghost predicate LastOk(convs: Convs, messages: Messages) {
    forall c | c in convs ::
      match convs[c].lastMessageId
      case None => convs[c].lastSeq == 0
      case Some(id) => convs[c].lastSeq > 0 && id in messages && AtSlot(messages[id], c, convs[c].lastSeq)
  }

  ghost predicate OwnersOk(attachments: Attachments, messages: Messages) {
    forall a | a in attachments ::
      match attachments[a].messageId
      case None => true
      case Some(mid) => mid in messages && messages[mid].sender == attachments[a].uploadedBy
  }

  ghost predicate KindsOk(attachments: Attachments, messages: Messages) {
    forall id | id in messages ::
      && |AttachmentsOf(attachments, id)| <= MAX_ATTACHMENTS_PER_MESSAGE
      && (messages[id].kind == Media <==> AttachmentsOf(attachments, id) != {})
  }

  ghost predicate MembersOk(members: Members, convs: Convs) {
    forall k | k in members :: k.0 in convs && members[k].lastReadSeq <= members[k].lastDeliveredSeq
  }

  ghost predicate LogOk(db: Db) {
    && RowsOk(db.messages, db.convs, db.members)
    && OneRowPerSeq(db.messages) && OneRowPerClientId(db.messages)
    && NoGaps(db.convs, db.messages) && LastOk(db.convs, db.messages)
    && OwnersOk(db.attachments, db.messages) && KindsOk(db.attachments, db.messages)
    && MembersOk(db.members, db.convs)
  }

  // ---------- adding a row ----------

  /** The row that a successful post leaves. */
  function PostedRow(db: Db, req: SendRequest, id: Id): Message
    requires req.conv in db.convs
  {
    NewRow(req, id, SeqOf(db, req)).(kind := if req.attachmentIds == [] then Text else Media)
  }

  /** The tables after a post. */
  lemma PostedTables(db: Db, req: SendRequest, id: Id)
    requires Postable(db, req, id)
    ensures var d := Posted(db, req, id);
      && d.convs == db.convs[req.conv := Conversation(SeqOf(db, req), Some(id))]
      && d.messages == db.messages[id := PostedRow(db, req, id)]
      && d.members == Advanced(Bumped(db, req.conv, req.sender), req.conv, req.sender, SeqOf(db, req)).members
      && d.attachments == Claimed(db, req.attachmentIds, id).attachments
  {
    if req.attachmentIds == [] {
      assert db.attachments == Claimed(db, [], id).attachments;
    }
  }

  lemma AddRowKeepsRows(messages: Messages, convs: Convs, members: Members, row: Message, last: Conversation,
      members': Members)
    requires RowsOk(messages, convs, members)
    requires row.id !in messages && row.conv in convs && last.lastSeq == convs[row.conv].lastSeq + 1 == row.seqNo
    requires members'.Keys == members.Keys && (row.conv, row.sender) in members
    requires row.replyTo.Some? ==> row.replyTo.value in messages && messages[row.replyTo.value].conv == row.conv
    requires !row.deleted && row.body.Some?
    ensures RowsOk(messages[row.id := row], convs[row.conv := last], members')
  {
    var messages', convs' := messages[row.id := row], convs[row.conv := last];
    forall id | id in messages'
      ensures messages'[id].id == id && RowOk(messages'[id], messages', convs', members')
    {
      if id != row.id {
        assert RowOk(messages[id], messages, convs, members);
      }
    }
  }

  lemma AddRowKeepsKeys(messages: Messages, row: Message)
    requires OneRowPerSeq(messages) && OneRowPerClientId(messages)
    requires row.id !in messages
    requires forall k | k in messages :: !SameSlot(messages[k], row) && !SentBy(messages[k], row.sender, row.clientId)
    ensures OneRowPerSeq(messages[row.id := row]) && OneRowPerClientId(messages[row.id := row])
  {
  }

  lemma AddRowKeepsLog(convs: Convs, messages: Messages, row: Message)
    requires NoGaps(convs, messages) && LastOk(convs, messages)
    requires row.id !in messages && row.conv in convs && row.seqNo == convs[row.conv].lastSeq + 1
    ensures NoGaps(convs[row.conv := Conversation(row.seqNo, Some(row.id))], messages[row.id := row])
    ensures LastOk(convs[row.conv := Conversation(row.seqNo, Some(row.id))], messages[row.id := row])
  {
    var convs', messages' := convs[row.conv := Conversation(row.seqNo, Some(row.id))], messages[row.id := row];
    forall c, n: nat | c in convs' && 1 <= n <= convs'[c].lastSeq
      ensures HasRow(messages', c, n)
    {
      if c == row.conv && n == row.seqNo {
        assert AtSlot(messages'[row.id], c, n);
      } else {
        assert HasRow(messages, c, n);
        var k :| k in messages && AtSlot(messages[k], c, n);
        assert AtSlot(messages'[k], c, n);
      }
    }
  }

  // ---------- claiming attachments ----------

  lemma ClaimedSets(db: Db, u: Id, ids: seq<Id>, mid: Id)
    requires Claimable(db, u, ids)
    requires forall a | a in db.attachments :: db.attachments[a].messageId != Some(mid)
    ensures AttachmentsOf(Claimed(db, ids, mid).attachments, mid) == SetOf(ids)
    ensures forall k | k != mid ::
              AttachmentsOf(Claimed(db, ids, mid).attachments, k) == AttachmentsOf(db.attachments, k)
  {
    var attachments' := Claimed(db, ids, mid).attachments;
    assert AttachmentsOf(attachments', mid) == SetOf(ids);
    forall k | k != mid
      ensures AttachmentsOf(attachments', k) == AttachmentsOf(db.attachments, k)
    {
    }
  }

  lemma ClaimKeepsKinds(db: Db, row: Message, ids: seq<Id>)
    requires OwnersOk(db.attachments, db.messages) && KindsOk(db.attachments, db.messages)
    requires row.id !in db.messages && Claimable(db, row.sender, ids)
    requires row.kind == Media <==> ids != []
    ensures KindsOk(Claimed(db, ids, row.id).attachments, db.messages[row.id := row])
  {
    ClaimedSets(db, row.sender, ids, row.id);
    SetOfSize(ids);
    assert ids != [] ==> ids[0] in SetOf(ids);
    assert ids == [] ==> SetOf(ids) == {};
  }

  // ---------- every operation ----------

  lemma PostKeepsLog(db: Db, req: SendRequest, id: Id)
    requires LogOk(db) && Postable(db, req, id)
    ensures LogOk(Posted(db, req, id))
  {
    PostKeepsRows(db, req, id);
    PostKeepsAttachments(db, req, id);
  }

  lemma PostKeepsRows(db: Db, req: SendRequest, id: Id)
    requires RowsOk(db.messages, db.convs, db.members) && OneRowPerSeq(db.messages) && OneRowPerClientId(db.messages)
    requires NoGaps(db.convs, db.messages) && LastOk(db.convs, db.messages) && Postable(db, req, id)
    ensures var d := Posted(db, req, id);
      && RowsOk(d.messages, d.convs, d.members) && OneRowPerSeq(d.messages) && OneRowPerClientId(d.messages)
      && NoGaps(d.convs, d.messages) && LastOk(d.convs, d.messages)
  {
    var row := PostedRow(db, req, id);
    var d := Posted(db, req, id);
    PostedTables(db, req, id);
    AddRowKeepsRows(db.messages, db.convs, db.members, row, d.convs[req.conv], d.members);
    AddRowKeepsKeys(db.messages, row);
    AddRowKeepsLog(db.convs, db.messages, row);
  }

  lemma PostKeepsAttachments(db: Db, req: SendRequest, id: Id)
    requires OwnersOk(db.attachments, db.messages) && KindsOk(db.attachments, db.messages) && Postable(db, req, id)
    ensures var d := Posted(db, req, id); OwnersOk(d.attachments, d.messages) && KindsOk(d.attachments, d.messages)
  {
    PostedTables(db, req, id);
    ClaimKeepsKinds(db, PostedRow(db, req, id), req.attachmentIds);
  }

  /** Body, deleted flag and reactions are all that an existing row may change. */
  predicate SameRow(m: Message, n: Message) {
    n.(body := m.body, deleted := m.deleted, reactions := m.reactions) == m && (n.deleted <==> n.body.None?)
  }

  lemma EditKeepsRows(messages: Messages, convs: Convs, members: Members, row: Message)
    requires RowsOk(messages, convs, members)
    requires row.id in messages && SameRow(messages[row.id], row)
    ensures RowsOk(messages[row.id := row], convs, members)
  {
    var messages' := messages[row.id := row];
    forall id | id in messages'
      ensures messages'[id].id == id && RowOk(messages'[id], messages', convs, members)
    {
      assert RowOk(messages[id], messages, convs, members);
    }
  }

  lemma EditKeepsGaps(messages: Messages, convs: Convs, row: Message)
    requires NoGaps(convs, messages) && row.id in messages && SameRow(messages[row.id], row)
    ensures NoGaps(convs, messages[row.id := row])
  {
    var messages' := messages[row.id := row];
    forall c, n: nat | c in convs && 1 <= n <= convs[c].lastSeq
      ensures HasRow(messages', c, n)
    {
      assert HasRow(messages, c, n);
      var k :| k in messages && AtSlot(messages[k], c, n);
      assert AtSlot(messages'[k], c, n);
    }
  }

  lemma EditKeepsKeys(messages: Messages, row: Message)
    requires OneRowPerSeq(messages) && OneRowPerClientId(messages)
    requires row.id in messages && SameRow(messages[row.id], row)
    ensures OneRowPerSeq(messages[row.id := row]) && OneRowPerClientId(messages[row.id := row])
  {
    var messages' := messages[row.id := row];
    forall i, j | i in messages' && j in messages'
      ensures SameSlot(messages'[i], messages'[j]) ==> SameSlot(messages[i], messages[j])
      ensures SentBy(messages'[i], messages'[j].sender, messages'[j].clientId)
              ==> SentBy(messages[i], messages[j].sender, messages[j].clientId)
    {
    }
  }

  lemma EditKeepsReferences(db: Db, row: Message)
    requires LastOk(db.convs, db.messages) && OwnersOk(db.attachments, db.messages) &&
             KindsOk(db.attachments, db.messages)
    requires row.id in db.messages && SameRow(db.messages[row.id], row)
    ensures LastOk(db.convs, db.messages[row.id := row])
    ensures OwnersOk(db.attachments, db.messages[row.id := row]) && KindsOk(db.attachments, db.messages[row.id := row])
  {
  }

  lemma EditKeepsLog(db: Db, row: Message)
    requires LogOk(db) && row.id in db.messages && SameRow(db.messages[row.id], row)
    ensures LogOk(WithRow(db, row))
  {
    EditKeepsRows(db.messages, db.convs, db.members, row);
    EditKeepsGaps(db.messages, db.convs, row);
    EditKeepsKeys(db.messages, row);
    EditKeepsReferences(db, row);
  }

  lemma RowsMonotone(messages: Messages, convs: Convs, members: Members, convs': Convs, members': Members)
    requires RowsOk(messages, convs, members) && members.Keys <= members'.Keys
    requires forall c | c in convs :: c in convs' && convs'[c] == convs[c]
    ensures RowsOk(messages, convs', members')
  {
    forall id | id in messages
      ensures messages[id].id == id && RowOk(messages[id], messages, convs', members')
    {
      assert RowOk(messages[id], messages, convs, members);
    }
  }

  lemma MemberOpKeepsLog(db: Db, d: Db)
    requires LogOk(db) && d.messages == db.messages && d.attachments == db.attachments
    requires db.members.Keys <= d.members.Keys && MembersOk(d.members, d.convs)
    requires forall c | c in db.convs :: c in d.convs && d.convs[c] == db.convs[c]
    requires forall c | c in d.convs && c !in db.convs :: d.convs[c] == Conversation(0, None)
    ensures LogOk(d)
  {
    RowsMonotone(db.messages, db.convs, db.members, d.convs, d.members);
  }

  lemma UploadKeepsLog(db: Db, a: Id, u: Id)
    requires LogOk(db) && a !in db.attachments
    ensures LogOk(db.(attachments := db.attachments[a := Attachment(u, None)]))
  {
    UploadKeepsKinds(db.attachments, db.messages, a, u);
  }

  lemma UploadKeepsKinds(attachments: Attachments, messages: Messages, a: Id, u: Id)
    requires OwnersOk(attachments, messages) && KindsOk(attachments, messages) && a !in attachments
    ensures OwnersOk(attachments[a := Attachment(u, None)], messages)
    ensures KindsOk(attachments[a := Attachment(u, None)], messages)
  {
    forall id | id in messages
      ensures AttachmentsOf(attachments[a := Attachment(u, None)], id) == AttachmentsOf(attachments, id)
    {
    }
  }

  lemma RowOpKeepsLog(db: Db, op: Op)
    requires LogOk(db) && Accepted(db, op) && (op.Delete? || op.React? || op.ClearReaction?)
    ensures LogOk(Exec(db, op))
  {
    var row := Exec(db, op).messages[op.mid];
    assert RowOk(db.messages[op.mid], db.messages, db.convs, db.members);
    assert Exec(db, op) == WithRow(db, row);
    EditKeepsLog(db, row);
  }

  lemma MembershipKeepsLog(db: Db, op: Op)
    requires LogOk(db) && Accepted(db, op)
    requires op.Open? || op.Join? || op.Leave? || op.MarkRead? || op.MarkDelivered?
    ensures LogOk(Exec(db, op))
  {
    MembershipKeepsMembers(db, op);
    MembershipFrame(db, op);
    MemberOpKeepsLog(db, Exec(db, op));
  }

  lemma MembershipFrame(db: Db, op: Op)
    requires Accepted(db, op)
    requires op.Open? || op.Join? || op.Leave? || op.MarkRead? || op.MarkDelivered?
    ensures var d := Exec(db, op);
      && d.messages == db.messages && d.attachments == db.attachments && db.members.Keys <= d.members.Keys
      && (forall c | c in db.convs :: c in d.convs && d.convs[c] == db.convs[c])
      && (forall c | c in d.convs && c !in db.convs :: d.convs[c] == Conversation(0, None))
  {
  }

  lemma MembershipKeepsMembers(db: Db, op: Op)
    requires MembersOk(db.members, db.convs) && Accepted(db, op)
    requires op.Open? || op.Join? || op.Leave? || op.MarkRead? || op.MarkDelivered?
    ensures MembersOk(Exec(db, op).members, Exec(db, op).convs)
  {
  }

  lemma ExecKeepsLog(db: Db, op: Op)
    requires LogOk(db)
    ensures LogOk(Exec(db, op))
  {
    if Accepted(db, op) {
      if op.Post? {
        PostKeepsLog(db, op.req, op.id);
      } else if op.Upload? {
        UploadKeepsLog(db, op.a, op.u);
      } else if op.Delete? || op.React? || op.ClearReaction? {
        RowOpKeepsLog(db, op);
      } else {
        MembershipKeepsLog(db, op);
      }
    }
  }

  lemma EmptyIsOk()
    ensures LogOk(EMPTY_DB)
  {
  }

  lemma {:induction false} RunKeepsLog(db: Db, ops: seq<Op>)
    requires LogOk(db)
    ensures LogOk(ExecAll(db, ops))
  {
    if ops != [] {
      RunKeepsLog(db, ops[..|ops| - 1]);
      ExecKeepsLog(ExecAll(db, ops[..|ops| - 1]), ops[|ops| - 1]);
    }
  }
}
