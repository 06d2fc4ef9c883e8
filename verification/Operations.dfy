/**
 What each operation does to the tables, row by row and field by field, and who may do it.
 */
module Operations {
  import opened Wrappers
  import opened Database
  import opened ServerSpec
  import opened SendChecks
  import LogInvariant

  predicate InRoom(db: Db, c: Id, u: Id) {
    (c, u) in db.members.Keys && db.members[(c, u)].active
  }

  /** Somebody who is not in a conversation, or no longer, changes nothing in it: nothing is read or acknowledged,
      and no message of it is deleted or reacted to. */
  lemma OutsidersChangeNothing(db: Db, u: Id, c: Id, n: int, mid: Id, emoji: string)
    ensures !InRoom(db, c, u) ==>
              && Exec(db, MarkRead(c, u, n)) == db && Exec(db, MarkDelivered(c, u, n)) == db
              && Exec(db, Leave(c, u)) == db
    ensures mid !in db.messages.Keys || !InRoom(db, db.messages[mid].conv, u) ==>
              && Exec(db, Delete(u, mid)) == db && Exec(db, React(u, mid, emoji)) == db
              && Exec(db, ClearReaction(u, mid)) == db
  {
  }

  // ---------- a saved message ----------

  /** Nothing stands in the way of the message: its place and its key are free, and what it names is there. */
  predicate MaySave(db: Db, req: SendRequest, id: Id) {
    && req.conv in db.convs.Keys && (req.conv, req.sender) in db.members.Keys
    && HasContent(req) && GoodReply(db, req) && !Sent(db, req)
    && id !in db.messages.Keys
    && (forall k | k in db.messages && db.messages[k].conv == req.conv ::
          db.messages[k].seqNo != db.convs[req.conv].lastSeq + 1)
    && |req.attachmentIds| <= 5
    && (forall a | a in req.attachmentIds ::
          a in db.attachments && db.attachments[a].uploadedBy == req.sender && db.attachments[a].messageId == None)
  }

  lemma SavesExactly(db: Db, req: SendRequest, id: Id)
    ensures Accepted(db, Post(req, id)) <==> MaySave(db, req, id)
  {
    BlankExactly(req.body);
    SentExactly(db, req);
    if req.conv in db.convs {
      var row := NewRow(req, id, SeqOf(db, req));
      assert HasDuplicate(NextSeq(db, req.conv), row.sender, row.clientId) <==>
             HasDuplicate(db, req.sender, req.clientId);
    }
  }

  /** Every table after a saved message. */
  lemma SavedRows(db: Db, req: SendRequest, id: Id)
    requires MaySave(db, req, id)
    ensures var d, n := Exec(db, Post(req, id)), db.convs[req.conv].lastSeq + 1;
      && d.convs == db.convs[req.conv := Conversation(n, Some(id))]
      && d.messages == db.messages[id :=
           Message(id, req.conv, n, req.sender, if |req.attachmentIds| > 0 then Media else Text, Some(req.body),
                   req.replyTo, req.clientId, false, map[])]
      && d.members.Keys == db.members.Keys
      && (forall k | k in d.members :: MemberAfter(db.members[k], d.members[k], k, req, n))
      && d.attachments.Keys == db.attachments.Keys
      && (forall a | a in d.attachments ::
            && d.attachments[a].uploadedBy == db.attachments[a].uploadedBy
            && d.attachments[a].messageId ==
               if a in req.attachmentIds then Some(id) else db.attachments[a].messageId)
  {
    SavesExactly(db, req, id);
    LogInvariant.PostedTables(db, req, id);
  }

  /** The sender has read everything; every other active member has one more to read; nobody else is touched. */
  predicate MemberAfter(m: Member, m': Member, k: (Id, Id), req: SendRequest, n: nat) {
    && m'.active == m.active
    && (k == (req.conv, req.sender) ==> m'.lastReadSeq == n && m'.lastDeliveredSeq == n && m'.unreadCount == 0)
    && (k != (req.conv, req.sender) ==> m'.lastReadSeq == m.lastReadSeq && m'.lastDeliveredSeq == m.lastDeliveredSeq)
    && (k.0 == req.conv && k.1 != req.sender && m.active ==> m'.unreadCount == m.unreadCount + 1)
    && (k.0 != req.conv || (k.1 != req.sender && !m.active) ==> m'.unreadCount == m.unreadCount)
  }

  // ---------- cursors ----------

  /** Only the member's own row changes, and within it only the cursors and the counter. */
  predicate OnlyRow(db: Db, d: Db, k: (Id, Id)) {
    && d.convs == db.convs && d.messages == db.messages && d.attachments == db.attachments
    && d.members.Keys == db.members.Keys
    && (forall o | o in db.members && o != k :: d.members[o] == db.members[o])
    && (k in db.members ==> d.members[k].active == db.members[k].active)
  }

  predicate IsLarger(r: int, a: int, b: int) {
    r >= a && r >= b && (r == a || r == b)
  }

  lemma ReadRow(db: Db, c: Id, u: Id, n: int)
    requires InRoom(db, c, u)
    ensures var d := Exec(db, MarkRead(c, u, n));
      var m, m' := db.members[(c, u)], d.members[(c, u)];
      && OnlyRow(db, d, (c, u))
      && IsLarger(m'.lastReadSeq, m.lastReadSeq, n) && IsLarger(m'.lastDeliveredSeq, m.lastDeliveredSeq, n)
      && m'.unreadCount == |set id | id in db.messages && db.messages[id].conv == c && db.messages[id].sender != u
                                     && db.messages[id].seqNo > m'.lastReadSeq && !db.messages[id].deleted|
  {
    var m' := Exec(db, MarkRead(c, u, n)).members[(c, u)];
    assert LiveAbove(db, c, u, m'.lastReadSeq) ==
           set id | id in db.messages && db.messages[id].conv == c && db.messages[id].sender != u
                    && db.messages[id].seqNo > m'.lastReadSeq && !db.messages[id].deleted;
  }

  lemma DeliveredRow(db: Db, c: Id, u: Id, n: int)
    requires InRoom(db, c, u)
    ensures var d := Exec(db, MarkDelivered(c, u, n));
      var m, m' := db.members[(c, u)], d.members[(c, u)];
      && OnlyRow(db, d, (c, u))
      && m'.lastReadSeq == m.lastReadSeq && m'.unreadCount == m.unreadCount
      && IsLarger(m'.lastDeliveredSeq, m.lastDeliveredSeq, n)
  {
  }

  // ---------- edits ----------

  /** Only that message changes, and keeps its place, key and sender. */
  predicate OnlyMessage(db: Db, d: Db, mid: Id) {
    && d.convs == db.convs && d.members == db.members && d.attachments == db.attachments
    && d.messages.Keys == db.messages.Keys && mid in db.messages
    && (forall k | k in db.messages && k != mid :: d.messages[k] == db.messages[k])
    && d.messages[mid] == db.messages[mid].(body := d.messages[mid].body, deleted := d.messages[mid].deleted,
                                            reactions := d.messages[mid].reactions)
  }

  lemma DeletedRow(db: Db, u: Id, mid: Id)
    requires mid in db.messages && InRoom(db, db.messages[mid].conv, u)
    ensures var d := Exec(db, Delete(u, mid));
      && (db.messages[mid].sender != u || (db.messages[mid].deleted && db.messages[mid].body == None) ==> d == db)
      && (db.messages[mid].sender == u ==>
            && OnlyMessage(db, d, mid) && d.messages[mid].deleted
            && d.messages[mid].reactions == db.messages[mid].reactions
            && (!db.messages[mid].deleted ==> d.messages[mid].body == None))
  {
    if db.messages[mid].sender == u && db.messages[mid].deleted {
      assert db.messages[mid := db.messages[mid]] == db.messages;
    }
  }

  lemma ReactedRow(db: Db, u: Id, mid: Id, emoji: string)
    requires mid in db.messages && InRoom(db, db.messages[mid].conv, u)
    ensures emoji == "" ==> Exec(db, React(u, mid, emoji)) == db
    ensures emoji != "" ==>
      var d := Exec(db, React(u, mid, emoji));
      && OnlyMessage(db, d, mid)
      && d.messages[mid].body == db.messages[mid].body && d.messages[mid].deleted == db.messages[mid].deleted
      && u in d.messages[mid].reactions && d.messages[mid].reactions[u] == emoji
      && (forall v | v != u :: v in d.messages[mid].reactions <==> v in db.messages[mid].reactions)
      && (forall v | v != u && v in db.messages[mid].reactions ::
            d.messages[mid].reactions[v] == db.messages[mid].reactions[v])
  {
  }

  lemma ClearedRow(db: Db, u: Id, mid: Id)
    requires mid in db.messages && InRoom(db, db.messages[mid].conv, u)
    ensures var d := Exec(db, ClearReaction(u, mid));
      && OnlyMessage(db, d, mid)
      && d.messages[mid].body == db.messages[mid].body && d.messages[mid].deleted == db.messages[mid].deleted
      && u !in d.messages[mid].reactions
      && (forall v | v != u :: v in d.messages[mid].reactions <==> v in db.messages[mid].reactions)
      && (forall v | v != u && v in db.messages[mid].reactions ::
            d.messages[mid].reactions[v] == db.messages[mid].reactions[v])
  {
  }

  // ---------- who is in ----------

  /** A new room starts empty, with the named users; an old one stays. */
  lemma OpenedRoom(db: Db, c: Id, users: set<Id>)
    ensures var d := Exec(db, Open(c, users));
      && d.messages == db.messages && d.attachments == db.attachments
      && (c in db.convs || (exists k :: k in db.members && k.0 == c) ==> d == db)
      && (c !in db.convs && (forall k | k in db.members :: k.0 != c) ==>
            && d.convs == db.convs[c := Conversation(0, None)]
            && (forall k: (Id, Id) | k.0 == c :: k in d.members <==> k.1 in users)
            && (forall k: (Id, Id) | k.0 == c && k.1 in users :: d.members[k] == Member(0, 0, 0, true))
            && (forall k: (Id, Id) | k.0 != c :: k in d.members <==> k in db.members)
            && (forall k: (Id, Id) | k.0 != c && k in db.members :: d.members[k] == db.members[k]))
  {
  }

  /** Joining makes the user active, with the old cursors if there are any; leaving keeps them. */
  lemma Comings(db: Db, c: Id, u: Id)
    ensures c !in db.convs ==> Exec(db, Join(c, u)) == db
    ensures c in db.convs ==>
      var d := Exec(db, Join(c, u));
      && d.convs == db.convs && d.messages == db.messages && d.attachments == db.attachments
      && InRoom(d, c, u)
      && (forall k | k != (c, u) :: k in d.members <==> k in db.members)
      && (forall k | k != (c, u) && k in db.members :: d.members[k] == db.members[k])
      && ((c, u) in db.members ==>
            && d.members[(c, u)].lastReadSeq == db.members[(c, u)].lastReadSeq
            && d.members[(c, u)].lastDeliveredSeq == db.members[(c, u)].lastDeliveredSeq
            && d.members[(c, u)].unreadCount == db.members[(c, u)].unreadCount)
      && ((c, u) !in db.members ==> d.members[(c, u)] == Member(0, 0, 0, true))
  {
  }

  lemma Goings(db: Db, c: Id, u: Id)
    requires InRoom(db, c, u)
    ensures var d := Exec(db, Leave(c, u));
      && d.convs == db.convs && d.messages == db.messages && d.attachments == db.attachments
      && d.members.Keys == db.members.Keys && !InRoom(d, c, u)
      && (forall k | k in db.members && k != (c, u) :: d.members[k] == db.members[k])
      && d.members[(c, u)].lastReadSeq == db.members[(c, u)].lastReadSeq
      && d.members[(c, u)].lastDeliveredSeq == db.members[(c, u)].lastDeliveredSeq
      && d.members[(c, u)].unreadCount == db.members[(c, u)].unreadCount
  {
  }

  /** An upload is its owner's and belongs to no message yet; an id that is taken stays as it was. */
  lemma Uploads(db: Db, a: Id, u: Id)
    ensures var d := Exec(db, Upload(a, u));
      && d.convs == db.convs && d.members == db.members && d.messages == db.messages
      && (a in db.attachments ==> d == db)
      && (a !in db.attachments ==>
            a in d.attachments && d.attachments[a].uploadedBy == u && d.attachments[a].messageId == None)
      && (forall b | b != a :: b in d.attachments <==> b in db.attachments)
      && (forall b | b != a && b in db.attachments :: d.attachments[b] == db.attachments[b])
  {
  }
}
