/**
 The pages and recoveries of Paging read a log. This is where that log comes from: in every state the log
 invariant allows, a conversation's rows, serialised in seq order, have the shape Paging asks for.
 */
module ServerLog {
  import opened Wrappers
  import opened Database
  import opened ServerSpec
  import opened LogInvariant
  import opened ChatTypes
  import opened Thread
  import opened Paging
  import opened Receipts
  import opened Replica

  /** No two rows of the conversation carry one client id, whoever sent them. */
  ghost predicate DistinctClientIds(db: Db, c: Id) {
    forall i, j | i in db.messages && j in db.messages && db.messages[i].conv == c && db.messages[j].conv == c
                  && db.messages[i].clientId == db.messages[j].clientId :: i == j
  }

  /** A whole mirror of a conversation is a log to page from. */
  lemma MirrorIsLog(log: Entries, db: Db, c: Id)
    requires LogOk(db) && Mirrors(log, db, c, 1) && DistinctClientIds(db, c) && db.convs[c].lastSeq < PENDING_SEQ
    ensures LogShape(log)
  {
    forall i, j | 0 <= i < |log| && 0 <= j < |log| && Matches(log[i], log[j])
      ensures i == j
    {
      assert Shows(log[i], db, log[i].id) && Shows(log[j], db, log[j].id);
      assert log[i].id == log[j].id;
    }
  }

  lemma {:induction false} ReactionsCanBeListed(m: map<Id, string>) returns (rs: seq<Reaction>)
    ensures ShowsReactions(rs, m)
    decreases |m|
  {
    if m == map[] {
      rs := [];
    } else {
      var u :| u in m;
      var rest := ReactionsCanBeListed(m - {u});
      AddedShows(rest, m - {u}, Reaction(u, m[u]));
      rs := rest + [Reaction(u, m[u])];
      assert (m - {u})[u := m[u]] == m;
    }
  }

  lemma {:induction false} IdsCanBeListed(all: set<Id>) returns (list: seq<Id>)
    ensures forall a :: a in list <==> a in all
    decreases |all|
  {
    if all == {} {
      list := [];
    } else {
      var a :| a in all;
      var rest := IdsCanBeListed(all - {a});
      list := rest + [a];
    }
  }

  /** Every row can be serialised. */
  lemma RowCanBeShown(db: Db, id: Id) returns (e: LocalMessage)
    requires id in db.messages && db.messages[id].id == id
    ensures Shows(e, db, id) && e.id == id
  {
    var m := db.messages[id];
    var rs := ReactionsCanBeListed(m.reactions);
    var list := IdsCanBeListed(AttachmentsOf(db.attachments, id));
    assert (set a | a in list) == AttachmentsOf(db.attachments, id);
    e := LocalMessage(m.id, m.seqNo, Some(m.sender), m.kind, m.body, m.replyTo, m.clientId, m.deleted, rs, list, false,
        false);
  }

  /** The row at one seq, serialised. */
  lemma SlotCanBeShown(db: Db, c: Id, n: nat) returns (e: LocalMessage)
    requires NoGaps(db.convs, db.messages) && RowsOk(db.messages, db.convs, db.members)
    requires c in db.convs && 1 <= n <= db.convs[c].lastSeq
    ensures IsSlot(e, db, c, n)
  {
    assert HasRow(db.messages, c, n);
    var id :| id in db.messages && AtSlot(db.messages[id], c, n);
    e := RowCanBeShown(db, id);
  }

  ghost predicate IsSlot(e: LocalMessage, db: Db, c: Id, n: nat) {
    e.seqNo == n && Shows(e, db, e.id) && db.messages[e.id].conv == c
  }

  lemma {:induction false} RowsUpToFormALog(db: Db, c: Id, n: nat) returns (log: Entries)
    requires NoGaps(db.convs, db.messages) && RowsOk(db.messages, db.convs, db.members)
    requires c in db.convs && n <= db.convs[c].lastSeq
    ensures |log| == n && forall i | 0 <= i < n :: IsSlot(log[i], db, c, i + 1)
  {
    if n == 0 {
      log := [];
    } else {
      var front := RowsUpToFormALog(db, c, n - 1);
      var e := SlotCanBeShown(db, c, n);
      log := front + [e];
    }
  }

  /** Main result: whatever the server has been through, its rows of a conversation form a log, gapless
      from 1 to last_seq, and a mirror that starts from it is a replica. */
  lemma RowsFormALog(db: Db, c: Id) returns (log: Entries)
    requires LogOk(db) && c in db.convs && DistinctClientIds(db, c) && db.convs[c].lastSeq < PENDING_SEQ
    ensures LogShape(log) && |log| == db.convs[c].lastSeq && Mirrors(log, db, c, 1)
  {
    log := RowsUpToFormALog(db, c, db.convs[c].lastSeq);
    assert forall i | 0 <= i < |log| :: IsSlot(log[i], db, c, i + 1);
    MirrorIsLog(log, db, c);
  }

  /** A thread opened at the newest page and paged back any number of times mirrors the server's rows from
      its first seq on, so that ReplicaFollowsServer applies to it. */
  lemma OpenedThreadMirrors(log: Entries, db: Db, c: Id, times: nat)
    requires Mirrors(log, db, c, 1) && LogShape(log)
    ensures var lo := Monus(|log|, CLIENT_PAGE_SIZE * (times + 1));
            Mirrors(LoadOlderTimes(log, OpenThread(log), times).messages, db, c, lo + 1)
  {
    BackwardPagingTiles(log, times);
  }

  /** Two senders may use one client id, and the service takes both messages. */
  lemma ClientIdTakenTwice(c: Id, u: Id, v: Id, req: SendRequest, other: SendRequest, id: Id, id': Id)
    returns (d1: Db, d2: Db, d3: Db)
    requires u != v && id != id' && req.sender == u && other == req.(sender := v)
    requires req.conv == c && !Blank(req.body) && req.replyTo.None? && req.attachmentIds == []
    ensures Accepted(EMPTY_DB, Open(c, {u, v})) && d1 == Exec(EMPTY_DB, Open(c, {u, v}))
    ensures Accepted(d1, Post(req, id)) && d2 == Exec(d1, Post(req, id)) && LogOk(d2)
    ensures Accepted(d2, Post(other, id')) && d3 == Exec(d2, Post(other, id'))
    ensures forall k | k in d2.messages :: d2.messages[k].clientId == req.clientId
    ensures c in d2.convs && d2.convs[c].lastSeq == 1
  {
    d1 := PairOpened(c, u, v);
    EmptyIsOk();
    ExecKeepsLog(EMPTY_DB, Open(c, {u, v}));
    assert Postable(d1, req, id);
    PostedTables(d1, req, id);
    ExecKeepsLog(d1, Post(req, id));
    d2 := Exec(d1, Post(req, id));
    OtherMayPost(d1, req, other, id, id');
    d3 := Exec(d2, Post(other, id'));
  }

  /** A reader that showed the first of them loses it to the second. */
  lemma ClientIdClashHappens(c: Id, u: Id, v: Id, req: SendRequest, other: SendRequest, id: Id, id': Id)
    returns (d1: Db, d2: Db, d3: Db, t: Entries, m: LocalMessage)
    requires u != v && id != id' && req.sender == u && other == req.(sender := v)
    requires req.conv == c && !Blank(req.body) && req.replyTo.None? && req.attachmentIds == []
    ensures Accepted(EMPTY_DB, Open(c, {u, v})) && d1 == Exec(EMPTY_DB, Open(c, {u, v}))
    ensures Accepted(d1, Post(req, id)) && d2 == Exec(d1, Post(req, id))
    ensures Accepted(d2, Post(other, id')) && d3 == Exec(d2, Post(other, id'))
    ensures Mirrors(t, d2, c, 1) && Shows(m, d3, id') && !Mirrors(ApplyIncoming(t, m), d3, c, 1)
    ensures |t| == 1 && |ApplyIncoming(t, m)| == 1
  {
    d1, d2, d3 := ClientIdTakenTwice(c, u, v, req, other, id, id');
    t, m := ClashShown(d2, c, req.clientId, other, id');
  }

  /** A conversation of one message, and a second one with its client id. */
  lemma ClashShown(db: Db, c: Id, clientId: Id, req: SendRequest, id: Id) returns (t: Entries, m: LocalMessage)
    requires LogOk(db) && c in db.convs && db.convs[c].lastSeq == 1 && Postable(db, req, id) && req.conv == c
    requires req.clientId == clientId && forall k | k in db.messages :: db.messages[k].clientId == clientId
    ensures Mirrors(t, db, c, 1) && Shows(m, Posted(db, req, id), id) &&
            !Mirrors(ApplyIncoming(t, m), Posted(db, req, id), c, 1)
    ensures |t| == 1 && |ApplyIncoming(t, m)| == 1
  {
    t := RowsUpToFormALog(db, c, 1);
    assert IsSlot(t[0], db, c, 1);
    PostedTables(db, req, id);
    m := RowCanBeShown(Posted(db, req, id), id);
    NotFree(t, db, c, req, id, m);
  }

  lemma NotFree(t: Entries, db: Db, c: Id, req: SendRequest, id: Id, m: LocalMessage)
    requires LogOk(db) && Mirrors(t, db, c, 1) && Postable(db, req, id) && req.conv == c
    requires Shows(m, Posted(db, req, id), id) && |t| == 1 && t[0].clientId == m.clientId
    ensures !Mirrors(ApplyIncoming(t, m), Posted(db, req, id), c, 1) && |ApplyIncoming(t, m)| == 1
  {
    assert t[0] in t && Matches(t[0], m);
    MatchedReplaces(t, m);
    CreatedMirrorsExactly(t, db, c, 1, req, id, m);
  }

  /** The unique key is on sender and client id together. */
  lemma OtherMayPost(db: Db, req: SendRequest, other: SendRequest, id: Id, id': Id)
    requires Postable(db, req, id) && other == req.(sender := other.sender) && other.sender != req.sender && id != id'
    requires db.messages == map[] && (req.conv, other.sender) in db.members && req.replyTo.None? &&
             req.attachmentIds == []
    ensures Postable(Posted(db, req, id), other, id')
  {
    PostedTables(db, req, id);
  }
}
