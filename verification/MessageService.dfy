/**
 The service methods, in the source's own form: they change the session's tables in place and
 either commit or roll back. Each is proved against ServerSpec, where the invariants live.
 */
module MessageService {
  import opened Wrappers
  import opened Collections
  import opened Database
  import opened ServerSpec
  import opened LogInvariant
  import opened SendProtocol

  class Session {
    var convs: Convs
    var members: Members
    var messages: Messages
    var attachments: Attachments

    function State(): Db
      reads this
    {
      Db(convs, members, messages, attachments)
    }

    constructor ()
      ensures State() == EMPTY_DB
    {
      convs, members, messages, attachments := map[], map[], map[], map[];
    }

    method Rollback(before: Db)
      modifies this
      ensures State() == before
    {
      convs, members, messages, attachments := before.convs, before.members, before.messages, before.attachments;
    }
  }

  /** `require_membership`: a departed or absent member sees a missing conversation. */
  method RequireMembership(session: Session, c: Id, u: Id) returns (r: Result<Member>)
    ensures r == if IsMember(session.State(), c, u) then Success(session.members[(c, u)]) else Failure(NotFound)
  {
    if (c, u) !in session.members || !session.members[(c, u)].active {
      return Failure(NotFound);
    }
    return Success(session.members[(c, u)]);
  }

  /** Claims stop at the first attachment that is not the sender's or is taken; what was claimed before
      it is left for the caller's rollback. */
  method ClaimAttachments(session: Session, user: Id, ids: seq<Id>, mid: Id) returns (r: Result<set<Id>>)
    modifies session`attachments
    ensures r.Success? <==> Claimable(old(session.State()), user, ids)
    ensures r.Success? ==> session.attachments == Claimed(old(session.State()), ids, mid).attachments
    ensures r.Success? ==> r.value == set a | a in ids
    ensures |ids| > MAX_ATTACHMENTS_PER_MESSAGE ==> r == Failure(Validation)
    ensures |ids| <= MAX_ATTACHMENTS_PER_MESSAGE ==>
      (r == Failure(NotFound) <==> exists a | a in ids :: a !in old(session.attachments))
    ensures r == Failure(Forbidden) ==> exists a | a in ids && a in old(session.attachments) ::
      old(session.attachments)[a].uploadedBy != user
    ensures r == Failure(Validation) && |ids| <= MAX_ATTACHMENTS_PER_MESSAGE ==>
      exists a | a in ids && a in old(session.attachments) :: old(session.attachments)[a].messageId.Some?
    ensures r.Failure? ==> r.error in {Validation, NotFound, Forbidden}
  {
    ghost var before := session.attachments;
    if ids == [] {
      assert Claimed(session.State(), [], mid).attachments == before;
      return Success({});
    }
    if |ids| > MAX_ATTACHMENTS_PER_MESSAGE {
      return Failure(Validation);
    }
    var wanted := set a | a in ids;
    var found := set a | a in wanted && a in session.attachments;
    SubsetSize(found, wanted);
    assert (forall a | a in ids :: a in session.attachments) ==> found == wanted;
    if |found| != |wanted| {
      return Failure(NotFound);
    }
    assert forall a | a in ids :: a in wanted && a in found;
    var rest := found;
    while rest != {}
      invariant rest <= found
      invariant session.attachments.Keys == before.Keys
      invariant forall a | a in found - rest :: before[a] == Attachment(user, None)
      invariant forall a | a in before ::
        session.attachments[a] == if a in found - rest then before[a].(messageId := Some(mid)) else before[a]
      decreases rest
    {
      var a :| a in rest;
      if session.attachments[a].uploadedBy != user {
        return Failure(Forbidden);
      }
      if session.attachments[a].messageId.Some? {
        return Failure(Validation);
      }
      session.attachments := session.attachments[a := session.attachments[a].(messageId := Some(mid))];
      rest := rest - {a};
    }
    return Success(found);
  }

  lemma RowsBelowNext(db: Db, c: Id)
    requires LogOk(db) && c in db.convs
    ensures forall n: nat | n >= 1 :: n < db.convs[c].lastSeq + 1 <==> HasRow(db.messages, c, n)
  {
    forall n: nat | n >= 1 && HasRow(db.messages, c, n) ensures n <= db.convs[c].lastSeq {
      var id :| id in db.messages && AtSlot(db.messages[id], c, n);
      assert RowOk(db.messages[id], db.messages, db.convs, db.members);
    }
  }

  class MessageService {
    const session: Session

    constructor (session: Session)
      ensures this.session == session
    {
      this.session := session;
    }

    /** The allocation is one UPDATE ... RETURNING under the write lock. On a healthy log the seq handed out is
        the first one that no row has. */
    method NextSeq(c: Id) returns (seqNo: nat)
      requires c in session.convs
      modifies session`convs
      ensures session.State() == ServerSpec.NextSeq(old(session.State()), c)
      ensures seqNo == session.convs[c].lastSeq
      ensures LogOk(old(session.State())) ==>
        forall n: nat | n >= 1 :: n < seqNo <==> HasRow(session.messages, c, n)
    {
      ghost var before := session.State();
      if LogOk(before) {
        RowsBelowNext(before, c);
      }
      seqNo := session.convs[c].lastSeq + 1;
      session.convs := session.convs[c := session.convs[c].(lastSeq := seqNo)];
    }

    method BumpUnread(c: Id, sender: Id)
      modifies session`members
      ensures session.State() == Bumped(old(session.State()), c, sender)
    {
      session.members := map k | k in session.members ::
        if k.0 == c && k.1 != sender && session.members[k].active
        then session.members[k].(unreadCount := session.members[k].unreadCount + 1) else session.members[k];
    }

    /** Sets the sender's cursors to the new seq; it does not take a maximum. */
    method AdvanceSenderCursors(c: Id, sender: Id, seqNo: nat)
      modifies session`members
      ensures session.State() == Advanced(old(session.State()), c, sender, seqNo)
    {
      if (c, sender) in session.members {
        var m := session.members[(c, sender)];
        session.members := session.members[(c, sender) :=
            m.(lastReadSeq := seqNo, lastDeliveredSeq := seqNo, unreadCount := 0)];
      }
      assert session.members == Advanced(old(session.State()), c, sender, seqNo).members;
    }

    method ByClientMessageId(sender: Id, clientId: Id) returns (r: Option<Message>)
      ensures r.Some? <==> HasDuplicate(session.State(), sender, clientId)
      ensures r.Some? ==> SentBy(r.value, sender, clientId)
      ensures r.Some? ==> exists id :: id in session.messages && session.messages[id] == r.value
    {
      var matches := set id | id in session.messages && SentBy(session.messages[id], sender, clientId);
      if matches == {} {
        assert forall id | id in session.messages :: id !in matches;
        return None;
      }
      var id :| id in matches;
      return Some(session.messages[id]);
    }

    /** Inserts the row, or rolls back on a unique constraint. */
    method FlushRow(row: Message, before: Db) returns (ok: bool)
      modifies session
      ensures ok == Fits(old(session.State()), row)
      ensures session.State() == if ok then Inserted(old(session.State()), row) else before
    {
      var clashes := set k | k in session.messages
        && ((session.messages[k].conv == row.conv && session.messages[k].seqNo == row.seqNo)
            || SentBy(session.messages[k], row.sender, row.clientId));
      ok := row.id !in session.messages && clashes == {};
      if clashes != {} {
        ghost var k :| k in clashes;
        assert !Fits(session.State(), row);
      } else {
        assert forall k | k in session.messages :: k !in clashes;
      }
      if ok {
        session.messages := session.messages[row.id := row];
      } else {
        session.Rollback(before);
      }
    }

    /** The attachment part of `send`: the message becomes media when its claims all succeed. */
    method Attach(user: Id, ids: seq<Id>, mid: Id) returns (r: Result<()>)
      requires mid in session.messages
      modifies session`attachments, session`messages
      ensures r.Success? <==> Claimable(old(session.State()), user, ids)
      ensures r.Success? ==> var s := old(session.State());
        session.State() == if ids == [] then s else AsMedia(Claimed(s, ids, mid), mid)
      ensures r.Failure? ==> r.error in {Validation, NotFound, Forbidden} && session.messages == old(session.messages)
    {
      if ids != [] {
        var claimed := ClaimAttachments(session, user, ids, mid);
        if claimed.Failure? {
          return Failure(claimed.error);
        }
        session.messages := session.messages[mid := session.messages[mid].(kind := Media)];
      }
      return Success(());
    }

    /** `send`. `id` is the row's primary key, generated when the row is built. */
    method Send(user: Id, c: Id, clientId: Id, body: string, replyTo: Option<Id>, attachmentIds: seq<Id>, id: Id)
      returns (r: Result<Message>)
      modifies session
      ensures var before, req := old(session.State()), SendRequest(user, c, clientId, body, replyTo, attachmentIds);
        match CheckSend(before, req)
        case Reject(error) => r == Failure(error) && session.State() == before
        case Replay => r.Success? && SentBy(r.value, user, clientId) && session.State() == before
                       && exists k :: k in before.messages && before.messages[k] == r.value
        case Proceed =>
          && session.State() == Exec(before, Post(req, id))
          && (r.Success? <==> Postable(before, req, id))
          && (r.Success? ==> id in session.messages && r.value == session.messages[id])
          && (r == Failure(Integrity) <==> !FlushOk(before, req, id))
    {
      var before := session.State();
      ghost var req := SendRequest(user, c, clientId, body, replyTo, attachmentIds);
      var member := RequireMembership(session, c, user);
      if member.Failure? {
        return Failure(member.error);
      }
      var duplicate := ByClientMessageId(user, clientId);
      if duplicate.Some? {
        return Success(duplicate.value);
      }
      if c !in session.convs {
        return Failure(NotFound);
      }
      if Blank(body) && attachmentIds == [] {
        return Failure(Validation);
      }
      if replyTo.Some? && (replyTo.value !in session.messages || session.messages[replyTo.value].conv != c) {
        return Failure(Validation);
      }
      assert CheckSend(before, req) == Proceed && Sendable(before, req);
      r := Store(user, c, clientId, body, replyTo, attachmentIds, id);
    }

    /** `send` once its checks have passed. */
    method Store(user: Id, c: Id, clientId: Id, body: string, replyTo: Option<Id>, attachmentIds: seq<Id>, id: Id)
      returns (r: Result<Message>)
      requires Sendable(session.State(), SendRequest(user, c, clientId, body, replyTo, attachmentIds))
      modifies session
      ensures var before, req := old(session.State()), SendRequest(user, c, clientId, body, replyTo, attachmentIds);
        && session.State() == (if Postable(before, req, id) then Posted(before, req, id) else before)
        && (r.Success? <==> Postable(before, req, id))
        && (r.Success? ==> id in session.messages && r.value == session.messages[id])
        && (r == Failure(Integrity) <==> !FlushOk(before, req, id))
    {
      var before := session.State();
      ghost var req := SendRequest(user, c, clientId, body, replyTo, attachmentIds);
      var seqNo := NextSeq(c);
      var row := Message(id, c, seqNo, user, Text, Some(body), replyTo, clientId, false, map[]);
      var flushed := FlushRow(row, before);
      if !flushed {
        return Failure(Integrity);
      }
      assert session.State() == Flushed(before, req, id);

      var attached := Attach(user, attachmentIds, id);
      if attached.Failure? {
        session.Rollback(before);
        return Failure(attached.error);
      }
      assert session.State() == WithClaim(Flushed(before, req, id), req, id);

      session.convs := session.convs[c := session.convs[c].(lastMessageId := Some(id))];
      BumpUnread(c, user);
      AdvanceSenderCursors(c, user, seqNo);
      assert session.State() == Posted(before, req, id);
      return Success(session.messages[id]);
    }

    /** Counts row by row what LiveAbove collects. */
    method CountUnread(c: Id, u: Id, readSeq: nat) returns (n: nat)
      ensures n == |LiveAbove(session.State(), c, u, readSeq)|
    {
      var messages := session.messages;
      ghost var live := LiveAbove(session.State(), c, u, readSeq);
      assert live <= messages.Keys;
      assert forall id | id in messages :: id in live <==> CountsFor(messages[id], c, u, readSeq);
      n := CountRows(messages, c, u, readSeq, live);
    }

    static predicate CountsFor(m: Message, c: Id, u: Id, readSeq: nat) {
      m.conv == c && m.seqNo > readSeq && m.sender != u && !m.deleted
    }

    static method CountRows(messages: Messages, c: Id, u: Id, readSeq: nat, ghost live: set<Id>) returns (n: nat)
      requires live <= messages.Keys
      requires forall id | id in messages :: id in live <==> CountsFor(messages[id], c, u, readSeq)
      ensures n == |live|
    {
      n := 0;
      var rest := messages.Keys;
      ghost var counted: set<Id> := {};
      while rest != {}
        invariant rest <= messages.Keys && n == |counted|
        invariant forall id | id in messages :: id in counted <==> id in live && id !in rest
        invariant counted <= messages.Keys
        decreases rest
      {
        var id :| id in rest;
        if CountsFor(messages[id], c, u, readSeq) {
          n, counted := n + 1, counted + {id};
        }
        rest := rest - {id};
      }
      assert counted == live;
    }

    method MarkRead(user: Id, c: Id, seqNo: int) returns (r: Result<Member>)
      modifies session`members
      ensures session.State() == Exec(old(session.State()), Op.MarkRead(c, user, seqNo))
      ensures r == if IsMember(old(session.State()), c, user)
                   then Success(ReadBy(old(session.State()), c, user, seqNo)) else Failure(NotFound)
    {
      r := RequireMembership(session, c, user);
      if r.Failure? {
        return;
      }
      var member := r.value;
      if seqNo > member.lastReadSeq {
        member := member.(lastReadSeq := seqNo);
      }
      if seqNo > member.lastDeliveredSeq {
        member := member.(lastDeliveredSeq := seqNo);
      }
      var unread := CountUnread(c, user, member.lastReadSeq);
      member := member.(unreadCount := unread);
      session.members := session.members[(c, user) := member];
      return Success(member);
    }

    method MarkDelivered(user: Id, c: Id, seqNo: int) returns (r: Result<Member>)
      modifies session`members
      ensures session.State() == Exec(old(session.State()), Op.MarkDelivered(c, user, seqNo))
      ensures r == if IsMember(old(session.State()), c, user)
                   then Success(DeliveredTo(old(session.members)[(c, user)], seqNo)) else Failure(NotFound)
    {
      r := RequireMembership(session, c, user);
      if r.Failure? {
        return;
      }
      var member := r.value;
      if seqNo > member.lastDeliveredSeq {
        member := member.(lastDeliveredSeq := seqNo);
        session.members := session.members[(c, user) := member];
      }
      assert session.members == old(session.members)[(c, user) := member];
      return Success(member);
    }

    method Delete(user: Id, mid: Id) returns (r: Result<Message>)
      modifies session`messages
      ensures session.State() == Exec(old(session.State()), Op.Delete(user, mid))
      ensures r.Success? <==> Visible(old(session.State()), user, mid) && old(session.messages)[mid].sender == user
      ensures r.Success? ==> r.value == session.messages[mid] && r.value.deleted
      ensures r == Failure(Forbidden) <==>
              Visible(old(session.State()), user, mid) && old(session.messages)[mid].sender != user
    {
      if mid !in session.messages {
        return Failure(NotFound);
      }
      var message := session.messages[mid];
      var member := RequireMembership(session, message.conv, user);
      if member.Failure? {
        return Failure(member.error);
      }
      if message.sender != user {
        return Failure(Forbidden);
      }
      if !message.deleted {
        message := message.(deleted := true, body := None);
        session.messages := session.messages[mid := message];
      }
      assert session.messages == old(session.messages)[mid := message];
      return Success(message);
    }
  }

  class ReactionService {
    const session: Session

    constructor (session: Session)
      ensures this.session == session
    {
      this.session := session;
    }

    method VisibleMessage(user: Id, mid: Id) returns (r: Result<Message>)
      ensures r == if Visible(session.State(), user, mid) then Success(session.messages[mid]) else Failure(NotFound)
    {
      if mid !in session.messages {
        return Failure(NotFound);
      }
      var member := RequireMembership(session, session.messages[mid].conv, user);
      if member.Failure? {
        return Failure(member.error);
      }
      return Success(session.messages[mid]);
    }

    /** The schema admits no empty emoji. */
    method React(user: Id, mid: Id, emoji: string) returns (r: Result<Message>)
      requires emoji != ""
      modifies session`messages
      ensures session.State() == Exec(old(session.State()), Op.React(user, mid, emoji))
      ensures r == if Visible(old(session.State()), user, mid) then Success(session.messages[mid])
              else Failure(NotFound)
    {
      r := VisibleMessage(user, mid);
      if r.Failure? {
        return;
      }
      var message := r.value.(reactions := r.value.reactions[user := emoji]);
      session.messages := session.messages[mid := message];
      return Success(message);
    }

    method Clear(user: Id, mid: Id) returns (r: Result<Message>)
      modifies session`messages
      ensures session.State() == Exec(old(session.State()), ClearReaction(user, mid))
      ensures r == if Visible(old(session.State()), user, mid) then Success(session.messages[mid])
              else Failure(NotFound)
    {
      r := VisibleMessage(user, mid);
      if r.Failure? {
        return;
      }
      var message := r.value.(reactions := r.value.reactions - {user});
      session.messages := session.messages[mid := message];
      return Success(message);
    }
  }
}
