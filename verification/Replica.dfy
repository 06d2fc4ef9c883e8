/**
 A peer's copy of a conversation. Starting from the server's rows of seq lo and up and applying every
 event in order, it shows exactly those rows after each server step, as long as no two senders use one
 client id: the store matches a new message by client id alone.
 */
module Replica {
  import opened Wrappers
  import opened Database
  import opened ServerSpec
  import opened LogInvariant
  import opened ChatTypes
  import opened Thread

  /** Payloads of message.created, message.deleted and message.reaction for one conversation. */
  datatype Event =
    | Created(message: LocalMessage)
    | Deleted(mid: Id)
    | Reacted(mid: Id, user: Id, emoji: Option<string>)

  // ---------- the server's side ----------

  /** The reaction list as a map: one entry per user, in any order. */
  ghost predicate ShowsReactions(rs: seq<Reaction>, m: map<Id, string>) {
    && (forall i, j | 0 <= i < |rs| && 0 <= j < |rs| && rs[i].user == rs[j].user :: i == j)
    && (forall r | r in rs :: r.user in m && m[r.user] == r.emoji)
    && (forall u | u in m :: Reaction(u, m[u]) in rs)
  }

  /** MessageOut of a row; attachments may be listed in any order. */
  ghost predicate ShowsRow(e: LocalMessage, m: Message, attachments: set<Id>) {
    && e.id == m.id && e.seqNo == m.seqNo && e.sender == Some(m.sender) && e.kind == m.kind && e.body == m.body
    && e.replyTo == m.replyTo && e.clientId == m.clientId && e.deleted == m.deleted
    && !e.pending && !e.failed
    && ShowsReactions(e.reactions, m.reactions)
    && (set a | a in e.attachments) == attachments
  }

  ghost predicate Shows(e: LocalMessage, db: Db, id: Id) {
    id in db.messages && ShowsRow(e, db.messages[id], AttachmentsOf(db.attachments, id))
  }

  function Actor(op: Op): Option<Id> {
    match op
    case Post(req, _) => Some(req.sender)
    case Delete(u, _) => Some(u)
    case React(u, _, _) => Some(u)
    case ClearReaction(u, _) => Some(u)
    case _ => None
  }

  /** What an operation announces about `c`; a repeated delete announces nothing. */
  ghost predicate Emits(db: Db, op: Op, c: Id, ev: Option<Event>) {
    if !Accepted(db, op) then ev == None
    else
      match op
      case Post(req, id) =>
        if req.conv == c then ev.Some? && ev.value.Created? && Shows(ev.value.message, Exec(db, op), id) else ev == None
      case Delete(_, mid) =>
        ev == if db.messages[mid].conv == c && !db.messages[mid].deleted then Some(Deleted(mid)) else None
      case React(u, mid, emoji) => ev == if db.messages[mid].conv == c then Some(Reacted(mid, u, Some(emoji))) else None
      case ClearReaction(u, mid) => ev == if db.messages[mid].conv == c then Some(Reacted(mid, u, None)) else None
      case _ => ev == None
  }

  /** An event is about a conversation exactly if the operation did something there; deleting again does not. */
  lemma EmitsAbout(db: Db, op: Op, c: Id, ev: Option<Event>)
    requires Emits(db, op, c, ev)
    ensures op.Post? ==> (ev.Some? <==> Accepted(db, op) && op.req.conv == c)
    ensures op.Delete? ==>
      (ev == Some(Deleted(op.mid)) <==>
       Accepted(db, op) && db.messages[op.mid].conv == c && !db.messages[op.mid].deleted)
    ensures op.React? ==>
      (ev == Some(Reacted(op.mid, op.u, Some(op.emoji))) <==> Accepted(db, op) && db.messages[op.mid].conv == c)
    ensures op.ClearReaction? ==>
      (ev == Some(Reacted(op.mid, op.u, None)) <==> Accepted(db, op) && db.messages[op.mid].conv == c)
    ensures ev.Some? ==> op.Post? || op.Delete? || op.React? || op.ClearReaction?
  {
  }

  // ---------- the client's side ----------

  function Others(rs: seq<Reaction>, user: Id): (os: seq<Reaction>)
    ensures forall r :: r in os <==> r in rs && r.user != user
  {
    if rs == [] then []
    else if rs[0].user != user then [rs[0]] + Others(rs[1..], user)
    else Others(rs[1..], user)
  }

  /** applyDeletedMessage and applyReaction, on one entry. */
  function Edited(e: LocalMessage, ev: Event): LocalMessage
    requires !ev.Created?
  {
    if e.id != ev.mid then e
    else
      match ev
      case Deleted(_) => e.(deleted := true, body := None)
      case Reacted(_, user, emoji) =>
        e.(reactions := Others(e.reactions, user) + if emoji.Some? then [Reaction(user, emoji.value)] else [])
  }

  function ApplyEvent(t: Entries, ev: Event): Entries {
    if ev.Created? then ApplyIncoming(t, ev.message)
    else seq(|t|, i requires 0 <= i < |t| => Edited(t[i], ev))
  }

  // ---------- the simulation relation ----------

  ghost predicate Mirrors(t: Entries, db: Db, c: Id, lo: nat) {
    && c in db.convs && 1 <= lo && |t| + lo == db.convs[c].lastSeq + 1
    && forall i | 0 <= i < |t| ::
         t[i].seqNo == lo + i && Shows(t[i], db, t[i].id) && db.messages[t[i].id].conv == c
  }

  lemma {:induction false} SortOfSorted(t: Entries)
    requires Sorted(t)
    ensures SortBySeq(t) == t
  {
    if t == [] {
      assert SortBySeq(t) == [];
    } else {
      var front, last := t[..|t| - 1], t[|t| - 1];
      assert t == front + [last];
      SortOfSorted(front);
      assert SortBySeq(t) == InsertBySeq(front, last);
    }
  }

  /** A row keeps what it shows when neither it nor its attachments change. */
  lemma PostKeepsShows(db: Db, req: SendRequest, id: Id, e: LocalMessage)
    requires OwnersOk(db.attachments, db.messages) && Postable(db, req, id) && Shows(e, db, e.id)
    ensures e.id != id && Shows(e, Posted(db, req, id), e.id) && Posted(db, req, id).messages[e.id] == db.messages[e.id]
  {
    PostedTables(db, req, id);
    ClaimedSets(db, req.sender, req.attachmentIds, id);
  }

  lemma AppendedLast(t: Entries, m: LocalMessage)
    requires forall e | e in t :: !Matches(e, m)
    requires Sorted(t + [m])
    ensures ApplyIncoming(t, m) == t + [m]
  {
    assert forall i | 0 <= i < |t| :: t[i] in t;
    SortOfSorted(t + [m]);
  }

  predicate ClientIdFree(t: Entries, clientId: Id) {
    forall e | e in t :: e.clientId != clientId
  }

  lemma CreatedMirrors(t: Entries, db: Db, c: Id, lo: nat, req: SendRequest, id: Id, m: LocalMessage)
    requires LogOk(db) && Mirrors(t, db, c, lo) && Postable(db, req, id) && req.conv == c
    requires Shows(m, Posted(db, req, id), id) && ClientIdFree(t, m.clientId)
    ensures Mirrors(ApplyIncoming(t, m), Posted(db, req, id), c, lo)
  {
    var d := Posted(db, req, id);
    forall i | 0 <= i < |t|
      ensures t[i].id != id && Shows(t[i], d, t[i].id) && d.messages[t[i].id].conv == c
    {
      PostKeepsShows(db, req, id, t[i]);
    }
    PostedTables(db, req, id);
    AppendMirrors(t, m, d, c, lo);
  }

  lemma AppendMirrors(t: Entries, m: LocalMessage, d: Db, c: Id, lo: nat)
    requires c in d.convs && 1 <= lo && |t| + lo == d.convs[c].lastSeq == m.seqNo
    requires forall i | 0 <= i < |t| ::
               t[i].seqNo == lo + i && t[i].id != m.id && Shows(t[i], d, t[i].id) && d.messages[t[i].id].conv == c
    requires Shows(m, d, m.id) && d.messages[m.id].conv == c && ClientIdFree(t, m.clientId)
    ensures Mirrors(ApplyIncoming(t, m), d, c, lo)
  {
    AppendedLast(t, m);
  }

  /** Replacing does not lengthen a thread. */
  lemma MatchedReplaces(t: Entries, m: LocalMessage)
    requires exists e :: e in t && Matches(e, m)
    ensures |ApplyIncoming(t, m)| == |t|
  {
    SortSorts(if IndexOf(t, m) < |t| then t[IndexOf(t, m) := m] else t + [m]);
  }

  /** A new message is mirrored exactly when no entry already carries its client id. */
  lemma CreatedMirrorsExactly(t: Entries, db: Db, c: Id, lo: nat, req: SendRequest, id: Id, m: LocalMessage)
    requires LogOk(db) && Mirrors(t, db, c, lo) && Postable(db, req, id) && req.conv == c
    requires Shows(m, Posted(db, req, id), id)
    ensures Mirrors(ApplyIncoming(t, m), Posted(db, req, id), c, lo) <==> ClientIdFree(t, m.clientId)
  {
    PostedTables(db, req, id);
    if ClientIdFree(t, m.clientId) {
      CreatedMirrors(t, db, c, lo, req, id, m);
    } else {
      MatchedReplaces(t, m);
    }
  }

  lemma OthersShow(rs: seq<Reaction>, m: map<Id, string>, user: Id)
    requires ShowsReactions(rs, m)
    ensures ShowsReactions(Others(rs, user), m - {user})
  {
    OthersApart(rs, user);
    forall u | u in m && u != user
      ensures Reaction(u, m[u]) in Others(rs, user)
    {
      assert Reaction(u, m[u]) in rs;
    }
  }

  lemma AddedShows(rs: seq<Reaction>, m: map<Id, string>, r: Reaction)
    requires ShowsReactions(rs, m) && r.user !in m
    ensures ShowsReactions(rs + [r], m[r.user := r.emoji])
  {
    assert forall i | 0 <= i < |rs| :: rs[i] in rs;
  }

  lemma EditedReactions(rs: seq<Reaction>, m: map<Id, string>, user: Id, emoji: Option<string>)
    requires ShowsReactions(rs, m)
    ensures ShowsReactions(Others(rs, user) + (if emoji.Some? then [Reaction(user, emoji.value)] else []),
                           if emoji.Some? then m[user := emoji.value] else m - {user})
  {
    OthersApart(rs, user);
    OthersShow(rs, m, user);
    if emoji.Some? {
      AddedShows(Others(rs, user), m - {user}, Reaction(user, emoji.value));
      assert (m - {user})[user := emoji.value] == m[user := emoji.value];
    } else {
      assert Others(rs, user) + [] == Others(rs, user);
    }
  }

  lemma {:induction false} OthersApart(rs: seq<Reaction>, user: Id)
    requires forall i, j | 0 <= i < |rs| && 0 <= j < |rs| && rs[i].user == rs[j].user :: i == j
    ensures forall i, j | 0 <= i < |Others(rs, user)| && 0 <= j < |Others(rs, user)|
      && Others(rs, user)[i].user == Others(rs, user)[j].user :: i == j
  {
    if rs != [] {
      OthersApart(rs[1..], user);
      forall r | r in Others(rs[1..], user)
        ensures r.user != rs[0].user
      {
        var i :| 0 <= i < |rs[1..]| && rs[1..][i] == r;
        assert rs[i + 1] == r;
      }
    }
  }

  /** The edit an operation makes to its row is the edit its event makes to the entry. */
  lemma EditMirrorsRow(e: LocalMessage, db: Db, op: Op, c: Id, ev: Event)
    requires Accepted(db, op) && Emits(db, op, c, Some(ev)) && !ev.Created? && Shows(e, db, e.id)
    requires forall id | id in db.messages :: db.messages[id].id == id
    ensures Shows(Edited(e, ev), Exec(db, op), e.id)
  {
    if e.id == ev.mid && ev.Reacted? {
      EditedReactions(e.reactions, db.messages[e.id].reactions, ev.user, ev.emoji);
    }
  }

  lemma EditMirrors(t: Entries, db: Db, c: Id, lo: nat, op: Op, ev: Event)
    requires Mirrors(t, db, c, lo) && Accepted(db, op) && Emits(db, op, c, Some(ev)) && !ev.Created?
    requires forall id | id in db.messages :: db.messages[id].id == id
    ensures Mirrors(ApplyEvent(t, ev), Exec(db, op), c, lo)
  {
    forall i | 0 <= i < |t|
      ensures Shows(Edited(t[i], ev), Exec(db, op), t[i].id) && Exec(db, op).messages[t[i].id].conv == c
    {
      EditMirrorsRow(t[i], db, op, c, ev);
    }
  }

  /** Steps that announce nothing about `c` leave its rows as they are. */
  lemma SilentShows(e: LocalMessage, db: Db, op: Op, c: Id)
    requires OwnersOk(db.attachments, db.messages)
    requires Emits(db, op, c, None) && Shows(e, db, e.id) && db.messages[e.id].conv == c
    ensures Shows(e, Exec(db, op), e.id) && Exec(db, op).messages[e.id].conv == c
  {
    if Accepted(db, op) {
      match op
      case Post(req, id) => PostKeepsShows(db, req, id, e);
      case Upload(_, _) => UploadShows(e, db, op);
      case Delete(_, mid) => SilentRowShows(e, db, op, c);
      case React(_, _, _) => SilentRowShows(e, db, op, c);
      case ClearReaction(_, _) => SilentRowShows(e, db, op, c);
      case _ => assert Exec(db, op).messages == db.messages && Exec(db, op).attachments == db.attachments;
    }
  }

  lemma UploadShows(e: LocalMessage, db: Db, op: Op)
    requires Accepted(db, op) && op.Upload? && Shows(e, db, e.id)
    ensures Shows(e, Exec(db, op), e.id) && Exec(db, op).messages == db.messages
  {
    assert AttachmentsOf(Exec(db, op).attachments, e.id) == AttachmentsOf(db.attachments, e.id);
  }

  /** An edit elsewhere, or a repeated delete. */
  lemma SilentRowShows(e: LocalMessage, db: Db, op: Op, c: Id)
    requires Accepted(db, op) && (op.Delete? || op.React? || op.ClearReaction?)
    requires Emits(db, op, c, None) && Shows(e, db, e.id) && db.messages[e.id].conv == c
    ensures Shows(e, Exec(db, op), e.id) && Exec(db, op).messages[e.id].conv == c
  {
    assert Exec(db, op).messages[e.id] == db.messages[e.id];
  }

  lemma SilentMirrors(t: Entries, db: Db, c: Id, lo: nat, op: Op)
    requires LogOk(db) && Mirrors(t, db, c, lo) && Emits(db, op, c, None)
    ensures Mirrors(t, Exec(db, op), c, lo)
  {
    forall i | 0 <= i < |t|
      ensures Shows(t[i], Exec(db, op), t[i].id) && Exec(db, op).messages[t[i].id].conv == c
    {
      SilentShows(t[i], db, op, c);
    }
  }

  // ---------- whole runs ----------

  datatype Turn = Turn(op: Op, event: Option<Event>)

  /** The client id of a new message is unused in its conversation, by anyone. */
  predicate FreshClientId(db: Db, op: Op, c: Id) {
    op.Post? && op.req.conv == c ==>
      forall id | id in db.messages && db.messages[id].conv == c :: db.messages[id].clientId != op.req.clientId
  }

  /** The viewer is a member throughout, acts on nothing itself, and client ids do not clash. */
  ghost predicate Watched(db: Db, turn: Turn, c: Id, viewer: Id) {
    && Emits(db, turn.op, c, turn.event)
    && IsMember(db, c, viewer) && turn.op != Leave(c, viewer)
    && Actor(turn.op) != Some(viewer)
    && FreshClientId(db, turn.op, c)
  }

  /** Events go to the active peers of whoever acted, after the commit. */
  predicate Receives(d: Db, op: Op, c: Id, viewer: Id) {
    Actor(op).Some? && viewer in PeerIds(d, c, Actor(op).value)
  }

  ghost function Follow(t: Entries, db: Db, turn: Turn, c: Id, viewer: Id): Entries {
    if turn.event.Some? && Receives(Exec(db, turn.op), turn.op, c, viewer) then ApplyEvent(t, turn.event.value) else t
  }

  /** Who did it: the sender, or whoever deleted or reacted. */
  predicate DoneBy(op: Op, u: Id) {
    || (op.Post? && op.req.sender == u)
    || ((op.Delete? || op.React? || op.ClearReaction?) && op.u == u)
  }

  /** An event is applied exactly by those who are in the conversation when it is sent and did not cause it. */
  lemma PeersHearExactly(t: Entries, db: Db, turn: Turn, c: Id, viewer: Id)
    requires turn.event.Some? && (turn.op.Post? || turn.op.Delete? || turn.op.React? || turn.op.ClearReaction?)
    ensures var d := Exec(db, turn.op);
            var hears := (c, viewer) in d.members && d.members[(c, viewer)].active && !DoneBy(turn.op, viewer);
            Follow(t, db, turn, c, viewer) == if hears then ApplyEvent(t, turn.event.value) else t
  {
    var d := Exec(db, turn.op);
    if (c, viewer) in d.members && d.members[(c, viewer)].active && !DoneBy(turn.op, viewer) {
      assert viewer in PeerIds(d, c, Actor(turn.op).value);
    }
  }

  lemma EventReachesViewer(db: Db, turn: Turn, c: Id, viewer: Id)
    requires Watched(db, turn, c, viewer) && turn.event.Some?
    ensures Receives(Exec(db, turn.op), turn.op, c, viewer)
  {
    var d := Exec(db, turn.op);
    assert (c, viewer) in d.members;
    assert Actor(turn.op).Some?;
  }

  lemma TurnMirrors(t: Entries, db: Db, turn: Turn, c: Id, lo: nat, viewer: Id)
    requires LogOk(db) && Mirrors(t, db, c, lo) && Watched(db, turn, c, viewer)
    ensures Mirrors(Follow(t, db, turn, c, viewer), Exec(db, turn.op), c, lo)
  {
    if turn.event.None? {
      SilentMirrors(t, db, c, lo, turn.op);
    } else {
      EventReachesViewer(db, turn, c, viewer);
      if turn.event.value.Created? {
        PostedTables(db, turn.op.req, turn.op.id);
        CreatedMirrors(t, db, c, lo, turn.op.req, turn.op.id, turn.event.value.message);
      } else {
        EditMirrors(t, db, c, lo, turn.op, turn.event.value);
      }
    }
  }

  ghost function DbAfter(db: Db, turns: seq<Turn>): Db {
    if turns == [] then db else Exec(DbAfter(db, turns[..|turns| - 1]), turns[|turns| - 1].op)
  }

  ghost function ThreadAfter(t: Entries, db: Db, turns: seq<Turn>, c: Id, viewer: Id): Entries {
    if turns == [] then t
    else
      var front := turns[..|turns| - 1];
      Follow(ThreadAfter(t, db, front, c, viewer), DbAfter(db, front), turns[|turns| - 1], c, viewer)
  }

  ghost predicate WatchedAll(db: Db, turns: seq<Turn>, c: Id, viewer: Id) {
    forall i | 0 <= i < |turns| :: Watched(DbAfter(db, turns[..i]), turns[i], c, viewer)
  }

  lemma WatchedFront(db: Db, turns: seq<Turn>, c: Id, viewer: Id)
    requires WatchedAll(db, turns, c, viewer) && turns != []
    ensures var front, last := turns[..|turns| - 1], turns[|turns| - 1];
            WatchedAll(db, front, c, viewer) && Watched(DbAfter(db, front), last, c, viewer)
  {
    var front := turns[..|turns| - 1];
    forall i | 0 <= i < |front|
      ensures Watched(DbAfter(db, front[..i]), front[i], c, viewer)
    {
      assert front[..i] == turns[..i];
    }
  }

  /** Main result: after every server step the peer's thread shows exactly the server's rows. */
  lemma {:induction false} ReplicaFollowsServer(t: Entries, db: Db, turns: seq<Turn>, c: Id, lo: nat, viewer: Id)
    requires LogOk(db) && Mirrors(t, db, c, lo)
    requires WatchedAll(db, turns, c, viewer)
    ensures LogOk(DbAfter(db, turns)) && Mirrors(ThreadAfter(t, db, turns, c, viewer), DbAfter(db, turns), c, lo)
  {
    if turns == [] {
    } else {
      var front, last := turns[..|turns| - 1], turns[|turns| - 1];
      WatchedFront(db, turns, c, viewer);
      ReplicaFollowsServer(t, db, front, c, lo, viewer);
      TurnMirrors(ThreadAfter(t, db, front, c, viewer), DbAfter(db, front), last, c, lo, viewer);
      ExecKeepsLog(DbAfter(db, front), last.op);
    }
  }
}
