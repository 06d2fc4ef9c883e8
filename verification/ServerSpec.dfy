/**
 What each server operation does to the tables, as functions of the tables. MessageService
 (the class) is proved against these; SendProtocol interleaves the pieces of `send`.
 */
module ServerSpec {
  import opened Wrappers
  import opened Database

  const MAX_ATTACHMENTS_PER_MESSAGE := 5

  datatype SendRequest = SendRequest(
    sender: Id, conv: Id, clientId: Id, body: string, replyTo: Option<Id>, attachmentIds: seq<Id>)

  // ---------- the pieces of `send`, in source order ----------

  /** Python's str.isspace. */
  predicate IsSpace(c: char) {
    '\t' <= c <= '\r' || '\U{1c}' <= c <= ' ' || c == '\U{85}' || c == '\U{a0}' || c == '\U{1680}'
    || '\U{2000}' <= c <= '\U{200a}' || c == '\U{2028}' || c == '\U{2029}' || c == '\U{202f}'
    || c == '\U{205f}' || c == '\U{3000}'
  }

  /** str.strip: white space off both ends. */
  function Strip(s: string): string {
    if s != [] && IsSpace(s[0]) then Strip(s[1..])
    else if s != [] && IsSpace(s[|s| - 1]) then Strip(s[..|s| - 1])
    else s
  }

  /** `not body.strip()` */
  predicate Blank(s: string) {
    Strip(s) == ""
  }

  predicate SentBy(m: Message, sender: Id, clientId: Id) {
    m.sender == sender && m.clientId == clientId
  }

  predicate HasDuplicate(db: Db, sender: Id, clientId: Id) {
    exists id | id in db.messages :: SentBy(db.messages[id], sender, clientId)
  }

  predicate ReplyOk(db: Db, c: Id, replyTo: Option<Id>) {
    replyTo.None? || (replyTo.value in db.messages && db.messages[replyTo.value].conv == c)
  }

  /** What the checks at the head of `send` establish that no later step of anyone undoes. */
  predicate Sendable(db: Db, req: SendRequest) {
    && req.conv in db.convs
    && (req.conv, req.sender) in db.members
    && (!Blank(req.body) || req.attachmentIds != [])
    && ReplyOk(db, req.conv, req.replyTo)
  }

  function NextSeq(db: Db, c: Id): Db
    requires c in db.convs
  {
    db.(convs := db.convs[c := db.convs[c].(lastSeq := db.convs[c].lastSeq + 1)])
  }

  /** The row that `send` adds once `seq` is allocated. */
  function NewRow(req: SendRequest, id: Id, seqNo: nat): Message {
    Message(id, req.conv, seqNo, req.sender, Text, Some(req.body), req.replyTo, req.clientId, false, map[])
  }

  /** The primary key and the two unique constraints of the messages table. */
  predicate Fits(db: Db, row: Message) {
    && row.id !in db.messages
    && (forall k | k in db.messages :: !(db.messages[k].conv == row.conv && db.messages[k].seqNo == row.seqNo))
    && !HasDuplicate(db, row.sender, row.clientId)
  }

  function Inserted(db: Db, row: Message): Db {
    db.(messages := db.messages[row.id := row])
  }

  predicate Claimable(db: Db, u: Id, ids: seq<Id>) {
    && |ids| <= MAX_ATTACHMENTS_PER_MESSAGE
    && (forall a | a in ids :: a in db.attachments && db.attachments[a] == Attachment(u, None))
  }

  function Claimed(db: Db, ids: seq<Id>, mid: Id): Db {
    db.(attachments := map a | a in db.attachments ::
      if a in ids then db.attachments[a].(messageId := Some(mid)) else db.attachments[a])
  }

  function AsMedia(db: Db, mid: Id): Db
    requires mid in db.messages
  {
    db.(messages := db.messages[mid := db.messages[mid].(kind := Media)])
  }

  function Latest(db: Db, c: Id, mid: Id): Db
    requires c in db.convs
  {
    db.(convs := db.convs[c := db.convs[c].(lastMessageId := Some(mid))])
  }

  function Bumped(db: Db, c: Id, sender: Id): Db {
    db.(members := map k | k in db.members ::
      if k.0 == c && k.1 != sender && db.members[k].active
      then db.members[k].(unreadCount := db.members[k].unreadCount + 1) else db.members[k])
  }

  function Advanced(db: Db, c: Id, sender: Id, seqNo: nat): Db {
    db.(members := map k | k in db.members ::
      if k == (c, sender)
      then db.members[k].(lastReadSeq := seqNo, lastDeliveredSeq := seqNo, unreadCount := 0) else db.members[k])
  }

  // ---------- `send` after its checks, in three stages ----------

  function SeqOf(db: Db, req: SendRequest): nat
    requires req.conv in db.convs
  {
    db.convs[req.conv].lastSeq + 1
  }

  predicate FlushOk(db: Db, req: SendRequest, id: Id) {
    req.conv in db.convs && Fits(NextSeq(db, req.conv), NewRow(req, id, SeqOf(db, req)))
  }

  function Flushed(db: Db, req: SendRequest, id: Id): (d: Db)
    requires req.conv in db.convs
    ensures id in d.messages && req.conv in d.convs
  {
    Inserted(NextSeq(db, req.conv), NewRow(req, id, SeqOf(db, req)))
  }

  predicate ClaimOk(db: Db, req: SendRequest) {
    Claimable(db, req.sender, req.attachmentIds)
  }

  function WithClaim(db: Db, req: SendRequest, id: Id): (d: Db)
    requires id in db.messages
    ensures id in d.messages && d.convs == db.convs && d.members == db.members
  {
    if req.attachmentIds == [] then db else AsMedia(Claimed(db, req.attachmentIds, id), id)
  }

  function Counted(db: Db, req: SendRequest, id: Id, seqNo: nat): Db
    requires req.conv in db.convs
  {
    Advanced(Bumped(Latest(db, req.conv, id), req.conv, req.sender), req.conv, req.sender, seqNo)
  }

  /** Everything between the checks and the commit succeeds. */
  predicate Postable(db: Db, req: SendRequest, id: Id) {
    Sendable(db, req) && FlushOk(db, req, id) && ClaimOk(db, req)
  }

  function Posted(db: Db, req: SendRequest, id: Id): Db
    requires req.conv in db.convs
  {
    Counted(WithClaim(Flushed(db, req, id), req, id), req, id, SeqOf(db, req))
  }

  // ---------- the atomic operations ----------

  datatype Op =
    | Open(c: Id, users: set<Id>)
    | Join(c: Id, u: Id)
    | Leave(c: Id, u: Id)
    | Upload(a: Id, u: Id)
    | Post(req: SendRequest, id: Id)
    | MarkRead(c: Id, u: Id, seqNo: int)
    | MarkDelivered(c: Id, u: Id, seqNo: int)
    | Delete(u: Id, mid: Id)
    | React(u: Id, mid: Id, emoji: string)
    | ClearReaction(u: Id, mid: Id)

  function Max(a: int, b: int): int {
    if a < b then b else a
  }

  /** Unread by definition: live messages of others above a cursor. */
  function LiveAbove(db: Db, c: Id, u: Id, read: nat): set<Id> {
    set id | id in db.messages && db.messages[id].conv == c && db.messages[id].seqNo > read
             && db.messages[id].sender != u && !db.messages[id].deleted
  }

  function AllAbove(db: Db, c: Id, u: Id, read: nat): set<Id> {
    set id | id in db.messages && db.messages[id].conv == c && db.messages[id].seqNo > read
             && db.messages[id].sender != u
  }

  function ReadBy(db: Db, c: Id, u: Id, seqNo: int): (m: Member)
    requires (c, u) in db.members
  {
    var prev := db.members[(c, u)];
    var read := Max(prev.lastReadSeq, seqNo);
    Member(read, Max(prev.lastDeliveredSeq, seqNo), |LiveAbove(db, c, u, read)|, prev.active)
  }

  function DeliveredTo(m: Member, seqNo: int): Member {
    m.(lastDeliveredSeq := Max(m.lastDeliveredSeq, seqNo))
  }

  /** A message the user can see: `_load` or `_visible_message`, then `require_membership`. */
  predicate Visible(db: Db, u: Id, mid: Id) {
    mid in db.messages && IsMember(db, db.messages[mid].conv, u)
  }

  /** Whether an operation passes its guards; one that does not leaves the tables alone. */
  predicate Accepted(db: Db, op: Op) {
    match op
    case Open(c, users) => c !in db.convs && (forall k | k in db.members :: k.0 != c)
    case Join(c, u) => c in db.convs
    case Leave(c, u) => IsMember(db, c, u)
    case Upload(a, u) => a !in db.attachments
    case Post(req, id) => Postable(db, req, id)
    case MarkRead(c, u, seqNo) => IsMember(db, c, u)
    case MarkDelivered(c, u, seqNo) => IsMember(db, c, u)
    case Delete(u, mid) => Visible(db, u, mid) && db.messages[mid].sender == u
    case React(u, mid, emoji) => Visible(db, u, mid) && emoji != ""
    case ClearReaction(u, mid) => Visible(db, u, mid)
  }

  function WithMember(db: Db, c: Id, u: Id, m: Member): Db {
    db.(members := db.members[(c, u) := m])
  }

  function WithRow(db: Db, row: Message): Db {
    db.(messages := db.messages[row.id := row])
  }

  function Tombstone(m: Message): Message {
    if m.deleted then m else m.(deleted := true, body := None)
  }

  function Exec(db: Db, op: Op): Db {
    if !Accepted(db, op) then db
    else
      match op
      case Open(c, users) =>
        db.(convs := db.convs[c := Conversation(0, None)],
            members := db.members + map u | u in users :: (c, u) := NEW_MEMBER)
      case Join(c, u) =>
        WithMember(db, c, u, if (c, u) in db.members then db.members[(c, u)].(active := true) else NEW_MEMBER)
      case Leave(c, u) => WithMember(db, c, u, db.members[(c, u)].(active := false))
      case Upload(a, u) => db.(attachments := db.attachments[a := Attachment(u, None)])
      case Post(req, id) => Posted(db, req, id)
      case MarkRead(c, u, seqNo) => WithMember(db, c, u, ReadBy(db, c, u, seqNo))
      case MarkDelivered(c, u, seqNo) => WithMember(db, c, u, DeliveredTo(db.members[(c, u)], seqNo))
      case Delete(u, mid) => db.(messages := db.messages[mid := Tombstone(db.messages[mid])])
      case React(u, mid, emoji) =>
        var m := db.messages[mid];
        db.(messages := db.messages[mid := m.(reactions := m.reactions[u := emoji])])
      case ClearReaction(u, mid) =>
        var m := db.messages[mid];
        db.(messages := db.messages[mid := m.(reactions := m.reactions - {u})])
  }

  function ExecAll(db: Db, ops: seq<Op>): Db {
    if ops == [] then db else Exec(ExecAll(db, ops[..|ops| - 1]), ops[|ops| - 1])
  }
}
