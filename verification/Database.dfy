/**
 The tables behind a conversation, as values. A map's key is the table's primary key, so
 `members` holds one row per (conversation, user) and `reactions` one emoji per user.
 */
module Database {
  import opened Wrappers

  /** ULIDs and client-generated UUIDs: only their equality matters here. */
  type Id = string

  datatype Kind = Text | Media

  datatype Conversation = Conversation(lastSeq: nat, lastMessageId: Option<Id>)

  /** `active` is `left_at is None`; departures keep the row. */
  datatype Member = Member(lastReadSeq: nat, lastDeliveredSeq: nat, unreadCount: nat, active: bool)

  datatype Message = Message(
    id: Id, conv: Id, seqNo: nat, sender: Id, kind: Kind, body: Option<string>, replyTo: Option<Id>,
    clientId: Id, deleted: bool, reactions: map<Id, string>)

  datatype Attachment = Attachment(uploadedBy: Id, messageId: Option<Id>)

  type Convs = map<Id, Conversation>
  type Members = map<(Id, Id), Member>
  type Messages = map<Id, Message>
  type Attachments = map<Id, Attachment>

  datatype Db = Db(convs: Convs, members: Members, messages: Messages, attachments: Attachments)

  const EMPTY_DB := Db(map[], map[], map[], map[])

  const NEW_MEMBER := Member(0, 0, 0, true)

  /** The guard that every read and write of a conversation passes first. */
  predicate IsMember(db: Db, c: Id, u: Id) {
    (c, u) in db.members && db.members[(c, u)].active
  }

  /** The recipients of an event about `c` caused by `exclude`. */
  function PeerIds(db: Db, c: Id, exclude: Id): set<Id> {
    set k | k in db.members && k.0 == c && k.1 != exclude && db.members[k].active :: k.1
  }

  function AttachmentsOf(attachments: Attachments, mid: Id): set<Id> {
    set a | a in attachments && attachments[a].messageId == Some(mid)
  }
}
