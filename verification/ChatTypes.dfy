/** What the browser holds: messages as the API serialises them, and members with their cursors. */
module ChatTypes {
  import opened Wrappers
  import opened Database

  /** Number.MAX_SAFE_INTEGER, the seq of a message the server has not answered yet. */
  const PENDING_SEQ := 9007199254740991

  datatype Reaction = Reaction(user: Id, emoji: string)

  datatype LocalMessage = LocalMessage(
    id: Id, seqNo: nat, sender: Option<Id>, kind: Kind, body: Option<string>, replyTo: Option<Id>, clientId: Id,
    deleted: bool, reactions: seq<Reaction>, attachments: seq<Id>, pending: bool, failed: bool)

  /** A conversation member as listed in a ConversationOut. */
  datatype Peer = Peer(user: Id, lastReadSeq: nat, lastDeliveredSeq: nat)

  datatype Status = Failed | Sending | Sent | Delivered | Read

  function PeersOf(members: seq<Peer>, viewer: Id): (peers: seq<Peer>)
    ensures forall p :: p in peers <==> p in members && p.user != viewer
  {
    if members == [] then []
    else if members[0].user != viewer then [members[0]] + PeersOf(members[1..], viewer)
    else PeersOf(members[1..], viewer)
  }

  predicate ReadByAll(peers: seq<Peer>, seqNo: nat) {
    forall p | p in peers :: p.lastReadSeq >= seqNo
  }

  predicate DeliveredToAll(peers: seq<Peer>, seqNo: nat) {
    forall p | p in peers :: p.lastDeliveredSeq >= seqNo
  }

  function StatusOf(message: LocalMessage, members: seq<Peer>, viewer: Id): Option<Status> {
    if message.failed then Some(Failed)
    else if message.pending then Some(Sending)
    else if message.sender != Some(viewer) then None
    else
      var peers := PeersOf(members, viewer);
      if peers == [] then Some(Sent)
      else if ReadByAll(peers, message.seqNo) then Some(Read)
      else if DeliveredToAll(peers, message.seqNo) then Some(Delivered)
      else Some(Sent)
  }
}
