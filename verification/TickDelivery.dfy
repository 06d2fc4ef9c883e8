/**
 The sender's screen. Receipt events and conversation listings may be lost, repeated or arrive in
 any order, and applyReceipt stores what the event says without comparing; still the tick shown is
 never above the true one, because every cursor ever announced is at most the current one.
 */
module TickDelivery {
  import opened Wrappers
  import opened Database
  import opened ServerSpec
  import opened LogInvariant
  import opened ChatTypes
  import opened Receipts

  /** The payload of receipt.updated for one conversation is a member with its cursors. */
  type Receipt = Peer

  /** One conversation's server, everything in flight, and one client's member list. */
  datatype Net = Net(db: Db, receipts: set<Receipt>, listings: set<seq<Peer>>, held: seq<Peer>)

  datatype NetStep =
    | Server(op: Op)
    | List(listing: seq<Peer>)
    | DeliverReceipt(receipt: Receipt)
    | LoadListing(listing: seq<Peer>)

  function CursorOf(db: Db, c: Id, u: Id): Peer
    requires (c, u) in db.members
  {
    Peer(u, db.members[(c, u)].lastReadSeq, db.members[(c, u)].lastDeliveredSeq)
  }

  /** mark_read always announces; mark_delivered only when the cursor moved. */
  function Announced(db: Db, c: Id, op: Op): set<Receipt> {
    if !Accepted(db, op) then {}
    else
      match op
      case MarkRead(c', u, _) => if c' == c then {CursorOf(Exec(db, op), c, u)} else {}
      case MarkDelivered(c', u, seqNo) =>
        if c' == c && seqNo > db.members[(c, u)].lastDeliveredSeq then {CursorOf(Exec(db, op), c, u)} else {}
      case _ => {}
  }

  /** applyReceipt: the event's values replace the member's, whatever they were. */
  function ApplyReceipt(members: seq<Peer>, receipt: Receipt): (r: seq<Peer>)
    ensures |r| == |members|
    ensures forall i | 0 <= i < |members| :: r[i] == if members[i].user == receipt.user then receipt else members[i]
  {
    if members == [] then []
    else [if members[0].user == receipt.user then receipt else members[0]] + ApplyReceipt(members[1..], receipt)
  }

  /** Membership of `c` is fixed while we look. */
  predicate KeepsMembership(c: Id, op: Op) {
    match op
    case Open(c', _) => c' != c
    case Join(c', _) => c' != c
    case Leave(c', _) => c' != c
    case _ => true
  }

  ghost predicate Enabled(n: Net, c: Id, step: NetStep) {
    match step
    case Server(op) => KeepsMembership(c, op) && AckBounded(n.db, op)
    case List(listing) => ViewOf(listing, n.db, c)
    case DeliverReceipt(receipt) => receipt in n.receipts
    case LoadListing(listing) => listing in n.listings
  }

  ghost function Step(n: Net, c: Id, step: NetStep): Net {
    if !Enabled(n, c, step) then n
    else
      match step
      case Server(op) => n.(db := Exec(n.db, op), receipts := n.receipts + Announced(n.db, c, op))
      case List(listing) => n.(listings := n.listings + {listing})
      case DeliverReceipt(receipt) => n.(held := ApplyReceipt(n.held, receipt))
      case LoadListing(listing) => n.(held := listing)
  }

  ghost function Run(n: Net, c: Id, steps: seq<NetStep>): Net {
    if steps == [] then n else Step(Run(n, c, steps[..|steps| - 1]), c, steps[|steps| - 1])
  }

  // ---------- nothing announced is ahead of the server ----------

  predicate Behind(p: Peer, db: Db, c: Id) {
    && IsMember(db, c, p.user)
    && p.lastReadSeq <= db.members[(c, p.user)].lastReadSeq
    && p.lastDeliveredSeq <= db.members[(c, p.user)].lastDeliveredSeq
  }

  ghost predicate ListBehind(members: seq<Peer>, db: Db, c: Id) {
    && (forall p | p in members :: Behind(p, db, c))
    && (forall u | IsMember(db, c, u) :: exists p :: p in members && p.user == u)
  }

  ghost predicate NetOk(n: Net, c: Id) {
    && LogOk(n.db) && CursorsBounded(n.db)
    && (forall r | r in n.receipts :: Behind(r, n.db, c))
    && (forall l | l in n.listings :: ListBehind(l, n.db, c))
    && ListBehind(n.held, n.db, c)
  }

  ghost predicate SameMembers(db: Db, d: Db, c: Id) {
    forall u :: IsMember(db, c, u) <==> IsMember(d, c, u)
  }

  lemma ExecKeepsMembers(db: Db, c: Id, op: Op)
    requires KeepsMembership(c, op)
    ensures SameMembers(db, Exec(db, op), c)
  {
    if Accepted(db, op) && op.Post? {
      PostedTables(db, op.req, op.id);
    }
  }

  lemma StaysBehind(l: seq<Peer>, db: Db, d: Db, c: Id)
    requires ListBehind(l, db, c) && CursorsAdvance(db, d) && SameMembers(db, d, c)
    ensures ListBehind(l, d, c)
  {
    forall p | p in l
      ensures Behind(p, d, c)
    {
      assert Behind(p, db, c);
    }
  }

  lemma ServerStepOk(n: Net, c: Id, op: Op)
    requires NetOk(n, c) && Enabled(n, c, Server(op))
    ensures NetOk(Step(n, c, Server(op)), c)
  {
    var d := Exec(n.db, op);
    ExecKeepsLog(n.db, op);
    ExecKeepsBound(n.db, op);
    ExecAdvances(n.db, op);
    ExecKeepsMembers(n.db, c, op);
    forall r | r in n.receipts
      ensures Behind(r, d, c)
    {
      assert Behind(r, n.db, c);
    }
    forall l | l in n.listings
      ensures ListBehind(l, d, c)
    {
      StaysBehind(l, n.db, d, c);
    }
    StaysBehind(n.held, n.db, d, c);
  }

  lemma ReceiptKeepsList(members: seq<Peer>, receipt: Receipt, db: Db, c: Id)
    requires ListBehind(members, db, c) && Behind(receipt, db, c)
    ensures ListBehind(ApplyReceipt(members, receipt), db, c)
  {
    var r := ApplyReceipt(members, receipt);
    forall u | IsMember(db, c, u)
      ensures exists p :: p in r && p.user == u
    {
      var p :| p in members && p.user == u;
      var i :| 0 <= i < |members| && members[i] == p;
      assert r[i].user == u;
    }
  }

  lemma StepOk(n: Net, c: Id, step: NetStep)
    requires NetOk(n, c)
    ensures NetOk(Step(n, c, step), c)
  {
    if Enabled(n, c, step) {
      match step
      case Server(op) => ServerStepOk(n, c, op);
      case DeliverReceipt(receipt) => ReceiptKeepsList(n.held, receipt, n.db, c);
      case _ =>
    }
  }

  lemma {:induction false} RunOk(n: Net, c: Id, steps: seq<NetStep>)
    requires NetOk(n, c)
    ensures NetOk(Run(n, c, steps), c)
  {
    if steps != [] {
      RunOk(n, c, steps[..|steps| - 1]);
      StepOk(Run(n, c, steps[..|steps| - 1]), c, steps[|steps| - 1]);
    }
  }

  // ---------- the tick ----------

  function Rank(s: Status): nat {
    match s
    case Read => 2
    case Delivered => 1
    case _ => 0
  }

  /** Every true peer is on screen, with cursors no further along. */
  lemma Shown(held: seq<Peer>, truth: seq<Peer>, db: Db, c: Id, viewer: Id, p: Peer) returns (q: Peer)
    requires ListBehind(held, db, c) && ViewOf(truth, db, c) && p in PeersOf(truth, viewer)
    ensures q in PeersOf(held, viewer) && q.lastReadSeq <= p.lastReadSeq && q.lastDeliveredSeq <= p.lastDeliveredSeq
  {
    assert IsMember(db, c, p.user);
    q :| q in held && q.user == p.user;
    assert Behind(q, db, c);
  }

  lemma NoneShown(held: seq<Peer>, truth: seq<Peer>, db: Db, c: Id, viewer: Id)
    requires ListBehind(held, db, c) && ViewOf(truth, db, c)
    ensures PeersOf(held, viewer) == [] <==> PeersOf(truth, viewer) == []
  {
    var shown, actual := PeersOf(held, viewer), PeersOf(truth, viewer);
    if shown != [] {
      assert shown[0] in shown;
      assert Behind(shown[0], db, c);
      assert CursorOf(db, c, shown[0].user) in actual;
    }
    if actual != [] {
      assert actual[0] in actual;
      var q := Shown(held, truth, db, c, viewer, actual[0]);
    }
  }

  lemma BehindRanksLower(held: seq<Peer>, truth: seq<Peer>, db: Db, c: Id, message: LocalMessage, viewer: Id)
    requires ListBehind(held, db, c) && ViewOf(truth, db, c)
    requires message.sender == Some(viewer) && !message.pending && !message.failed
    ensures StatusOf(message, held, viewer).Some? && StatusOf(message, truth, viewer).Some?
    ensures Rank(StatusOf(message, held, viewer).value) <= Rank(StatusOf(message, truth, viewer).value)
  {
    NoneShown(held, truth, db, c, viewer);
  }

  /** Over every run from a fresh listing, with fixed membership and bounded acknowledgements, the
      tick on screen never exceeds the server's. */
  lemma TicksNeverOverstate(n: Net, c: Id, steps: seq<NetStep>, truth: seq<Peer>, message: LocalMessage, viewer: Id)
    requires LogOk(n.db) && CursorsBounded(n.db) && n.receipts == {} && n.listings == {} && ViewOf(n.held, n.db, c)
    requires ViewOf(truth, Run(n, c, steps).db, c)
    requires message.sender == Some(viewer) && !message.pending && !message.failed
    ensures StatusOf(message, Run(n, c, steps).held, viewer).Some? && StatusOf(message, truth, viewer).Some?
    ensures Rank(StatusOf(message, Run(n, c, steps).held, viewer).value) <= Rank(StatusOf(message, truth, viewer).value)
  {
    RunOk(n, c, steps);
    BehindRanksLower(Run(n, c, steps).held, truth, Run(n, c, steps).db, c, message, viewer);
  }
}
