/**
 A screen that gets every receipt at once. Posting moves the poster's own cursors without a receipt, so the screen
 is up to date about somebody exactly as long as they have not posted since their last receipt.
 */
module TickSync {
  import opened Wrappers
  import opened Database
  import opened ServerSpec
  import opened LogInvariant
  import opened ChatTypes
  import opened Receipts
  import opened TickDelivery

  /** The receipts of an operation, all of them, are shown. */
  ghost predicate Told(held: seq<Peer>, receipts: set<Receipt>, held': seq<Peer>) {
    || (receipts == {} && held' == held)
    || exists r :: receipts == {r} && held' == ApplyReceipt(held, r)
  }

  ghost predicate Moves(db: Db, held: seq<Peer>, c: Id, op: Op, db': Db, held': seq<Peer>) {
    && KeepsMembership(c, op) && AckBounded(db, op)
    && db' == Exec(db, op) && Told(held, Announced(db, c, op), held')
  }

  /** From a listing that is right. */
  ghost predicate PromptRun(dbs: seq<Db>, helds: seq<seq<Peer>>, ops: seq<Op>, c: Id) {
    && |dbs| == |helds| == |ops| + 1
    && LogOk(dbs[0]) && CursorsBounded(dbs[0]) && ViewOf(helds[0], dbs[0], c)
    && forall i | 0 <= i < |ops| :: Moves(dbs[i], helds[i], c, ops[i], dbs[i + 1], helds[i + 1])
  }

  /** The screen's entries for the user have the server's cursors. */
  predicate InStep(held: seq<Peer>, db: Db, c: Id, u: Id) {
    forall p | p in held && p.user == u ::
      && (c, u) in db.members
      && p.lastReadSeq == db.members[(c, u)].lastReadSeq
      && p.lastDeliveredSeq == db.members[(c, u)].lastDeliveredSeq
  }

  /** The user acknowledges reading, or a delivery that is news. */
  predicate Tells(db: Db, c: Id, op: Op, u: Id) {
    && IsMember(db, c, u)
    && (|| (op.MarkRead? && op.c == c && op.u == u)
        || (op.MarkDelivered? && op.c == c && op.u == u && op.seqNo > db.members[(c, u)].lastDeliveredSeq))
  }

  /** The user's message is saved. */
  predicate Posts(db: Db, c: Id, op: Op, u: Id) {
    op.Post? && op.req.conv == c && op.req.sender == u && Accepted(db, op)
  }

  lemma PostPassesScreen(db: Db, held: seq<Peer>, c: Id, op: Op, u: Id)
    requires LogOk(db) && CursorsBounded(db) && ListBehind(held, db, c) && Posts(db, c, op, u) && IsMember(db, c, u)
    ensures !InStep(held, Exec(db, op), c, u)
  {
    PostedTables(db, op.req, op.id);
    var p :| p in held && p.user == u;
    assert Behind(p, db, c);
    assert (c, u) in db.members && db.members[(c, u)].lastDeliveredSeq <= db.convs[c].lastSeq;
  }

  /** Any other operation leaves the user's cursors. */
  lemma CursorsStay(db: Db, c: Id, op: Op, u: Id)
    requires KeepsMembership(c, op) && IsMember(db, c, u) && !Tells(db, c, op, u) && !Posts(db, c, op, u)
    ensures (c, u) in Exec(db, op).members
    ensures Exec(db, op).members[(c, u)].lastReadSeq == db.members[(c, u)].lastReadSeq
    ensures Exec(db, op).members[(c, u)].lastDeliveredSeq == db.members[(c, u)].lastDeliveredSeq
  {
    if op.Post? && Accepted(db, op) {
      PostedTables(db, op.req, op.id);
    }
  }

  lemma ReceiptsAre(db: Db, c: Id, op: Op, u: Id)
    ensures Tells(db, c, op, u) ==> Announced(db, c, op) == {CursorOf(Exec(db, op), c, u)}
    ensures forall r | r in Announced(db, c, op) :: Tells(db, c, op, r.user)
  {
  }

  lemma StepIsExact(db: Db, held: seq<Peer>, c: Id, op: Op, db': Db, held': seq<Peer>, u: Id)
    requires LogOk(db) && CursorsBounded(db) && ListBehind(held, db, c) && IsMember(db, c, u)
    requires Moves(db, held, c, op, db', held')
    ensures InStep(held', db', c, u) <==>
            Tells(db, c, op, u) || (!Posts(db, c, op, u) && InStep(held, db, c, u))
  {
    ReceiptsAre(db, c, op, u);
    if Tells(db, c, op, u) {
      assert held' == ApplyReceipt(held, CursorOf(db', c, u));
    } else {
      OthersStay(held, Announced(db, c, op), held', u);
      if Posts(db, c, op, u) {
        PostPassesScreen(db, held, c, op, u);
      } else {
        CursorsStay(db, c, op, u);
      }
    }
  }

  /** A receipt about somebody else leaves the user's entries. */
  lemma OthersStay(held: seq<Peer>, receipts: set<Receipt>, held': seq<Peer>, u: Id)
    requires Told(held, receipts, held') && forall r | r in receipts :: r.user != u
    ensures forall p: Peer | p.user == u :: p in held' <==> p in held
  {
    if receipts != {} {
      var r :| receipts == {r} && held' == ApplyReceipt(held, r);
      assert r in receipts;
      forall p: Peer | p.user == u ensures p in held' <==> p in held {
        if p in held {
          var i :| 0 <= i < |held| && held[i] == p;
          assert held'[i] == p;
        }
        if p in held' {
          var i :| 0 <= i < |held'| && held'[i] == p;
          assert held[i] == p;
        }
      }
    }
  }

  lemma TellingKeeps(db: Db, held: seq<Peer>, c: Id, op: Op, db': Db, held': seq<Peer>)
    requires LogOk(db) && CursorsBounded(db) && ListBehind(held, db, c) && Moves(db, held, c, op, db', held')
    ensures LogOk(db') && CursorsBounded(db') && ListBehind(held', db', c) && SameMembers(db, db', c)
  {
    ExecKeepsLog(db, op);
    ExecKeepsBound(db, op);
    ExecAdvances(db, op);
    ExecKeepsMembers(db, c, op);
    StaysBehind(held, db, db', c);
    if r :| Announced(db, c, op) == {r} && held' == ApplyReceipt(held, r) {
      assert r in Announced(db, c, op);
      ReceiptKeepsList(held, r, db', c);
    }
  }

  lemma {:induction false} RunKeeps(dbs: seq<Db>, helds: seq<seq<Peer>>, ops: seq<Op>, c: Id, i: nat)
    requires PromptRun(dbs, helds, ops, c) && i < |dbs|
    ensures LogOk(dbs[i]) && CursorsBounded(dbs[i]) && ListBehind(helds[i], dbs[i], c)
    ensures SameMembers(dbs[0], dbs[i], c)
  {
    if i > 0 {
      RunKeeps(dbs, helds, ops, c, i - 1);
      TellingKeeps(dbs[i - 1], helds[i - 1], c, ops[i - 1], dbs[i], helds[i]);
    }
  }

  /** No receipt of the user's after the j-th operation. */
  predicate Silent(dbs: seq<Db>, ops: seq<Op>, c: Id, u: Id, j: nat, i: nat)
    requires i <= |ops| < |dbs|
  {
    forall r | j < r < i :: !Tells(dbs[r], c, ops[r], u)
  }

  /** The user has posted since their last receipt. */
  predicate Lags(dbs: seq<Db>, ops: seq<Op>, c: Id, u: Id, i: nat)
    requires i <= |ops| < |dbs|
  {
    exists j | 0 <= j < i :: Posts(dbs[j], c, ops[j], u) && Silent(dbs, ops, c, u, j, i)
  }

  lemma SilentOneMore(dbs: seq<Db>, ops: seq<Op>, c: Id, u: Id, j: nat, i: nat)
    requires j < i - 1 && 0 < i <= |ops| < |dbs|
    ensures Silent(dbs, ops, c, u, j, i) <==>
            Silent(dbs, ops, c, u, j, i - 1) && !Tells(dbs[i - 1], c, ops[i - 1], u)
  {
  }

  lemma LagsOneMore(dbs: seq<Db>, ops: seq<Op>, c: Id, u: Id, i: nat)
    requires 0 < i <= |ops| < |dbs|
    ensures Lags(dbs, ops, c, u, i) <==>
            || Posts(dbs[i - 1], c, ops[i - 1], u)
            || (Lags(dbs, ops, c, u, i - 1) && !Tells(dbs[i - 1], c, ops[i - 1], u))
  {
    if Posts(dbs[i - 1], c, ops[i - 1], u) {
      assert Silent(dbs, ops, c, u, i - 1, i);
    } else if Lags(dbs, ops, c, u, i) {
      var j :| 0 <= j < i && Posts(dbs[j], c, ops[j], u) && Silent(dbs, ops, c, u, j, i);
      SilentOneMore(dbs, ops, c, u, j, i);
    } else if Lags(dbs, ops, c, u, i - 1) && !Tells(dbs[i - 1], c, ops[i - 1], u) {
      var j :| 0 <= j < i - 1 && Posts(dbs[j], c, ops[j], u) && Silent(dbs, ops, c, u, j, i - 1);
      SilentOneMore(dbs, ops, c, u, j, i);
    }
  }

  lemma RunStepIsExact(dbs: seq<Db>, helds: seq<seq<Peer>>, ops: seq<Op>, c: Id, u: Id, i: nat)
    requires PromptRun(dbs, helds, ops, c) && 0 < i < |dbs| && IsMember(dbs[0], c, u)
    ensures InStep(helds[i], dbs[i], c, u) <==>
            || Tells(dbs[i - 1], c, ops[i - 1], u)
            || (!Posts(dbs[i - 1], c, ops[i - 1], u) && InStep(helds[i - 1], dbs[i - 1], c, u))
  {
    RunKeeps(dbs, helds, ops, c, i - 1);
    assert Moves(dbs[i - 1], helds[i - 1], c, ops[i - 1], dbs[i], helds[i]);
    StepIsExact(dbs[i - 1], helds[i - 1], c, ops[i - 1], dbs[i], helds[i], u);
  }

  lemma TellsOrPosts(db: Db, c: Id, op: Op, u: Id)
    ensures !(Tells(db, c, op, u) && Posts(db, c, op, u))
  {
  }

  /** Main result: over every run in which all receipts are shown at once, the screen has a member's true cursors if
      and only if the member has not posted since their last receipt. */
  lemma {:induction false} InStepExactly(dbs: seq<Db>, helds: seq<seq<Peer>>, ops: seq<Op>, c: Id, u: Id, i: nat)
    requires PromptRun(dbs, helds, ops, c) && i < |dbs| && IsMember(dbs[0], c, u)
    ensures InStep(helds[i], dbs[i], c, u) <==> !Lags(dbs, ops, c, u, i)
  {
    if i > 0 {
      InStepExactly(dbs, helds, ops, c, u, i - 1);
      RunStepIsExact(dbs, helds, ops, c, u, i);
      TellsOrPosts(dbs[i - 1], c, ops[i - 1], u);
      LagsOneMore(dbs, ops, c, u, i);
    }
  }

  /** Main result: with every receipt shown and no peer posting since their own last receipt, the tick on screen is
      the true one. */
  lemma TickIsTrue(dbs: seq<Db>, helds: seq<seq<Peer>>, ops: seq<Op>, c: Id, i: nat, truth: seq<Peer>,
      message: LocalMessage, viewer: Id)
    requires PromptRun(dbs, helds, ops, c) && i < |dbs| && ViewOf(truth, dbs[i], c)
    requires forall u | IsMember(dbs[0], c, u) && u != viewer :: !Lags(dbs, ops, c, u, i)
    ensures StatusOf(message, helds[i], viewer) == StatusOf(message, truth, viewer)
  {
    RunKeeps(dbs, helds, ops, c, i);
    forall u | IsMember(dbs[0], c, u) && u != viewer ensures InStep(helds[i], dbs[i], c, u) {
      InStepExactly(dbs, helds, ops, c, u, i);
    }
    SamePeers(helds[i], truth, dbs[i], c, viewer);
  }

  lemma SamePeers(held: seq<Peer>, truth: seq<Peer>, db: Db, c: Id, viewer: Id)
    requires ListBehind(held, db, c) && ViewOf(truth, db, c)
    requires forall u | IsMember(db, c, u) && u != viewer :: InStep(held, db, c, u)
    ensures forall p :: p in PeersOf(held, viewer) <==> p in PeersOf(truth, viewer)
    ensures PeersOf(held, viewer) == [] <==> PeersOf(truth, viewer) == []
  {
    forall p ensures p in PeersOf(held, viewer) <==> p in PeersOf(truth, viewer) {
      if p in PeersOf(held, viewer) {
        assert Behind(p, db, c) && InStep(held, db, c, p.user);
        assert p == CursorOf(db, c, p.user);
      }
      if p in PeersOf(truth, viewer) {
        assert IsMember(db, c, p.user) && InStep(held, db, c, p.user);
        var q :| q in held && q.user == p.user;
        assert q == p;
      }
    }
    NoneShown(held, truth, db, c, viewer);
  }

  /** Such a step is one of the network's runs: the operation, then its receipt if it has one. A listing that is
      taken and arrives replaces what the screen holds. */
  lemma NetworkDelivers(n: Net, c: Id, op: Op, listing: seq<Peer>)
    requires KeepsMembership(c, op) && AckBounded(n.db, op)
    ensures var served := Step(n, c, Server(op));
      && served.db == Exec(n.db, op) && served.held == n.held
      && (forall u | Tells(n.db, c, op, u) ::
            Step(served, c, DeliverReceipt(CursorOf(served.db, c, u))).held
            == ApplyReceipt(n.held, CursorOf(served.db, c, u)))
    ensures ViewOf(listing, n.db, c) ==> Step(Step(n, c, List(listing)), c, LoadListing(listing)).held == listing
  {
    var served := Step(n, c, Server(op));
    forall u | Tells(n.db, c, op, u)
      ensures CursorOf(served.db, c, u) in served.receipts
    {
      ReceiptsAre(n.db, c, op, u);
    }
  }
}
