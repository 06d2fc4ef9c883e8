/**
 A queued message that the server refuses for good. Its user has left the conversation, and after a reload it is
 not on screen: being the oldest in the queue, it is the first message of every flush, and the flush stops there.
 Beside the flushes the user writes on, other messages are sent, threads change, and the server serves everybody.
 */
module StuckQueue {
  import opened Wrappers
  import opened Database
  import opened ServerSpec
  import opened Outbox
  import opened Thread
  import LogInvariant
  import SendProtocol
  import ClientStore

  // ---------- a refusal that lasts ----------

  /** The conversation exists, and the user is not in it. */
  predicate Outside(db: Db, c: Id, u: Id) {
    c in db.convs && !IsMember(db, c, u)
  }

  lemma OutsideStays(db: Db, op: Op, c: Id, u: Id)
    requires Outside(db, c, u) && op != Join(c, u)
    ensures Outside(Exec(db, op), c, u)
  {
    if op.Post? && Accepted(db, op) {
      LogInvariant.PostedTables(db, op.req, op.id);
    }
  }

  /** A user who is not a member is refused every message, whatever happens short of joining again. */
  lemma {:induction false} RefusedForGood(db: Db, ops: seq<Op>, req: SendRequest)
    requires Outside(db, req.conv, req.sender) && Join(req.conv, req.sender) !in ops
    ensures Outside(ExecAll(db, ops), req.conv, req.sender)
    ensures SendProtocol.CheckSend(ExecAll(db, ops), req) == SendProtocol.Reject(NotFound)
  {
    if ops != [] {
      var front, last := ops[..|ops| - 1], ops[|ops| - 1];
      assert ops == front + [last] && last in ops;
      RefusedForGood(db, front, req);
      OutsideStays(ExecAll(db, front), last, req.conv, req.sender);
    }
  }

  /** Only a post adds a row. */
  lemma RowsComeFromPosts(db: Db, op: Op, u: Id, clientId: Id)
    requires !HasDuplicate(db, u, clientId)
    requires op.Post? ==> !(op.req.sender == u && op.req.clientId == clientId)
    ensures !HasDuplicate(Exec(db, op), u, clientId)
  {
    if op.Post? && Accepted(db, op) {
      LogInvariant.PostedTables(db, op.req, op.id);
    }
  }

  // ---------- the browser beside the server ----------

  /** A running flush: what it read from the queue, how far it is, whether its request is out, and whether the
      message was off screen when it was sent. */
  datatype Flight = Flight(list: Records, at: nat, waiting: bool, offScreen: bool)

  datatype World = World(db: Db, threads: map<Id, Entries>, outbox: Records, flights: map<nat, Flight>)

  datatype Step =
    | Serve(op: Op)
    | Screen(threads: map<Id, Entries>)
    | Enqueue(message: QueuedMessage)
    | Dequeue(clientId: Id)
    | Start(flush: nat)
    | Call(flush: nat)
    | Succeed(flush: nat)
    | Fail(flush: nat)
    | Reload

  function Request(u: Id, m: QueuedMessage): SendRequest {
    SendRequest(u, m.conv, m.clientId, m.body, m.replyTo, m.attachmentIds)
  }

  predicate OnScreen(threads: map<Id, Entries>, m: QueuedMessage) {
    ClientStore.HasClientId(ClientStore.ThreadFor(threads, m.conv), m.clientId)
  }

  predicate Turning(w: World, f: nat, waiting: bool) {
    f in w.flights && w.flights[f].at < |w.flights[f].list| && w.flights[f].waiting == waiting
  }

  /** The message whose turn it is. */
  function Current(w: World, f: nat): QueuedMessage
    requires f in w.flights && w.flights[f].at < |w.flights[f].list|
  {
    w.flights[f].list[w.flights[f].at]
  }

  /** A send passes its checks before it is posted. A positive answer, to a flush or to a retry that then takes the
      message off the queue, means that the row exists. */
  predicate Enabled(w: World, u: Id, step: Step) {
    match step
    case Serve(op) => op.Post? ==> SendProtocol.CheckSend(w.db, op.req) == SendProtocol.Proceed
    case Screen(_) => true
    case Enqueue(_) => true
    case Dequeue(clientId) => HasDuplicate(w.db, u, clientId)
    case Start(f) => f !in w.flights
    case Call(f) => Turning(w, f, false)
    case Succeed(f) => Turning(w, f, true) && HasDuplicate(w.db, u, Current(w, f).clientId)
    case Fail(f) => Turning(w, f, true)
    case Reload => true
  }

  function WithFlight(w: World, f: nat, flight: Flight): World {
    w.(flights := w.flights[f := flight])
  }

  /** A failure ends the flush if the message was off screen; on screen it is marked and the next one follows. */
  function After(w: World, u: Id, step: Step): World
    requires Enabled(w, u, step)
  {
    match step
    case Serve(op) => w.(db := Exec(w.db, op))
    case Screen(threads) => w.(threads := threads)
    case Enqueue(m) => w.(outbox := Put(w.outbox, m))
    case Dequeue(clientId) => w.(outbox := Remove(w.outbox, clientId))
    case Start(f) => WithFlight(w, f, Flight(SortByTime(w.outbox), 0, false, false))
    case Call(f) =>
      WithFlight(w, f, w.flights[f].(waiting := true, offScreen := !OnScreen(w.threads, Current(w, f))))
    case Succeed(f) =>
      WithFlight(w.(outbox := Remove(w.outbox, Current(w, f).clientId)), f,
                 w.flights[f].(at := w.flights[f].at + 1, waiting := false))
    case Fail(f) =>
      if w.flights[f].offScreen then w.(flights := w.flights - {f})
      else WithFlight(w, f, w.flights[f].(at := w.flights[f].at + 1, waiting := false))
    case Reload => w.(threads := map[], flights := map[])
  }

  ghost predicate Run(ws: seq<World>, steps: seq<Step>, u: Id) {
    && |ws| == |steps| + 1
    && forall i | 0 <= i < |steps| :: Enabled(ws[i], u, steps[i]) && ws[i + 1] == After(ws[i], u, steps[i])
  }

  /** What leaves `q` refused, hidden and the oldest: the user does not join again, `q`'s client id is posted to
      `q`'s conversation only, no thread shows it, and other messages are queued after it. */
  predicate Leaves(step: Step, u: Id, q: QueuedMessage) {
    match step
    case Serve(op) =>
      && op != Join(q.conv, u)
      && (op.Post? && op.req.sender == u && op.req.clientId == q.clientId ==> op.req.conv == q.conv)
    case Screen(threads) => !OnScreen(threads, q)
    case Enqueue(m) => m.clientId != q.clientId && Sooner(q, m)
    case _ => true
  }

  // ---------- the invariant ----------

  ghost predicate Oldest(s: Records, q: QueuedMessage) {
    ByKey(s) && q in s && forall x | x in s && x != q :: Sooner(q, x)
  }

  predicate AtHead(flight: Flight, q: QueuedMessage) {
    flight.at == 0 && flight.list != [] && flight.list[0] == q && (flight.waiting ==> flight.offScreen)
  }

  ghost predicate Stuck(w: World, u: Id, q: QueuedMessage) {
    && Outside(w.db, q.conv, u) && !HasDuplicate(w.db, u, q.clientId)
    && !OnScreen(w.threads, q) && Oldest(w.outbox, q)
    && forall f | f in w.flights :: AtHead(w.flights[f], q)
  }

  lemma SoonerIsStrict(x: QueuedMessage, y: QueuedMessage)
    requires Sooner(x, y)
    ensures !Sooner(y, x)
  {
    if Sooner(y, x) {
      SoonerTransitive(x, y, x);
      Ordering.Irreflexive(x.queuedAt);
      Ordering.Irreflexive(x.clientId);
    }
  }

  /** The queue is read oldest first. */
  lemma OldestIsRead(s: Records, q: QueuedMessage)
    requires Oldest(s, q)
    ensures SortByTime(s) != [] && SortByTime(s)[0] == q
  {
    QueueIsReadInTime(s);
    var list := SortByTime(s);
    assert q in list;
    var i :| 0 <= i < |list| && list[i] == q;
    if i > 0 {
      assert list[0] in list && Sooner(list[0], list[i]);
      SoonerIsStrict(list[0], q);
    }
  }

  lemma QueueKeepsOldest(w: World, u: Id, q: QueuedMessage, step: Step)
    requires Stuck(w, u, q) && Enabled(w, u, step) && Leaves(step, u, q)
    ensures Oldest(After(w, u, step).outbox, q)
  {
    match step
    case Enqueue(m) => PutReplaces(w.outbox, m);
    case Dequeue(clientId) => RemoveDrops(w.outbox, clientId);
    case _ =>
  }

  lemma StepStaysStuck(w: World, u: Id, q: QueuedMessage, step: Step)
    requires Stuck(w, u, q) && Enabled(w, u, step) && Leaves(step, u, q)
    ensures Stuck(After(w, u, step), u, q)
  {
    QueueKeepsOldest(w, u, q, step);
    match step
    case Serve(op) =>
      OutsideStays(w.db, op, q.conv, u);
      RowsComeFromPosts(w.db, op, u, q.clientId);
    case Start(f) => OldestIsRead(w.outbox, q);
    case Call(f) => assert AtHead(w.flights[f], q);
    case Fail(f) => assert AtHead(w.flights[f], q);
    case _ =>
  }

  lemma {:induction false} RunStaysStuck(ws: seq<World>, steps: seq<Step>, u: Id, q: QueuedMessage, i: nat)
    requires Run(ws, steps, u) && i < |ws| && Stuck(ws[0], u, q)
    requires forall j | 0 <= j < i :: Leaves(steps[j], u, q)
    ensures Stuck(ws[i], u, q)
  {
    if i > 0 {
      RunStaysStuck(ws, steps, u, q, i - 1);
      assert Enabled(ws[i - 1], u, steps[i - 1]) && ws[i] == After(ws[i - 1], u, steps[i - 1]);
      StepStaysStuck(ws[i - 1], u, q, steps[i - 1]);
    }
  }

  /** A reload is enough: it clears the screen and ends every flush. */
  lemma ReloadedIsStuck(w: World, u: Id, q: QueuedMessage)
    requires Outside(w.db, q.conv, u) && !HasDuplicate(w.db, u, q.clientId) && Oldest(w.outbox, q)
    ensures Stuck(After(w, u, Reload), u, q) && After(w, u, Reload).flights == map[]
  {
    assert ClientStore.ThreadFor(map[], q.conv) == [];
  }

  /** Main result: with no flush running at first, as after a reload, no flush ever asks the server for anything but
      that message, which is refused every time and stays queued; nothing queued after it is sent by a flush. */
  lemma OnlyTheHeadIsCalled(ws: seq<World>, steps: seq<Step>, u: Id, q: QueuedMessage, i: nat)
    requires Run(ws, steps, u) && i < |steps| && ws[0].flights == map[] && Stuck(ws[0], u, q)
    requires forall j | 0 <= j < i :: Leaves(steps[j], u, q)
    ensures steps[i].Call? ==> Current(ws[i], steps[i].flush) == q
    ensures !steps[i].Succeed? && q in ws[i].outbox
    ensures SendProtocol.CheckSend(ws[i].db, Request(u, q)) == SendProtocol.Reject(NotFound)
  {
    RunStaysStuck(ws, steps, u, q, i);
    assert Enabled(ws[i], u, steps[i]);
    if steps[i].Call? || steps[i].Succeed? {
      assert AtHead(ws[i].flights[steps[i].flush], q);
    }
  }

  // ---------- what the steps do ----------

  /** A flush reads the whole queue, oldest first, and begins with its first message. */
  lemma FlushBegins(w: World, u: Id, f: nat)
    requires f !in w.flights && ByKey(w.outbox)
    ensures Enabled(w, u, Start(f))
    ensures var w' := After(w, u, Start(f));
      && w'.outbox == w.outbox && f in w'.flights && w'.flights[f].at == 0 && !w'.flights[f].waiting
      && InTime(w'.flights[f].list) && forall x :: x in w'.flights[f].list <==> x in w.outbox
  {
    QueueIsReadInTime(w.outbox);
  }

  /** One turn: the request goes out; an answer takes the message off the queue and goes on to the next; a failure
      goes on to the next if the message was on screen, and ends the flush if it was not. */
  lemma FlushTurns(w: World, u: Id, f: nat)
    requires f in w.flights && w.flights[f].at < |w.flights[f].list| && ByKey(w.outbox)
    ensures !w.flights[f].waiting ==> Enabled(w, u, Call(f))
    ensures !w.flights[f].waiting ==>
      var w' := After(w, u, Call(f));
      && w'.outbox == w.outbox && f in w'.flights && w'.flights[f].waiting
      && w'.flights[f].list == w.flights[f].list && w'.flights[f].at == w.flights[f].at
      && (w'.flights[f].offScreen <==> !OnScreen(w.threads, Current(w, f)))
    ensures w.flights[f].waiting && HasDuplicate(w.db, u, Current(w, f).clientId) ==> Enabled(w, u, Succeed(f))
    ensures w.flights[f].waiting && HasDuplicate(w.db, u, Current(w, f).clientId) ==>
      var w' := After(w, u, Succeed(f));
      && (forall x :: x in w'.outbox <==> x in w.outbox && x.clientId != Current(w, f).clientId)
      && f in w'.flights && !w'.flights[f].waiting
      && w'.flights[f].list == w.flights[f].list && w'.flights[f].at == w.flights[f].at + 1
    ensures w.flights[f].waiting ==> Enabled(w, u, Fail(f))
    ensures w.flights[f].waiting ==>
      var w' := After(w, u, Fail(f));
      && w'.outbox == w.outbox
      && (w.flights[f].offScreen ==> f !in w'.flights)
      && (!w.flights[f].offScreen ==>
            && f in w'.flights && !w'.flights[f].waiting
            && w'.flights[f].list == w.flights[f].list && w'.flights[f].at == w.flights[f].at + 1)
  {
    RemoveDrops(w.outbox, Current(w, f).clientId);
  }

  /** What goes on beside a flush leaves it alone, but for a reload. */
  lemma BesidesAre(w: World, u: Id, op: Op, threads: map<Id, Entries>, m: QueuedMessage)
    requires ByKey(w.outbox)
    ensures Enabled(w, u, Serve(op)) ==> After(w, u, Serve(op)) == World(Exec(w.db, op), w.threads, w.outbox, w.flights)
    ensures After(w, u, Screen(threads)) == World(w.db, threads, w.outbox, w.flights)
    ensures var w' := After(w, u, Enqueue(m));
      && w'.db == w.db && w'.threads == w.threads && w'.flights == w.flights && m in w'.outbox
      && forall x: QueuedMessage | x.clientId != m.clientId :: x in w'.outbox <==> x in w.outbox
    ensures HasDuplicate(w.db, u, m.clientId) ==>
      var w' := After(w, u, Dequeue(m.clientId));
      && w'.db == w.db && w'.threads == w.threads && w'.flights == w.flights
      && forall x :: x in w'.outbox <==> x in w.outbox && x.clientId != m.clientId
    ensures After(w, u, Reload) == World(w.db, map[], w.outbox, map[])
    ensures op.Post? && SendProtocol.CheckSend(w.db, op.req) == SendProtocol.Proceed ==> Enabled(w, u, Serve(op))
    ensures !op.Post? ==> Enabled(w, u, Serve(op))
  {
    PutReplaces(w.outbox, m);
    RemoveDrops(w.outbox, m.clientId);
  }
}
