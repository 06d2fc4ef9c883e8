/**
 Which queued messages a flush gets to: the loop stops at the first failed request of a message that is not on
 screen.
 */
module FlushProgress {
  import opened Wrappers
  import opened Database
  import opened ChatTypes
  import opened Thread
  import opened ClientStore

  /** The states a flush goes through, turn by turn, while nothing stops it. */
  ghost predicate Turns(ss: seq<Store>, pending: seq<Queued>, answers: seq<Option<LocalMessage>>) {
    && |ss| == |pending| + 1 && |answers| == |pending|
    && forall i | 0 <= i < |pending| :: ss[i + 1] == FlushTurn(ss[i], pending[i], answers[i]).0
  }

  /** The request fails and the message is not in its thread. */
  predicate StopsAt(s: Store, q: Queued, answer: Option<LocalMessage>) {
    answer.None? && !HasClientId(ThreadFor(s.threads, q.draft.conv), q.clientId)
  }

  ghost predicate DistinctIds(pending: seq<Queued>) {
    forall i, j | 0 <= i < j < |pending| :: pending[i].clientId != pending[j].clientId
  }

  lemma TurnDecides(s: Store, q: Queued, answer: Option<LocalMessage>)
    ensures var (next, go) := FlushTurn(s, q, answer);
      && (!go <==> StopsAt(s, q, answer))
      && next.outbox == (if answer.Some? then s.outbox - {q.clientId} else s.outbox)
  {
  }

  /** A flush touches no entry of the queue but those it lists. */
  lemma {:induction false} UnlistedStays(s: Store, pending: seq<Queued>, answers: seq<Option<LocalMessage>>,
      clientId: Id)
    requires |pending| == |answers| && forall q | q in pending :: q.clientId != clientId
    ensures clientId in Flushed(s, pending, answers).outbox <==> clientId in s.outbox
    decreases |pending|
  {
    if pending != [] {
      TurnDecides(s, pending[0], answers[0]);
      assert pending[0] in pending && forall q | q in pending[1..] :: q in pending;
      var (next, go) := FlushTurn(s, pending[0], answers[0]);
      if go {
        UnlistedStays(next, pending[1..], answers[1..], clientId);
      }
    }
  }

  /** Main result: a listed message leaves the queue if and only if its request is answered and no message before
      it stops the loop. */
  lemma {:induction false} FlushProgressExactly(ss: seq<Store>, pending: seq<Queued>,
      answers: seq<Option<LocalMessage>>, i: nat)
    requires Turns(ss, pending, answers) && i < |pending| && DistinctIds(pending) && pending[i].clientId in ss[0].outbox
    ensures pending[i].clientId !in Flushed(ss[0], pending, answers).outbox <==>
            answers[i].Some? && forall j | 0 <= j < i :: !StopsAt(ss[j], pending[j], answers[j])
    decreases i
  {
    var rest, more := pending[1..], answers[1..];
    TurnDecides(ss[0], pending[0], answers[0]);
    if i == 0 {
      UnlistedStays(ss[1], rest, more, pending[0].clientId);
    } else if !StopsAt(ss[0], pending[0], answers[0]) {
      FlushProgressExactly(ss[1..], rest, more, i - 1);
      NoneStops(ss, pending, answers, i);
    }
  }

  lemma NoneStops(ss: seq<Store>, pending: seq<Queued>, answers: seq<Option<LocalMessage>>, i: nat)
    requires 0 < i < |pending| == |answers| && |ss| > |pending|
    requires !StopsAt(ss[0], pending[0], answers[0])
    ensures (forall j | 0 <= j < i :: !StopsAt(ss[j], pending[j], answers[j])) <==>
            (forall j | 0 <= j < i - 1 :: !StopsAt(ss[1..][j], pending[1..][j], answers[1..][j]))
  {
    forall j | 0 <= j < i - 1
      ensures StopsAt(ss[1..][j], pending[1..][j], answers[1..][j]) <==>
              StopsAt(ss[j + 1], pending[j + 1], answers[j + 1])
    {
    }
    if forall j | 0 <= j < i - 1 :: !StopsAt(ss[1..][j], pending[1..][j], answers[1..][j]) {
      forall j | 0 <= j < i ensures !StopsAt(ss[j], pending[j], answers[j]) {
        if j > 0 {
          assert !StopsAt(ss[1..][j - 1], pending[1..][j - 1], answers[1..][j - 1]);
        }
      }
    }
  }

  // ---------- what a flush shows ----------

  /** One turn: an answer is shown in the message's own thread, whether or not the message was on screen; a failure
      marks the message if it is on screen, and changes nothing if not. */
  lemma TurnShows(s: Store, q: Queued, answer: Option<LocalMessage>)
    ensures var c := q.draft.conv;
            var (next, go) := FlushTurn(s, q, answer);
      && (answer.Some? && !HasClientId(ThreadFor(s.threads, c), q.clientId) ==>
            && answer.value in ThreadFor(next.threads, c)
            && (forall e | e in ThreadFor(s.threads, c) && !Matches(e, answer.value) ::
                  e in ThreadFor(next.threads, c))
            && (forall e | e in ThreadFor(next.threads, c) :: e == answer.value || e in ThreadFor(s.threads, c)))
      && (answer.Some? && HasClientId(ThreadFor(s.threads, c), q.clientId) ==>
            AnswerShown(s.threads[c], next.threads[c], q.clientId, answer.value))
      && (answer.None? && HasClientId(ThreadFor(s.threads, c), q.clientId) ==>
            OnlyMarked(s.threads[c], next.threads[c], q.clientId))
      && (answer.None? && !HasClientId(ThreadFor(s.threads, c), q.clientId) ==> next == s)
      && (forall d | d != c :: ThreadFor(next.threads, d) == ThreadFor(s.threads, d))
  {
    var t := ThreadFor(s.threads, q.draft.conv);
    if answer.Some? {
      IncomingIsShown(t, answer.value);
      IncomingComesFrom(t, answer.value);
      AnswerReplaces(t, q.clientId, answer.value);
    } else {
      FailureMarks(t, q.clientId);
    }
  }

  /** A turn for another message leaves an entry be. */
  lemma TurnLeaves(s: Store, q: Queued, answer: Option<LocalMessage>, c: Id, e: LocalMessage)
    requires e in ThreadFor(s.threads, c) && e.clientId != q.clientId
    requires answer.Some? ==> e.id != answer.value.id && e.clientId != answer.value.clientId
    ensures e in ThreadFor(FlushTurn(s, q, answer).0.threads, c)
  {
    TurnShows(s, q, answer);
    if c == q.draft.conv && answer.None? && HasClientId(ThreadFor(s.threads, c), q.clientId) {
      var i :| 0 <= i < |s.threads[c]| && s.threads[c][i] == e;
      assert FlushTurn(s, q, answer).0.threads[c][i] == e;
    }
  }

  /** Answers are of the messages asked for, and of different messages. */
  ghost predicate Matching(pending: seq<Queued>, answers: seq<Option<LocalMessage>>) {
    && |answers| == |pending|
    && (forall i | 0 <= i < |answers| && answers[i].Some? :: answers[i].value.clientId == pending[i].clientId)
    && (forall i, j | 0 <= i < j < |answers| && answers[i].Some? && answers[j].Some? ::
          answers[i].value.id != answers[j].value.id)
  }

  ghost predicate Elsewhere(e: LocalMessage, pending: seq<Queued>, answers: seq<Option<LocalMessage>>) {
    && (forall q | q in pending :: q.clientId != e.clientId)
    && (forall i | 0 <= i < |answers| && answers[i].Some? :: answers[i].value.id != e.id)
  }

  /** What the flush is not about stays in its thread. */
  lemma {:induction false} FlushLeaves(s: Store, pending: seq<Queued>, answers: seq<Option<LocalMessage>>, c: Id,
      e: LocalMessage)
    requires Matching(pending, answers) && Elsewhere(e, pending, answers) && e in ThreadFor(s.threads, c)
    ensures e in ThreadFor(Flushed(s, pending, answers).threads, c)
    decreases |pending|
  {
    if pending != [] {
      assert pending[0] in pending && forall q | q in pending[1..] :: q in pending;
      TurnLeaves(s, pending[0], answers[0], c, e);
      var (next, go) := FlushTurn(s, pending[0], answers[0]);
      if go {
        FlushLeaves(next, pending[1..], answers[1..], c, e);
      }
    }
  }

  lemma RestMatches(pending: seq<Queued>, answers: seq<Option<LocalMessage>>)
    requires Matching(pending, answers) && DistinctIds(pending) && pending != []
    ensures Matching(pending[1..], answers[1..]) && DistinctIds(pending[1..])
    ensures answers[0].Some? ==> Elsewhere(answers[0].value, pending[1..], answers[1..])
  {
    forall q | q in pending[1..] ensures q.clientId != pending[0].clientId {
      var j :| 0 <= j < |pending[1..]| && pending[1..][j] == q;
      assert pending[0].clientId != pending[j + 1].clientId;
    }
  }

  /** Main result: every answer the flush gets to is shown in its conversation when the flush is over, on screen
      before or not. */
  lemma {:induction false} AnswersAreShown(ss: seq<Store>, pending: seq<Queued>, answers: seq<Option<LocalMessage>>,
      i: nat)
    requires Turns(ss, pending, answers) && i < |pending| && DistinctIds(pending) && Matching(pending, answers)
    requires answers[i].Some? && forall j | 0 <= j < i :: !StopsAt(ss[j], pending[j], answers[j])
    ensures answers[i].value in ThreadFor(Flushed(ss[0], pending, answers).threads, pending[i].draft.conv)
    decreases i
  {
    var rest, more := pending[1..], answers[1..];
    TurnDecides(ss[0], pending[0], answers[0]);
    RestMatches(pending, answers);
    if i == 0 {
      TurnShows(ss[0], pending[0], answers[0]);
      FlushLeaves(ss[1], rest, more, pending[0].draft.conv, answers[0].value);
    } else {
      assert !StopsAt(ss[0], pending[0], answers[0]);
      NoneStops(ss, pending, answers, i);
      AnswersAreShown(ss[1..], rest, more, i - 1);
    }
  }
}
