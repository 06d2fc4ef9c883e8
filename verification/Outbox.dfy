/**
 The persistent queue: an object store ordered by client id, read back in the order the messages were
 queued.
 */
module Outbox {
  import opened Wrappers
  import opened Database
  import Ordering

  /** queuedAt is an ISO timestamp, which compares as a string. */
  datatype QueuedMessage = QueuedMessage(clientId: Id, conv: Id, body: string, replyTo: Option<Id>,
                                         attachmentIds: seq<Id>, queuedAt: string)

  type Records = seq<QueuedMessage>

  ghost predicate ByKey(s: Records) {
    forall i, j | 0 <= i < j < |s| :: Ordering.Precedes(s[i].clientId, s[j].clientId)
  }

  /** `put`: in key order, replacing the record with the same key. */
  function Put(s: Records, m: QueuedMessage): Records {
    if s == [] then [m]
    else if s[0].clientId == m.clientId then [m] + s[1..]
    else if Ordering.Precedes(m.clientId, s[0].clientId) then [m] + s
    else [s[0]] + Put(s[1..], m)
  }

  /** `delete`. */
  function Remove(s: Records, clientId: Id): Records {
    if s == [] then []
    else if s[0].clientId == clientId then s[1..]
    else [s[0]] + Remove(s[1..], clientId)
  }

  ghost predicate AllAfter(s: Records, clientId: Id) {
    forall x | x in s :: Ordering.Precedes(clientId, x.clientId)
  }

  lemma ByKeyCons(x: QueuedMessage, s: Records)
    requires ByKey(s) && AllAfter(s, x.clientId)
    ensures ByKey([x] + s)
  {
  }

  lemma ByKeyTail(s: Records)
    requires ByKey(s) && s != []
    ensures ByKey(s[1..]) && AllAfter(s[1..], s[0].clientId) && s == [s[0]] + s[1..]
    ensures forall x | x in s[1..] :: x.clientId != s[0].clientId
  {
    Ordering.Irreflexive(s[0].clientId);
    forall x | x in s[1..] ensures Ordering.Precedes(s[0].clientId, x.clientId) {
      var i :| 0 <= i < |s[1..]| && s[1..][i] == x;
      assert s[i + 1] == x;
    }
  }

  /** The store after a put: the new record, and every other one with another key. */
  lemma {:induction false} PutReplaces(s: Records, m: QueuedMessage)
    requires ByKey(s)
    ensures ByKey(Put(s, m))
    ensures forall x :: x in Put(s, m) <==> x == m || (x in s && x.clientId != m.clientId)
  {
    if s == [] {
      assert Put(s, m) == [m];
    } else {
      ByKeyTail(s);
      var rest := s[1..];
      if s[0].clientId == m.clientId {
        ByKeyCons(m, rest);
      } else if Ordering.Precedes(m.clientId, s[0].clientId) {
        forall x | x in s ensures Ordering.Precedes(m.clientId, x.clientId) {
          if x in rest {
            Ordering.Transitive(m.clientId, s[0].clientId, x.clientId);
          }
        }
        Ordering.Irreflexive(m.clientId);
        ByKeyCons(m, s);
      } else {
        PutReplaces(rest, m);
        Ordering.Total(m.clientId, s[0].clientId);
        ByKeyCons(s[0], Put(rest, m));
      }
    }
  }

  lemma {:induction false} RemoveDrops(s: Records, clientId: Id)
    requires ByKey(s)
    ensures ByKey(Remove(s, clientId))
    ensures forall x :: x in Remove(s, clientId) <==> x in s && x.clientId != clientId
  {
    if s == [] {
      assert Remove(s, clientId) == [];
    } else {
      ByKeyTail(s);
      if s[0].clientId != clientId {
        RemoveDrops(s[1..], clientId);
        ByKeyCons(s[0], Remove(s[1..], clientId));
      }
    }
  }

  // ---------- reading the queue ----------

  /** A stable sort by queuedAt, one element after the other. */
  function Insert(s: Records, m: QueuedMessage): Records {
    if s == [] then [m]
    else
      var n := |s| - 1;
      if Ordering.Precedes(m.queuedAt, s[n].queuedAt) then Insert(s[..n], m) + [s[n]] else s + [m]
  }

  function SortByTime(s: Records): Records {
    if s == [] then [] else Insert(SortByTime(s[..|s| - 1]), s[|s| - 1])
  }

  /** Queued earlier, or at the same instant with the smaller id. */
  predicate Sooner(x: QueuedMessage, y: QueuedMessage) {
    Ordering.Precedes(x.queuedAt, y.queuedAt)
    || (x.queuedAt == y.queuedAt && Ordering.Precedes(x.clientId, y.clientId))
  }

  ghost predicate InTime(s: Records) {
    forall i, j | 0 <= i < j < |s| :: Sooner(s[i], s[j])
  }

  lemma SoonerTransitive(x: QueuedMessage, y: QueuedMessage, z: QueuedMessage)
    requires Sooner(x, y) && Sooner(y, z)
    ensures Sooner(x, z)
  {
    if Ordering.Precedes(x.queuedAt, y.queuedAt) {
      if Ordering.Precedes(y.queuedAt, z.queuedAt) {
        Ordering.Transitive(x.queuedAt, y.queuedAt, z.queuedAt);
      }
    } else if y.queuedAt == z.queuedAt {
      Ordering.Transitive(x.clientId, y.clientId, z.clientId);
    }
  }

  /** Inserting a record with the greatest key so far keeps the order. */
  lemma {:induction false} InsertKeepsTime(s: Records, m: QueuedMessage)
    requires InTime(s) && forall x | x in s :: Ordering.Precedes(x.clientId, m.clientId)
    ensures InTime(Insert(s, m))
    ensures forall x :: x in Insert(s, m) <==> x in s || x == m
  {
    if s == [] {
      assert Insert(s, m) == [m];
    } else {
      var n := |s| - 1;
      var front, last := s[..n], s[n];
      if Ordering.Precedes(m.queuedAt, last.queuedAt) {
        InsertKeepsTime(front, m);
      } else {
        Ordering.Total(m.queuedAt, last.queuedAt);
        assert Sooner(last, m);
        forall x | x in front ensures Sooner(x, m) {
          SoonerTransitive(x, last, m);
        }
      }
    }
  }

  /** Main result: the queue is read back whole, in one definite order, oldest first. */
  lemma {:induction false} QueueIsReadInTime(s: Records)
    requires ByKey(s)
    ensures InTime(SortByTime(s))
    ensures forall x :: x in SortByTime(s) <==> x in s
    ensures |SortByTime(s)| == |s|
  {
    if s == [] {
      assert SortByTime(s) == [];
    } else {
      var n := |s| - 1;
      var front, last := s[..n], s[n];
      QueueIsReadInTime(front);
      assert s == front + [last];
      assert forall x | x in front :: Ordering.Precedes(x.clientId, last.clientId);
      InsertKeepsTime(SortByTime(front), last);
      InsertAddsOne(SortByTime(front), last);
      assert SortByTime(s) == Insert(SortByTime(front), last);
    }
  }

  lemma {:induction false} InsertAddsOne(s: Records, m: QueuedMessage)
    ensures |Insert(s, m)| == |s| + 1
  {
    if s != [] && Ordering.Precedes(m.queuedAt, s[|s| - 1].queuedAt) {
      InsertAddsOne(s[..|s| - 1], m);
    }
  }

  class Outbox {
    var records: Records

    ghost predicate Valid()
      reads this
    {
      ByKey(records)
    }

    constructor ()
      ensures Valid() && records == []
    {
      records := [];
    }

    method Enqueue(m: QueuedMessage)
      requires Valid()
      modifies this
      ensures Valid()
      ensures forall x :: x in records <==> x == m || (x in old(records) && x.clientId != m.clientId)
    {
      PutReplaces(records, m);
      records := Put(records, m);
    }

    method Dequeue(clientId: Id)
      requires Valid()
      modifies this
      ensures Valid()
      ensures forall x :: x in records <==> x in old(records) && x.clientId != clientId
    {
      RemoveDrops(records, clientId);
      records := Remove(records, clientId);
    }

    /** Sorts the fetched copy in place; the store itself stays as it is. */
    method Queued() returns (all: Records)
      requires Valid()
      ensures InTime(all) && |all| == |records| && forall x :: x in all <==> x in records
    {
      QueueIsReadInTime(records);
      all := SortByTime(records);
    }
  }
}
