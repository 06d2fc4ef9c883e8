/**
 What one page of the conversation list holds, and which conversations are on the list at all.
 */
module ConversationPages {
  import opened Wrappers
  import opened Collections
  import opened Database
  import opened Pagination
  import Ordering

  /** A conversation the user is in, as it stands on the list. */
  predicate IsMine(table: Table, user: Id, e: Entry) {
    && e.id in table.Keys && table[e.id].activity == e.activity
    && user in table[e.id].roster.Keys && table[e.id].roster[user].active
  }

  /** More recent activity, or as recent with the greater id. */
  ghost predicate Newer(x: Entry, y: Entry) {
    x.activity > y.activity || (x.activity == y.activity && exists n: nat :: Ordering.Differ(y.id, x.id, n))
  }

  lemma MineIs(table: Table, user: Id, e: Entry)
    ensures e in Mine(table, user) <==> IsMine(table, user, e)
  {
  }

  /** The rows a page is cut from: the user's conversations, after the cursor's entry if there is one. */
  ghost predicate Eligible(table: Table, user: Id, bound: Option<Entry>, e: Entry) {
    IsMine(table, user, e) && (bound.Some? ==> Newer(bound.value, e))
  }

  ghost function RowsFrom(table: Table, user: Id, bound: Option<Entry>): set<Entry> {
    match bound
    case None => Mine(table, user)
    case Some(b) => After(Mine(table, user), b)
  }

  lemma RowsAre(table: Table, user: Id, bound: Option<Entry>, e: Entry)
    ensures e in RowsFrom(table, user, bound) <==> Eligible(table, user, bound, e)
  {
    MineIs(table, user, e);
    if bound.Some? {
      BeforeIsNewer(bound.value, e);
    }
  }

  /** The text before the first bar is a time, and what comes after it an id. */
  ghost predicate Reads(codec: Codec, cursor: string, bound: Entry) {
    exists head: string ::
      && '|' !in head && codec.ParseIso(head) == Some(bound.activity)
      && codec.Decode(cursor) == Some(head + ['|'] + bound.id)
  }

  /** A cursor is read as its entry, or refused when it spells none. */
  lemma CursorIsRead(codec: Codec, cursor: string, bound: Entry)
    ensures DecodeCursor(codec, cursor) == Success(bound) <==> Reads(codec, cursor, bound)
    ensures DecodeCursor(codec, cursor).Failure? ==> DecodeCursor(codec, cursor) == Failure(Validation)
  {
    if codec.Decode(cursor).Some? {
      var raw := codec.Decode(cursor).value;
      var parts := SplitOnce(raw);
      if DecodeCursor(codec, cursor) == Success(bound) {
        assert '|' !in parts.value.0 && raw == parts.value.0 + ['|'] + bound.id;
      }
      if Reads(codec, cursor, bound) {
        var head: string :| '|' !in head && codec.ParseIso(head) == Some(bound.activity)
                            && raw == head + ['|'] + bound.id;
        assert raw[|head|] == '|';
        Ordering.SplitAtFirst(head, bound.id, parts.value.0, parts.value.1, '|');
      }
    }
  }

  /** Newest first, nothing skipped: whatever is eligible and not on the page is older than all of it. */
  ghost predicate IsPage(table: Table, user: Id, bound: Option<Entry>, size: nat, items: seq<Entry>) {
    && |items| <= size
    && (forall i, j | 0 <= i < j < |items| :: Newer(items[i], items[j]))
    && (forall e | e in items :: Eligible(table, user, bound, e))
    && (forall e | Eligible(table, user, bound, e) && e !in items ::
          |items| == size && forall x | x in items :: Newer(x, e))
  }

  lemma InPrefix(list: seq<Entry>, n: nat, i: nat)
    requires i < |list| && n <= |list|
    ensures i < n ==> list[i] in list[..n]
  {
    if i < n {
      assert list[..n][i] == list[i];
    }
  }

  lemma SliceIsPage(table: Table, user: Id, bound: Option<Entry>, size: nat)
    requires size >= 1
    ensures var slice := SliceOf(Listing(RowsFrom(table, user, bound)), size);
      && IsPage(table, user, bound, size, slice.items)
      && (slice.more <==> exists e :: Eligible(table, user, bound, e) && e !in slice.items)
      && (slice.more ==> slice.items != [])
  {
    var rows := RowsFrom(table, user, bound);
    var list := Listing(rows);
    SliceIsPrefix(list, size);
    var items := list[..Min(size, |list|)];
    forall i, j | 0 <= i < j < |list| ensures Newer(list[i], list[j]) {
      BeforeIsNewer(list[i], list[j]);
    }
    forall e ensures e in list <==> Eligible(table, user, bound, e) {
      RowsAre(table, user, bound, e);
    }
    forall e | e in list && e !in items ensures |items| == size && forall x | x in items :: Newer(x, e) {
      var i :| 0 <= i < |list| && list[i] == e;
      InPrefix(list, Min(size, |list|), i);
      forall x | x in items ensures Newer(x, e) {
        var j :| 0 <= j < |items| && items[j] == x;
        assert list[j] == x;
      }
    }
    if size < |list| {
      LastIsNew(list, size);
      assert list[size] in list && list[size] !in items;
    }
  }

  lemma LastIsNew(list: seq<Entry>, k: nat)
    requires Descending(list) && k < |list|
    ensures list[k] !in list[..k]
  {
    if list[k] in list[..k] {
      var i :| 0 <= i < k && list[..k][i] == list[k];
      assert Before(list[i], list[k]);
      BeforeIrreflexive(list[k]);
    }
  }

  /** A cursor is refused exactly when it spells no entry. */
  lemma RefusedExactly(codec: Codec, table: Table, user: Id, cursor: Option<string>, limit: nat)
    ensures var r := ListForUser(codec, table, user, cursor, limit);
      && (r.Failure? <==> cursor.Some? && forall bound :: !Reads(codec, cursor.value, bound))
      && (r.Failure? ==> r == Failure(Validation))
  {
    if cursor.Some? {
      forall bound ensures DecodeCursor(codec, cursor.value) == Success(bound) <==> Reads(codec, cursor.value, bound) {
        CursorIsRead(codec, cursor.value, bound);
      }
      CursorIsRead(codec, cursor.value, Entry(0, ""));
      if DecodeCursor(codec, cursor.value).Success? {
        assert Reads(codec, cursor.value, DecodeCursor(codec, cursor.value).value);
      }
    }
  }

  /** Main result: a page is the user's conversations after the entry its cursor spells, or all of them without one:
      newest first, nothing skipped, at most fifty, with a cursor of its last entry exactly if more are left. */
  lemma PageExactly(codec: Codec, table: Table, user: Id, cursor: Option<string>, limit: nat, bound: Option<Entry>)
    requires limit >= 1
    requires match cursor
             case None => bound == None
             case Some(c) => bound.Some? && Reads(codec, c, bound.value)
    ensures var r := ListForUser(codec, table, user, cursor, limit);
      && r.Success?
      && IsPage(table, user, bound, Min(limit, 50), r.value.items)
      && (r.value.nextCursor.Some? <==> exists e :: Eligible(table, user, bound, e) && e !in r.value.items)
      && (r.value.nextCursor.Some? ==>
            && r.value.items != []
            && r.value.nextCursor == Some(EncodeCursor(codec, Last(r.value.items))))
  {
    if cursor.Some? {
      CursorIsRead(codec, cursor.value, bound.value);
    }
    SliceIsPage(table, user, bound, Min(limit, 50));
  }
}
