/**
 The conversation list: keyset pages in descending (last_activity_at, id) order, chained by an opaque
 cursor. Following the cursors visits every conversation once, even those listed while others move.
 */
module Pagination {
  import opened Wrappers
  import opened Collections
  import opened Database
  import opened Groups
  import Ordering

  const MAX_PAGE_SIZE := 50

  // ---------- the cursor ----------

  /** isoformat and fromisoformat, and base64 with its decoding, left abstract. */
  datatype Codec = Codec(Iso: int -> string, ParseIso: string -> Option<int>,
                         Encode: string -> string, Decode: string -> Option<string>)

  /** Each pair of functions undoes itself, and a timestamp has no bar in it. */
  ghost predicate Faithful(codec: Codec) {
    && (forall t: int :: '|' !in codec.Iso(t) && codec.ParseIso(codec.Iso(t)) == Some(t))
    && (forall s: string :: codec.Decode(codec.Encode(s)) == Some(s))
  }

  datatype Entry = Entry(activity: int, id: Id)

  function EncodeCursor(codec: Codec, e: Entry): string {
    codec.Encode(codec.Iso(e.activity) + ['|'] + e.id)
  }

  /** `split("|", 1)`: what is before the first bar and what is after it. */
  function SplitOnce(s: string): (r: Option<(string, string)>)
    ensures r.None? <==> '|' !in s
    ensures r.Some? ==> '|' !in r.value.0 && s == r.value.0 + ['|'] + r.value.1
  {
    if s == [] then None
    else if s[0] == '|' then Some(([], s[1..]))
    else
      match SplitOnce(s[1..])
      case None => None
      case Some((head, tail)) => Some(([s[0]] + head, tail))
  }

  function DecodeCursor(codec: Codec, cursor: string): Result<Entry> {
    match codec.Decode(cursor)
    case None => Failure(Validation)
    case Some(raw) =>
      match SplitOnce(raw)
      case None => Failure(Validation)
      case Some((timestamp, id)) =>
        match codec.ParseIso(timestamp)
        case None => Failure(Validation)
        case Some(t) => Success(Entry(t, id))
  }

  lemma CursorRoundTrip(codec: Codec, e: Entry)
    requires Faithful(codec)
    ensures DecodeCursor(codec, EncodeCursor(codec, e)) == Success(e)
  {
    var raw := codec.Iso(e.activity) + ['|'] + e.id;
    assert codec.Decode(codec.Encode(raw)) == Some(raw);
    assert raw[|codec.Iso(e.activity)|] == '|';
    var parts := SplitOnce(raw).value;
    Ordering.SplitAtFirst(codec.Iso(e.activity), e.id, parts.0, parts.1, '|');
  }

  // ---------- the order ----------

  /** `x` is listed before `y`. */
  predicate Before(x: Entry, y: Entry) {
    x.activity > y.activity || (x.activity == y.activity && Ordering.Precedes(y.id, x.id))
  }

  lemma BeforeIrreflexive(x: Entry)
    ensures !Before(x, x)
  {
    Ordering.Irreflexive(x.id);
  }

  lemma BeforeTransitive(x: Entry, y: Entry, z: Entry)
    requires Before(x, y) && Before(y, z)
    ensures Before(x, z)
  {
    if x.activity == z.activity {
      Ordering.Transitive(z.id, y.id, x.id);
    }
  }

  lemma BeforeTotal(x: Entry, y: Entry)
    ensures x == y || Before(x, y) || Before(y, x)
  {
    Ordering.Total(x.id, y.id);
  }

  /** Newest first, and of two equally new the one with the greater id. */
  lemma BeforeIsNewer(x: Entry, y: Entry)
    ensures Before(x, y) <==>
            x.activity > y.activity || (x.activity == y.activity && exists n: nat :: Ordering.Differ(y.id, x.id, n))
  {
    Ordering.PrecedesExactly(y.id, x.id);
  }

  ghost predicate Leads(e: Entry, all: set<Entry>) {
    e in all && forall x | x in all && x != e :: Before(e, x)
  }

  lemma {:induction false} SomeLeads(all: set<Entry>) returns (top: Entry)
    requires all != {}
    ensures Leads(top, all)
    decreases |all|
  {
    top :| top in all;
    if all != {top} {
      var other := SomeLeads(all - {top});
      BeforeTotal(top, other);
      if Before(other, top) {
        top := other;
      } else {
        forall x | x in all && x != top ensures Before(top, x) {
          if x != other {
            BeforeTransitive(top, other, x);
          }
        }
      }
    }
  }

  lemma LeaderIsOne(all: set<Entry>, x: Entry, y: Entry)
    requires Leads(x, all) && Leads(y, all)
    ensures x == y
  {
    if x != y {
      BeforeTransitive(x, y, x);
      BeforeIrreflexive(x);
    }
  }

  ghost predicate Descending(list: seq<Entry>) {
    forall i, j | 0 <= i < j < |list| :: Before(list[i], list[j])
  }

  ghost predicate IsListing(list: seq<Entry>, all: set<Entry>) {
    Descending(list) && forall e :: e in list <==> e in all
  }

  lemma ListingCons(top: Entry, rest: seq<Entry>, all: set<Entry>)
    requires Leads(top, all) && IsListing(rest, all - {top})
    ensures IsListing([top] + rest, all)
  {
    assert forall i | 0 <= i < |rest| :: rest[i] in all - {top};
  }

  lemma {:induction false} ListingExists(all: set<Entry>) returns (list: seq<Entry>)
    ensures IsListing(list, all) && |list| == |all|
    decreases |all|
  {
    if all == {} {
      list := [];
    } else {
      var top := SomeLeads(all);
      var rest := ListingExists(all - {top});
      ListingCons(top, rest, all);
      list := [top] + rest;
    }
  }

  lemma ListingTail(list: seq<Entry>, all: set<Entry>)
    requires IsListing(list, all) && list != []
    ensures Leads(list[0], all) && IsListing(list[1..], all - {list[0]})
  {
    BeforeIrreflexive(list[0]);
    assert list == [list[0]] + list[1..];
    forall x | x in all && x != list[0] ensures Before(list[0], x) && x in list[1..] {
      var i :| 0 <= i < |list| && list[i] == x;
    }
    forall i | 0 <= i < |list[1..]| ensures list[1..][i] in all - {list[0]} {
      assert list[1..][i] == list[i + 1] && Before(list[0], list[i + 1]);
    }
  }

  /** A set can be listed in one way only. */
  lemma {:induction false} ListingIsUnique(list: seq<Entry>, other: seq<Entry>, all: set<Entry>)
    requires IsListing(list, all) && IsListing(other, all)
    ensures list == other
    decreases |list|
  {
    assert list != [] ==> list[0] in all;
    assert other != [] ==> other[0] in all;
    if list == [] || other == [] {
      assert list == other;
    } else {
      ListingTail(list, all);
      ListingTail(other, all);
      LeaderIsOne(all, list[0], other[0]);
      ListingIsUnique(list[1..], other[1..], all - {list[0]});
      assert list == [list[0]] + list[1..] && other == [other[0]] + other[1..];
    }
  }

  /** ORDER BY last_activity_at DESC, id DESC. */
  ghost function Listing(all: set<Entry>): (list: seq<Entry>)
    ensures IsListing(list, all) && |list| == |all|
  {
    assert exists list :: IsListing(list, all) && |list| == |all| by {
      var list := ListingExists(all);
    }
    var list :| IsListing(list, all) && |list| == |all|;
    list
  }

  /** What comes after an entry of the list is the rest of the list. */
  ghost function After(all: set<Entry>, bound: Entry): set<Entry> {
    set e | e in all && Before(bound, e)
  }

  lemma RestIsListing(list: seq<Entry>, all: set<Entry>, k: nat)
    requires IsListing(list, all) && k < |list|
    ensures IsListing(list[k + 1..], After(all, list[k]))
  {
    var rest := list[k + 1..];
    forall e | e in After(all, list[k]) ensures e in rest {
      var i :| 0 <= i < |list| && list[i] == e;
      BeforeIrreflexive(e);
      if i < k {
        BeforeTransitive(e, list[k], e);
      }
      assert rest[i - k - 1] == e;
    }
    forall i | 0 <= i < |rest| ensures rest[i] in After(all, list[k]) {
      assert rest[i] == list[k + 1 + i] && list[k + 1 + i] in all;
    }
  }

  lemma RestOfListing(all: set<Entry>, k: nat)
    requires k < |all|
    ensures Listing(After(all, Listing(all)[k])) == Listing(all)[k + 1..]
  {
    var list := Listing(all);
    RestIsListing(list, all, k);
    ListingIsUnique(Listing(After(all, list[k])), list[k + 1..], After(all, list[k]));
  }

  // ---------- pages ----------

  datatype Listed = Listed(activity: int, roster: Roster)

  type Table = map<Id, Listed>

  /** The rows of the user's active memberships. */
  ghost function Mine(table: Table, user: Id): set<Entry> {
    set c | c in table && Active(table[c].roster, user) :: Entry(table[c].activity, c)
  }

  /** A page before its cursor is spelled out. */
  datatype Slice = Slice(items: seq<Entry>, more: bool)

  /** LIMIT size + 1, and what the extra row says. */
  function SliceOf(rows: seq<Entry>, size: nat): Slice {
    var fetched := rows[..Min(|rows|, size + 1)];
    Slice(fetched[..Min(|fetched|, size)], |fetched| > size)
  }

  function Last(items: seq<Entry>): Entry
    requires items != []
  {
    items[|items| - 1]
  }

  datatype Page = Page(items: seq<Entry>, nextCursor: Option<string>)

  function Sealed(codec: Codec, slice: Slice): Page {
    Page(slice.items, if slice.more && slice.items != [] then Some(EncodeCursor(codec, Last(slice.items))) else None)
  }

  ghost function ListForUser(codec: Codec, table: Table, user: Id, cursor: Option<string>, limit: nat): Result<Page> {
    var size := Min(limit, MAX_PAGE_SIZE);
    match cursor
    case None => Success(Sealed(codec, SliceOf(Listing(Mine(table, user)), size)))
    case Some(c) =>
      match DecodeCursor(codec, c)
      case Failure(e) => Failure(e)
      case Success(bound) => Success(Sealed(codec, SliceOf(Listing(After(Mine(table, user), bound)), size)))
  }

  ghost predicate Follows(codec: Codec, tables: seq<Table>, user: Id, limit: nat, pages: seq<Page>, i: nat)
    requires 0 < i < |pages| == |tables|
  {
    && pages[i - 1].nextCursor.Some?
    && ListForUser(codec, tables[i], user, pages[i - 1].nextCursor, limit) == Success(pages[i])
  }

  /** A reader following the cursors, each page answered from the table as it is by then. */
  ghost predicate Walk(codec: Codec, tables: seq<Table>, user: Id, limit: nat, pages: seq<Page>) {
    && |pages| == |tables| > 0
    && ListForUser(codec, tables[0], user, None, limit) == Success(pages[0])
    && forall i | 0 < i < |pages| :: Follows(codec, tables, user, limit, pages, i)
  }

  // ---------- the same walk without the cursors' spelling ----------

  ghost predicate Goes(tables: seq<Table>, user: Id, size: nat, slices: seq<Slice>, i: nat)
    requires 0 < i < |slices| == |tables|
  {
    && slices[i - 1].more
    && slices[i - 1].items != []
    && slices[i] == SliceOf(Listing(After(Mine(tables[i], user), Last(slices[i - 1].items))), size)
  }

  ghost predicate Trail(tables: seq<Table>, user: Id, size: nat, slices: seq<Slice>) {
    && |slices| == |tables| > 0
    && slices[0] == SliceOf(Listing(Mine(tables[0], user)), size)
    && forall i | 0 < i < |slices| :: Goes(tables, user, size, slices, i)
  }

  function Opened(pages: seq<Page>): (slices: seq<Slice>)
    ensures |slices| == |pages|
  {
    seq(|pages|, i requires 0 <= i < |pages| => Slice(pages[i].items, pages[i].nextCursor.Some?))
  }

  /** A cursor the service handed out is never refused, and carries the last entry of its page. */
  lemma FollowGoes(codec: Codec, table: Table, user: Id, cursor: Option<string>, limit: nat, bound: Entry)
    requires Faithful(codec) && limit >= 1 && cursor == Some(EncodeCursor(codec, bound))
    ensures ListForUser(codec, table, user, cursor, limit)
            == Success(Sealed(codec, SliceOf(Listing(After(Mine(table, user), bound)), Min(limit, MAX_PAGE_SIZE))))
  {
    CursorRoundTrip(codec, bound);
  }

  ghost predicate Cut(codec: Codec, page: Page, size: nat) {
    exists rows :: page == Sealed(codec, SliceOf(rows, size))
  }

  lemma EveryPageIsCut(codec: Codec, tables: seq<Table>, user: Id, limit: nat, pages: seq<Page>, i: nat)
    requires Walk(codec, tables, user, limit, pages) && i < |pages|
    ensures Cut(codec, pages[i], Min(limit, MAX_PAGE_SIZE))
  {
    var size := Min(limit, MAX_PAGE_SIZE);
    if i == 0 {
      assert pages[0] == Sealed(codec, SliceOf(Listing(Mine(tables[0], user)), size));
    } else {
      assert Follows(codec, tables, user, limit, pages, i);
      var bound := DecodeCursor(codec, pages[i - 1].nextCursor.value).value;
      assert pages[i] == Sealed(codec, SliceOf(Listing(After(Mine(tables[i], user), bound)), size));
    }
  }

  /** Cursor strings can be read as the entries they carry. */
  lemma WalkIsTrail(codec: Codec, tables: seq<Table>, user: Id, limit: nat, pages: seq<Page>)
    requires Faithful(codec) && limit >= 1 && Walk(codec, tables, user, limit, pages)
    ensures Trail(tables, user, Min(limit, MAX_PAGE_SIZE), Opened(pages))
  {
    var size := Min(limit, MAX_PAGE_SIZE);
    var slices := Opened(pages);
    forall i | 0 < i < |pages| ensures Goes(tables, user, size, slices, i) {
      assert Follows(codec, tables, user, limit, pages, i);
      EveryPageIsCut(codec, tables, user, limit, pages, i - 1);
      var rows :| pages[i - 1] == Sealed(codec, SliceOf(rows, size));
      var all := After(Mine(tables[i], user), Last(slices[i - 1].items));
      FollowGoes(codec, tables[i], user, pages[i - 1].nextCursor, limit, Last(slices[i - 1].items));
    }
  }

  function Collected(slices: seq<Slice>): seq<Entry> {
    if slices == [] then [] else Collected(slices[..|slices| - 1]) + slices[|slices| - 1].items
  }

  // ---------- a table that stays as it is ----------

  ghost predicate Frozen(tables: seq<Table>, table: Table) {
    forall i | 0 <= i < |tables| :: tables[i] == table
  }

  /** How far a walk has got after some pages of a list. */
  function Reach(pages: nat, size: nat, total: nat): nat {
    if pages == 0 then 0 else Min(Reach(pages - 1, size, total) + size, total)
  }

  lemma {:induction false} ReachIsProduct(pages: nat, size: nat, total: nat)
    ensures Reach(pages, size, total) == Min(pages * size, total)
  {
    if pages > 0 {
      ReachIsProduct(pages - 1, size, total);
      assert pages * size == (pages - 1) * size + size;
    }
  }

  /** A slice cut from the list at a position. */
  lemma SliceAt(list: seq<Entry>, k: nat, size: nat)
    requires k <= |list| && size >= 1
    ensures var end := Min(k + size, |list|);
            SliceOf(list[k..], size) == Slice(list[k..end], end < |list|)
  {
    var rest := list[k..];
    var end := Min(k + size, |list|);
    assert rest[..Min(|rest|, size + 1)][..end - k] == list[k..end];
  }

  /** The reader has the list up to a position, and knows whether that is all. */
  ghost predicate ReadTo(list: seq<Entry>, slices: seq<Slice>, k: nat) {
    && slices != [] && k <= |list|
    && Collected(slices) == list[..k]
    && slices[|slices| - 1].more == (k < |list|)
    && (slices[|slices| - 1].more ==>
          k > 0 && slices[|slices| - 1].items != [] && Last(slices[|slices| - 1].items) == list[k - 1])
  }

  lemma ReadOn(list: seq<Entry>, slices: seq<Slice>, k: nat, size: nat)
    requires size >= 1 && (slices == [] ==> k == 0) && (slices != [] ==> k < |list| && ReadTo(list, slices, k))
    ensures ReadTo(list, slices + [SliceOf(list[k..], size)], Min(k + size, |list|))
  {
    SliceAt(list, k, size);
  }

  /** The slices are cut from one list, each going on where the one before stopped. */
  ghost predicate Resumes(list: seq<Entry>, size: nat, slices: seq<Slice>, i: nat)
    requires 0 < i < |slices|
  {
    && slices[i - 1].more
    && slices[i - 1].items != []
    && (forall k | 0 <= k < |list| && list[k] == Last(slices[i - 1].items) :: slices[i] == SliceOf(list[k + 1..], size))
  }

  ghost predicate CutFrom(list: seq<Entry>, size: nat, slices: seq<Slice>) {
    && slices != []
    && slices[0] == SliceOf(list, size)
    && forall i | 0 < i < |slices| :: Resumes(list, size, slices, i)
  }

  lemma FrozenTrailIsCut(table: Table, tables: seq<Table>, user: Id, size: nat, slices: seq<Slice>)
    requires Trail(tables, user, size, slices) && Frozen(tables, table)
    ensures CutFrom(Listing(Mine(table, user)), size, slices)
  {
    var list := Listing(Mine(table, user));
    forall i | 0 < i < |slices| ensures Resumes(list, size, slices, i) {
      assert Goes(tables, user, size, slices, i);
      forall k | 0 <= k < |list| && list[k] == Last(slices[i - 1].items)
        ensures slices[i] == SliceOf(list[k + 1..], size)
      {
        RestOfListing(Mine(table, user), k);
      }
    }
  }

  /** After n pages the reader has the first n * size conversations of the list, in order. */
  lemma {:induction false} CutReadsTheList(list: seq<Entry>, size: nat, slices: seq<Slice>, n: nat)
    requires size >= 1 && CutFrom(list, size, slices) && 1 <= n <= |slices|
    ensures ReadTo(list, slices[..n], Reach(n, size, |list|))
  {
    var k := Reach(n - 1, size, |list|);
    assert slices[..n] == slices[..n - 1] + [slices[n - 1]];
    if n == 1 {
      assert list[0..] == list;
    } else {
      CutReadsTheList(list, size, slices, n - 1);
      assert Resumes(list, size, slices, n - 1);
      assert slices[..n - 1][n - 2] == slices[n - 2];
      assert list[k - 1] == Last(slices[n - 2].items);
      assert slices[n - 1] == SliceOf(list[k..], size);
    }
    assert Reach(n, size, |list|) == Min(k + size, |list|);
    ReadOn(list, slices[..n - 1], k, size);
  }

  lemma CutIsComplete(list: seq<Entry>, size: nat, slices: seq<Slice>)
    requires size >= 1 && CutFrom(list, size, slices)
    ensures !slices[|slices| - 1].more <==> Collected(slices) == list
    ensures Collected(slices) <= list
  {
    CutReadsTheList(list, size, slices, |slices|);
    assert slices[..|slices|] == slices;
    assert list[..|list|] == list;
  }

  lemma CutIsShort(list: seq<Entry>, size: nat, slices: seq<Slice>)
    requires size >= 1 && CutFrom(list, size, slices) && |slices| > 1
    ensures (|slices| - 1) * size < |list|
  {
    var n := |slices| - 1;
    CutReadsTheList(list, size, slices, n);
    assert Resumes(list, size, slices, n);
    assert slices[..n][n - 1] == slices[n - 1];
    ReachIsProduct(n, size, |list|);
  }

  /** Main result on a fixed table: a finished walk has visited exactly the user's active conversations,
      each once, in descending order; and no walk is longer than their number of pages. */
  lemma WalkIsComplete(codec: Codec, table: Table, tables: seq<Table>, user: Id, limit: nat, pages: seq<Page>)
    requires Faithful(codec) && limit >= 1 && Walk(codec, tables, user, limit, pages) && Frozen(tables, table)
    ensures pages[|pages| - 1].nextCursor.None? <==> Collected(Opened(pages)) == Listing(Mine(table, user))
    ensures Collected(Opened(pages)) <= Listing(Mine(table, user)) && Descending(Collected(Opened(pages)))
    ensures (|pages| - 1) * Min(limit, MAX_PAGE_SIZE) < |Mine(table, user)| || |pages| == 1
  {
    WalkIsTrail(codec, tables, user, limit, pages);
    FrozenTrailIsCut(table, tables, user, Min(limit, MAX_PAGE_SIZE), Opened(pages));
    CutIsComplete(Listing(Mine(table, user)), Min(limit, MAX_PAGE_SIZE), Opened(pages));
    if |pages| > 1 {
      CutIsShort(Listing(Mine(table, user)), Min(limit, MAX_PAGE_SIZE), Opened(pages));
    }
  }

  // ---------- a table that changes between pages ----------

  /** A slice holds an entry of its rows, or ends before it. */
  lemma SliceSplits(rows: seq<Entry>, size: nat, e: Entry)
    requires Descending(rows) && size >= 1 && e in rows
    ensures var slice := SliceOf(rows, size);
            e in slice.items || (slice.more && slice.items != [] && Before(Last(slice.items), e))
  {
    SliceAt(rows, 0, size);
    assert rows[0..] == rows;
    var i :| 0 <= i < |rows| && rows[i] == e;
    if i < Min(size, |rows|) {
      assert SliceOf(rows, size).items[i] == e;
    }
  }

  /** An entry the reader has, or has still to come to. */
  ghost predicate Covered(slices: seq<Slice>, e: Entry)
    requires slices != []
  {
    var last := slices[|slices| - 1];
    e in Collected(slices) || (last.more && last.items != [] && Before(Last(last.items), e))
  }

  ghost predicate Present(tables: seq<Table>, user: Id, e: Entry) {
    forall i | 0 <= i < |tables| :: e in Mine(tables[i], user)
  }

  lemma DescendingJoin(before: seq<Entry>, items: seq<Entry>)
    requires Descending(before) && Descending(items)
    requires before != [] ==> forall r | r in items :: Before(Last(before), r)
    ensures Descending(before + items)
  {
    var all := before + items;
    forall i, j | 0 <= i < j < |all| ensures Before(all[i], all[j]) {
      if i < |before| <= j {
        assert all[j] in items;
        if i < |before| - 1 {
          BeforeTransitive(all[i], Last(before), all[j]);
        }
      }
    }
  }

  /** What was read descends, and the cursor stands at its end. */
  ghost predicate Steady(slices: seq<Slice>) {
    && Descending(Collected(slices))
    && (slices != [] && slices[|slices| - 1].more ==>
          slices[|slices| - 1].items != [] && Collected(slices) != []
          && Last(slices[|slices| - 1].items) == Last(Collected(slices)))
  }

  lemma SliceIsPrefix(rows: seq<Entry>, size: nat)
    requires size >= 1
    ensures SliceOf(rows, size) == Slice(rows[..Min(size, |rows|)], size < |rows|)
  {
    SliceAt(rows, 0, size);
    assert rows[0..] == rows;
  }

  lemma CollectedMore(slices: seq<Slice>, s: Slice)
    ensures Collected(slices + [s]) == Collected(slices) + s.items
  {
    assert (slices + [s])[..|slices|] == slices;
  }

  /** Rows that come after everything read. */
  ghost predicate ComeAfter(read: seq<Entry>, rows: seq<Entry>) {
    read != [] ==> forall r | r in rows :: Before(Last(read), r)
  }

  lemma PrefixFollows(read: seq<Entry>, rows: seq<Entry>, n: nat)
    requires Descending(rows) && ComeAfter(read, rows) && n <= |rows|
    ensures Descending(rows[..n]) && ComeAfter(read, rows[..n])
  {
    forall r | r in rows[..n] ensures r in rows {
    }
  }

  lemma FollowingJoins(read: seq<Entry>, items: seq<Entry>)
    requires Descending(read) && Descending(items) && ComeAfter(read, items)
    ensures Descending(read + items) && (items != [] ==> Last(read + items) == Last(items))
  {
    DescendingJoin(read, items);
  }

  /** One more slice, of rows all after what was read, keeps the reader steady. */
  lemma SteadyOn(slices: seq<Slice>, rows: seq<Entry>, size: nat)
    requires size >= 1 && Descending(rows) && Steady(slices) && ComeAfter(Collected(slices), rows)
    ensures Steady(slices + [SliceOf(rows, size)])
  {
    var read, slice := Collected(slices), SliceOf(rows, size);
    SliceIsPrefix(rows, size);
    PrefixFollows(read, rows, Min(size, |rows|));
    FollowingJoins(read, slice.items);
    CollectedMore(slices, slice);
    EndsWith(slices, slice);
  }

  lemma EndsWith(slices: seq<Slice>, slice: Slice)
    requires Descending(Collected(slices + [slice])) && (slice.more ==> slice.items != [])
    requires Collected(slices + [slice]) == Collected(slices) + slice.items
    ensures Steady(slices + [slice])
  {
  }

  lemma {:induction false} TrailIsSteady(tables: seq<Table>, user: Id, size: nat, slices: seq<Slice>, n: nat)
    requires size >= 1 && Trail(tables, user, size, slices) && 1 <= n <= |slices|
    ensures Steady(slices[..n])
  {
    assert slices[..n] == slices[..n - 1] + [slices[n - 1]];
    if n == 1 {
      SteadyOn([], Listing(Mine(tables[0], user)), size);
    } else {
      TrailIsSteady(tables, user, size, slices, n - 1);
      assert Goes(tables, user, size, slices, n - 1);
      assert slices[..n - 1][n - 2] == slices[n - 2];
      var all := After(Mine(tables[n - 1], user), Last(slices[n - 2].items));
      SteadyOn(slices[..n - 1], Listing(all), size);
    }
  }

  lemma {:induction false} TrailCovers(tables: seq<Table>, user: Id, size: nat, slices: seq<Slice>, e: Entry, n: nat)
    requires size >= 1 && Trail(tables, user, size, slices) && Present(tables, user, e) && 1 <= n <= |slices|
    ensures Covered(slices[..n], e)
  {
    assert slices[..n] == slices[..n - 1] + [slices[n - 1]];
    assert e in Mine(tables[n - 1], user);
    if n == 1 {
      SliceSplits(Listing(Mine(tables[0], user)), size, e);
    } else {
      TrailCovers(tables, user, size, slices, e, n - 1);
      assert Goes(tables, user, size, slices, n - 1);
      assert slices[..n - 1][n - 2] == slices[n - 2];
      if e !in Collected(slices[..n - 1]) {
        var all := After(Mine(tables[n - 1], user), Last(slices[n - 2].items));
        assert e in all;
        SliceSplits(Listing(all), size, e);
      }
    }
  }

  /** Main result on a changing table: whatever moves, joins or leaves between the pages, a conversation
      that stays put is on exactly one of them, once. */
  lemma StableEntriesVisitedOnce(codec: Codec, tables: seq<Table>, user: Id, limit: nat, pages: seq<Page>, e: Entry)
    requires Faithful(codec) && limit >= 1 && Walk(codec, tables, user, limit, pages)
    requires pages[|pages| - 1].nextCursor.None? && Present(tables, user, e)
    ensures exists i :: 0 <= i < |Collected(Opened(pages))| && Collected(Opened(pages))[i] == e
                        && forall j | 0 <= j < |Collected(Opened(pages))| && j != i :: Collected(Opened(pages))[j] != e
  {
    var slices := Opened(pages);
    var size := Min(limit, MAX_PAGE_SIZE);
    WalkIsTrail(codec, tables, user, limit, pages);
    assert slices[..|slices|] == slices;
    TrailCovers(tables, user, size, slices, e, |slices|);
    TrailIsSteady(tables, user, size, slices, |slices|);
    OnlyOnce(Collected(slices), e);
  }

  lemma OnlyOnce(list: seq<Entry>, e: Entry)
    requires Descending(list) && e in list
    ensures exists i :: 0 <= i < |list| && list[i] == e && forall j | 0 <= j < |list| && j != i :: list[j] != e
  {
    var i :| 0 <= i < |list| && list[i] == e;
    forall j | 0 <= j < |list| && j != i ensures list[j] != e {
      assert Before(list[i], list[j]) || Before(list[j], list[i]);
      BeforeIrreflexive(e);
    }
  }
}
