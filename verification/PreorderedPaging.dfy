/**
 Keyset pages of a statement that was ordered before: the caller's order comes
 first in ORDER BY, so pages are cut from it, while the cursor filter of
 app/db/repository.py still compares (created_at, id). Two callers do this,
 both in app/modules/timetables/repository.py.
 */
module PreorderedPaging {
  import opened Prelude
  import opened Pagination
  import opened RowOrders

  // ------------------------------------------------------------------
  // The scan a client of such a statement makes
  // ------------------------------------------------------------------

  /** One page: the rows below the cursor, in the caller's order, cut to the limit. */
  ghost function PagesOf(o: Prior, table: set<Row>, limit: nat): Pages {
    (cursor: Option<Row>) => Cut(SortBy(o, Below(table, cursor)), limit)
  }

  lemma PageIsBelow(o: Prior, table: set<Row>, cursor: Option<Row>, limit: nat)
    requires limit >= 1
    ensures var p := PagesOf(o, table, limit)(cursor);
      && (forall r | r in p.items :: r in Below(table, cursor))
      && (p.next.Some? ==> p.next.value in Below(table, cursor))
  {
    var s := SortBy(o, Below(table, cursor));
    SortByFacts(o, Below(table, cursor));
    CutFacts(s, limit);
    if |s| > limit { assert s[limit - 1] in s; }
  }

  ghost predicate StaysBelow(page: Pages, table: set<Row>) {
    && (forall cursor, r | r in page(cursor).items :: r in Below(table, cursor))
    && (forall cursor | page(cursor).next.Some? :: page(cursor).next.value in Below(table, cursor))
  }

  lemma {:induction false} CollectStaysBelow(page: Pages, table: set<Row>, cursor: Option<Row>, n: nat, r: Row)
    requires StaysBelow(page, table) && r in Collect(page, cursor, n)
    ensures r in Below(table, cursor)
    decreases n
  {
    var p := page(cursor);
    if r !in p.items {
      assert p.next.Some? && r in Collect(page, p.next, n - 1);
      CollectStaysBelow(page, table, p.next, n - 1, r);
    }
  }

  lemma CollectIsBelow(o: Prior, table: set<Row>, cursor: Option<Row>, limit: nat, n: nat, r: Row)
    requires limit >= 1 && r in Collect(PagesOf(o, table, limit), cursor, n)
    ensures r in Below(table, cursor)
  {
    forall c: Option<Row>
      ensures forall x | x in PagesOf(o, table, limit)(c).items :: x in Below(table, c)
      ensures var p := PagesOf(o, table, limit)(c); p.next.Some? ==> p.next.value in Below(table, c)
    {
      PageIsBelow(o, table, c, limit);
    }
    CollectStaysBelow(PagesOf(o, table, limit), table, cursor, n, r);
  }

  lemma FirstIsCollected(o: Prior, table: set<Row>, cursor: Option<Row>, limit: nat, n: nat)
    requires limit >= 1 && n >= 1 && Below(table, cursor) != {}
    ensures var s := SortBy(o, Below(table, cursor));
      s != [] && s[0] in Collect(PagesOf(o, table, limit), cursor, n)
  {
    var s := SortBy(o, Below(table, cursor));
    SortByFacts(o, Below(table, cursor));
    CutFacts(s, limit);
    assert PagesOf(o, table, limit)(cursor).items[0] == s[0];
  }

  /** The cursor filter, at the row before position n, splits the list at n. */
  ghost predicate SplitsAt(s: seq<Row>, n: nat) {
    1 <= n < |s| ==> forall j | 0 <= j < |s| :: Less(s[j], s[n - 1]) <==> j >= n
  }

  /** Every page that has a successor ends at such a position. */
  ghost predicate AllSplit(s: seq<Row>, limit: nat)
    requires limit >= 1
  {
    forall n | 0 < n < |s| && PageEnd(n, limit) :: SplitsAt(s, n)
  }

  lemma InTail(s: seq<Row>, start: nat, r: Row)
    requires start <= |s| && r in s[start..]
    ensures exists j :: start <= j < |s| && s[j] == r
  {
    var j :| 0 <= j < |s[start..]| && s[start..][j] == r;
    assert s[start + j] == r;
  }

  lemma BelowIsTail(table: set<Row>, s: seq<Row>, start: nat, r: Row)
    requires 0 < start < |s| && SplitsAt(s, start) && forall r :: r in s <==> r in table
    ensures r in Below(table, CursorIn(s, start)) <==> r in s[start..]
  {
    if r in Below(table, CursorIn(s, start)) {
      var j :| 0 <= j < |s| && s[j] == r;
      assert s[start..][j - start] == r;
    }
    if r in s[start..] { InTail(s, start, r); }
  }

  /** After such a position the next page is drawn from the rest of the sort. */
  lemma SplitGoesOn(o: Prior, table: set<Row>, s: seq<Row>, start: nat)
    requires s == SortBy(o, table) && start <= |s| && (start == 0 || (start < |s| && SplitsAt(s, start)))
    ensures SortBy(o, Below(table, CursorIn(s, start))) == s[start..]
  {
    var below := Below(table, CursorIn(s, start));
    SortByFacts(o, table);
    SortByFacts(o, below);
    if start == 0 {
      assert below == table && s[0..] == s;
    } else {
      forall r ensures r in SortBy(o, below) <==> r in s[start..] { BelowIsTail(table, s, start, r); }
      SortIsUnique(o, SortBy(o, below), s[start..]);
    }
  }

  // ------------------------------------------------------------------
  // Pages up to a position, and a page after it
  // ------------------------------------------------------------------

  /** Pages up to position start follow the list; n - left of them were read. */
  lemma {:induction false} CollectsUpTo(page: Pages, s: seq<Row>, limit: nat, start: nat, n: nat) returns (left: nat)
    requires limit >= 1 && PageEnd(start, limit) && start < |s| && start < n
    requires forall m: nat {:trigger Serves(page, s, limit, m)} | m < start && PageEnd(m, limit) ::
               Serves(page, s, limit, m)
    ensures n <= left + start && Collect(page, None, n) == s[..start] + Collect(page, CursorIn(s, start), left)
    decreases start
  {
    if start == 0 {
      assert s[..0] == [];
      left := n;
    } else {
      left := CollectsUpTo(page, s, limit, start - limit, n);
      assert Serves(page, s, limit, start - limit);
      CollectsOneMore(page, s, limit, start, left);
      left := left - 1;
    }
  }

  lemma CollectsOneMore(page: Pages, s: seq<Row>, limit: nat, start: nat, left: nat)
    requires 1 <= limit <= start < |s| && left >= 1 && Serves(page, s, limit, start - limit)
    ensures s[..start - limit] + Collect(page, CursorIn(s, start - limit), left)
         == s[..start] + Collect(page, CursorIn(s, start), left - 1)
  {
    JoinHead(s, start - limit, start, Collect(page, CursorIn(s, start), left - 1));
  }

  lemma JoinHead(s: seq<Row>, i: nat, j: nat, rest: seq<Row>)
    requires i <= j <= |s|
    ensures s[..i] + (s[i..j] + rest) == s[..j] + rest
  {
  }

  lemma SplitServes(o: Prior, table: set<Row>, s: seq<Row>, limit: nat, n: nat)
    requires limit >= 1 && s == SortBy(o, table) && (n == 0 || (n < |s| && SplitsAt(s, n)))
    ensures Serves(PagesOf(o, table, limit), s, limit, n)
  {
    SplitGoesOn(o, table, s, n);
    CutServes(PagesOf(o, table, limit), s, limit, n);
  }

  // ------------------------------------------------------------------
  // When every row comes back once
  // ------------------------------------------------------------------

  lemma {:induction false} OccurrencesAdd(a: seq<Row>, b: seq<Row>, r: Row)
    ensures Occurrences(a + b, r) == Occurrences(a, r) + Occurrences(b, r)
  {
    if a == [] {
      assert a + b == b;
    } else {
      OccurrencesAdd(a[1..], b, r);
      assert (a + b)[1..] == a[1..] + b;
    }
  }

  lemma {:induction false} OccursIff(s: seq<Row>, r: Row)
    ensures Occurrences(s, r) >= 1 <==> r in s
  {
    if s != [] { OccursIff(s[1..], r); }
  }

  ghost predicate EachOnce(s: seq<Row>, table: set<Row>) {
    forall r | r in table :: Occurrences(s, r) == 1
  }

  /** At a position that does not split, some row is lost or one already returned comes back. */
  lemma BadSplitShows(o: Prior, table: set<Row>, s: seq<Row>, limit: nat, at: nat, n: nat) returns (r: Row)
    requires limit >= 1 && s == SortBy(o, table) && n >= |s| && PageEnd(at, limit) && !SplitsAt(s, at)
    requires forall m | 0 < m < at && PageEnd(m, limit) :: SplitsAt(s, m)
    ensures r in table && Occurrences(Collect(PagesOf(o, table, limit), None, n), r) != 1
  {
    var page := PagesOf(o, table, limit);
    forall m: nat | m < at && PageEnd(m, limit)
      ensures Serves(page, s, limit, m)
    {
      SplitServes(o, table, s, limit, m);
    }
    var left := CollectsUpTo(page, s, limit, at, n);
    SortByFacts(o, table);
    var j :| 0 <= j < |s| && !(Less(s[j], s[at - 1]) <==> j >= at);
    assert s[j] in s;
    if j >= at {
      r := s[j];
      LostRow(o, table, s, limit, at, j, left);
    } else {
      r := RepeatedRow(o, table, s, limit, at, j, left);
    }
    OccurrencesAdd(s[..at], Collect(page, Some(s[at - 1]), left), r);
  }

  lemma LostRow(o: Prior, table: set<Row>, s: seq<Row>, limit: nat, at: nat, j: nat, n: nat)
    requires limit >= 1 && s == SortBy(o, table) && 1 <= at <= j < |s| && !Less(s[j], s[at - 1])
    ensures Occurrences(s[..at], s[j]) == 0
    ensures Occurrences(Collect(PagesOf(o, table, limit), Some(s[at - 1]), n), s[j]) == 0
  {
    SortByFacts(o, table);
    PrecedesIsOrder(o);
    OccursIff(s[..at], s[j]);
    OccursIff(Collect(PagesOf(o, table, limit), Some(s[at - 1]), n), s[j]);
    if s[j] in Collect(PagesOf(o, table, limit), Some(s[at - 1]), n) {
      CollectIsBelow(o, table, Some(s[at - 1]), limit, n, s[j]);
    }
  }

  lemma RepeatedRow(o: Prior, table: set<Row>, s: seq<Row>, limit: nat, at: nat, j: nat, n: nat) returns (r: Row)
    requires limit >= 1 && n >= 1 && s == SortBy(o, table) && j < at <= |s| && Less(s[j], s[at - 1])
    ensures r in table && Occurrences(s[..at], r) >= 1
    ensures Occurrences(Collect(PagesOf(o, table, limit), Some(s[at - 1]), n), r) >= 1
  {
    var cursor := Some(s[at - 1]);
    assert s[j] in Below(table, cursor) by {
      SortByFacts(o, table);
      assert s[j] in s;
    }
    FirstIsCollected(o, table, cursor, limit, n);
    r := SortBy(o, Below(table, cursor))[0];
    FirstComesEarly(o, table, s, Below(table, cursor), j, at);
    OccursIff(s[..at], r);
    OccursIff(Collect(PagesOf(o, table, limit), cursor, n), r);
  }

  /** The first of some rows of the list that include its row j comes at j or before. */
  lemma FirstComesEarly(o: Prior, table: set<Row>, s: seq<Row>, rows: set<Row>, j: nat, at: nat)
    requires s == SortBy(o, table) && rows <= table && j < at <= |s| && s[j] in rows
    ensures var t := SortBy(o, rows); t != [] && t[0] in table && t[0] in s[..at]
  {
    var t := SortBy(o, rows);
    SortByFacts(o, table);
    SortByFacts(o, rows);
    PrecedesIsOrder(o);
    assert t[0] in t && s[j] in t;
    var b :| 0 <= b < |t| && t[b] == s[j];
    var i :| 0 <= i < |s| && s[i] == t[0];
    assert i <= j by { assert t[0] == s[j] || Precedes(o, t[0], s[j]); }
    assert s[..at][i] == t[0];
  }

  lemma {:induction false} FirstBadSplit(s: seq<Row>, limit: nat, n: nat) returns (first: nat)
    requires limit >= 1 && PageEnd(n, limit) && !SplitsAt(s, n)
    ensures PageEnd(first, limit) && !SplitsAt(s, first)
    ensures forall m | 0 < m < first && PageEnd(m, limit) :: SplitsAt(s, m)
  {
    if m :| 0 < m < n && PageEnd(m, limit) && !SplitsAt(s, m) {
      first := FirstBadSplit(s, limit, m);
    } else {
      first := n;
    }
  }

  /**
   Whatever the caller ordered by: a client that follows the cursors of a fixed
   table, for as many pages as it has rows, gets each row exactly once if and
   only if every page that has a successor ends where the cursor filter splits
   the caller's order. It then gets the rows in that order.
   */
  lemma PreorderedPagingIff(o: Prior, table: set<Row>, limit: nat, n: nat)
    requires limit >= 1 && n >= 1 && n >= |table|
    ensures EachOnce(Collect(PagesOf(o, table, limit), None, n), table) <==> AllSplit(SortBy(o, table), limit)
    ensures AllSplit(SortBy(o, table), limit) ==> Collect(PagesOf(o, table, limit), None, n) == SortBy(o, table)
  {
    var s := SortBy(o, table);
    SortByFacts(o, table);
    if AllSplit(s, limit) {
      CleanScan(o, table, s, limit, n);
      forall r | r in table ensures Occurrences(s, r) == 1 { SortedOccursOnce(o, s, r); }
    } else {
      var at :| 0 < at < |s| && PageEnd(at, limit) && !SplitsAt(s, at);
      var first := FirstBadSplit(s, limit, at);
      var r := BadSplitShows(o, table, s, limit, first, n);
    }
  }

  lemma CleanScan(o: Prior, table: set<Row>, s: seq<Row>, limit: nat, n: nat)
    requires limit >= 1 && s == SortBy(o, table) && AllSplit(s, limit) && n >= 1 && n >= |s|
    ensures Collect(PagesOf(o, table, limit), None, n) == s
  {
    var page := PagesOf(o, table, limit);
    forall m: nat | (m == 0 || m < |s|) && PageEnd(m, limit) ensures Serves(page, s, limit, m) {
      SplitServes(o, table, s, limit, m);
    }
    PositionGrows(n, limit);
    CollectsTheRest(page, s, limit, 0, n);
    assert s[0..] == s;
  }

  /** Without a prior order every page ends at such a position. */
  lemma PlainPagingIsClean(table: set<Row>, limit: nat, n: nat)
    requires limit >= 1 && n >= 1 && n >= |table|
    ensures EachOnce(Collect(PagesOf(NoPrior, table, limit), None, n), table)
  {
    var s := SortBy(NoPrior, table);
    SortByFacts(NoPrior, table);
    forall m | 0 < m < |s| ensures SplitsAt(s, m) { CursorOrderSplits(s, m); }
    PreorderedPagingIff(NoPrior, table, limit, n);
  }

  lemma CursorOrderSplits(s: seq<Row>, n: nat)
    requires Sorted(NoPrior, s)
    ensures SplitsAt(s, n)
  {
    if 1 <= n < |s| {
      forall j | 0 <= j < |s| ensures Less(s[j], s[n - 1]) <==> j >= n {
        if j < n - 1 {
          assert Precedes(NoPrior, s[j], s[n - 1]);
        } else if j >= n {
          assert Precedes(NoPrior, s[n - 1], s[j]);
        }
      }
    }
  }

  // ------------------------------------------------------------------
  // list_timetables
  // ------------------------------------------------------------------

  /** No other row of the list has the created_at of the row before position n. */
  ghost predicate NoTieAt(s: seq<Row>, n: nat) {
    1 <= n < |s| ==> forall j | 0 <= j < |s| && s[j].createdAt == s[n - 1].createdAt :: j == n - 1
  }

  /**
   Each timetable comes back exactly once if and only if no page that has a
   successor ends on a row that shares its created_at with another.
   */
  lemma TimetablePagingIff(table: set<Row>, limit: nat, pages: nat)
    requires limit >= 1 && pages >= 1 && pages >= |table|
    ensures var s := SortBy(CreatedThenId, table);
      EachOnce(Collect(PagesOf(CreatedThenId, table, limit), None, pages), table)
      <==> forall n | 0 < n < |s| && PageEnd(n, limit) :: NoTieAt(s, n)
  {
    var s := SortBy(CreatedThenId, table);
    SortByFacts(CreatedThenId, table);
    PreorderedPagingIff(CreatedThenId, table, limit, pages);
    forall n | 0 < n < |s| ensures SplitsAt(s, n) <==> NoTieAt(s, n) { TieSpoilsSplit(s, n); }
  }

  lemma TieSpoilsSplit(s: seq<Row>, n: nat)
    requires Sorted(CreatedThenId, s) && 1 <= n < |s|
    ensures SplitsAt(s, n) <==> NoTieAt(s, n)
  {
    forall j | 0 <= j < |s| && j != n - 1
      ensures (Less(s[j], s[n - 1]) <==> j >= n) <==> s[j].createdAt != s[n - 1].createdAt
    {
      if j < n - 1 {
        assert Precedes(CreatedThenId, s[j], s[n - 1]);
      } else {
        assert Precedes(CreatedThenId, s[n - 1], s[j]);
      }
    }
  }

  /** Two timetables created together, one per page: the second never comes back. */
  lemma TimetablePagingLosesRow(pages: nat)
    requires pages >= 2
    ensures Collect(PagesOf(CreatedThenId, {Row(5, 1), Row(5, 2)}, 1), None, pages) == [Row(5, 1)]
  {
    var table := {Row(5, 1), Row(5, 2)};
    var page := PagesOf(CreatedThenId, table, 1);
    SortIs(CreatedThenId, table, [Row(5, 1), Row(5, 2)]);
    assert Below(table, None) == table;
    assert page(None) == CursorPage([Row(5, 1)], Some(Row(5, 1)), true);
    assert Below(table, Some(Row(5, 1))) == {};
    assert page(Some(Row(5, 1))) == CursorPage([], None, false);
  }

  lemma SortIs(o: Prior, rows: set<Row>, s: seq<Row>)
    requires Sorted(o, s) && SameRows(s, rows)
    ensures SortBy(o, rows) == s
  {
    SortByFacts(o, rows);
    SortIsUnique(o, SortBy(o, rows), s);
  }

  // ------------------------------------------------------------------
  // list_for_year
  // ------------------------------------------------------------------

  /** What is listed before the row at position n - 1 is newer than it, and what is listed after it older. */
  ghost predicate NewerBefore(s: seq<Row>, n: nat) {
    1 <= n < |s| ==>
      (forall j | 0 <= j < n - 1 :: Less(s[n - 1], s[j])) && (forall j | n <= j < |s| :: Less(s[j], s[n - 1]))
  }

  /**
   Each period comes back exactly once if and only if, wherever a page that has
   a successor ends, the periods listed before its last one are newer than that
   one by (created_at, id) and those listed after it older.
   */
  lemma PeriodPagingIff(table: set<Row>, limit: nat, sortOrder: Row -> int, pages: nat)
    requires limit >= 1 && pages >= 1 && pages >= |table|
    ensures var s := SortBy(SortOrderThenId(sortOrder), table);
      EachOnce(Collect(PagesOf(SortOrderThenId(sortOrder), table, limit), None, pages), table)
      <==> forall n | 0 < n < |s| && PageEnd(n, limit) :: NewerBefore(s, n)
  {
    var o := SortOrderThenId(sortOrder);
    var s := SortBy(o, table);
    SortByFacts(o, table);
    PreorderedPagingIff(o, table, limit, pages);
    forall n | 0 < n < |s| ensures SplitsAt(s, n) <==> NewerBefore(s, n) { SplitIsNewerBefore(o, s, n); }
  }

  lemma SplitIsNewerBefore(o: Prior, s: seq<Row>, n: nat)
    requires Sorted(o, s) && 1 <= n < |s|
    ensures SplitsAt(s, n) <==> NewerBefore(s, n)
  {
    forall j | 0 <= j < n - 1 ensures Less(s[j], s[n - 1]) <==> !Less(s[n - 1], s[j]) {
      assert Precedes(o, s[j], s[n - 1]);
      PrecedesIsOrder(o);
    }
  }

  /** Three periods created in the order of the day, two per page: the first comes back twice, the third never. */
  lemma PeriodPagingRepeatsAndLoses(pages: nat)
    requires pages >= 2
    ensures Collect(PagesOf(SortOrderThenId((r: Row) => r.id), {Row(1, 1), Row(2, 2), Row(3, 3)}, 2), None, pages)
         == [Row(1, 1), Row(2, 2), Row(1, 1)]
  {
    var table, o := {Row(1, 1), Row(2, 2), Row(3, 3)}, SortOrderThenId((r: Row) => r.id);
    var page := PagesOf(o, table, 2);
    FirstPeriodPage(o, table);
    SecondPeriodPage(o, table);
    assert page(None) == CursorPage([Row(1, 1), Row(2, 2)], Some(Row(2, 2)), true);
    assert page(Some(Row(2, 2))) == CursorPage([Row(1, 1)], None, false);
  }

  lemma FirstPeriodPage(o: Prior, table: set<Row>)
    requires table == {Row(1, 1), Row(2, 2), Row(3, 3)} && o == SortOrderThenId((r: Row) => r.id)
    ensures Cut(SortBy(o, Below(table, None)), 2) == CursorPage([Row(1, 1), Row(2, 2)], Some(Row(2, 2)), true)
  {
    assert Below(table, None) == table;
    SortIs(o, table, [Row(1, 1), Row(2, 2), Row(3, 3)]);
  }

  lemma SecondPeriodPage(o: Prior, table: set<Row>)
    requires table == {Row(1, 1), Row(2, 2), Row(3, 3)} && o == SortOrderThenId((r: Row) => r.id)
    ensures Cut(SortBy(o, Below(table, Some(Row(2, 2)))), 2) == CursorPage([Row(1, 1)], None, false)
  {
    assert Below(table, Some(Row(2, 2))) == {Row(1, 1)};
    SortIs(o, {Row(1, 1)}, [Row(1, 1)]);
  }
}
