/**
 The orders in which pages of rows are listed: the one that the paging of
 app/db/repository.py adds, and those that two of its callers put before it.
 Each makes sorting a set of rows a function with one result.
 */
module RowOrders {

  // Ids are ULIDs, whose text order is the order of the numbers they encode.
  datatype Row = Row(createdAt: int, id: nat)

  /** The row comparison of the cursor filter: (created_at, id) pairs, left first. */
  predicate Less(a: Row, b: Row) {
    a.createdAt < b.createdAt || (a.createdAt == b.createdAt && a.id < b.id)
  }

  /**
   ORDER BY created_at DESC, id (list_timetables) or sort_order, id
   (list_for_year), followed by the created_at DESC, id DESC that paging adds.
   */
  datatype Prior = NoPrior | CreatedThenId | SortOrderThenId(sortOrder: Row -> int)

  predicate Precedes(o: Prior, a: Row, b: Row) {
    match o
    case NoPrior => Less(b, a)
    case CreatedThenId => a.createdAt > b.createdAt || (a.createdAt == b.createdAt && a.id < b.id)
    case SortOrderThenId(sortOrder) =>
      || sortOrder(a) < sortOrder(b)
      || (sortOrder(a) == sortOrder(b) && (a.id < b.id || (a.id == b.id && a.createdAt > b.createdAt)))
  }

  /** Each of them is a strict total order on rows. */
  lemma PrecedesIsOrder(o: Prior)
    ensures forall a, b :: a == b || Precedes(o, a, b) || Precedes(o, b, a)
    ensures forall a, b | Precedes(o, a, b) :: !Precedes(o, b, a)
    ensures forall a, b, c | Precedes(o, a, b) && Precedes(o, b, c) :: Precedes(o, a, c)
  {
  }

  ghost predicate Sorted(o: Prior, s: seq<Row>) {
    forall i, j | 0 <= i < j < |s| :: Precedes(o, s[i], s[j])
  }

  ghost predicate IsFirst(o: Prior, r: Row, rows: set<Row>) {
    r in rows && forall x | x in rows && x != r :: Precedes(o, r, x)
  }

  lemma {:induction false} FirstExists(o: Prior, rows: set<Row>)
    requires rows != {}
    ensures exists r :: IsFirst(o, r, rows)
    decreases |rows|
  {
    var r :| r in rows;
    PrecedesIsOrder(o);
    if rows - {r} == {} {
      assert IsFirst(o, r, rows) by { assert forall x | x in rows && x != r :: x in rows - {r}; }
    } else {
      FirstExists(o, rows - {r});
      var f :| IsFirst(o, f, rows - {r});
      FirstOf(o, rows, r, f);
    }
  }

  lemma FirstOf(o: Prior, rows: set<Row>, r: Row, f: Row)
    requires r in rows && IsFirst(o, f, rows - {r})
    ensures IsFirst(o, if Precedes(o, r, f) then r else f, rows)
  {
    PrecedesIsOrder(o);
    forall x | x in rows && x != r && x != f ensures Precedes(o, f, x) { assert x in rows - {r}; }
  }

  ghost function SortBy(o: Prior, rows: set<Row>): seq<Row>
    decreases |rows|
  {
    if rows == {} then []
    else
      FirstExists(o, rows);
      var first :| IsFirst(o, first, rows);
      [first] + SortBy(o, rows - {first})
  }

  lemma ConsFirst(o: Prior, first: Row, rest: seq<Row>, rows: set<Row>)
    requires IsFirst(o, first, rows) && Sorted(o, rest) && SameRows(rest, rows - {first})
    ensures Sorted(o, [first] + rest) && SameRows([first] + rest, rows)
  {
    forall i | 0 <= i < |rest| ensures Precedes(o, first, rest[i]) {
      assert rest[i] in rest;
    }
  }

  lemma {:induction false} SortByFacts(o: Prior, rows: set<Row>)
    ensures |SortBy(o, rows)| == |rows| && Sorted(o, SortBy(o, rows)) && SameRows(SortBy(o, rows), rows)
    decreases |rows|
  {
    if rows != {} {
      FirstExists(o, rows);
      var s := SortBy(o, rows);
      assert IsFirst(o, s[0], rows) && s == [s[0]] + SortBy(o, rows - {s[0]});
      SortByFacts(o, rows - {s[0]});
      ConsFirst(o, s[0], SortBy(o, rows - {s[0]}), rows);
    }
  }

  lemma {:induction false} SortIsUnique(o: Prior, s: seq<Row>, t: seq<Row>)
    requires Sorted(o, s) && Sorted(o, t) && forall r :: r in s <==> r in t
    ensures s == t
  {
    PrecedesIsOrder(o);
    assert t != [] ==> t[0] in s;
    if s != [] {
      assert s[0] in t;
      var i :| 0 <= i < |t| && t[i] == s[0];
      var j :| 0 <= j < |s| && s[j] == t[0];
      assert s[0] == t[0];
      forall r ensures r in s[1..] <==> r in t[1..] {
        if r in s[1..] { assert r in t && r != s[0]; }
        if r in t[1..] { assert r in s && r != t[0]; }
      }
      SortIsUnique(o, s[1..], t[1..]);
    }
  }

  ghost predicate SameRows(s: seq<Row>, rows: set<Row>) {
    forall r :: r in s <==> r in rows
  }

  ghost function Occurrences(s: seq<Row>, r: Row): nat {
    if s == [] then 0 else (if s[0] == r then 1 else 0) + Occurrences(s[1..], r)
  }

  lemma {:induction false} SortedOccursOnce(o: Prior, s: seq<Row>, r: Row)
    requires Sorted(o, s)
    ensures Occurrences(s, r) == if r in s then 1 else 0
  {
    if s != [] {
      PrecedesIsOrder(o);
      SortedOccursOnce(o, s[1..], r);
      if r in s[1..] {
        var j :| 0 <= j < |s[1..]| && s[1..][j] == r;
        assert Precedes(o, s[0], s[j + 1]);
      }
    }
  }
}
