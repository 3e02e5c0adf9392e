/**
 * DataTable sorting (datatable.js `handleSort`/`sortData`). The comparator
 * returns 0 for equal cells, otherwise 1 or -1 by `>`, negated for a
 * descending sort; `Array.prototype.sort` is stable, and with a total
 * comparator its result is the stable sort, computed here by insertion.
 */
module TableSort {
  import opened Values

  datatype Direction = Asc | Desc

  function Flip(d: Direction): Direction {
    if d == Asc then Desc else Asc
  }

  /** The comparator passed to `filteredData.sort`. */
  function Compare(a: Value, b: Value, dir: Direction): int {
    if a == b then 0
    else
      var comparison := if Less(b, a) then 1 else -1;
      if dir == Asc then comparison else -comparison
  }

  /** The comparator is a total preorder whose only ties are equal cells. */
  lemma CompareIsTotalOrder(a: Value, b: Value, c: Value, dir: Direction)
    ensures Compare(a, a, dir) == 0
    ensures Compare(a, b, dir) > 0 ==> Compare(b, a, dir) < 0
    ensures Compare(a, b, dir) <= 0 && Compare(b, a, dir) <= 0 ==> a == b
    ensures Compare(a, b, dir) <= 0 && Compare(b, c, dir) <= 0 ==> Compare(a, c, dir) <= 0
  {
    LessIrreflexive(a);
    LessTrichotomy(a, b);
    LessTrichotomy(b, c);
    LessTrichotomy(a, c);
    if Less(a, b) && Less(b, c) { LessTransitive(a, b, c); }
    if Less(c, b) && Less(b, a) { LessTransitive(c, b, a); }
  }

  /** Flipping the direction is the same as swapping the operands. */
  lemma CompareFlip(a: Value, b: Value, dir: Direction)
    ensures Compare(a, b, Flip(dir)) == Compare(b, a, dir)
  {
    LessTrichotomy(a, b);
  }

  /** The sort key of a row: the cell in the sort field. */
  function Key(row: Row, field: string): Value {
    Lookup(row, field)
  }

  /** Every earlier row compares at most 0 with every later row. */
  ghost predicate SortedBy(rows: seq<Row>, field: string, dir: Direction) {
    forall i, j :: 0 <= i < j < |rows| ==> Compare(Key(rows[i], field), Key(rows[j], field), dir) <= 0
  }

  /** A row that compares at most 0 with every row of an ordered sequence can go in front of it. */
  lemma SortedCons(h: Row, tail: seq<Row>, field: string, dir: Direction)
    requires SortedBy(tail, field, dir)
    requires forall j :: 0 <= j < |tail| ==> Compare(Key(h, field), Key(tail[j], field), dir) <= 0
    ensures SortedBy([h] + tail, field, dir)
  {
    var r := [h] + tail;
    forall i, j | 0 <= i < j < |r|
      ensures Compare(Key(r[i], field), Key(r[j], field), dir) <= 0
    {
      assert r[j] == tail[j - 1];
      if i > 0 {
        assert r[i] == tail[i - 1];
      }
    }
  }

  /** A row that compares at most 0 with the head of an ordered sequence can go in front of it. */
  lemma InsertFront(x: Row, sorted: seq<Row>, field: string, dir: Direction)
    requires SortedBy(sorted, field, dir)
    requires |sorted| > 0 && Compare(Key(x, field), Key(sorted[0], field), dir) <= 0
    ensures SortedBy([x] + sorted, field, dir)
  {
    forall j | 0 <= j < |sorted|
      ensures Compare(Key(x, field), Key(sorted[j], field), dir) <= 0
    {
      CompareIsTotalOrder(Key(x, field), Key(sorted[0], field), Key(sorted[j], field), dir);
    }
    SortedCons(x, sorted, field, dir);
  }

  /**
   * A row that compares above the head of an ordered sequence goes somewhere
   * in its tail: the head stays in front of the tail with the row inserted.
   */
  lemma InsertBehind(x: Row, sorted: seq<Row>, tail: seq<Row>, field: string, dir: Direction)
    requires SortedBy(sorted, field, dir) && SortedBy(tail, field, dir)
    requires |sorted| > 0 && Compare(Key(x, field), Key(sorted[0], field), dir) > 0
    requires multiset(tail) == multiset(sorted[1..]) + multiset{x}
    ensures SortedBy([sorted[0]] + tail, field, dir)
    ensures multiset([sorted[0]] + tail) == multiset(sorted) + multiset{x}
  {
    assert sorted == [sorted[0]] + sorted[1..];
    CompareIsTotalOrder(Key(x, field), Key(sorted[0], field), Key(x, field), dir);
    forall j | 0 <= j < |tail|
      ensures Compare(Key(sorted[0], field), Key(tail[j], field), dir) <= 0
    {
      assert tail[j] in multiset(tail);
      if tail[j] != x {
        assert tail[j] in sorted[1..];
        var i :| 0 <= i < |sorted[1..]| && sorted[1..][i] == tail[j];
        assert sorted[i + 1] == tail[j];
      }
    }
    SortedCons(sorted[0], tail, field, dir);
  }

  /** Places `x` before the first row it does not compare above. */
  function Insert(x: Row, sorted: seq<Row>, field: string, dir: Direction): (r: seq<Row>)
    requires SortedBy(sorted, field, dir)
    ensures multiset(r) == multiset(sorted) + multiset{x}
    ensures SortedBy(r, field, dir)
  {
    if |sorted| == 0 then [x]
    else if Compare(Key(x, field), Key(sorted[0], field), dir) <= 0 then
      InsertFront(x, sorted, field, dir);
      assert sorted == [sorted[0]] + sorted[1..];
      [x] + sorted
    else
      var tail := Insert(x, sorted[1..], field, dir);
      InsertBehind(x, sorted, tail, field, dir);
      [sorted[0]] + tail
  }

  /** `filteredData.sort(comparator)`: a permutation of the rows, ordered by the comparator. */
  function SortRows(rows: seq<Row>, field: string, dir: Direction): (r: seq<Row>)
    ensures multiset(r) == multiset(rows)
    ensures SortedBy(r, field, dir)
  {
    if |rows| == 0 then []
    else
      assert rows == [rows[0]] + rows[1..];
      Insert(rows[0], SortRows(rows[1..], field, dir), field, dir)
  }

  /** Dropping the first row keeps a sequence ordered, and the first row comes before the second. */
  lemma SortedTail(rows: seq<Row>, field: string, dir: Direction)
    requires SortedBy(rows, field, dir) && |rows| > 0
    ensures SortedBy(rows[1..], field, dir)
    ensures |rows| > 1 ==> Compare(Key(rows[0], field), Key(rows[1], field), dir) <= 0
  {
    forall i, j | 0 <= i < j < |rows[1..]|
      ensures Compare(Key(rows[1..][i], field), Key(rows[1..][j], field), dir) <= 0
    {
      assert rows[1..][i] == rows[i + 1] && rows[1..][j] == rows[j + 1];
    }
  }

  /** The sort inserts the first row into the sorted rest. */
  lemma SortRowsCons(rows: seq<Row>, field: string, dir: Direction)
    requires |rows| > 0
    ensures SortRows(rows, field, dir) == Insert(rows[0], SortRows(rows[1..], field, dir), field, dir)
  {
  }

  /** A row that compares at most 0 with the head is inserted in front of it. */
  lemma InsertAtFront(x: Row, sorted: seq<Row>, field: string, dir: Direction)
    requires SortedBy(sorted, field, dir)
    requires |sorted| > 0 ==> Compare(Key(x, field), Key(sorted[0], field), dir) <= 0
    ensures Insert(x, sorted, field, dir) == [x] + sorted
  {
  }

  /** Sorting an already ordered working set leaves it as it is (the sort is stable). */
  lemma {:induction false} SortSortedIsIdentity(rows: seq<Row>, field: string, dir: Direction)
    requires SortedBy(rows, field, dir)
    ensures SortRows(rows, field, dir) == rows
  {
    if |rows| > 0 {
      var tail := rows[1..];
      SortedTail(rows, field, dir);
      SortSortedIsIdentity(tail, field, dir);
      SortRowsCons(rows, field, dir);
      InsertAtFront(rows[0], tail, field, dir);
      assert rows == [rows[0]] + tail;
    }
  }

  /** No two different rows share a sort key. */
  ghost predicate DistinctKeys(rows: seq<Row>, field: string) {
    forall x, y :: x in rows && y in rows && Key(x, field) == Key(y, field) ==> x == y
  }

  lemma DistinctKeysSubset(a: seq<Row>, b: seq<Row>, field: string)
    requires DistinctKeys(a, field)
    requires forall x :: x in b ==> x in a
    ensures DistinctKeys(b, field)
  {
  }

  /** The first row of an ordered sequence compares at most 0 with every row in it. */
  lemma HeadComesFirst(a: seq<Row>, x: Row, field: string, dir: Direction)
    requires SortedBy(a, field, dir)
    requires x in a
    ensures Compare(Key(a[0], field), Key(x, field), dir) <= 0
  {
    var i :| 0 <= i < |a| && a[i] == x;
    if i == 0 {
      CompareIsTotalOrder(Key(x, field), Key(x, field), Key(x, field), dir);
    }
  }

  lemma MultisetTail(a: seq<Row>, b: seq<Row>)
    requires |a| > 0 && |b| > 0 && a[0] == b[0]
    requires multiset(a) == multiset(b)
    ensures multiset(a[1..]) == multiset(b[1..])
  {
    assert a == [a[0]] + a[1..] && b == [b[0]] + b[1..];
    assert multiset(a) == multiset{a[0]} + multiset(a[1..]);
    assert multiset(b) == multiset{a[0]} + multiset(b[1..]);
    assert multiset(a[1..]) == multiset(a) - multiset{a[0]};
    assert multiset(b[1..]) == multiset(b) - multiset{a[0]};
  }

  /** With distinct keys there is only one ordered arrangement of a multiset of rows. */
  lemma {:induction false} SortedPermutationUnique(a: seq<Row>, b: seq<Row>, field: string, dir: Direction)
    requires multiset(a) == multiset(b)
    requires SortedBy(a, field, dir) && SortedBy(b, field, dir)
    requires DistinctKeys(a, field)
    ensures a == b
    decreases |a|
  {
    assert |a| == |multiset(a)| == |b|;
    if |a| > 0 {
      assert b[0] in multiset(a) && a[0] in multiset(b);
      HeadComesFirst(a, b[0], field, dir);
      HeadComesFirst(b, a[0], field, dir);
      CompareIsTotalOrder(Key(a[0], field), Key(b[0], field), Key(a[0], field), dir);
      assert a[0] == b[0];
      MultisetTail(a, b);
      SortedTail(a, field, dir);
      SortedTail(b, field, dir);
      DistinctKeysSubset(a, a[1..], field);
      SortedPermutationUnique(a[1..], b[1..], field, dir);
      assert a == [a[0]] + a[1..] && b == [b[0]] + b[1..];
    }
  }

  function Reverse(rows: seq<Row>): (r: seq<Row>)
    ensures |r| == |rows|
    ensures forall i :: 0 <= i < |rows| ==> r[i] == rows[|rows| - 1 - i]
  {
    seq(|rows|, i requires 0 <= i < |rows| => rows[|rows| - 1 - i])
  }

  lemma {:induction false} ReverseMultiset(rows: seq<Row>)
    ensures multiset(Reverse(rows)) == multiset(rows)
  {
    if |rows| > 0 {
      ReverseMultiset(rows[1..]);
      assert Reverse(rows) == Reverse(rows[1..]) + [rows[0]];
      assert rows == [rows[0]] + rows[1..];
    }
  }

  lemma ReverseSorted(rows: seq<Row>, field: string, dir: Direction)
    requires SortedBy(rows, field, dir)
    ensures SortedBy(Reverse(rows), field, Flip(dir))
  {
    var r := Reverse(rows);
    forall i, j | 0 <= i < j < |r|
      ensures Compare(Key(r[i], field), Key(r[j], field), Flip(dir)) <= 0
    {
      CompareFlip(Key(r[i], field), Key(r[j], field), dir);
    }
  }

  /**
   * Clicking the sorted column again: re-sorting in the other direction
   * yields exactly the reverse order when no two rows share a key.
   */
  lemma ToggleReverses(rows: seq<Row>, field: string, dir: Direction)
    requires DistinctKeys(rows, field)
    ensures SortRows(SortRows(rows, field, dir), field, Flip(dir)) == Reverse(SortRows(rows, field, dir))
  {
    var once := SortRows(rows, field, dir);
    var twice := SortRows(once, field, Flip(dir));
    ReverseSorted(once, field, dir);
    ReverseMultiset(once);
    assert forall x :: x in twice ==> x in multiset(twice);
    DistinctKeysSubset(rows, twice, field);
    SortedPermutationUnique(twice, Reverse(once), field, Flip(dir));
  }
}
