/**
 * DataTable search (datatable.js `filterData`): a row stays in the working
 * set when the search term is empty, or when some configured column holds
 * a truthy value whose lower-cased text contains the term.
 */
module TableFilter {
  import opened Text
  import opened Values

  /** A configured column; `caption` is its `label` (a keyword here), empty when not configured. */
  datatype Column = Column(field: string, caption: string)

  /** The per-column test inside `columns.some(...)`. */
  predicate CellMatches(row: Row, col: Column, term: string) {
    var v := Lookup(row, col.field);
    Truthy(v) && Contains(Lower(ToText(v)), term)
  }

  /** `columns.some(col => ...)`, evaluated left to right. */
  predicate SomeColumnMatches(row: Row, columns: seq<Column>, term: string) {
    |columns| > 0 && (CellMatches(row, columns[0], term) || SomeColumnMatches(row, columns[1..], term))
  }

  /** The filter callback: an empty term keeps everything. */
  predicate KeepRow(row: Row, columns: seq<Column>, term: string) {
    term == "" || SomeColumnMatches(row, columns, term)
  }

  /** Reference reading of the search rule, stated with a quantifier over the columns. */
  ghost predicate RowMatches(row: Row, columns: seq<Column>, term: string) {
    term == "" || exists i :: 0 <= i < |columns| && CellMatches(row, columns[i], term)
  }

  lemma {:induction false} SomeColumnMatchesIff(row: Row, columns: seq<Column>, term: string)
    ensures SomeColumnMatches(row, columns, term) <==>
            exists i :: 0 <= i < |columns| && CellMatches(row, columns[i], term)
  {
    if |columns| > 0 {
      SomeColumnMatchesIff(row, columns[1..], term);
      if SomeColumnMatches(row, columns[1..], term) {
        var j :| 0 <= j < |columns[1..]| && CellMatches(row, columns[1..][j], term);
        assert CellMatches(row, columns[j + 1], term);
      }
      if exists i :: 0 <= i < |columns| && CellMatches(row, columns[i], term) {
        var i :| 0 <= i < |columns| && CellMatches(row, columns[i], term);
        if i > 0 { assert CellMatches(row, columns[1..][i - 1], term); }
      }
    }
  }

  lemma KeepRowIff(row: Row, columns: seq<Column>, term: string)
    ensures KeepRow(row, columns, term) <==> RowMatches(row, columns, term)
  {
    SomeColumnMatchesIff(row, columns, term);
  }

  /**
   * `options.data.filter(...)`: the kept rows in their original order.
   * A row is in the result exactly when it is in the data and matches.
   */
  function FilterRows(data: seq<Row>, columns: seq<Column>, term: string): (r: seq<Row>)
    ensures |r| <= |data|
    ensures multiset(r) <= multiset(data)
    ensures forall x :: x in r <==> x in data && RowMatches(x, columns, term)
    ensures term == "" ==> r == data
  {
    if |data| == 0 then []
    else
      var rest := FilterRows(data[1..], columns, term);
      KeepRowIff(data[0], columns, term);
      assert data == [data[0]] + data[1..];
      if KeepRow(data[0], columns, term) then [data[0]] + rest else rest
  }

  /** Filtering distributes over concatenation, so relative order is preserved. */
  lemma {:induction false} FilterConcat(a: seq<Row>, b: seq<Row>, columns: seq<Column>, term: string)
    ensures FilterRows(a + b, columns, term) == FilterRows(a, columns, term) + FilterRows(b, columns, term)
  {
    if |a| > 0 {
      assert (a + b)[1..] == a[1..] + b;
      FilterConcat(a[1..], b, columns, term);
    } else {
      assert a + b == b;
    }
  }

  /** Searching the working set again with the same term changes nothing. */
  lemma {:induction false} FilterIdempotent(data: seq<Row>, columns: seq<Column>, term: string)
    ensures FilterRows(FilterRows(data, columns, term), columns, term) == FilterRows(data, columns, term)
  {
    if |data| > 0 {
      FilterIdempotent(data[1..], columns, term);
      var rest := FilterRows(data[1..], columns, term);
      if KeepRow(data[0], columns, term) {
        assert ([data[0]] + rest)[1..] == rest;
      }
    }
  }
}
