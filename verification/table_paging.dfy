/**
 * DataTable pagination arithmetic (datatable.js `createFooter`,
 * `createPageButtons`, `handlePageChange`, `getPaginatedData`).
 */
module TablePaging {
  import opened Values

  function Min(a: int, b: int): int { if a <= b then a else b }
  function Max(a: int, b: int): int { if a >= b then a else b }

  /** `Math.ceil(count / size)`: the least page count whose pages hold every row. */
  function TotalPages(count: nat, size: int): (r: nat)
    requires size >= 1
    ensures r * size >= count
    ensures r == 0 || (r - 1) * size < count
    ensures r == 0 <==> count == 0
  {
    (count + size - 1) / size
  }

  /** The page numbers the view state may hold: 0 only after "last" on an empty working set. */
  predicate PageInRange(current: int, total: nat) {
    if total == 0 then current == 0 || current == 1 else 1 <= current <= total
  }

  // ------------------------------------------------------------ slicing

  /** How `Array.prototype.slice` resolves one index: negative counts from the end, then clipped. */
  function SliceIndex(i: int, len: nat): (r: nat)
    ensures r <= len
  {
    if i < 0 then Max(len + i, 0) else Min(i, len)
  }

  /** `s.slice(start, end)`. */
  function JsSlice(s: seq<Row>, start: int, end: int): seq<Row> {
    var lo := SliceIndex(start, |s|);
    var hi := SliceIndex(end, |s|);
    if hi <= lo then [] else s[lo..hi]
  }

  /** `r` is a run of consecutive rows of `rows`, starting at the first index of page `page`. */
  predicate RunFromPageStart(r: seq<Row>, rows: seq<Row>, page: int, size: int) {
    forall k :: 0 <= k < |r| ==> 0 <= (page - 1) * size + k < |rows| && r[k] == rows[(page - 1) * size + k]
  }

  /**
   * `getPaginatedData` with pagination on: rows `[(page-1)*size, page*size)`,
   * clipped to the working set.
   */
  function PageRows(rows: seq<Row>, page: int, size: int): (r: seq<Row>)
    ensures size >= 0 ==> |r| <= size
    ensures page >= 1 && size >= 0 ==> RunFromPageStart(r, rows, page, size)
  {
    var startIndex := (page - 1) * size;
    var endIndex := startIndex + size;
    if size < 0 then JsSlice(rows, startIndex, endIndex)
    else
      SliceLength(rows, startIndex, endIndex);
      if page >= 1 then
        PageStartBounds(page, size);
        SliceContents(rows, startIndex, endIndex);
        JsSlice(rows, startIndex, endIndex)
      else JsSlice(rows, startIndex, endIndex)
  }

  /** The number of rows of `count` that fall in `[(page-1)*size, page*size)`. */
  function PageLength(count: nat, page: int, size: int): int {
    Max(0, Min(count, page * size) - (page - 1) * size)
  }

  /** Page `page` is cut off only by the end of the working set: it holds every row of its index range. */
  lemma PageRowsLength(rows: seq<Row>, page: int, size: int)
    requires page >= 1 && size >= 0
    ensures |PageRows(rows, page, size)| == PageLength(|rows|, page, size)
  {
    PageStartBounds(page, size);
    SliceContents(rows, (page - 1) * size, (page - 1) * size + size);
  }

  /** The first index of page `page` is not negative, and the page ends `size` rows later. */
  lemma PageStartBounds(page: int, size: int)
    requires page >= 1 && size >= 0
    ensures (page - 1) * size >= 0
    ensures page * size == (page - 1) * size + size
  {
  }

  /** A slice is never longer than the distance between its bounds. */
  lemma SliceLength(s: seq<Row>, lo: int, hi: int)
    requires hi - lo >= 0
    ensures |JsSlice(s, lo, hi)| <= hi - lo
  {
  }

  /** A slice between two non-negative bounds copies the rows between them, clipped to the end. */
  lemma SliceContents(s: seq<Row>, lo: int, hi: int)
    requires 0 <= lo <= hi
    ensures |JsSlice(s, lo, hi)| == Max(0, Min(|s|, hi) - lo)
    ensures forall k :: 0 <= k < |JsSlice(s, lo, hi)| ==> lo + k < |s| && JsSlice(s, lo, hi)[k] == s[lo + k]
  {
  }

  lemma MulCancel(x: int, y: int, c: int)
    requires c >= 1 && x * c < y * c
    ensures x < y
  {
    assert (y - x) * c == y * c - x * c;
  }

  lemma DivMonotone(a: int, b: int, size: int)
    requires 0 <= a <= b && size >= 1
    ensures a / size <= b / size
  {
    var qa := a / size;
    var qb := b / size;
    assert qa * size <= a;
    assert b < (qb + 1) * size by {
      assert (qb + 1) * size == qb * size + size;
    }
    MulCancel(qa, qb + 1, size);
  }

  lemma DivUnique(n: int, size: int, q: int, r: int)
    requires size >= 1 && 0 <= r < size && n == q * size + r
    ensures n / size == q
  {
    var q' := n / size;
    assert q' * size + n % size == q * size + r;
    assert q' * size < (q + 1) * size by {
      assert (q + 1) * size == q * size + size;
    }
    MulCancel(q', q + 1, size);
    assert q * size < (q' + 1) * size by {
      assert (q' + 1) * size == q' * size + size;
    }
    MulCancel(q, q' + 1, size);
  }

  lemma DivShift(x: int, size: int)
    requires x >= 0 && size >= 1
    ensures (x + size) / size == x / size + 1
  {
    var q := x / size;
    var r := x % size;
    assert x + size == (q + 1) * size + r by {
      assert (q + 1) * size == q * size + size;
    }
    DivUnique(x + size, size, q + 1, r);
  }

  lemma PageHoldsOffset(rows: seq<Row>, size: int, q: nat, m: nat)
    requires size >= 1 && m < size && q * size + m < |rows|
    ensures m < |PageRows(rows, q + 1, size)|
    ensures PageRows(rows, q + 1, size)[m] == rows[q * size + m]
  {
    var page := PageRows(rows, q + 1, size);
    PageRowsLength(rows, q + 1, size);
    assert (q + 1 - 1) * size == q * size;
    assert (q + 1) * size == q * size + size;
  }

  lemma DivMod(i: int, size: int)
    requires i >= 0 && size >= 1
    ensures i / size >= 0 && 0 <= i % size < size
    ensures (i / size) * size + i % size == i
  {
  }

  lemma IndexPageExists(n: nat, size: int, i: int)
    requires size >= 1 && 0 <= i < n
    ensures 1 <= i / size + 1 <= TotalPages(n, size)
  {
    DivMonotone(i, n - 1, size);
    DivShift(n - 1, size);
    assert n + size - 1 == (n - 1) + size;
  }

  /** Every row is shown on page `i / size + 1`, at position `i % size`, and that page exists. */
  lemma EveryRowOnItsPage(rows: seq<Row>, size: int, i: int)
    requires size >= 1 && 0 <= i < |rows|
    ensures 1 <= i / size + 1 <= TotalPages(|rows|, size)
    ensures i % size < |PageRows(rows, i / size + 1, size)|
    ensures PageRows(rows, i / size + 1, size)[i % size] == rows[i]
  {
    IndexPageExists(|rows|, size, i);
    DivMod(i, size);
    PageHoldsOffset(rows, size, i / size, i % size);
  }

  /** Pages 1 to `n`, shown one after the other. */
  function PagesUpTo(rows: seq<Row>, size: int, n: nat): seq<Row> {
    if n == 0 then [] else PagesUpTo(rows, size, n - 1) + PageRows(rows, n, size)
  }

  /** Pages 1 to `n`, read in order, are the first `n * size` rows, or all of them once that passes the end. */
  lemma {:induction false} PagesUpToPrefix(rows: seq<Row>, size: int, n: nat)
    requires size >= 1
    ensures 0 <= Min(n * size, |rows|) <= |rows|
    ensures PagesUpTo(rows, size, n) == rows[..Min(n * size, |rows|)]
  {
    PageStartBounds(n + 1, size);
    if n > 0 {
      PagesUpToPrefix(rows, size, n - 1);
      PageStartBounds(n, size);
      PageRowsLength(rows, n, size);
      var start := (n - 1) * size;
      var end := Min(n * size, |rows|);
      var page := PageRows(rows, n, size);
      if start < |rows| {
        assert page == rows[start..end];
        assert rows[..start] + rows[start..end] == rows[..end];
      } else {
        assert |page| == 0;
      }
    }
  }

  /** All the pages, read in order, give back the working set: no row is lost, repeated or moved. */
  lemma PagesCoverRows(rows: seq<Row>, size: int)
    requires size >= 1
    ensures PagesUpTo(rows, size, TotalPages(|rows|, size)) == rows
  {
    PagesUpToPrefix(rows, size, TotalPages(|rows|, size));
    assert rows[..|rows|] == rows;
  }

  // ------------------------------------------------------------- footer

  /**
   * The "start - end / count" summary of `createFooter`: a 1-based inclusive
   * range of at most `size` rows inside the working set.
   */
  function FooterRange(current: int, size: int, count: nat): (r: (int, int))
    requires size >= 1
    ensures 1 <= current <= TotalPages(count, size) ==>
              1 <= r.0 <= r.1 <= count && r.1 - r.0 < size
    ensures count == 0 && current == 1 ==> r == (1, 0)
  {
    var startIndex := (current - 1) * size + 1;
    var endIndex := Min(current * size, count);
    PageStartBelowCount(current, size, count);
    (startIndex, endIndex)
  }

  /** A page within the page count starts before the end of the working set. */
  lemma PageStartBelowCount(current: int, size: int, count: nat)
    requires size >= 1
    ensures 1 <= current <= TotalPages(count, size) ==>
              0 <= (current - 1) * size < count && current * size == (current - 1) * size + size
  {
    var t := TotalPages(count, size);
    if 1 <= current <= t {
      assert (t - 1) * size < count;
      assert (t - 1) * size - (current - 1) * size == (t - current) * size;
      assert (t - current) * size >= 0;
      PageStartBounds(current, size);
    }
  }

  /** The footer summary names exactly the rows `getPaginatedData` returns. */
  lemma FooterMatchesPage(rows: seq<Row>, current: int, size: int)
    requires size >= 1
    requires 1 <= current <= TotalPages(|rows|, size)
    ensures var (first, last) := FooterRange(current, size, |rows|);
            var page := PageRows(rows, current, size);
            |page| == last - first + 1
            && forall k :: 0 <= k < |page| ==> page[k] == rows[first - 1 + k]
  {
    PageRowsLength(rows, current, size);
  }

  // ------------------------------------------------------- page buttons

  /**
   * `createPageButtons`: a window of at most five consecutive page numbers,
   * starting two before the current page and shifted back when it would run
   * past the last page.
   */
  method PageButtons(current: int, total: nat) returns (pages: seq<int>)
    ensures |pages| <= 5
    ensures forall k :: 0 <= k < |pages| ==> 1 <= pages[k] <= total
    ensures forall k :: 0 <= k < |pages| ==> pages[k] == pages[0] + k
    ensures total == 0 ==> pages == []
    ensures 1 <= current <= total ==> current in pages && |pages| == Min(5, total)
  {
    var maxButtons := 5;
    var startPage := Max(1, current - maxButtons / 2);
    var endPage := Min(total, startPage + maxButtons - 1);
    if endPage - startPage < maxButtons - 1 {
      startPage := Max(1, endPage - maxButtons + 1);
    }
    pages := [];
    var i := startPage;
    while i <= endPage
      invariant startPage <= i <= endPage + 1
      invariant |pages| == i - startPage
      invariant forall k :: 0 <= k < |pages| ==> pages[k] == startPage + k
    {
      pages := pages + [i];
      i := i + 1;
    }
    if 1 <= current <= total {
      assert pages[current - startPage] == current;
    }
  }

  // -------------------------------------------------------- page moves

  /** The buttons of the footer: first, prev, a page number, next, last. */
  datatype PageRequest = First | Prev | Number(n: int) | Next | Last

  /**
   * `handlePageChange`: "prev" only moves down from a page above 1, "next"
   * only moves up to a page not past the last, "first"/"last" jump to 1 and
   * to the page count (0 for an empty working set, which is not clamped).
   */
  function ChangePage(current: int, total: nat, req: PageRequest): (r: int)
    ensures req == First ==> r == 1
    ensures req == Last ==> r == total
    ensures req == Prev ==> r == (if current > 1 then current - 1 else current)
    ensures req == Prev && current >= 1 ==> r >= 1
    ensures req == Next ==> r == (if current < total then current + 1 else current)
    ensures req == Next && current <= total ==> r <= total
    ensures req.Number? ==> r == req.n
  {
    match req
    case First => 1
    case Last => total
    case Prev => if current > 1 then current - 1 else current
    case Next => if current < total then current + 1 else current
    case Number(n) => n
  }

  /** A page move keeps the page in range, given page-number buttons from the window. */
  lemma ChangePageKeepsRange(current: int, total: nat, req: PageRequest)
    requires PageInRange(current, total)
    requires req.Number? ==> 1 <= req.n <= total
    ensures PageInRange(ChangePage(current, total, req), total)
  {
  }
}
