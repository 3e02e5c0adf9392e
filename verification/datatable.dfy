/**
 * The DataTable view state (datatable.js): the caller's rows and columns,
 * the working set `filteredData`, the page, the page size, the sort column
 * and direction and the search term, with every public operation written
 * as a transition on that record. Rendering is left out; the state it
 * reads (the page rows, the page buttons, the footer range) is modelled.
 */
module DataTable {
  import opened Wrappers
  import opened Text
  import opened Values
  import opened TableFilter
  import opened TableSort
  import opened TablePaging
  import opened TableCsv

  datatype Options = Options(data: seq<Row>, columns: seq<Column>, pagination: bool)

  datatype Table = Table(
    options: Options,
    filtered: seq<Row>,
    currentPage: int,
    pageSize: int,
    sortField: Option<string>,
    sortDirection: Direction,
    searchTerm: string)

  /** The page count of the working set. */
  function Pages(t: Table): nat
    requires t.pageSize >= 1
  {
    TotalPages(|t.filtered|, t.pageSize)
  }

  /**
   * The state invariant: the working set holds exactly the matching rows,
   * each as often as it occurs in the data; it is ordered by the active
   * sort, and in data order while no sort column was ever chosen; the page
   * is in range. (A sort by the empty field name reorders the rows although
   * `filterData` then treats the sort as off, so that state promises no order.)
   */
  ghost predicate Valid(t: Table) {
    && t.pageSize >= 1
    && multiset(t.filtered) == multiset(FilterRows(t.options.data, t.options.columns, t.searchTerm))
    && (SortActive(t) ==> SortedBy(t.filtered, t.sortField.value, t.sortDirection))
    && (t.sortField.None? ==> t.filtered == FilterRows(t.options.data, t.options.columns, t.searchTerm))
    && PageInRange(t.currentPage, Pages(t))
  }

  /** `if (this.state.sortField)`: a sort column is set and is not the empty string. */
  predicate SortActive(t: Table) {
    t.sortField.Some? && t.sortField.value != ""
  }

  /**
   * The constructor: no table when the mount container is missing; otherwise
   * the whole data set unfiltered on page 1, no sort, an empty search term.
   */
  function Create(containerFound: bool, data: seq<Row>, columns: seq<Column>, pagination: bool,
                  pageSize: Option<int>): (r: Option<Table>)
    ensures r.Some? <==> containerFound
    ensures r.Some? ==> r.value.filtered == data && r.value.currentPage == 1
    ensures r.Some? && pageSize.GetOr(10) >= 1 ==> Valid(r.value)
  {
    if !containerFound then None
    else Some(Table(Options(data, columns, pagination), data, 1, pageSize.GetOr(10), None, Asc, ""))
  }

  /** `filterData`: recompute the working set from the data, re-applying an active sort. */
  function FilterData(t: Table): (r: Table)
    ensures r == t.(filtered := r.filtered)
    ensures multiset(r.filtered) == multiset(FilterRows(t.options.data, t.options.columns, t.searchTerm))
    ensures forall x :: x in r.filtered <==> x in t.options.data && RowMatches(x, t.options.columns, t.searchTerm)
    ensures SortActive(t) ==> SortedBy(r.filtered, t.sortField.value, t.sortDirection)
    ensures !SortActive(t) ==> r.filtered == FilterRows(t.options.data, t.options.columns, t.searchTerm)
  {
    var kept := FilterRows(t.options.data, t.options.columns, t.searchTerm);
    if SortActive(t) then
      var sorted := SortRows(kept, t.sortField.value, t.sortDirection);
      assert forall x :: x in sorted <==> x in multiset(kept);
      t.(filtered := sorted)
    else t.(filtered := kept)
  }

  /** `handleSearch(term)`: store the lower-cased term, filter, go to page 1. */
  function HandleSearch(t: Table, term: string): (r: Table)
    ensures r.searchTerm == Lower(term) && r.currentPage == 1
    ensures r.options == t.options && r.pageSize == t.pageSize
    ensures r.sortField == t.sortField && r.sortDirection == t.sortDirection
    ensures forall x :: x in r.filtered <==> x in t.options.data && RowMatches(x, t.options.columns, Lower(term))
    ensures multiset(r.filtered) == multiset(FilterRows(t.options.data, t.options.columns, Lower(term)))
    ensures SortActive(t) ==> SortedBy(r.filtered, t.sortField.value, t.sortDirection)
    ensures !SortActive(t) ==> r.filtered == FilterRows(t.options.data, t.options.columns, Lower(term))
  {
    FilterData(t.(searchTerm := Lower(term))).(currentPage := 1)
  }

  /**
   * `handleSort(field)`: the same column flips the direction, a new column
   * sorts ascending; the working set is re-ordered, nothing is added or lost.
   */
  function HandleSort(t: Table, field: string): (r: Table)
    ensures t.sortField == Some(field) ==> r.sortDirection == Flip(t.sortDirection)
    ensures t.sortField != Some(field) ==> r.sortDirection == Asc
    ensures r.sortField == Some(field)
    ensures multiset(r.filtered) == multiset(t.filtered)
    ensures SortedBy(r.filtered, field, r.sortDirection)
    ensures r == t.(filtered := r.filtered, sortField := r.sortField, sortDirection := r.sortDirection)
  {
    var dir := if t.sortField == Some(field) then Flip(t.sortDirection) else Asc;
    t.(sortField := Some(field), sortDirection := dir, filtered := SortRows(t.filtered, field, dir))
  }

  /**
   * `handlePageChange(page)`: only the page moves; "prev" steps down from a
   * page above 1, "next" steps up from a page below the page count, "last"
   * lands on the page count and a page number is taken as given.
   */
  function HandlePageChange(t: Table, req: PageRequest): (r: Table)
    requires t.pageSize >= 1
    ensures r == t.(currentPage := r.currentPage)
    ensures req == First ==> r.currentPage == 1
    ensures req == Last ==> r.currentPage == Pages(t)
    ensures req == Prev ==> r.currentPage == (if t.currentPage > 1 then t.currentPage - 1 else t.currentPage)
    ensures req == Next ==> r.currentPage == (if t.currentPage < Pages(t) then t.currentPage + 1 else t.currentPage)
    ensures req.Number? ==> r.currentPage == req.n
    ensures req == Prev && t.currentPage >= 1 ==> 1 <= r.currentPage <= t.currentPage
    ensures req == Next && t.currentPage <= Pages(t) ==> t.currentPage <= r.currentPage <= Pages(t)
  {
    t.(currentPage := ChangePage(t.currentPage, Pages(t), req))
  }

  /** `handlePageSizeChange(size)`: new page size, back to page 1. */
  function HandlePageSizeChange(t: Table, size: int): (r: Table)
    ensures r.pageSize == size && r.currentPage == 1
    ensures r == t.(pageSize := size, currentPage := 1)
  {
    t.(pageSize := size, currentPage := 1)
  }

  /** `updateData(newData)`: replace the data, back to page 1, filter with the current term. */
  function UpdateData(t: Table, newData: seq<Row>): (r: Table)
    ensures r == t.(options := t.options.(data := newData), filtered := r.filtered, currentPage := 1)
    ensures forall x :: x in r.filtered <==> x in newData && RowMatches(x, t.options.columns, t.searchTerm)
    ensures multiset(r.filtered) == multiset(FilterRows(newData, t.options.columns, t.searchTerm))
    ensures SortActive(t) ==> SortedBy(r.filtered, t.sortField.value, t.sortDirection)
    ensures !SortActive(t) ==> r.filtered == FilterRows(newData, t.options.columns, t.searchTerm)
    ensures t.searchTerm == "" && !SortActive(t) ==> r.filtered == newData
  {
    FilterData(t.(options := t.options.(data := newData), filtered := newData, currentPage := 1))
  }

  /** `refresh()`: re-filter and re-sort the unchanged data; the page is kept. */
  function Refresh(t: Table): (r: Table)
    ensures r == t.(filtered := r.filtered)
    ensures multiset(r.filtered) == multiset(FilterRows(t.options.data, t.options.columns, t.searchTerm))
    ensures SortActive(t) ==> SortedBy(r.filtered, t.sortField.value, t.sortDirection)
    ensures !SortActive(t) ==> r.filtered == FilterRows(t.options.data, t.options.columns, t.searchTerm)
    ensures Valid(t) ==> Valid(r) && multiset(r.filtered) == multiset(t.filtered)
  {
    FilterData(t)
  }

  /**
   * `getPaginatedData`: the whole working set without pagination, otherwise
   * the rows of the current page, at most `pageSize` of them.
   */
  function PaginatedData(t: Table): (r: seq<Row>)
    ensures !t.options.pagination ==> r == t.filtered
    ensures t.options.pagination && t.pageSize >= 0 ==> |r| <= t.pageSize
    ensures t.options.pagination && t.pageSize >= 0 && t.currentPage >= 1 ==>
              RunFromPageStart(r, t.filtered, t.currentPage, t.pageSize)
              && |r| == PageLength(|t.filtered|, t.currentPage, t.pageSize)
  {
    if !t.options.pagination then t.filtered
    else if t.pageSize >= 0 && t.currentPage >= 1 then
      PageRowsLength(t.filtered, t.currentPage, t.pageSize);
      PageRows(t.filtered, t.currentPage, t.pageSize)
    else
      PageRows(t.filtered, t.currentPage, t.pageSize)
  }

  /** What `getPaginatedData` returns on pages 1 to `n` of the same view, one after the other. */
  function PagesShown(t: Table, n: nat): seq<Row> {
    if n == 0 then [] else PagesShown(t, n - 1) + PaginatedData(t.(currentPage := n))
  }

  /** Paging through every page of a paginated table shows the working set exactly once, in order. */
  lemma PagesCoverWorkingSet(t: Table)
    requires t.options.pagination && t.pageSize >= 1
    ensures PagesShown(t, Pages(t)) == t.filtered
  {
    PagesShownArePages(t, Pages(t));
    PagesCoverRows(t.filtered, t.pageSize);
  }

  lemma {:induction false} PagesShownArePages(t: Table, n: nat)
    requires t.options.pagination
    ensures PagesShown(t, n) == PagesUpTo(t.filtered, t.pageSize, n)
  {
    if n > 0 {
      PagesShownArePages(t, n - 1);
    }
  }

  /**
   * `exportData`'s text: the CSV of the whole working set, not just the
   * current page; it reads back as the header and every filtered row.
   */
  function ExportCsv(t: Table): (r: string)
    ensures |t.options.columns| >= 1 && PlainHeaders(t.options.columns)
            && NoLineBreaks(t.options.columns, t.filtered) ==>
              ParseCsv(r) == ExpectedTable(t.options.columns, t.filtered)
  {
    var csv := ConvertToCsv(t.options.columns, t.filtered);
    if |t.options.columns| >= 1 && PlainHeaders(t.options.columns) && NoLineBreaks(t.options.columns, t.filtered) then
      CsvRoundTrip(t.options.columns, t.filtered);
      csv
    else csv
  }

  // ------------------------------------------------------------ row lookup

  /** The `data-id` a rendered row carries: `row.id || ''`. */
  function RenderedId(row: Row): string {
    var id := Lookup(row, "id");
    if Truthy(id) then ToText(id) else ""
  }

  /** `item.id == id` for a string `id`, with numbers compared through their decimal text. */
  predicate IdMatches(item: Row, key: string) {
    match Lookup(item, "id")
    case Missing => false
    case Str(s) => s == key
    case Num(n) => DecimalString(n) == key
  }

  /** Row `i` matches the id and no earlier row does. */
  predicate FirstMatch(rows: seq<Row>, key: string, i: int) {
    0 <= i < |rows| && IdMatches(rows[i], key) && forall j :: 0 <= j < i ==> !IdMatches(rows[j], key)
  }

  /** The index of the first row whose id matches, if any. */
  function FindRow(rows: seq<Row>, key: string): (r: Option<nat>)
    ensures r.Some? ==> FirstMatch(rows, key, r.value)
    ensures r.None? ==> forall j :: 0 <= j < |rows| ==> !IdMatches(rows[j], key)
  {
    if |rows| == 0 then None
    else if IdMatches(rows[0], key) then Some(0)
    else match FindRow(rows[1..], key)
      case None => None
      case Some(i) => Some(i + 1)
  }

  /** At most one row is the first match. */
  lemma FirstMatchUnique(rows: seq<Row>, key: string)
    ensures forall i, k :: FirstMatch(rows, key, i) && FirstMatch(rows, key, k) ==> i == k
  {
  }

  /** `getRowData(tr)`: the first working-set row with that id, or the empty record `{}`. */
  function RowData(t: Table, key: string): (r: Row)
    ensures (forall j :: 0 <= j < |t.filtered| ==> !IdMatches(t.filtered[j], key)) ==> r == map[]
    ensures forall i :: FirstMatch(t.filtered, key, i) ==> r == t.filtered[i]
  {
    FirstMatchUnique(t.filtered, key);
    match FindRow(t.filtered, key)
    case None => map[]
    case Some(i) => t.filtered[i]
  }

  /** Clicking a rendered row with a truthy id finds that row unless an earlier row shares its id. */
  lemma RowClickFindsRow(t: Table, i: int)
    requires 0 <= i < |t.filtered| && Truthy(Lookup(t.filtered[i], "id"))
    requires forall j :: 0 <= j < i ==> !IdMatches(t.filtered[j], RenderedId(t.filtered[i]))
    ensures RowData(t, RenderedId(t.filtered[i])) == t.filtered[i]
  {
  }

  // ------------------------------------------------------------ events

  /** The user actions and public calls that change the view state. */
  datatype Event =
    | Search(term: string)
    | SortBy(field: string)
    | Page(req: PageRequest)
    | PageSize(size: int)
    | Update(data: seq<Row>)
    | RefreshView

  /** What the rendered controls can send: page numbers come from the button window, sizes from the options. */
  predicate Allowed(t: Table, e: Event)
    requires t.pageSize >= 1
  {
    match e
    case Page(req) => req.Number? ==> 1 <= req.n <= Pages(t)
    case PageSize(size) => size >= 1
    case _ => true
  }

  function Apply(t: Table, e: Event): Table
    requires e.Page? ==> t.pageSize >= 1
  {
    match e
    case Search(term) => HandleSearch(t, term)
    case SortBy(field) => HandleSort(t, field)
    case Page(req) => HandlePageChange(t, req)
    case PageSize(size) => HandlePageSizeChange(t, size)
    case Update(data) => UpdateData(t, data)
    case RefreshView => Refresh(t)
  }

  /** Every operation keeps the view-state invariant. */
  lemma ApplyPreservesValid(t: Table, e: Event)
    requires Valid(t) && Allowed(t, e)
    ensures Valid(Apply(t, e))
  {
    match e
    case Search(term) =>
    case SortBy(field) =>
    case Page(req) =>
      ChangePageKeepsRange(t.currentPage, Pages(t), req);
    case PageSize(size) =>
    case Update(data) =>
    case RefreshView =>
  }
}
