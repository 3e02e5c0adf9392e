/**
 * The VBA-functions admin panel (vba-functions-module.js): the cached list
 * and its client-side search, the selection, the validation in front of
 * every request, the like/download counter patches, and the fallback to
 * built-in sample records when the list cannot be loaded.
 */
module VbaFunctions {
  import opened Wrappers
  import opened Text

  /** One record of the list; "" stands for a missing text field. */
  datatype FunctionRecord = FunctionRecord(
    id: string, title: string, content: string, comment: string,
    like: int, download: int, createdAt: string)

  /** `state` without the `isLoading` flag, which only drives a spinner. */
  datatype State = State(currentId: Option<string>, all: seq<FunctionRecord>, selected: Option<FunctionRecord>)

  const Initial := State(None, [], None)

  /** A request sent to the backend; the response comes back through the matching handler. */
  datatype Request =
    | NoRequest
    | LoadList
    | Create(title: string, content: string, comment: string, kind: int)
    | Update(id: string, title: string, content: string, comment: string)
    | SoftDelete(id: string)
    | Like(id: string)
    | Download(id: string)

  /** A toast and its severity; `Silent` when nothing is shown. */
  datatype Toast = Silent | Warning(text: string)

  /** The current id is set and non-empty (JavaScript truthiness of a string or null). */
  predicate HasId(id: Option<string>) {
    id.Some? && id.value != ""
  }

  // ---------------------------------------------------------------- search

  /** The predicate of `searchFunctions` for a non-empty, lower-cased term. */
  predicate SearchMatch(f: FunctionRecord, term: string) {
    Contains(Lower(f.id), term)
    || (f.title != "" && Contains(Lower(f.title), term))
    || Contains(Lower(f.content), term)
  }

  /** The order-preserving sub-list of records matching `term`. */
  function FilterFunctions(all: seq<FunctionRecord>, term: string): (r: seq<FunctionRecord>)
    ensures |r| <= |all|
    ensures forall f :: f in r <==> f in all && SearchMatch(f, term)
  {
    if |all| == 0 then []
    else
      var rest := FilterFunctions(all[1..], term);
      assert all == [all[0]] + all[1..];
      if SearchMatch(all[0], term) then [all[0]] + rest else rest
  }

  /** Filtering distributes over concatenation, so the relative order of the list is kept. */
  lemma {:induction false} FilterFunctionsConcat(a: seq<FunctionRecord>, b: seq<FunctionRecord>, term: string)
    ensures FilterFunctions(a + b, term) == FilterFunctions(a, term) + FilterFunctions(b, term)
  {
    if |a| > 0 {
      assert (a + b)[1..] == a[1..] + b;
      FilterFunctionsConcat(a[1..], b, term);
    } else {
      assert a + b == b;
    }
  }

  /**
   * `searchFunctions`: the records to display for the search box's raw
   * value (`None` when the box is absent). The term is lower-cased, then
   * trimmed; an empty term shows the whole list.
   */
  function Search(s: State, input: Option<string>): (r: seq<FunctionRecord>)
    ensures SearchTerm(input) == "" ==> r == s.all
    ensures SearchTerm(input) != "" ==> forall f :: f in r <==> f in s.all && SearchMatch(f, SearchTerm(input))
    ensures |r| <= |s.all|
  {
    var term := SearchTerm(input);
    if term == "" then s.all else FilterFunctions(s.all, term)
  }

  /** The search box's value, lower-cased and then trimmed; empty when the box is absent. */
  function SearchTerm(input: Option<string>): string {
    Trim(Lower(input.GetOr("")))
  }

  // ------------------------------------------------------------- selection

  /** Record `i` carries the id and no earlier record does. */
  predicate FirstWithId(all: seq<FunctionRecord>, id: string, i: int) {
    0 <= i < |all| && all[i].id == id && forall j :: 0 <= j < i ==> all[j].id != id
  }

  /** The position of the first record with the given id, if any. */
  function FindIndex(all: seq<FunctionRecord>, id: string): (r: Option<nat>)
    ensures r.Some? ==> FirstWithId(all, id, r.value)
    ensures r.None? ==> forall i :: 0 <= i < |all| ==> all[i].id != id
  {
    if |all| == 0 then None
    else if all[0].id == id then Some(0)
    else match FindIndex(all[1..], id)
      case None => None
      case Some(i) => Some(i + 1)
  }

  /** The first record with the given id, as `Array.prototype.find` returns it. */
  function Find(all: seq<FunctionRecord>, id: string): (r: Option<FunctionRecord>)
    ensures r.None? <==> forall i :: 0 <= i < |all| ==> all[i].id != id
    ensures forall i :: FirstWithId(all, id, i) ==> r == Some(all[i])
  {
    assert forall i, k :: FirstWithId(all, id, i) && FirstWithId(all, id, k) ==> i == k;
    match FindIndex(all, id)
    case None => None
    case Some(i) => Some(all[i])
  }

  /** `selectFunction(id)`: the id is always taken; the record is the first with that id, if any. */
  function Select(s: State, id: string): (r: State)
    ensures r.currentId == Some(id) && r.all == s.all
    ensures r.selected == Find(s.all, id)
    ensures r.selected.Some? ==> r.selected.value in s.all && r.selected.value.id == id
  {
    State(Some(id), s.all, Find(s.all, id))
  }

  /** `clearSelection`. */
  function ClearSelection(s: State): (r: State)
    ensures r.currentId.None? && r.selected.None? && r.all == s.all
  {
    s.(currentId := None, selected := None)
  }

  /** `confirmDelete(id)`: a falsy id does nothing; otherwise it becomes current and the dialog asks. */
  function ConfirmDelete(s: State, id: Option<string>): (r: (State, bool))
    ensures !HasId(id) ==> r == (s, false)
    ensures HasId(id) ==> r.1 && r.0 == s.(currentId := id)
  {
    if HasId(id) then (s.(currentId := id), true) else (s, false)
  }

  /**
   * `softDeleteFunction`, sent from the confirmation dialog: the POST names
   * the current id without checking it, so a cleared id is interpolated as
   * the text "null".
   */
  function SoftDeleteRequest(s: State): (r: Request)
    ensures r.SoftDelete?
    ensures s.currentId.Some? ==> r.id == s.currentId.value
    ensures s.currentId.None? ==> r.id == "null"
  {
    SoftDelete(s.currentId.GetOr("null"))
  }

  /** The answer to the soft delete request: a success clears the selection and reloads the list. */
  function SoftDeleteAnswered(s: State, success: bool): (r: (State, Request))
    ensures success ==> r == (ClearSelection(s), LoadList)
    ensures !success ==> r == (s, NoRequest)
  {
    if success then (ClearSelection(s), LoadList) else (s, NoRequest)
  }

  // -------------------------------------------------------------- type

  /** `parseInt(type) || 4`: NaN and 0 both fall back to type 4. */
  function KindOf(input: Option<string>): (r: int)
    ensures r != 0
    ensures input.None? ==> r == 4
    ensures (input.Some? && ParseInt(input.value).Some? && ParseInt(input.value).value != 0)
              ==> r == ParseInt(input.value).value
  {
    if input.None? then 4
    else match ParseInt(input.value)
      case Some(n) => if n != 0 then n else 4
      case None => 4
  }

  // -------------------------------------------------------------- requests

  const MissingTitleMessage := "Vui lòng nhập tiêu đề function!"
  const MissingContentMessage := "Vui lòng nhập nội dung VBA code!"
  const NoSelectionMessage := "Vui lòng chọn một function để chỉnh sửa"
  const IncompleteMessage := "Vui lòng nhập đầy đủ thông tin!"

  /** `input?.value.trim() || ''`. */
  function Field(input: Option<string>): (r: string)
    ensures input.None? ==> r == ""
    ensures input.Some? ==> r == Trim(input.value)
  {
    if input.Some? then Trim(input.value) else ""
  }

  /**
   * `handleFormSubmit`: an empty trimmed title is reported before the
   * content is looked at; with both present the create request carries the
   * trimmed fields and the type.
   */
  function FormSubmit(title: Option<string>, content: Option<string>, comment: Option<string>, kind: Option<string>)
    : (r: (Toast, Request))
    ensures Field(title) == "" ==> r == (Warning(MissingTitleMessage), NoRequest)
    ensures Field(title) != "" && Field(content) == "" ==> r == (Warning(MissingContentMessage), NoRequest)
    ensures r.1.Create? <==> Field(title) != "" && Field(content) != ""
    ensures r.1.Create? ==>
              r.0 == Silent && r.1 == Create(Field(title), Field(content), Field(comment), KindOf(kind))
  {
    var t := Field(title);
    var c := Field(content);
    if t == "" then (Warning(MissingTitleMessage), NoRequest)
    else if c == "" then (Warning(MissingContentMessage), NoRequest)
    else (Silent, Create(t, c, Field(comment), KindOf(kind)))
  }

  /**
   * `saveFunction`: without a current id and a selected record it asks to
   * select one; with an empty trimmed title or content it asks for both;
   * otherwise it sends the update for the current id.
   */
  function Save(s: State, title: Option<string>, content: Option<string>, comment: Option<string>)
    : (r: (Toast, Request))
    ensures !HasId(s.currentId) || s.selected.None? ==> r == (Warning(NoSelectionMessage), NoRequest)
    ensures r.1.Update? <==> HasId(s.currentId) && s.selected.Some? && Field(title) != "" && Field(content) != ""
    ensures r.1.Update? ==> r.1 == Update(s.currentId.value, Field(title), Field(content), Field(comment))
    ensures !r.1.Update? ==> r.1 == NoRequest && r.0.Warning?
  {
    if !HasId(s.currentId) || s.selected.None? then (Warning(NoSelectionMessage), NoRequest)
    else if Field(title) == "" || Field(content) == "" then (Warning(IncompleteMessage), NoRequest)
    else (Silent, Update(s.currentId.value, Field(title), Field(content), Field(comment)))
  }

  /** Which counter a button bumps. */
  datatype Counter = Likes | Downloads

  /** `incrementLike` / `incrementDownload`: no request without a current id. */
  function Increment(s: State, counter: Counter): (r: Request)
    ensures r == NoRequest <==> !HasId(s.currentId)
    ensures HasId(s.currentId) ==> r == (if counter == Likes then Like(s.currentId.value) else Download(s.currentId.value))
  {
    if !HasId(s.currentId) then NoRequest
    else if counter == Likes then Like(s.currentId.value)
    else Download(s.currentId.value)
  }

  /**
   * The answer to a counter request: `newValue` is the counter in the
   * answer's `data` (`None` when the answer failed or carried no data). Only
   * that counter of the selected record changes, and only when a record is
   * selected and its counter is on screen.
   */
  function CounterAnswered(s: State, counter: Counter, newValue: Option<int>, shown: bool): (r: State)
    ensures r.currentId == s.currentId && r.all == s.all
    ensures r.selected.Some? <==> s.selected.Some?
    ensures newValue.None? || s.selected.None? || !shown ==> r == s
    ensures newValue.Some? && s.selected.Some? && shown ==>
              r.selected.value == (if counter == Likes then s.selected.value.(like := newValue.value)
                                   else s.selected.value.(download := newValue.value))
  {
    if newValue.None? || s.selected.None? || !shown then s
    else if counter == Likes then s.(selected := Some(s.selected.value.(like := newValue.value)))
    else s.(selected := Some(s.selected.value.(download := newValue.value)))
  }

  /** A counter answer touches nothing of the selected record but its own counter. */
  lemma CounterPatchIsLocal(s: State, counter: Counter, newValue: Option<int>, shown: bool)
    requires s.selected.Some?
    ensures var f := s.selected.value;
            var g := CounterAnswered(s, counter, newValue, shown).selected.value;
            g.id == f.id && g.title == f.title && g.content == f.content && g.comment == f.comment
            && g.createdAt == f.createdAt
            && (counter == Likes ==> g.download == f.download)
            && (counter == Downloads ==> g.like == f.like)
  {
  }

  /**
   * What the backend can rely on: every id in a request is non-empty, and a
   * create or update carries a non-empty title and content.
   */
  predicate WellFormed(r: Request) {
    match r
    case NoRequest => true
    case LoadList => true
    case Create(title, content, _, _) => title != "" && content != ""
    case Update(id, title, content, _) => id != "" && title != "" && content != ""
    case SoftDelete(id) => id != ""
    case Like(id) => id != ""
    case Download(id) => id != ""
  }

  /** The validation in front of each request lets only well-formed requests through. */
  lemma RequestsAreWellFormed(s: State, title: Option<string>, content: Option<string>, comment: Option<string>,
                              kind: Option<string>, counter: Counter)
    ensures WellFormed(FormSubmit(title, content, comment, kind).1)
    ensures WellFormed(Save(s, title, content, comment).1)
    ensures WellFormed(Increment(s, counter))
    ensures HasId(s.currentId) ==> WellFormed(SoftDeleteRequest(s))
  {
  }

  /**
   * The delete flow: confirming a truthy id opens the dialog, the request
   * names that id, and a successful answer leaves nothing selected and
   * reloads the list, after which the counters and the editor refuse to act.
   */
  lemma DeleteFlow(s: State, id: Option<string>, title: Option<string>, content: Option<string>,
                   comment: Option<string>, counter: Counter)
    requires HasId(id)
    ensures var (asked, open) := ConfirmDelete(s, id);
            var (after, next) := SoftDeleteAnswered(asked, true);
            open
            && SoftDeleteRequest(asked) == SoftDelete(id.value) && WellFormed(SoftDeleteRequest(asked))
            && after == State(None, s.all, None) && next == LoadList
            && Increment(after, counter) == NoRequest
            && Save(after, title, content, comment) == (Warning(NoSelectionMessage), NoRequest)
  {
  }

  // ------------------------------------------------------------ list loading

  /** The three built-in records `showSampleData` falls back to. */
  const SampleFunctions: seq<FunctionRecord> := [
    FunctionRecord(
      "EXC-001", "Hàm Format Date Excel",
      "Function FormatDateEx(dt As Date) As String\n    FormatDateEx = Format(dt, \"dd/mm/yyyy\")\nEnd Function",
      "Hàm định dạng ngày tháng", 15, 42, "2023-10-15T08:30:00Z"),
    FunctionRecord(
      "EXC-002", "Hàm Remove Duplicates",
      "Sub RemoveDuplicatesEx()\n    ActiveSheet.Range(\"A:A\").RemoveDuplicates Columns:=1, Header:=xlYes\nEnd Sub",
      "Xóa trùng lặp trong cột A", 23, 67, "2023-10-16T14:20:00Z"),
    FunctionRecord(
      "EXC-003", "Auto Filter Data",
      "Sub ApplyAutoFilter()\n    If ActiveSheet.AutoFilterMode Then\n        ActiveSheet.AutoFilterMode = False\n    End If\n    ActiveSheet.Range(\"A1\").AutoFilter\nEnd Sub",
      "Áp dụng auto filter", 8, 31, "2023-10-17T10:15:00Z")
  ]

  /** What the list request produced. */
  datatype ListOutcome =
    | ListThrown                                          // the fetch or JSON parsing failed
    | ListAnswered(ok: bool, success: bool, data: seq<FunctionRecord>)

  /**
   * `loadFunctionsList`: an ok answer reporting success replaces the cache
   * with its data; anything else falls back to the sample records. The
   * selection is left as it was.
   */
  function LoadFunctions(s: State, outcome: ListOutcome): (r: State)
    ensures r.currentId == s.currentId && r.selected == s.selected
    ensures outcome.ListAnswered? && outcome.ok && outcome.success ==> r.all == outcome.data
    ensures !(outcome.ListAnswered? && outcome.ok && outcome.success) ==> r.all == SampleFunctions
  {
    match outcome
    case ListAnswered(ok, success, data) =>
      if ok && success then s.(all := data) else s.(all := SampleFunctions)
    case ListThrown => s.(all := SampleFunctions)
  }

  /**
   * After a failed load the panel works on the sample records: each of the
   * three ids selects its own record, and an unknown id selects nothing.
   */
  lemma FallbackIsSelectable(s: State, id: string)
    ensures var after := LoadFunctions(s, ListThrown);
            |after.all| == 3
            && (forall i :: 0 <= i < 3 ==> Select(after, SampleFunctions[i].id).selected == Some(SampleFunctions[i]))
            && (id != "EXC-001" && id != "EXC-002" && id != "EXC-003" ==> Select(after, id).selected.None?)
  {
    SampleIds();
    assert "EXC-001"[6] == '1' && "EXC-002"[6] == '2' && "EXC-003"[6] == '3';
    FindAmongDistinct(SampleFunctions, id);
    var after := LoadFunctions(s, ListThrown);
    forall i | 0 <= i < 3
      ensures Select(after, SampleFunctions[i].id).selected == Some(SampleFunctions[i])
    {
      assert i == 0 || i == 1 || i == 2;
    }
  }

  /** In a list of three records with distinct ids, each id finds its own record and no other id finds any. */
  lemma FindAmongDistinct(all: seq<FunctionRecord>, id: string)
    requires |all| == 3
    requires all[0].id != all[1].id && all[0].id != all[2].id && all[1].id != all[2].id
    ensures Find(all, all[0].id) == Some(all[0])
    ensures Find(all, all[1].id) == Some(all[1])
    ensures Find(all, all[2].id) == Some(all[2])
    ensures all[0].id != id && all[1].id != id && all[2].id != id ==> Find(all, id).None?
  {
    assert FirstWithId(all, all[0].id, 0);
    assert FirstWithId(all, all[1].id, 1);
    assert FirstWithId(all, all[2].id, 2);
  }

  /** The sample records carry the ids EXC-001, EXC-002 and EXC-003, in that order. */
  lemma SampleIds()
    ensures |SampleFunctions| == 3
    ensures SampleFunctions[0].id == "EXC-001"
    ensures SampleFunctions[1].id == "EXC-002"
    ensures SampleFunctions[2].id == "EXC-003"
  {
  }

  /** A search with an empty or blank box shows the whole cache, sample records included. */
  lemma BlankSearchShowsAll(s: State, input: Option<string>)
    requires forall i :: 0 <= i < |input.GetOr("")| ==> IsSpace(input.GetOr("")[i])
    ensures Search(s, input) == s.all
  {
    var raw := input.GetOr("");
    var low := Lower(raw);
    forall i | 0 <= i < |low| ensures IsSpace(low[i]) {
      assert low[i] == LowerChar(raw[i]);
    }
  }
}
