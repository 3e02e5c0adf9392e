# share-vba core, modelled in Dafny

This project models the browser-side logic of the share-vba site. That site is a
VBA snippet forum built from plain JavaScript components. The DOM, `fetch`,
`localStorage` and timers are replaced by values passed in and returned. Every
component becomes an immutable record with pure transition functions, and
lemmas state what the components promise.

- `wrappers.dfy`, `text.dfy`, `values.dfy` hold the shared pieces:
  - `Option`;
  - the parts of JavaScript strings the scripts use (`toLowerCase`, `trim`,
    `includes`, `join`, `String(n)` and `parseInt`);
  - a table cell value with JavaScript truthiness and the order used by `>`.
- `table_filter.dfy`, `table_sort.dfy`, `table_paging.dfy` and `table_csv.dfy`
  hold the DataTable algorithms: search filter, toggle sort, page slicing,
  page-button window, footer range, page moves, and CSV export. The CSV export
  comes with a reader that follows RFC 4180, section 2, rules 6 and 7.
- `datatable.dfy` is the DataTable view state: `filteredData`, `currentPage`,
  `pageSize`, `sortField`, `sortDirection` and `searchTerm`. Each public
  operation is a transition on it. One invariant is kept by all of them: the
  working set is a permutation of the matching rows, it is sorted whenever a
  sort column is set, it is in data order while no sort column was chosen, and
  the page is in range.
- `router.dfy` is the content router: the route table, `handleMenuClick`, and
  what `loadPage` shows and announces.
- `navigation.dfy` covers the back and home buttons: history, `goBack`, the
  click dispatch, and the button registry. It also shows how back navigation
  interacts with the router's `pageLoaded` event.
- `session.dfy` is the login session of `login-process.js`.
- `login_form.dfy` is the landing page's login form and its remember-me storage
  (`app-initializer.js`).
- `auth_manager.dfy` is the authentication dialog controller.
- `vba_functions.dfy` is the VBA-functions admin panel: search, selection,
  validation before each request, counter patches, and the sample-data
  fallback.

Two behaviours of the code are easy to miss, and the model keeps both:

- After "last" on an empty working set the page is 0: the page count is 0 and
  the code does not clamp. `TablePaging.PageInRange` admits page 0 exactly
  when there are no pages.
- Back is not a plain stack pop: every successful load records itself in the
  history. Back from `[A, B, C]` lands on B twice and never reaches A. See
  "Findings".

## Model

| member | source | states |
|---|---|---|
| Values.LessTrichotomy | js/datatable.js:423-425 | of two different cell values exactly one is greater, so the comparator never calls two different keys equal |
| Values.LessTransitive | js/datatable.js:423-425 | the value order used by the comparator is transitive |
| Text.DecimalRoundTrip | js/vba-functions-module.js:330 | `parseInt` reads back every integer written in decimal |
| TableFilter.FilterRows | js/datatable.js:403-411 | the working set holds exactly the rows with some configured column whose value is truthy and whose lower-cased text contains the term; an empty term keeps every row unchanged |
| TableFilter.SomeColumnMatchesIff | js/datatable.js:407-410 | the column scan succeeds exactly when some configured column matches |
| TableFilter.FilterConcat | js/datatable.js:404-411 | filtering distributes over concatenation, so kept rows stay in their original relative order |
| TableFilter.FilterIdempotent | js/datatable.js:403-411 | filtering an already filtered set with the same term changes nothing |
| TableSort.CompareIsTotalOrder | js/datatable.js:419-427 | the comparator is 0 only on equal keys, antisymmetric and transitive, for either direction |
| TableSort.CompareFlip | js/datatable.js:425-426 | descending order compares like ascending order with the arguments swapped |
| TableSort.SortRows | js/datatable.js:418-427 | the sorted working set is a permutation of the old one, ordered by the comparator |
| TableSort.SortSortedIsIdentity | js/datatable.js:418-427 | the stable sort leaves a set that is already in order unchanged |
| TableSort.SortedPermutationUnique | js/datatable.js:418-427 | with distinct keys there is only one sorted order, so the result does not depend on the input order |
| TableSort.ToggleReverses | js/datatable.js:364-370 | with distinct keys, clicking the sorted column again reverses the rows |
| TablePaging.TotalPages | js/datatable.js:378 | `ceil(N / size)`: the least page count whose pages hold all N rows, 0 exactly for an empty set |
| TablePaging.PageRows | js/datatable.js:435-437 | page p holds the rows at indices `[(p-1)*size, p*size)` clipped to the set, at most `size` of them |
| TablePaging.PageRowsLength | js/datatable.js:435-437 | a page is cut short only by the end of the working set: it holds `min(N, p*size) - (p-1)*size` rows, or none past the end |
| TablePaging.PagesCoverRows | js/datatable.js:430-438 | the pages from 1 to `ceil(N / size)` concatenate to the whole working set |
| TablePaging.EveryRowOnItsPage | js/datatable.js:430-438 | every row of the working set appears on exactly the page `i / size + 1`, which exists, at offset `i % size` |
| TablePaging.FooterRange | js/datatable.js:232-234 | the "showing a - b" range of a valid page lies in `[1, N]` and spans fewer than `size` steps |
| TablePaging.FooterMatchesPage | js/datatable.js:233-234 | the footer range numbers exactly the rows the page shows |
| TablePaging.PageButtons | js/datatable.js:268-287 | the page-number window is contiguous inside `[1, totalPages]`, holds the current page, has `min(5, totalPages)` entries, and is empty when there are no pages |
| TablePaging.ChangePage | js/datatable.js:377-390 | first goes to 1, last to the page count, prev moves down one from a page above 1 and otherwise stays, next moves up one from a page below the page count and otherwise stays, a number is taken as given |
| TablePaging.ChangePageKeepsRange | js/datatable.js:377-390 | every page move from a page in range, with a number from the window, stays in range |
| TableCsv.CsvCellEncodes | js/datatable.js:466-471 | a cell is written as its text (falsy values as nothing), quoted with inner quotes doubled exactly when it holds a comma or quote |
| TableCsv.CsvRoundTrip | js/datatable.js:462-479 | reading the CSV text back gives the header of captions (or field names) and one record per row of the set, provided there is at least one column, no header contains a comma, quote or line break (headers are never quoted), and no cell contains a line break |
| DataTable.Create | js/datatable.js:23-65 | no table without a container; otherwise all rows on page 1, with the invariant holding for a positive page size |
| DataTable.FilterData | js/datatable.js:403-416 | the new working set holds exactly the matching rows and is sorted by the active sort column; without a sort it is in data order |
| DataTable.HandleSearch | js/datatable.js:356-362 | stores the lower-cased term and returns to page 1; the new working set is a permutation of the rows matching that term, sorted by the kept sort column, and exactly those rows in data order when no sort is active |
| DataTable.HandleSort | js/datatable.js:364-375 | the same column flips the direction and a new column starts ascending; the rows are permuted into that order and nothing else changes |
| DataTable.HandlePageChange | js/datatable.js:377-394 | only the page changes: first 1, last the page count, prev one down from a page above 1, next one up from a page below the page count, otherwise they stay; a page number is taken as given |
| DataTable.HandlePageSizeChange | js/datatable.js:396-401 | the page size is replaced and the view returns to page 1 |
| DataTable.UpdateData | js/datatable.js:442-449 | the new data replaces the old and the view returns to page 1, keeping term, sort and page size; the working set is a permutation of the new rows matching the term, sorted by an active sort column and in data order without one |
| DataTable.Refresh | js/datatable.js:451-455 | only the working set changes: it becomes a permutation of the matching rows, sorted by an active sort column and in data order without one; a valid table stays valid with the same rows |
| DataTable.PaginatedData | js/datatable.js:430-438 | without pagination the whole working set; otherwise the slice of the working set from the page's first index, exactly `min(N, p*size) - (p-1)*size` rows long (none past the end) |
| DataTable.PagesCoverWorkingSet | js/datatable.js:430-438 | with pagination on, pages 1 to the page count shown one after another give back the working set, in order, with nothing lost or repeated |
| DataTable.ExportCsv | js/datatable.js:457-479 | the export covers the whole working set, not only the page, and reads back as it when there is a column, no header holds a comma, quote or line break, and no cell holds a line break |
| DataTable.FindRow | js/datatable.js:351-354 | the first working-set row whose id matches under loose equality, or none |
| DataTable.RowData | js/datatable.js:351-354 | the first matching row, or the empty record when none matches |
| DataTable.RowClickFindsRow | js/datatable.js:351-354 | clicking a rendered row with a truthy id finds that very row unless an earlier one shares its id |
| DataTable.ApplyPreservesValid | js/datatable.js:356-455 | search, sort, page moves, page-size changes, data updates and refresh all keep the view-state invariant: the working set is a permutation of the matching rows, sorted by the active column, in data order without a sort, on a page in range |
| Router.LoadPage | js/core-router.js:29-71 | nothing without `#content`; otherwise the placeholder, then the markup and `pageLoaded(page)` on an ok response, or the error view otherwise |
| Router.RetryTarget | js/core-router.js:177 | only the error view offers a retry, and it loads the home fragment |
| Router.HandleMenuClick | js/core-router.js:153-163 | a key the table holds loads exactly its entry; a key naming an inherited `Object.prototype` member passes the truthiness test and `loadPage` fetches that member's string form; every other key only alerts and loads nothing |
| Router.MenuClickStaysInTable | js/core-router.js:153-163 | over every key: a click announces a page exactly when the key is own or inherited and the fetch succeeds, and the announced page is one of the six fragment files of the table exactly when the key is the table's own; an own key always loads one of them |
| Navigation.FallbackOf | js/navigation-components.js:100 | the button's fallback, or the home fragment when it has none |
| Navigation.AddToHistory | js/navigation-components.js:88-91 | appends the page and changes nothing else |
| Navigation.LoadFallback | js/navigation-components.js:142-152 | loads the fallback through the router, else the home route, else a hard redirect |
| Navigation.GoBack | js/navigation-components.js:124-140 | with more than one entry the last is dropped, then the new last is loaded through the router, else the browser goes back when its history has more than one entry, else the fallback is used; with one entry or none the history stays and the fallback is used |
| Navigation.BackUndoesRecord | js/navigation-components.js:88-131 | going back right after recording a page restores the previous history and requests its last page |
| Navigation.Dispatch | js/navigation-components.js:104-119 | onclick wins over route, route over url; none of them means no dispatch |
| Navigation.BackClick | js/navigation-components.js:93-122 | the shared dispatch, and `goBack` with the button's fallback only when no attribute is set |
| Navigation.HomeClick | js/navigation-components.js:266-294 | the shared dispatch, and only a warning when no attribute is set |
| Navigation.HomeAndBackAgree | js/navigation-components.js:276-293 | the two buttons act alike whenever an attribute is set and differ only in the last resort |
| Navigation.Fresh | js/navigation-components.js:14-19 | a new component has no buttons, no listeners and is not initialised |
| Navigation.Cleanup | js/navigation-components.js:78-86 | every registered button loses its listener and the registry is emptied |
| Navigation.Setup | js/navigation-components.js:34-76 | after setup every found button is registered with exactly one click listener, and re-running it after init starts from an empty registry |
| Navigation.OnPageLoaded | js/navigation-components.js:29-31 | a successful load is appended to the history; a failed one adds nothing |
| Navigation.BackAsWritten | js/navigation-components.js:124-131 | one back click as written requests the entry before the last |
| Navigation.BackRecordsTwice | js/navigation-components.js:124-131 | back from `[..., X, Y]` leaves `[..., X, X]`, because the load records X again |
| Navigation.BackIsStuck | js/navigation-components.js:124-131 | as written, every further back click requests X again |
| Navigation.BackTwiceFromThree | js/navigation-components.js:124-131 | as written, two back clicks from `[A, B, C]` both land on B |
| Navigation.Back | js/navigation-components.js:124-131 | one back click in the corrected form pops the history and requests the new last entry |
| Navigation.BacksWalkHistory | js/navigation-components.js:124-131 | corrected back clicks walk the history in reverse, one earlier page per click |
| Navigation.BackThriceFromThree | js/navigation-components.js:124-131 | corrected, three back clicks from `[A, B, C]` give B, A, then the home fragment |
| Session.DisplayedName | js/login-process.js:43 | the user name, or the account when the name is empty |
| Session.Login | js/login-process.js:14-87 | signs in exactly on an ok, successful answer with data, recording that profile with its level, or 0 when the profile has none; every other outcome resets all five variables to signed out, with the server's error or the default, or a connection error |
| Session.LoginDecidesSignIn | js/login-process.js:93-95 | after a login the user is signed in exactly when it succeeded, whatever the state before |
| Session.SignedInAuthority | js/login-process.js:118-120 | a signed-in user holds exactly the levels up to the profile's own |
| Session.SignedOutHasNothing | js/login-process.js:93-120 | after a failed login or a logout nobody is signed in, the name is empty and only non-positive levels are granted |
| Session.CurrentUsername | js/login-process.js:109-111 | the stored user name, empty when none is set |
| Session.Logout | js/login-process.js:125-141 | every variable returns to its initial empty value, status included, and the reply always reports success with the logged-out message |
| Session.TransitionsKeepCoherent | js/login-process.js:1-141 | the five variables agree: a stored profile fixes the name, the level (the profile's authorities, or 0) and the birthday, and none stored means all three empty; the initial state, every login and every logout are coherent, and then the queries read the stored profile |
| LoginForm.Persist | js/app-initializer.js:82-89 | remembering writes the trimmed user name and `"true"`; otherwise both keys are removed; other keys are untouched |
| LoginForm.HandleLogin | js/app-initializer.js:66-90 | a missing input does nothing; an empty trimmed field gives the error and leaves storage alone; otherwise the login is accepted with the trimmed name and the storage updated |
| LoginForm.CheckSavedLogin | js/app-initializer.js:92-103 | pre-fills exactly when a non-empty name is saved, the flag is exactly `"true"` and both inputs exist |
| LoginForm.RememberRoundTrip | js/app-initializer.js:82-101 | a remembered login is offered back on the next visit; an unremembered one leaves nothing to pre-fill |
| LoginForm.RejectedKeepsPrefill | js/app-initializer.js:67-76 | an ignored or rejected click does not change what is pre-filled later |
| LoginForm.SocialPlatform | js/app-initializer.js:126-132 | the first of facebook, youtube, github, linkedin the icon carries, else "Social Media" |
| LoginForm.FirstListedPicksFirst | js/app-initializer.js:126-132 | a first-match lookup over an ordered list picks entry i exactly when its class is present and no earlier one is, and the generic name when none is |
| LoginForm.SocialPlatformIsFirstListed | js/app-initializer.js:126-132 | the icon's name is the first-match lookup over the ordered platform list: the first platform whose class it carries, the generic name exactly when it carries none |
| AuthManager.LoadDialog | js/auth-manager.js:38-52 | the logged-in dialog exactly for non-empty stored data that parses, which becomes the current user; otherwise the login dialog and the current user unchanged |
| AuthManager.Init | js/auth-manager.js:17-36 | nothing once initialised; nothing without the container; otherwise the dialog is chosen and the manager is initialised |
| AuthManager.InitIdempotent | js/auth-manager.js:17-18 | a second init changes nothing, and init succeeds exactly with a container |
| AuthManager.DisplayName | js/auth-manager.js:99 | user name, else account, else the unknown-user text; never empty |
| AuthManager.AuthorityLabel | js/auth-manager.js:105-109 | 1 is administrator, 2 is moderator, every other level a regular user |
| AuthManager.LabelsFollowSession | js/auth-manager.js:93-110 | for a coherent signed-in session the dialog shows the session's user name (or the unknown-user text when empty); the role is administrator exactly when the user has level 1 but not 2, moderator exactly when level 2 but not 3, and a regular user otherwise |
| AuthManager.PerformLogout | js/auth-manager.js:205-231 | the session is signed out, the three stored keys are removed and nothing else, and the login dialog comes back with no current user |
| AuthManager.LogoutForgetsUser | js/auth-manager.js:211-217 | after logout the session is signed out, nothing is pre-filled, and the next visit shows the login dialog |
| AuthManager.OnEvent | js/auth-manager.js:233-247 | before init events do nothing; a login event with user data shows that user; without data it is ignored; logout always clears |
| AuthManager.StepsKeepConsistent | js/auth-manager.js:233-247 | events and logout keep the shown dialog in line with the current user |
| VbaFunctions.FilterFunctions | js/vba-functions-module.js:571-575 | the records whose id, title (when present) or content contains the term, lower-cased |
| VbaFunctions.FilterFunctionsConcat | js/vba-functions-module.js:571-575 | the search keeps the relative order of the cached list |
| VbaFunctions.Search | js/vba-functions-module.js:563-582 | an empty term after lower-casing and trimming shows the whole list; otherwise exactly the matching records |
| VbaFunctions.BlankSearchShowsAll | js/vba-functions-module.js:564-569 | a missing or blank search box shows the whole cached list |
| VbaFunctions.Find | js/vba-functions-module.js:519 | the first cached record with the id, or none when no record has it |
| VbaFunctions.Select | js/vba-functions-module.js:505-524 | the id is always taken as current; the selected record is the first with that id, if any |
| VbaFunctions.ClearSelection | js/vba-functions-module.js:545-561 | both the current id and the selected record are cleared, the list kept |
| VbaFunctions.ConfirmDelete | js/vba-functions-module.js:601-613 | a falsy id does nothing; otherwise it becomes current and confirmation is asked |
| VbaFunctions.SoftDeleteRequest | js/vba-functions-module.js:407-411 | the POST names the current id, or the text "null" when none is set, since the function does not check it |
| VbaFunctions.SoftDeleteAnswered | js/vba-functions-module.js:407-426 | a successful delete clears the selection and reloads the list; a failure changes nothing |
| VbaFunctions.Field | js/vba-functions-module.js:327-329 | a form field is its trimmed value, or empty when the input is missing |
| VbaFunctions.KindOf | js/vba-functions-module.js:330 | the parsed type, with 4 when the input is missing, not a number, or 0 |
| VbaFunctions.FormSubmit | js/vba-functions-module.js:323-342 | an empty title is reported before the content is checked; a create request is sent exactly when both are present |
| VbaFunctions.Save | js/vba-functions-module.js:368-390 | an update is sent exactly with a current id, a selected record, and a non-empty title and content |
| VbaFunctions.Increment | js/vba-functions-module.js:428-435 | no request without a current id; otherwise the like or download request for that id |
| VbaFunctions.RequestsAreWellFormed | js/vba-functions-module.js:323-460 | every request the form, the editor and the counters send carries a non-empty id, and a non-empty trimmed title and content where it has them; so does the delete request once an id is current |
| VbaFunctions.DeleteFlow | js/vba-functions-module.js:407-426 | confirming a truthy id, then a successful delete, sends the delete for that id, leaves nothing selected, reloads the list, and then the counters and the editor refuse to act |
| VbaFunctions.CounterAnswered | js/vba-functions-module.js:438-443 | a successful answer overwrites only that counter of the selected record, when one is selected and shown |
| VbaFunctions.CounterPatchIsLocal | js/vba-functions-module.js:438-443 | every other field of the selected record stays as it was |
| VbaFunctions.LoadFunctions | js/vba-functions-module.js:202-237 | an ok, successful answer replaces the cache with its data; any failure substitutes the sample records; the selection is untouched |
| VbaFunctions.FallbackIsSelectable | js/vba-functions-module.js:283-314 | after a failed load the three sample records are cached and each id selects its own record |

## Left out

- DOM rendering, event binding, toasts, modals and scroll animation. The model
  covers the state these read and write, not the markup. HTML escaping is left
  out too.
- `fetch` and the backend. Responses are parameters: an ok flag, a success
  flag, a payload, or a thrown error. `checkServerStatus` and
  `handleTestConnection` probe the network and are left out.
- `loadFunctionsListByPrefix` is left out. It differs from `loadFunctionsList`
  only in the request URL, which is not modelled.
- Timers are left out: the 100 ms resize/scroll debounce, the 150 ms auto-init
  delay and the 500 ms re-select after a create.
- `preventOverflow`, `executePageScripts`, `reinitializeComponents`,
  `autoInitializeComponents` and `new Function(onclick)` are left out. They
  depend on viewport geometry or run dynamic code. A `data-onclick` click is
  modelled only as the request to run that code.
- `downloadCSV` is left out: the Blob, the byte-order mark and the download.
  Only the text `convertToCSV` builds is modelled.
- `toLocaleDateString` formatting of dates and birthdays is left out.
- Text.LowerChar: only ASCII letters are lower-cased. JavaScript
  `toLowerCase` also folds other letters, such as the Vietnamese capitals in
  titles.
- Text.IsSpace: only the common white-space characters `trim` strips are
  covered, not every Unicode space separator.
- Text.ParseInt: decimal text only. `parseInt` also reads a `0x` hexadecimal
  prefix, and it is never given one here.
- Values.Less: values of different types are ordered `Missing < Num < Str` as
  a total order. The real `>` on mixed types can be inconsistent, so sort and
  row keys are restricted to one string or number per cell. Strings are
  compared character by character on Unicode scalar values. JavaScript
  compares UTF-16 code units, so the two orders can differ when a string holds
  a character outside the Basic Multilingual Plane.
- DataTable.HandlePageSizeChange: the size comes from the fixed option list
  (5, 10, 25, 50 or 100). A non-numeric size (NaN) has no counterpart.
- DataTable.FindRow: the `==` between the rendered id and an item's id is
  modelled for string ids and for number ids compared through their decimal
  text only. Other loose-equality conversions are left out.
- Router.HandleMenuClick: a key naming an inherited `Object.prototype` member
  passes the check and that member goes to `loadPage`, which fetches its
  string form. The model takes that form to be the usual text of a built-in
  function (or `[object Object]` for `__proto__`); the exact text is up to the
  JavaScript engine. The `pageLoaded` detail is the member itself, and the
  model announces its string form instead.
- DataTable options other than data, columns and pagination are left out:
  title, striped, actions and so on only affect rendering.
- Session.Login: the user name and password only go into the request URL, so
  they are not parameters. When a successful answer has no `data`, the
  TypeError message is engine-specific and is replaced by a fixed text.
  Non-integer authority levels are left out. The returned object spreads
  `result.data` after `success`, `message` and `username`, so a payload with
  its own `success`, `message` or `username` key overrides those fields. The
  model returns the three as the code computes them before the spread.
- AuthManager.LoadDialog: stored data that parses to `null` is treated like
  data that does not parse. Fetching the dialog markup, and the error
  paragraph shown when that fetch fails, are left out.
- VbaFunctions.Search: a record is text-only here, with "" for a missing
  field, which never matches a non-empty term. In the page, a record with no
  `content` or with a non-string `id` makes `toLowerCase` throw a TypeError
  inside the filter (js/vba-functions-module.js:571-575), so the search fails.
  That throw is not modelled.
- VbaFunctions.CounterAnswered: in the page the selected record is the same
  object as its entry in the cached list, so the list entry's counter changes
  too. The model keeps the two apart.
- VbaFunctions.LoadFunctions: a successful answer whose `data` is missing
  (which fails later while rendering) is not modelled.
- VbaFunctions: the response to a save or a create is left out. Only the
  validation and the request sent are modelled.

## Findings

| source | as written | input that shows it | evidently intended | confidence | as-written member | corrected member |
|---|---|---|---|---|---|---|
| js/navigation-components.js:124-131 | `goBack` pops the history and calls `loadPage`. The successful load fires `pageLoaded`, whose listener (lines 29-31) appends the same page again. | history `[A, B, C]` and two back clicks whose loads succeed: both request B, and A is never reached | each back click goes one page further back: B, then A, then the fallback | not executed | Navigation.BackIsStuck | Navigation.BacksWalkHistory |
