/**
 * The content router (core-router.js): a fixed table from route keys to
 * fragment files, `handleMenuClick` that refuses unknown keys, and
 * `loadPage`, which shows a loading placeholder and then either the
 * fetched markup or an error view, announcing success with `pageLoaded`.
 */
module Router {
  import opened Wrappers
  import opened Text

  /** The home fragment: the error view's retry target and the back button's default fallback. */
  const HomePage: string := "wellcomePage.html"

  /** `ROUTES`. */
  const Routes: map<string, string> := map[
    "wellcome" := HomePage,
    "excel" := "pagevbaexcel.html",
    "access" := "pagevbaaccess.html",
    "powerpoint" := "pagevbapp.html",
    "other" := "pagevbaother.html",
    "usefullexcelfunction" := "pageusefullvbaexcelfunction.html"
  ]

  /** What `#content` shows. */
  datatype View =
    | Loading
    | Markup(html: string)
    | ErrorView(message: string)

  /** The retry button of the error view loads the home fragment. */
  function RetryTarget(v: View): (r: Option<string>)
    ensures r.Some? <==> v.ErrorView?
    ensures r.Some? ==> r.value == HomePage
  {
    if v.ErrorView? then Some(HomePage) else None
  }

  /** The outcome of `fetch(page)` followed by `res.text()`. */
  datatype FetchOutcome =
    | Response(ok: bool, status: int, statusText: string, body: string)
    | NetworkFailure(message: string)

  /**
   * One `loadPage` call: the views `#content` goes through, in order, and
   * the `pageLoaded` event it dispatches (with the requested path), if any.
   */
  datatype LoadTrace = LoadTrace(views: seq<View>, pageLoaded: Option<string>)

  /** The message of the `Error` thrown for a non-ok response. */
  function HttpErrorMessage(status: int, statusText: string): string {
    "HTTP " + DecimalString(status) + ": " + statusText
  }

  /**
   * `loadPage(page)`: nothing without a `#content` element; otherwise the
   * placeholder, then the markup and `pageLoaded(page)` on an ok response,
   * or the error view on a non-ok response or a failed fetch.
   */
  function LoadPage(page: string, hasContent: bool, fetched: FetchOutcome): (r: LoadTrace)
    ensures !hasContent ==> r.views == [] && r.pageLoaded.None?
    ensures hasContent ==> |r.views| == 2 && r.views[0] == Loading
    ensures r.pageLoaded.Some? <==> hasContent && fetched.Response? && fetched.ok
    ensures r.pageLoaded.Some? ==> r.pageLoaded.value == page && r.views[1] == Markup(fetched.body)
    ensures hasContent && r.pageLoaded.None? ==> r.views[1].ErrorView?
  {
    if !hasContent then LoadTrace([], None)
    else match fetched
      case Response(ok, status, statusText, body) =>
        if ok then LoadTrace([Loading, Markup(body)], Some(page))
        else LoadTrace([Loading, ErrorView(HttpErrorMessage(status, statusText))], None)
      case NetworkFailure(message) =>
        LoadTrace([Loading, ErrorView(message)], None)
  }

  /**
   * The properties every object literal inherits from `Object.prototype`.
   * `ROUTES[route]` reads one of these for a key the table does not hold;
   * each is a function or (for `__proto__`) an object, so it is truthy.
   */
  const ObjectPrototypeKeys: set<string> := {
    "constructor", "hasOwnProperty", "isPrototypeOf", "propertyIsEnumerable",
    "toString", "toLocaleString", "valueOf", "__proto__",
    "__defineGetter__", "__defineSetter__", "__lookupGetter__", "__lookupSetter__"
  }

  /**
   * The URL `fetch` requests when handed an inherited member: its string
   * conversion, the source text of a built-in function, or the text of
   * `Object.prototype` for `__proto__`.
   */
  function InheritedText(member: string): (r: string)
    ensures |r| > 0 && (r[|r| - 1] == '}' || r[|r| - 1] == ']')
  {
    if member == "__proto__" then "[object Object]" else "function " + member + "() { [native code] }"
  }

  /** The result of a menu click. */
  datatype MenuOutcome =
    | UnderConstruction           // the "page under development" alert; nothing is loaded
    | Loaded(path: string, trace: LoadTrace)
    | LoadedInherited(member: string, trace: LoadTrace)   // `loadPage` called with the inherited member of that name

  /**
   * `handleMenuClick(route)`: a key whose lookup is falsy alerts and loads
   * nothing; an own key loads `ROUTES[route]`; an inherited key passes the
   * truthiness test and hands the inherited member to `loadPage`, which
   * fetches its string conversion.
   */
  function HandleMenuClick(route: string, hasContent: bool, fetched: FetchOutcome): (r: MenuOutcome)
    ensures r.UnderConstruction? <==> route !in Routes && route !in ObjectPrototypeKeys
    ensures r.Loaded? <==> route in Routes
    ensures r.Loaded? ==> r.path == Routes[route] && r.trace == LoadPage(Routes[route], hasContent, fetched)
    ensures r.LoadedInherited? ==>
              r.member == route && route in ObjectPrototypeKeys
              && r.trace == LoadPage(InheritedText(route), hasContent, fetched)
  {
    if route in Routes then Loaded(Routes[route], LoadPage(Routes[route], hasContent, fetched))
    else if route in ObjectPrototypeKeys then LoadedInherited(route, LoadPage(InheritedText(route), hasContent, fetched))
    else UnderConstruction
  }

  /** The page a menu click announces with `pageLoaded`, if any. */
  function Announced(r: MenuOutcome): Option<string> {
    if r.UnderConstruction? then None else r.trace.pageLoaded
  }

  /** Every fragment file of the table ends in "l", as in ".html". */
  lemma RoutesAreHtml()
    ensures forall v :: v in Routes.Values ==> |v| > 0 && v[|v| - 1] == 'l'
  {
    forall v | v in Routes.Values
      ensures |v| > 0 && v[|v| - 1] == 'l'
    {
      var k :| k in Routes && Routes[k] == v;
      if k == "wellcome" {
      } else if k == "excel" {
      } else if k == "access" {
      } else if k == "powerpoint" {
      } else if k == "other" {
      } else {
        assert k == "usefullexcelfunction";
      }
    }
  }

  /**
   * Over every route key: a click announces a page exactly when the key is
   * own or inherited and the fetch succeeds, and the announced page is one
   * of the six fragment files exactly when the key is the table's own; an
   * own key always loads one of them.
   */
  lemma MenuClickStaysInTable(route: string, hasContent: bool, fetched: FetchOutcome)
    ensures var r := HandleMenuClick(route, hasContent, fetched);
            (r.Loaded? ==> r.path in Routes.Values)
            && (Announced(r).Some? <==>
                  (route in Routes || route in ObjectPrototypeKeys) && hasContent && fetched.Response? && fetched.ok)
            && (Announced(r).Some? ==> (Announced(r).value in Routes.Values <==> route in Routes))
  {
    var r := HandleMenuClick(route, hasContent, fetched);
    if r.LoadedInherited? && Announced(r).Some? {
      var text := InheritedText(route);
      RoutesAreHtml();
      assert text[|text| - 1] != 'l';
    }
  }
}
