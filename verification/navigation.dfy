/**
 * The back and home buttons (navigation-components.js): the page history
 * fed by `pageLoaded`, `goBack` with its fallback chain, the click
 * dispatch priority, and the registry of buttons that `setup` wires.
 */
module Navigation {
  import opened Wrappers
  import Router

  /** The `data-*` attributes of a button; "" stands for an absent attribute. */
  datatype ButtonAttrs = ButtonAttrs(onclick: string, route: string, url: string, fallback: string)

  /** Which globals exist when a click is handled. */
  datatype Env = Env(hasLoadPage: bool, hasMenuClick: bool, browserHistoryLength: int)

  /** What a click asks the page to do. */
  datatype Action =
    | RunScript(code: string)      // `new Function(onclick)()`
    | MenuClick(route: string)     // `handleMenuClick(route)`
    | Load(page: string)           // `loadPage(page)`
    | SetLocation(url: string)     // `window.location.href = url`
    | BrowserBack                  // `window.history.back()`
    | Warn                         // only a console warning; nothing navigates

  /** `data-fallback || 'wellcomePage.html'`. */
  function FallbackOf(attrs: ButtonAttrs): (r: string)
    ensures attrs.fallback != "" ==> r == attrs.fallback
    ensures attrs.fallback == "" ==> r == Router.HomePage
  {
    if attrs.fallback != "" then attrs.fallback else Router.HomePage
  }

  /** `addToHistory`: append and change nothing else. */
  function AddToHistory(history: seq<string>, page: string): (r: seq<string>)
    ensures |r| == |history| + 1
    ensures r[..|history|] == history && r[|history|] == page
  {
    history + [page]
  }

  /** `loadFallbackPage`: `loadPage(fallback)`, else the home route, else a hard redirect. */
  function LoadFallback(fallback: string, env: Env): (r: Action)
    ensures r.Load? <==> env.hasLoadPage
    ensures r.Load? ==> r.page == fallback
    ensures r.MenuClick? <==> !env.hasLoadPage && env.hasMenuClick
    ensures r.MenuClick? ==> r.route == "wellcome" && Router.Routes[r.route] == Router.HomePage
    ensures !env.hasLoadPage && !env.hasMenuClick ==> r == SetLocation(fallback)
  {
    if env.hasLoadPage then Load(fallback)
    else if env.hasMenuClick then MenuClick("wellcome")
    else SetLocation(fallback)
  }

  /**
   * `goBack(fallback)`: with more than one entry, drop the last one and go
   * to the new last one; otherwise keep the history and use the fallback.
   */
  function GoBack(history: seq<string>, fallback: string, env: Env): (r: (seq<string>, Action))
    ensures |history| > 1 ==> r.0 == history[..|history| - 1]
    ensures |history| > 1 && env.hasLoadPage ==> r.1 == Load(history[|history| - 2])
    ensures |history| > 1 && !env.hasLoadPage && env.browserHistoryLength > 1 ==> r.1 == BrowserBack
    ensures |history| > 1 && !env.hasLoadPage && env.browserHistoryLength <= 1 ==> r.1 == LoadFallback(fallback, env)
    ensures |history| <= 1 ==> r.0 == history && r.1 == LoadFallback(fallback, env)
  {
    if |history| > 1 then
      var popped := history[..|history| - 1];
      if env.hasLoadPage then (popped, Load(popped[|popped| - 1]))
      else if env.browserHistoryLength > 1 then (popped, BrowserBack)
      else (popped, LoadFallback(fallback, env))
    else (history, LoadFallback(fallback, env))
  }

  /** Going back right after recording a page returns to the history before it. */
  lemma BackUndoesRecord(history: seq<string>, page: string, fallback: string, env: Env)
    requires |history| >= 1
    ensures GoBack(AddToHistory(history, page), fallback, env).0 == history
    ensures env.hasLoadPage ==>
              GoBack(AddToHistory(history, page), fallback, env).1 == Load(history[|history| - 1])
  {
    assert AddToHistory(history, page)[..|history|] == history;
  }

  /** The shared dispatch: onclick, then route, then url; None when all three are absent. */
  function Dispatch(attrs: ButtonAttrs, env: Env): (r: Option<Action>)
    ensures r.None? <==> attrs.onclick == "" && attrs.route == "" && attrs.url == ""
    ensures attrs.onclick != "" ==> r == Some(RunScript(attrs.onclick))
    ensures attrs.onclick == "" && attrs.route != "" ==>
              r == Some(if env.hasMenuClick then MenuClick(attrs.route) else Warn)
    ensures attrs.onclick == "" && attrs.route == "" && attrs.url != "" ==> r == Some(SetLocation(attrs.url))
  {
    if attrs.onclick != "" then Some(RunScript(attrs.onclick))
    else if attrs.route != "" then Some(if env.hasMenuClick then MenuClick(attrs.route) else Warn)
    else if attrs.url != "" then Some(SetLocation(attrs.url))
    else None
  }

  /** `BackButton.handleClick`: the shared dispatch, and `goBack` as the last resort. */
  function BackClick(attrs: ButtonAttrs, history: seq<string>, env: Env): (r: (seq<string>, Action))
    ensures Dispatch(attrs, env).Some? ==> r == (history, Dispatch(attrs, env).value)
    ensures Dispatch(attrs, env).None? ==> r == GoBack(history, FallbackOf(attrs), env)
  {
    match Dispatch(attrs, env)
    case Some(a) => (history, a)
    case None => GoBack(history, FallbackOf(attrs), env)
  }

  /** `HomeButton.handleClick`: the shared dispatch, and only a warning when nothing is set. */
  function HomeClick(attrs: ButtonAttrs, env: Env): (r: Action)
    ensures Dispatch(attrs, env).None? ==> r == Warn
    ensures Dispatch(attrs, env).Some? ==> r == Dispatch(attrs, env).value
  {
    Dispatch(attrs, env).GetOr(Warn)
  }

  /**
   * The two buttons agree whenever one of the three attributes is set, and
   * then the back button leaves the history alone; they differ only in the
   * last resort.
   */
  lemma HomeAndBackAgree(attrs: ButtonAttrs, history: seq<string>, env: Env)
    ensures attrs.onclick != "" || attrs.route != "" || attrs.url != "" ==>
              BackClick(attrs, history, env) == (history, HomeClick(attrs, env))
    ensures attrs.onclick == "" && attrs.route == "" && attrs.url == "" ==>
              HomeClick(attrs, env) == Warn
              && BackClick(attrs, history, env) == GoBack(history, FallbackOf(attrs), env)
  {
  }

  // ---------------------------------------------------------------------
  // Button registry (`setup` / `cleanup`)
  // ---------------------------------------------------------------------

  /** Buttons are identified by a number; `handlers` counts attached click listeners per button. */
  datatype Registry = Registry(initialized: bool, buttons: set<nat>, handlers: multiset<nat>)

  /** Every registered button carries exactly one listener, and nothing is registered before init. */
  ghost predicate Wired(reg: Registry) {
    reg.handlers == multiset(reg.buttons) && (!reg.initialized ==> reg.buttons == {})
  }

  /** The state the constructor leaves before its first `setup`. */
  function Fresh(): (r: Registry)
    ensures Wired(r) && !r.initialized
  {
    Registry(false, {}, multiset{})
  }

  /** `cleanup`: detach the listener of every registered button and forget them all. */
  function Cleanup(reg: Registry): (r: Registry)
    ensures r.buttons == {} && r.initialized == reg.initialized
    ensures Wired(reg) ==> r.handlers == multiset{}
  {
    Registry(reg.initialized, {}, reg.handlers - multiset(reg.buttons))
  }

  lemma MultisetOfUnion(a: set<nat>, b: nat)
    requires b !in a
    ensures multiset(a + {b}) == multiset(a) + multiset{b}
  {
    assert forall x :: multiset(a + {b})[x] == (multiset(a) + multiset{b})[x];
  }

  /**
   * `setup(found)`: after init it cleans up first; then each found button
   * not yet registered gets one listener. Afterwards every found button is
   * registered with exactly one listener.
   */
  method Setup(reg: Registry, found: seq<nat>) returns (r: Registry)
    ensures r.initialized
    ensures r.buttons == (if reg.initialized then {} else reg.buttons) + (set b | b in found)
    ensures Wired(reg) ==> Wired(r)
    ensures Wired(reg) ==> forall b :: r.handlers[b] == (if b in found then 1 else 0)
  {
    var start := if reg.initialized then Cleanup(reg) else reg;
    var buttons := start.buttons;
    var handlers := start.handlers;
    var i := 0;
    while i < |found|
      invariant 0 <= i <= |found|
      invariant buttons == start.buttons + (set b | b in found[..i])
      invariant Wired(reg) ==> handlers == multiset(buttons)
    {
      var b := found[i];
      if b !in buttons {
        MultisetOfUnion(buttons, b);
        buttons := buttons + {b};
        handlers := handlers + multiset{b};
      }
      assert found[..i + 1] == found[..i] + [b];
      i := i + 1;
    }
    assert found[..i] == found;
    r := Registry(true, buttons, handlers);
  }

  // ---------------------------------------------------------------------
  // Back navigation composed with the router
  // ---------------------------------------------------------------------

  /** The `pageLoaded` listener: a successful load records its path. */
  function OnPageLoaded(history: seq<string>, trace: Router.LoadTrace): (r: seq<string>)
    ensures trace.pageLoaded.None? ==> r == history
    ensures trace.pageLoaded.Some? ==> r == AddToHistory(history, trace.pageLoaded.value)
  {
    match trace.pageLoaded
    case None => history
    case Some(page) => AddToHistory(history, page)
  }

  /** The router is present, so `goBack` always asks `loadPage`. */
  const WithRouter := Env(true, true, 1)

  /**
   * One click of an attribute-less back button AS WRITTEN: `goBack` pops and
   * loads the previous page, and on success the listener records that page
   * again. Returns the new history and the page requested.
   */
  function BackAsWritten(history: seq<string>, fetched: Router.FetchOutcome): (r: (seq<string>, string))
    ensures |history| > 1 ==> r.1 == history[|history| - 2]
    ensures |history| <= 1 ==> r.1 == Router.HomePage
  {
    var (popped, action) := GoBack(history, Router.HomePage, WithRouter);
    (OnPageLoaded(popped, Router.LoadPage(action.page, true, fetched)), action.page)
  }

  /** After a successful Back from `[…, X, Y]` the history ends `[…, X, X]`, not `[…, X]`. */
  lemma BackRecordsTwice(prefix: seq<string>, x: string, y: string, fetched: Router.FetchOutcome)
    requires fetched.Response? && fetched.ok
    ensures BackAsWritten(prefix + [x, y], fetched) == (prefix + [x, x], x)
  {
    var h := prefix + [x, y];
    assert h[..|h| - 1] == prefix + [x];
    assert GoBack(h, Router.HomePage, WithRouter) == (prefix + [x], Load(x));
    assert Router.LoadPage(x, true, fetched).pageLoaded == Some(x);
    assert OnPageLoaded(prefix + [x], Router.LoadPage(x, true, fetched)) == (prefix + [x]) + [x];
    assert (prefix + [x]) + [x] == prefix + [x, x];
  }

  /** The pages requested by `n` successive Back clicks, each load succeeding, as written. */
  function BacksAsWritten(history: seq<string>, n: nat, fetched: Router.FetchOutcome): (r: seq<string>)
    ensures |r| == n
    decreases n
  {
    if n == 0 then []
    else
      var (next, page) := BackAsWritten(history, fetched);
      [page] + BacksAsWritten(next, n - 1, fetched)
  }

  /** As written, every Back from `[…, X, Y]` requests X: earlier pages are never reached. */
  lemma {:induction false} BackIsStuck(prefix: seq<string>, x: string, y: string, n: nat, fetched: Router.FetchOutcome)
    requires fetched.Response? && fetched.ok
    ensures forall j :: 0 <= j < n ==> BacksAsWritten(prefix + [x, y], n, fetched)[j] == x
    decreases n
  {
    if n > 0 {
      BackRecordsTwice(prefix, x, y, fetched);
      BackIsStuck(prefix, x, x, n - 1, fetched);
    }
  }

  /** The concrete case: from `[A, B, C]` two Backs both land on B, never on A. */
  lemma BackTwiceFromThree(fetched: Router.FetchOutcome)
    requires fetched.Response? && fetched.ok
    ensures BacksAsWritten(["A", "B", "C"], 2, fetched) == ["B", "B"]
  {
    assert ["A"] + ["B", "C"] == ["A", "B", "C"];
    BackIsStuck(["A"], "B", "C", 2, fetched);
  }

  /**
   * One Back click as evidently intended: the load that `goBack` itself
   * starts is not recorded again, so the history is a plain stack.
   */
  function Back(history: seq<string>): (r: (seq<string>, string))
    ensures |history| > 1 ==> r == (history[..|history| - 1], history[|history| - 2])
    ensures |history| <= 1 ==> r == (history, Router.HomePage)
  {
    var (popped, action) := GoBack(history, Router.HomePage, WithRouter);
    (popped, action.page)
  }

  /** The pages requested by `n` successive Back clicks with the intended behaviour. */
  function Backs(history: seq<string>, n: nat): (r: seq<string>)
    ensures |r| == n
    decreases n
  {
    if n == 0 then []
    else
      var step := Back(history);
      [step.1] + Backs(step.0, n - 1)
  }

  /** One step of `Backs` on a history with an earlier page: that page, then the popped history. */
  lemma BacksStep(history: seq<string>, n: nat)
    requires 0 < n && 1 < |history|
    ensures Backs(history, n)
            == [history[|history| - 2]] + Backs(history[..|history| - 1], n - 1)
  {
  }

  /**
   * With the intended behaviour, Back walks the history in reverse: the
   * j-th click requests the entry j+2 from the end, for every earlier page.
   */
  lemma {:induction false} BacksWalkHistory(history: seq<string>, n: nat)
    requires n < |history|
    ensures forall j :: 0 <= j < n ==> Backs(history, n)[j] == history[|history| - 2 - j]
  {
    if n > 0 {
      var popped := history[..|history| - 1];
      BacksWalkHistory(popped, n - 1);
      var rest := Backs(popped, n - 1);
      BacksStep(history, n);
      var all := Backs(history, n);
      forall j | 0 <= j < n
        ensures all[j] == history[|history| - 2 - j]
      {
        if j > 0 {
          assert all[j] == rest[j - 1];
          assert rest[j - 1] == popped[|popped| - 2 - (j - 1)];
        }
      }
    }
  }

  /** The concrete case: from `[A, B, C]` the intended Backs reach B, then A, then the home page. */
  lemma BackThriceFromThree()
    ensures Backs(["A", "B", "C"], 3) == ["B", "A", Router.HomePage]
  {
    assert ["A", "B", "C"][..2] == ["A", "B"];
    assert ["A", "B"][..1] == ["A"];
    assert Back(["A", "B", "C"]) == (["A", "B"], "B");
    assert Back(["A", "B"]) == (["A"], "A");
    assert Back(["A"]) == (["A"], Router.HomePage);
    assert Backs(["A"], 1) == [Router.HomePage] + Backs(["A"], 0);
    assert Backs(["A", "B"], 2) == ["A"] + Backs(["A"], 1);
  }
}
