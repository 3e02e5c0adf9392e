/**
 * The landing page's login form (app-initializer.js): input validation,
 * the remember-me keys in local storage, auto-fill from those keys, and the
 * name shown for a social icon.
 */
module LoginForm {
  import opened Wrappers
  import opened Text

  /** `localStorage`, as a map from keys to stored strings. */
  type Storage = map<string, string>

  const UsernameKey := "vba_forum_username"
  const RememberKey := "vba_forum_remember"

  const MissingFieldsMessage := "Vui lòng nhập đầy đủ tên đăng nhập và mật khẩu"
  const WelcomePrefix := "Đăng nhập thành công với tên đăng nhập: "

  /** The toast `handleLogin` shows. */
  datatype Message = Message(text: string, isError: bool)

  /** The outcome of one click on the login button. */
  datatype LoginOutcome =
    | Ignored                               // an input element is missing; nothing happens
    | Invalid(message: Message)             // a trimmed field is empty
    | Accepted(username: string, message: Message)

  /** Keys other than the two remember-me keys keep their entries. */
  ghost predicate OthersKept(before: Storage, after: Storage) {
    forall k :: k != UsernameKey && k != RememberKey ==>
      (k in after <==> k in before) && (k in after ==> after[k] == before[k])
  }

  /** The storage update of an accepted login: both keys set, or both removed. */
  function Persist(user: string, remember: bool, storage: Storage): (r: Storage)
    ensures OthersKept(storage, r)
    ensures remember ==> UsernameKey in r && r[UsernameKey] == user && RememberKey in r && r[RememberKey] == "true"
    ensures !remember ==> UsernameKey !in r && RememberKey !in r
  {
    assert UsernameKey != RememberKey by { assert UsernameKey[10] != RememberKey[10]; }
    if remember then storage[UsernameKey := user][RememberKey := "true"]
    else storage - {UsernameKey, RememberKey}
  }

  /**
   * `handleLogin`: the raw values of the username and password inputs
   * (`None` when the element is absent) and the remember checkbox (`None`
   * when absent, which counts as unchecked).
   */
  function HandleLogin(username: Option<string>, password: Option<string>, remember: Option<bool>, storage: Storage)
    : (r: (LoginOutcome, Storage))
    ensures r.0.Ignored? <==> username.None? || password.None?
    ensures r.0.Invalid? <==> username.Some? && password.Some? && (Trim(username.value) == "" || Trim(password.value) == "")
    ensures r.0.Invalid? ==> r.0.message == Message(MissingFieldsMessage, true)
    ensures !r.0.Accepted? ==> r.1 == storage
    ensures r.0.Accepted? ==>
              r.0.username == Trim(username.value) != ""
              && r.0.message == Message(WelcomePrefix + r.0.username, false)
              && OthersKept(storage, r.1)
    ensures r.0.Accepted? && remember == Some(true) ==>
              UsernameKey in r.1 && r.1[UsernameKey] == r.0.username
              && RememberKey in r.1 && r.1[RememberKey] == "true"
    ensures r.0.Accepted? && remember != Some(true) ==> UsernameKey !in r.1 && RememberKey !in r.1
  {
    if username.None? || password.None? then (Ignored, storage)
    else
      var user := Trim(username.value);
      var pass := Trim(password.value);
      if user == "" || pass == "" then (Invalid(Message(MissingFieldsMessage, true)), storage)
      else
        (Accepted(user, Message(WelcomePrefix + user, false)), Persist(user, remember == Some(true), storage))
  }

  /**
   * `checkSavedLogin`: the user name to pre-fill (and tick the box), when a
   * non-empty name is saved, the flag is exactly "true" and both the input
   * and the checkbox exist.
   */
  function CheckSavedLogin(storage: Storage, hasUsernameInput: bool, hasRememberBox: bool): (r: Option<string>)
    ensures r.Some? <==>
              UsernameKey in storage && storage[UsernameKey] != ""
              && RememberKey in storage && storage[RememberKey] == "true"
              && hasUsernameInput && hasRememberBox
    ensures r.Some? ==> r.value == storage[UsernameKey]
  {
    if UsernameKey in storage && storage[UsernameKey] != ""
       && RememberKey in storage && storage[RememberKey] == "true"
       && hasUsernameInput && hasRememberBox
    then Some(storage[UsernameKey])
    else None
  }

  /**
   * A remembered login is offered back on the next visit, trimmed; an
   * unremembered one leaves nothing to pre-fill.
   */
  lemma RememberRoundTrip(username: string, password: string, remember: Option<bool>, storage: Storage)
    requires HandleLogin(Some(username), Some(password), remember, storage).0.Accepted?
    ensures var after := HandleLogin(Some(username), Some(password), remember, storage).1;
            CheckSavedLogin(after, true, true) == (if remember == Some(true) then Some(Trim(username)) else None)
  {
  }

  /** A rejected or ignored click changes nothing that a later visit could pre-fill. */
  lemma RejectedKeepsPrefill(username: Option<string>, password: Option<string>, remember: Option<bool>, storage: Storage)
    requires !HandleLogin(username, password, remember, storage).0.Accepted?
    ensures CheckSavedLogin(HandleLogin(username, password, remember, storage).1, true, true)
            == CheckSavedLogin(storage, true, true)
  {
  }

  /** `getSocialPlatform`: the first recognised class in the fixed order, else "Social Media". */
  function SocialPlatform(classes: set<string>): (r: string)
    ensures "facebook" in classes ==> r == "Facebook"
    ensures "facebook" !in classes && "youtube" in classes ==> r == "YouTube"
    ensures "facebook" !in classes && "youtube" !in classes && "github" in classes ==> r == "GitHub"
    ensures ("facebook" !in classes && "youtube" !in classes && "github" !in classes && "linkedin" in classes)
              ==> r == "LinkedIn"
    ensures r == OtherPlatform <==>
              "facebook" !in classes && "youtube" !in classes && "github" !in classes && "linkedin" !in classes
  {
    if "facebook" in classes then "Facebook"
    else if "youtube" in classes then "YouTube"
    else if "github" in classes then "GitHub"
    else if "linkedin" in classes then "LinkedIn"
    else OtherPlatform
  }

  const OtherPlatform := "Social Media"

  /** The recognised icon classes and the names shown for them, in the order they are tried. */
  const Platforms: seq<(string, string)> :=
    [("facebook", "Facebook"), ("youtube", "YouTube"), ("github", "GitHub"), ("linkedin", "LinkedIn")]

  /** The name of the first listed class the icon carries, else the generic name. */
  function FirstListed(classes: set<string>, list: seq<(string, string)>): string {
    if |list| == 0 then OtherPlatform
    else if list[0].0 in classes then list[0].1
    else FirstListed(classes, list[1..])
  }

  /** `FirstListed` picks entry i exactly when its class is present and no earlier one is. */
  lemma {:induction false} FirstListedPicksFirst(classes: set<string>, list: seq<(string, string)>)
    ensures forall i :: 0 <= i < |list| && list[i].0 in classes && (forall j :: 0 <= j < i ==> list[j].0 !in classes)
              ==> FirstListed(classes, list) == list[i].1
    ensures (forall j :: 0 <= j < |list| ==> list[j].0 !in classes) ==> FirstListed(classes, list) == OtherPlatform
  {
    if |list| > 0 {
      FirstListedPicksFirst(classes, list[1..]);
      forall i | 0 <= i < |list| && list[i].0 in classes && (forall j :: 0 <= j < i ==> list[j].0 !in classes)
        ensures FirstListed(classes, list) == list[i].1
      {
        if i > 0 {
          assert list[1..][i - 1] == list[i];
          assert forall j :: 0 <= j < i - 1 ==> list[1..][j].0 !in classes by {
            forall j | 0 <= j < i - 1 ensures list[1..][j].0 !in classes {
              assert list[1..][j] == list[j + 1];
            }
          }
        }
      }
      if forall j :: 0 <= j < |list| ==> list[j].0 !in classes {
        assert forall j :: 0 <= j < |list| - 1 ==> list[1..][j].0 !in classes by {
          forall j | 0 <= j < |list| - 1 ensures list[1..][j].0 !in classes {
            assert list[1..][j] == list[j + 1];
          }
        }
      }
    }
  }

  /**
   * The icon's name is that of the first platform in the fixed order whose
   * class it carries, and the generic name when it carries none of them.
   */
  lemma SocialPlatformIsFirstListed(classes: set<string>)
    ensures SocialPlatform(classes) == FirstListed(classes, Platforms)
    ensures forall i :: 0 <= i < |Platforms| && Platforms[i].0 in classes
                        && (forall j :: 0 <= j < i ==> Platforms[j].0 !in classes)
              ==> SocialPlatform(classes) == Platforms[i].1
    ensures SocialPlatform(classes) == OtherPlatform <==> forall j :: 0 <= j < |Platforms| ==> Platforms[j].0 !in classes
  {
    FirstListedPicksFirst(classes, Platforms);
    if "facebook" in classes {
      assert Platforms[0].0 in classes;
    } else if "youtube" in classes {
      assert Platforms[1].0 in classes;
    } else if "github" in classes {
      assert Platforms[2].0 in classes;
    } else if "linkedin" in classes {
      assert Platforms[3].0 in classes;
    }
  }
}
