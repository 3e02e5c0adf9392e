/**
 * The login session (login-process.js): five page-wide variables held as
 * one record, the login transition driven by the server's answer, and the
 * queries and logout built on them.
 */
module Session {
  import opened Wrappers

  /** `userLoginStatus`: "" before any login and after logout. */
  datatype Status = Unset | LoggedIn | NotLoggedIn

  /**
   * The `data` object of a successful answer; "" stands for an absent text
   * field and `None` for an absent (or otherwise falsy) `authorities`.
   */
  datatype Profile = Profile(username: string, account: string, authorities: Option<int>, birthday: string)

  /**
   * `userInformation`, `userLoginStatus`, `userName`, `userAuthorities` and
   * `userBirthday`; `None` stands for the empty string the code stores when
   * nobody is signed in.
   */
  datatype Session = Session(
    information: Option<Profile>,
    status: Status,
    userName: string,
    authorities: Option<int>,
    birthday: string)

  /** The values the page starts with. */
  const Initial := Session(None, Unset, "", None, "")

  /**
   * What the request produced: a thrown error (the fetch failed or the body
   * was not JSON) with its message, or a parsed answer.
   */
  datatype Response =
    | Thrown(message: string)
    | Answered(ok: bool, status: int, success: bool, data: Option<Profile>, message: string, error: string)

  /** What `loginProcess` resolves to. */
  datatype LoginResult =
    | Succeeded(message: string, username: string, profile: Profile)
    | Rejected(error: string, statusCode: int)
    | ConnectionError(error: string)

  const DefaultRejection := "Đăng nhập thất bại"
  const ConnectionPrefix := "Lỗi kết nối: "

  /**
   * The message of the TypeError raised when a successful answer carries no
   * `data`; it depends on the JavaScript engine, so it is a fixed stand-in.
   */
  const MissingDataMessage := "result.data is undefined"

  /** `username || account`. */
  function DisplayedName(p: Profile): (r: string)
    ensures r == "" <==> p.username == "" && p.account == ""
    ensures p.username != "" ==> r == p.username
  {
    if p.username != "" then p.username else p.account
  }

  /** The state both failure paths leave behind. */
  const SignedOut := Session(None, NotLoggedIn, "", None, "")

  /**
   * `loginProcess`: an ok response whose body reports success signs the
   * profile in; any other answer signs out and reports the server's error
   * (or the default); a thrown error signs out and reports a connection
   * error. A successful answer without `data` throws inside the success
   * branch and so ends on the connection-error path.
   */
  function Login(s: Session, response: Response): (r: (Session, LoginResult))
    ensures r.1.Succeeded? <==> response.Answered? && response.ok && response.success && response.data.Some?
    ensures r.1.Succeeded? ==>
              r.0.status == LoggedIn && r.0.information == Some(r.1.profile)
              && r.1.profile == response.data.value
              && r.0.userName == DisplayedName(r.1.profile) == r.1.username
              && r.0.authorities == Some(r.1.profile.authorities.GetOr(0))
              && r.0.birthday == r.1.profile.birthday
              && r.1.message == response.message
    ensures !r.1.Succeeded? ==> r.0 == SignedOut
    ensures r.1.Rejected? <==> response.Answered? && !(response.ok && response.success)
    ensures r.1.Rejected? ==>
              r.1.statusCode == response.status
              && r.1.error == (if response.error != "" then response.error else DefaultRejection)
    ensures r.1.ConnectionError? ==>
              r.1.error == ConnectionPrefix + (if response.Thrown? then response.message else MissingDataMessage)
  {
    match response
    case Thrown(message) => (SignedOut, ConnectionError(ConnectionPrefix + message))
    case Answered(ok, status, success, data, message, error) =>
      if ok && success then
        match data
        case None => (SignedOut, ConnectionError(ConnectionPrefix + MissingDataMessage))
        case Some(p) =>
          (Session(Some(p), LoggedIn, DisplayedName(p), Some(p.authorities.GetOr(0)), p.birthday),
           Succeeded(message, DisplayedName(p), p))
      else
        (SignedOut, Rejected(if error != "" then error else DefaultRejection, status))
  }

  /** `isLoggedIn`. */
  predicate IsLoggedIn(s: Session) {
    s.status == LoggedIn && s.information.Some?
  }

  /** `getCurrentUsername`. */
  function CurrentUsername(s: Session): (r: string)
    ensures s.userName == "" ==> r == ""
    ensures r == s.userName
  {
    if s.userName != "" then s.userName else ""
  }

  /** `hasAuthority(n)`: the stored level, 0 when empty, is at least n. */
  predicate HasAuthority(s: Session, required: int) {
    s.authorities.GetOr(0) >= required
  }

  /** What `logoutProcess` returns. */
  datatype LogoutReply = LogoutReply(success: bool, message: string)

  const LoggedOutText := "Đã đăng xuất"

  /**
   * `logoutProcess`: every variable back to "" (status too, not
   * "not_logged_in"), and a reply that always reports success.
   */
  function Logout(s: Session): (r: (Session, LogoutReply))
    ensures r.0 == Initial && r.0.status == Unset
    ensures r.1.success && r.1.message == LoggedOutText
  {
    (Session(None, Unset, "", None, ""), LogoutReply(true, LoggedOutText))
  }

  /** A login leaves the user signed in exactly when it succeeds, whatever came before. */
  lemma LoginDecidesSignIn(s: Session, response: Response)
    ensures IsLoggedIn(Login(s, response).0) <==> Login(s, response).1.Succeeded?
    ensures forall t: Session :: Login(t, response) == Login(s, response)
  {
  }

  /** Signed in, the user holds exactly the authority levels up to the profile's own. */
  lemma SignedInAuthority(s: Session, response: Response, required: int)
    requires Login(s, response).1.Succeeded?
    ensures HasAuthority(Login(s, response).0, required) <==> required <= response.data.value.authorities.GetOr(0)
  {
  }

  /**
   * After a failed login or a logout nobody is signed in, the name is
   * empty, and only non-positive levels are granted.
   */
  lemma SignedOutHasNothing(s: Session, response: Response, required: int)
    ensures var after := if Login(s, response).1.Succeeded? then Logout(s).0 else Login(s, response).0;
            !IsLoggedIn(after) && CurrentUsername(after) == ""
            && (HasAuthority(after, required) <==> required <= 0)
  {
  }

  /**
   * The five variables agree with one another: a stored profile determines
   * the name, the level (`authorities || 0`) and the birthday, and without
   * one all three are empty; "logged in" implies a profile.
   */
  predicate Coherent(s: Session) {
    match s.information
    case Some(p) =>
      s.status == LoggedIn && s.userName == DisplayedName(p)
      && s.authorities == Some(p.authorities.GetOr(0)) && s.birthday == p.birthday
    case None =>
      s.status != LoggedIn && s.userName == "" && s.authorities.None? && s.birthday == ""
  }

  /**
   * The page starts coherent and every transition, login or logout, leaves
   * it coherent whatever state it started from; in a coherent state the
   * queries read the stored profile.
   */
  lemma TransitionsKeepCoherent(s: Session, response: Response, required: int)
    ensures Coherent(Initial)
    ensures Coherent(Login(s, response).0)
    ensures Coherent(Logout(s).0)
    ensures Coherent(s) ==>
              (IsLoggedIn(s) <==> s.information.Some?)
              && (s.information.Some? ==> CurrentUsername(s) == DisplayedName(s.information.value)
                                          && (HasAuthority(s, required) <==> required <= s.information.value.authorities.GetOr(0)))
              && (s.information.None? ==> CurrentUsername(s) == "" && (HasAuthority(s, required) <==> required <= 0))
  {
  }
}
