/**
 * The authentication dialog controller (auth-manager.js): one-time
 * initialisation, the choice between the login and the logged-in dialog
 * from stored user data, the labels the logged-in dialog shows, logout,
 * and the login/logout events it listens to.
 */
module AuthManager {
  import opened Wrappers
  import Session
  import LoginForm

  type Storage = LoginForm.Storage

  const UserDataKey := "vba_user_data"

  /** Which dialog the manager asked for last. */
  datatype Dialog = NoDialog | LoginDialog | LoggedInDialog

  /**
   * The manager: whether `init` completed (its listeners are then
   * attached), the parsed current user, and the dialog requested.
   */
  datatype Manager = Manager(initialized: bool, currentUser: Option<Session.Profile>, dialog: Dialog)

  /** The state the constructor leaves. */
  const Constructed := Manager(false, None, NoDialog)

  /**
   * `loadDialog`: non-empty stored user data that parses selects the
   * logged-in dialog and becomes the current user; missing, empty or
   * unparseable data selects the login dialog and leaves the current user
   * as it was. `parse` stands for `JSON.parse`, `None` for a throw.
   */
  function LoadDialog(m: Manager, storage: Storage, parse: string -> Option<Session.Profile>): (r: Manager)
    ensures r.initialized == m.initialized
    ensures r.dialog == LoggedInDialog <==>
              UserDataKey in storage && storage[UserDataKey] != "" && parse(storage[UserDataKey]).Some?
    ensures r.dialog == LoggedInDialog ==> r.currentUser == parse(storage[UserDataKey])
    ensures r.dialog != LoggedInDialog ==> r.dialog == LoginDialog && r.currentUser == m.currentUser
  {
    if UserDataKey in storage && storage[UserDataKey] != "" then
      match parse(storage[UserDataKey])
      case Some(user) => m.(currentUser := Some(user), dialog := LoggedInDialog)
      case None => m.(dialog := LoginDialog)
    else m.(dialog := LoginDialog)
  }

  /**
   * `init`: nothing once initialised; without the `#authDialog` container
   * it gives up and stays uninitialised; otherwise it loads the dialog and
   * marks itself initialised.
   */
  function Init(m: Manager, hasContainer: bool, storage: Storage, parse: string -> Option<Session.Profile>): (r: Manager)
    ensures m.initialized ==> r == m
    ensures !m.initialized && !hasContainer ==> r == m
    ensures !m.initialized && hasContainer ==> r.initialized && r == LoadDialog(m, storage, parse).(initialized := true)
  {
    if m.initialized || !hasContainer then m
    else LoadDialog(m, storage, parse).(initialized := true)
  }

  /** A second `init`, whatever the page then holds, changes nothing. */
  lemma InitIdempotent(m: Manager, hasContainer: bool, storage: Storage, parse: string -> Option<Session.Profile>,
                       hasContainer2: bool, storage2: Storage, parse2: string -> Option<Session.Profile>)
    ensures Init(Init(m, hasContainer, storage, parse), hasContainer2, storage2, parse2)
            == Init(m, hasContainer, storage, parse) || !Init(m, hasContainer, storage, parse).initialized
    ensures Init(m, hasContainer, storage, parse).initialized <==> m.initialized || hasContainer
  {
  }

  const UnknownName := "Không xác định"
  const AdministratorLabel := "Quản trị viên"
  const ModeratorLabel := "Người kiểm duyệt"
  const UserLabel := "Người dùng"

  /** The name `updateUserInfo` shows: `username || account || 'Không xác định'`. */
  function DisplayName(user: Session.Profile): (r: string)
    ensures r != ""
    ensures user.username != "" ==> r == user.username
    ensures user.username == "" && user.account != "" ==> r == user.account
    ensures user.username == "" && user.account == "" ==> r == UnknownName
  {
    if user.username != "" then user.username
    else if user.account != "" then user.account
    else UnknownName
  }

  /** The role `updateUserInfo` shows for an authority level (a missing level counts as 0). */
  function AuthorityLabel(level: int): (r: string)
    ensures r == AdministratorLabel <==> level == 1
    ensures r == ModeratorLabel <==> level == 2
    ensures r == UserLabel <==> level != 1 && level != 2
  {
    if level == 1 then AdministratorLabel
    else if level == 2 then ModeratorLabel
    else UserLabel
  }

  /**
   * The dialog agrees with the login session: for a coherent signed-in
   * session the name shown is the session's user name (the unknown-name
   * label when that is empty), and the role label for the profile's level
   * (`authorities || 0`) follows the session's `hasAuthority` checks.
   */
  lemma LabelsFollowSession(s: Session.Session)
    requires Session.Coherent(s) && Session.IsLoggedIn(s)
    ensures var p := s.information.value;
            var role := AuthorityLabel(p.authorities.GetOr(0));
            DisplayName(p) == (if Session.CurrentUsername(s) != "" then Session.CurrentUsername(s) else UnknownName)
            && (role == AdministratorLabel <==> Session.HasAuthority(s, 1) && !Session.HasAuthority(s, 2))
            && (role == ModeratorLabel <==> Session.HasAuthority(s, 2) && !Session.HasAuthority(s, 3))
            && (role == UserLabel <==> !Session.HasAuthority(s, 1) || Session.HasAuthority(s, 3))
  {
  }

  /** The toast `performLogout` shows. */
  const LoggedOutMessage := "Đã đăng xuất thành công"

  /**
   * `performLogout`: sign the session out when the login module is loaded,
   * remove the three stored keys, forget the current user and go back to
   * the login dialog.
   */
  function PerformLogout(m: Manager, s: Session.Session, hasLoginProcess: bool, storage: Storage)
    : (r: (Manager, Session.Session, Storage))
    ensures r.0.currentUser.None? && r.0.dialog == LoginDialog && r.0.initialized == m.initialized
    ensures r.1 == (if hasLoginProcess then Session.Logout(s).0 else s)
    ensures UserDataKey !in r.2 && LoginForm.UsernameKey !in r.2 && LoginForm.RememberKey !in r.2
    ensures forall k :: k in storage && k != UserDataKey && k != LoginForm.UsernameKey && k != LoginForm.RememberKey
              ==> k in r.2 && r.2[k] == storage[k]
    ensures r.2.Keys <= storage.Keys
  {
    (m.(currentUser := None, dialog := LoginDialog),
     if hasLoginProcess then Session.Logout(s).0 else s,
     storage - {UserDataKey, LoginForm.UsernameKey, LoginForm.RememberKey})
  }

  /**
   * After logout nothing on the page remembers the user: the session is
   * signed out, no name is pre-filled, and a fresh manager on the next visit
   * chooses the login dialog with no current user.
   */
  lemma LogoutForgetsUser(m: Manager, s: Session.Session, storage: Storage, parse: string -> Option<Session.Profile>)
    ensures var (_, s2, storage2) := PerformLogout(m, s, true, storage);
            !Session.IsLoggedIn(s2)
            && LoginForm.CheckSavedLogin(storage2, true, true).None?
            && Init(Constructed, true, storage2, parse) == Manager(true, None, LoginDialog)
  {
  }

  /** The events `setupEventListeners` subscribes to. */
  datatype Event = UserLoggedIn(userData: Option<Session.Profile>) | UserLoggedOut

  /**
   * A dispatched event: ignored until `init` has attached the listeners; a
   * login event without user data is ignored too; logout always clears.
   */
  function OnEvent(m: Manager, e: Event): (r: Manager)
    ensures !m.initialized ==> r == m
    ensures m.initialized && e.UserLoggedIn? && e.userData.Some? ==>
              r == m.(currentUser := e.userData, dialog := LoggedInDialog)
    ensures m.initialized && e.UserLoggedIn? && e.userData.None? ==> r == m
    ensures m.initialized && e.UserLoggedOut? ==> r.currentUser.None? && r.dialog == LoginDialog
    ensures r.initialized == m.initialized
  {
    if !m.initialized then m
    else match e
      case UserLoggedIn(data) =>
        if data.Some? then m.(currentUser := data, dialog := LoggedInDialog) else m
      case UserLoggedOut => m.(currentUser := None, dialog := LoginDialog)
  }

  /** The logged-in dialog is shown exactly when there is a current user, in every reachable state. */
  ghost predicate Consistent(m: Manager) {
    (m.dialog == LoggedInDialog ==> m.currentUser.Some?) && (m.dialog == LoginDialog ==> m.currentUser.None?)
  }

  /**
   * Every step keeps the dialog in line with the current user: the login
   * dialog never shows beside a stale user once one was cleared, and the
   * logged-in dialog always has a user to describe.
   */
  lemma StepsKeepConsistent(m: Manager, e: Event, s: Session.Session, storage: Storage,
                            parse: string -> Option<Session.Profile>)
    requires Consistent(m)
    ensures Consistent(OnEvent(m, e))
    ensures Consistent(PerformLogout(m, s, true, storage).0)
    ensures m.currentUser.None? ==> Consistent(Init(m, true, storage, parse))
  {
  }
}
