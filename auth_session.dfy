// The session cache of the front end (NewModel/frontend/src/context/AuthContext.jsx):
// `token` and `user` in local storage, the `user`, `loading` and `error`
// state, and where the app was last sent. Server replies are parameters.
module AuthSession {
  import opened Wrappers

  /** The four-field profile placeholder the context fills in. */
  datatype ProfileStub = ProfileStub(fullName: string, email: string, department: string, major: string)
  const EmptyProfile: ProfileStub := ProfileStub("", "", "", "")

  /** A user object; `profile` is None when missing or falsy. */
  datatype SessionUser = SessionUser(studentId: string, profile: Option<ProfileStub>)

  const DebugUser: SessionUser := SessionUser("debug_user", Some(EmptyProfile))

  /** What `JSON.parse(localStorage.getItem('user'))` meets: nothing, an object, or text that does not parse. */
  datatype StoredUser = NoUser | Stored(u: SessionUser) | Unparseable

  /** A request the context sends. */
  datatype Request =
    | RegisterRequest(email: string, studentId: string, collegeId: string, password: string)
    | TokenRequest(username: string, password: string)

  /** How a request ended: a 2xx reply with its token, a non-2xx reply with its `data.detail`, or a thrown fetch. */
  datatype Reply = Accepted(accessToken: string) | Rejected(detail: Detail) | FetchFailed(message: string)

  const LoginFailed: string := "Login failed"
  const RegistrationFailed: string := "Registration failed"

  /**
   * The message of the Error the handler throws for a failed reply:
   * `new Error(data.detail || fallback)` for a refusal, whose message prints
   * a validation list as "[object Object]"s, or the fetch error's own.
   */
  function FailureMessage(reply: Reply, fallback: string): (m: string)
    requires !reply.Accepted?
    ensures reply.Rejected? && reply.detail.TextDetail? && reply.detail.text != "" ==> m == reply.detail.text
    ensures reply.Rejected? && (reply.detail == NoDetail || reply.detail == TextDetail("")) ==> m == fallback
    ensures reply.Rejected? && reply.detail.ErrorList? ==> m == ObjectsText(reply.detail.count)
    ensures reply.FetchFailed? ==> m == reply.message
  {
    match reply
    case Rejected(d) => DetailMessage(d, fallback)
    case FetchFailed(msg) => msg
  }

  /** A user restored from storage gets the empty profile when it has none. */
  function WithProfile(u: SessionUser): (r: SessionUser)
    ensures r.studentId == u.studentId && r.profile.Some?
    ensures u.profile.Some? ==> r == u
  {
    if u.profile.None? then u.(profile := Some(EmptyProfile)) else u
  }

  class Session {
    var storedToken: Option<string>
    var storedUser: StoredUser
    var user: Option<SessionUser>
    var loading: bool
    var error: Option<string>
    var navigatedTo: Option<string>
    var requests: seq<Request>

    /** A signed-in user always has a stored token and a profile object. */
    ghost predicate Valid()
      reads this
    {
      user.Some? ==> storedToken.Some? && user.value.profile.Some?
    }

    /** The provider as mounted: no user yet, loading, storage as the browser holds it. */
    constructor(token: Option<string>, stored: StoredUser)
      ensures Valid()
      ensures storedToken == token && storedUser == stored
      ensures user.None? && loading && error.None? && navigatedTo.None? && requests == []
    {
      storedToken, storedUser := token, stored;
      user, loading, error, navigatedTo, requests := None, true, None, None, [];
    }

    /**
     * checkLoggedIn, run once after mount. No token (or an empty one): only
     * `loading` changes. Otherwise the stored user, or the debug default
     * when none is stored, becomes `user`, with a profile filled in; a
     * stored user that does not parse removes both keys instead.
     */
    method CheckLoggedIn()
      requires Valid() && user.None? && loading
      modifies this
      ensures Valid() && !loading
      ensures error == old(error) && navigatedTo == old(navigatedTo) && requests == old(requests)
      ensures old(storedToken).None? || old(storedToken) == Some("") ==>
                user.None? && storedToken == old(storedToken) && storedUser == old(storedUser)
      ensures old(storedToken).Some? && old(storedToken) != Some("") ==>
                match old(storedUser)
                case NoUser => user == Some(DebugUser) && storedToken == old(storedToken) && storedUser == NoUser
                case Stored(u) => user == Some(WithProfile(u)) && storedToken == old(storedToken) && storedUser == old(storedUser)
                case Unparseable => user.None? && storedToken.None? && storedUser == NoUser
    {
      if storedToken.None? || storedToken == Some("") {
        loading := false;
        return;
      }
      match storedUser {
        case NoUser =>
          user := Some(DebugUser);
        case Stored(u) =>
          user := Some(WithProfile(u));
        case Unparseable =>
          storedToken := None;
          storedUser := NoUser;
      }
      loading := false;
    }

    /**
     * login: sends the student ID and password exactly as given. A refused
     * or failed request throws before storage is touched; an accepted one
     * stores the token and a user with an empty profile, and goes to '/'.
     */
    method Login(studentId: string, password: string, reply: Reply) returns (thrown: Option<string>)
      requires Valid()
      modifies this
      ensures Valid() && !loading
      ensures requests == old(requests) + [TokenRequest(studentId, password)]
      ensures reply.Accepted? ==>
                && thrown.None? && error.None?
                && storedToken == Some(reply.accessToken)
                && storedUser == Stored(SessionUser(studentId, Some(EmptyProfile)))
                && user == Some(SessionUser(studentId, Some(EmptyProfile)))
                && navigatedTo == Some("/")
      ensures !reply.Accepted? ==>
                && thrown == Some(FailureMessage(reply, LoginFailed)) && error == thrown
                && storedToken == old(storedToken) && storedUser == old(storedUser)
                && user == old(user) && navigatedTo == old(navigatedTo)
    {
      loading := true;
      error := None;
      requests := requests + [TokenRequest(studentId, password)];
      if !reply.Accepted? {
        thrown := Some(FailureMessage(reply, LoginFailed));
        error := thrown;
        loading := false;
        return;
      }
      storedToken := Some(reply.accessToken);
      var u := SessionUser(studentId, Some(EmptyProfile));
      storedUser := Stored(u);
      user := Some(u);
      navigatedTo := Some("/");
      thrown := None;
      loading := false;
    }

    /**
     * register: on an accepted registration, `login` follows with the same
     * student ID and password, then '/'; any failure is stored in `error`
     * and thrown on.
     */
    method Register(email: string, studentId: string, collegeId: string, password: string,
                    registerReply: Reply, loginReply: Reply) returns (thrown: Option<string>)
      requires Valid()
      modifies this
      ensures Valid() && !loading
      ensures !registerReply.Accepted? ==>
                && requests == old(requests) + [RegisterRequest(email, studentId, collegeId, password)]
                && thrown == Some(FailureMessage(registerReply, RegistrationFailed)) && error == thrown
                && storedToken == old(storedToken) && storedUser == old(storedUser)
                && user == old(user) && navigatedTo == old(navigatedTo)
      ensures registerReply.Accepted? ==>
                requests == old(requests) + [RegisterRequest(email, studentId, collegeId, password),
                                             TokenRequest(studentId, password)]
      ensures registerReply.Accepted? && loginReply.Accepted? ==>
                && thrown.None? && error.None? && navigatedTo == Some("/")
                && storedToken == Some(loginReply.accessToken)
                && storedUser == Stored(SessionUser(studentId, Some(EmptyProfile)))
                && user == Some(SessionUser(studentId, Some(EmptyProfile)))
      ensures registerReply.Accepted? && !loginReply.Accepted? ==>
                && thrown == Some(FailureMessage(loginReply, LoginFailed)) && error == thrown
                && storedToken == old(storedToken) && storedUser == old(storedUser)
                && user == old(user) && navigatedTo == old(navigatedTo)
    {
      loading := true;
      error := None;
      requests := requests + [RegisterRequest(email, studentId, collegeId, password)];
      if !registerReply.Accepted? {
        thrown := Some(FailureMessage(registerReply, RegistrationFailed));
        error := thrown;
        loading := false;
        return;
      }
      thrown := Login(studentId, password, loginReply);
      if thrown.Some? {
        error := thrown;
        loading := false;
        return;
      }
      navigatedTo := Some("/");
      loading := false;
    }

    /** logout: both keys removed, no user, and the app goes to /login. */
    method Logout()
      modifies this
      ensures Valid()
      ensures storedToken.None? && storedUser == NoUser && user.None? && navigatedTo == Some("/login")
      ensures loading == old(loading) && error == old(error) && requests == old(requests)
    {
      storedToken := None;
      storedUser := NoUser;
      user := None;
      navigatedTo := Some("/login");
    }
  }
}
