/** Accounts and sessions: registration, login, logout and the gate in front of
    every protected page. The session is the logged-in user's id, or nothing.
    Password hashing and checking belong to a crypto library: registration is
    handed the hash it produced, and login is handed its comparison. */
module Auth {
  import opened Tables

  type Session = Option<nat>

  /** The two outcomes of POST /register: the form re-rendered with
      "fill in the fields" (400), or a redirect to the login page. */
  datatype RegisterReply = FillInFields | RedirectToLogin

  /** The outcomes of POST /login: on to the dashboard, or the form re-rendered
      (401) with "wrong data" for an unknown username or "wrong password". */
  datatype LoginReply = RedirectToDashboard | UnknownUser | WrongPassword

  /** Every protected page redirects to the login page when no user is in session. */
  datatype Denied = RedirectToLoginPage

  datatype Gated = Admit(userId: nat) | Deny(reason: Denied)

  /** POST /register. An empty username or password is refused. Otherwise one
      user row is inserted with the hash of the password; when the username is
      already taken the unique index makes that insert fail, the failure is
      ignored, and the reply is the same redirect. */
  function Register(s: Store, username: string, password: string, hashed: string): (r: (Store, RegisterReply))
    ensures username == "" || password == "" ==> r == (s, FillInFields)
    ensures username != "" && password != "" ==> r.1 == RedirectToLogin
    ensures r.0.runs == s.runs && r.0.drops == s.drops
    ensures UsernameTaken(s.users, username) ==> r.0 == s
    ensures username != "" && password != "" && !UsernameTaken(s.users, username) ==>
      r.0.users == s.users + [User(NextId(UserIds(s.users)), username, hashed)]
    ensures r.1 == RedirectToLogin ==> UsernameTaken(r.0.users, username)
    ensures WellFormed(s) ==> WellFormed(r.0)
  {
    if username == "" || password == "" then
      (s, FillInFields)
    else if UsernameTaken(s.users, username) then
      (s, RedirectToLogin)
    else
      var user := User(NextId(UserIds(s.users)), username, hashed);
      AddUserKeepsWellFormed(s, user);
      (s.(users := s.users + [user]), RedirectToLogin)
  }

  lemma AddUserKeepsWellFormed(s: Store, user: User)
    requires user.id == NextId(UserIds(s.users))
    requires !UsernameTaken(s.users, user.username)
    ensures UsernameTaken(s.users + [user], user.username)
    ensures WellFormed(s) ==> WellFormed(s.(users := s.users + [user]))
  {
    var users' := s.users + [user];
    var s' := s.(users := users');
    assert users'[|s.users|] == user;
    if WellFormed(s) {
      AppendNextId(UserIds(s.users));
      assert UserIds(users') == UserIds(s.users) + [user.id];
      forall i, j | 0 <= i < j < |users'| ensures users'[i].username != users'[j].username {
        if j == |s.users| {
          assert users'[i] == s.users[i];
        }
      }
    }
  }

  /** Registration changes the user table by at most one row. */
  lemma RegisterAddsAtMostOne(s: Store, username: string, password: string, hashed: string)
    ensures var s' := Register(s, username, password, hashed).0;
      s'.users == s.users || (|s'.users| == |s.users| + 1 && s'.users[..|s.users|] == s.users)
  {
    var s' := Register(s, username, password, hashed).0;
    if s'.users != s.users {
      assert s'.users[..|s.users|] == s.users;
    }
  }

  /** The user row a username lookup finds: the first, that is the lowest id,
      with that username. */
  function FindUser(users: seq<User>, username: string): (r: Option<nat>)
    ensures r.None? <==> !UsernameTaken(users, username)
    ensures r.Some? ==> r.value < |users| && users[r.value].username == username
    ensures r.Some? ==> forall k :: 0 <= k < r.value ==> users[k].username != username
  {
    if |users| == 0 then None
    else if users[0].username == username then Some(0)
    else match FindUser(users[1..], username)
      case None => None
      case Some(k) => Some(k + 1)
  }

  /** POST /login. `matches(hash, password)` is the crypto library's check of
      a password against a stored hash. A successful login puts the user's id in
      the session; a failed one leaves the session as it was. */
  function Login(session: Session, s: Store, username: string, password: string,
                 matches: (string, string) -> bool): (r: (Session, LoginReply))
    ensures r.1 == UnknownUser <==> !UsernameTaken(s.users, username)
    ensures r.1 == RedirectToDashboard ==>
      exists k :: 0 <= k < |s.users| && s.users[k].username == username && r.0 == Some(s.users[k].id)
        && matches(s.users[k].password, password)
    ensures UniqueUsernames(s.users) && r.1 != RedirectToDashboard ==>
      forall k :: 0 <= k < |s.users| && s.users[k].username == username ==>
        !matches(s.users[k].password, password)
    ensures r.1 != RedirectToDashboard ==> r.0 == session
  {
    match FindUser(s.users, username)
    case None => (session, UnknownUser)
    case Some(k) =>
      if matches(s.users[k].password, password) then (Some(s.users[k].id), RedirectToDashboard)
      else (session, WrongPassword)
  }

  /** With unique usernames, a password the check rejects for that user never
      logs in: the reply is "wrong password" and the session is unchanged. */
  lemma WrongPasswordNeverLogsIn(session: Session, s: Store, k: nat, password: string,
                                 matches: (string, string) -> bool)
    requires WellFormed(s)
    requires k < |s.users| && !matches(s.users[k].password, password)
    ensures Login(session, s, s.users[k].username, password, matches) == (session, WrongPassword)
  {
    var r := FindUser(s.users, s.users[k].username);
    assert r.Some?;
    assert r.value == k;
  }

  /** GET /logout: the session is cleared, whatever it held, and from then on
      every protected page is refused. */
  function Logout(session: Session): (r: Session)
    ensures Gate(r).Deny?
  {
    None
  }

  /** The authentication middleware: a request passes only when a user id is in
      the session, and the handler then acts as that user. */
  function Gate(session: Session): (r: Gated)
    ensures r.Admit? <==> session.Some?
    ensures r.Admit? ==> r.userId == session.value
  {
    match session
    case None => Deny(RedirectToLoginPage)
    case Some(id) => Admit(id)
  }

  /** After a successful login the gate admits exactly the user who logged in. */
  lemma LoginThenGate(session: Session, s: Store, username: string, password: string,
                      matches: (string, string) -> bool)
    requires Login(session, s, username, password, matches).1 == RedirectToDashboard
    ensures var g := Gate(Login(session, s, username, password, matches).0);
      g.Admit? && exists k :: 0 <= k < |s.users| && s.users[k].username == username && s.users[k].id == g.userId
  {
  }
}
