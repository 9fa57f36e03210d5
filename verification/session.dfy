/** The client's login session (frontend/src/hooks/useUser.js): the token
    kept in local storage under 'authToken', the signed-in user, a loading
    flag and the last error.  Each operation is one atomic transition taking
    the outcome of its remote call as a parameter. */
module Session {
  import opened Outcomes
  import opened Json
  import AuthService
  import AuthController
  import UserEntity
  import UserRepository
  import Hex
  import Text
  import AuthHeader
  import UsersController
  import ApiClient

  datatype Session = Session(token: Json, user: Json, loading: bool, error: Option<Failure>)

  /** The first render: the stored token, nobody signed in yet. */
  function Initial(storedToken: Json): (s: Session)
    ensures s.token == storedToken && s.user == JNull && !s.loading && s.error.None?
  {
    Session(storedToken, JNull, false, None)
  }

  /** Signed in: both a user and a token are present and truthy. */
  predicate IsAuthenticated(s: Session): (b: bool)
    ensures b ==> s.user != JNull && s.token != JNull
    ensures s.user == JNull || s.token == JNull || s.token == JStr("") ==> !b
    ensures s.user.JObj? && s.token.JStr? && s.token.s != "" ==> b
  {
    Truthy(s.user) && Truthy(s.token)
  }

  /** The engine's message when the login answer is empty and its token and
      user cannot be read out of it. */
  const NullAnswerMessage: string := "Cannot destructure property 'token' of '(intermediate value)' as it is null."

  /** `refreshUser()` given the outcome of `GET /users/me`. */
  function RefreshUser(s: Session, me: Result<Json>): (out: Step<Session, Result<Json>>)
    ensures out.result == me
    ensures me.Ok? ==> out.state == Session(s.token, me.value, false, None)
    ensures me.Err? ==> out.state == Session(s.token, s.user, false, Some(me.failure))
  {
    match me
    case Ok(u) => Step(s.(user := u, loading := false, error := None), me)
    case Err(e) => Step(s.(loading := false, error := Some(e)), me)
  }

  /** `doLogin(credentials)` given the login answer: a truthy token replaces
      the stored one (otherwise the old one stays), and the user becomes the
      answer's user or `null`.  An empty answer fails to destructure; a failed
      call records the error and keeps user and token. */
  function DoLogin(s: Session, answer: Result<Json>): (out: Step<Session, Result<Json>>)
    ensures answer.Err? ==> out == Step(Session(s.token, s.user, false, Some(answer.failure)), Err(answer.failure))
    ensures answer == Ok(JNull) ==>
      out == Step(Session(s.token, s.user, false, Some(Failure(None, NullAnswerMessage))), Err(Failure(None, NullAnswerMessage)))
    ensures answer.Ok? && answer.value != JNull ==>
      var t := Prop(answer.value, "token");
      var u := Prop(answer.value, "user");
      && out.state.user == (if TruthyOpt(u) then u.value else JNull)
      && out.result == Ok(out.state.user)
      && (TruthyOpt(t) ==> out.state.token == t.value)
      && (!TruthyOpt(t) ==> out.state.token == s.token)
      && !out.state.loading && out.state.error.None?
  {
    match answer
    case Err(e) => Step(s.(loading := false, error := Some(e)), Err(e))
    case Ok(data) =>
      if data == JNull then
        var e := Failure(None, NullAnswerMessage);
        Step(s.(loading := false, error := Some(e)), Err(e))
      else
        var t := Prop(data, "token");
        var u := Prop(data, "user");
        var user := if TruthyOpt(u) then u.value else JNull;
        var token := if TruthyOpt(t) then t.value else s.token;
        Step(Session(token, user, false, None), Ok(user))
  }

  /** `doLogout()`: whatever the remote logout answers, the token and user are
      cleared, loading ends and no error is left. */
  function DoLogout(s: Session, remote: Result<Json>): (out: Step<Session, Result<()>>)
    ensures out.state == Session(JNull, JNull, false, None)
    ensures out.result.Ok?
    ensures !IsAuthenticated(out.state)
  {
    Step(Session(JNull, JNull, false, None), Ok(()))
  }

  /** The mount effect.  With a stored token the profile is refreshed and, if
      that fails, the session is logged out (which also clears the error);
      without one the user is cleared. */
  function Mount(s: Session, me: Result<Json>, logoutRemote: Result<Json>): (s': Session)
    ensures !Truthy(s.token) ==> s' == s.(user := JNull) && !IsAuthenticated(s')
    ensures Truthy(s.token) && me.Err? ==> s' == Session(JNull, JNull, false, None)
    ensures Truthy(s.token) && me.Ok? ==> s' == Session(s.token, me.value, false, None)
    ensures Truthy(s.token) && me.Ok? ==> (IsAuthenticated(s') <==> Truthy(me.value))
  {
    if Truthy(s.token) then
      var refreshed := RefreshUser(s, me);
      if refreshed.result.Err? then DoLogout(refreshed.state, logoutRemote).state else refreshed.state
    else s.(user := JNull)
  }

  // The session against the server's login and profile endpoints.  The
  // token slot of the request helper holds the session's token in every flow
  // below: login and the mount effect both put a truthy token there before
  // the profile is requested.

  /** The answer the client's `getUser()` receives from `GET /users/me`,
      sending the header for the session's token. */
  function MeAnswer(store: AuthService.TokenStore, sha256: UserRepository.Hash, s: Session, statusText: string): Result<Json>
  {
    ApiClient.Delivered(UsersController.GetMe(store, sha256, ApiClient.Authorization(s.token)), statusText)
  }

  /** Signing in with the seeded administrator's credentials authenticates
      the session with the token the server minted and its public view of
      the administrator. */
  lemma AdminLoginAuthenticates(s: Session, store: AuthService.TokenStore, sha256: UserRepository.Hash, random: seq<Hex.Byte>, statusText: string)
    requires |random| == 24
    ensures var server := AuthController.LoginHandler(store, sha256, Some(AuthService.Credentials(Some("admin"), Some("heslo"))), random);
      var client := DoLogin(s, ApiClient.Delivered(server.result, statusText)).state;
      && IsAuthenticated(client)
      && client.token == JStr(AuthService.MakeToken(random))
      && client.user == JObj(UserEntity.PublicView(UserRepository.Admin(sha256)))
  {
    AuthService.AdminCanLogIn(store, sha256, "admin", random);
    assert AuthService.MakeToken(random) != "";
  }

  /** A refused login (a non-empty password that hashes differently from the
      administrator's) leaves who is signed in, and with which token, as it was,
      and records the 401 with the server's message. */
  lemma RefusedLoginKeepsSession(s: Session, store: AuthService.TokenStore, sha256: UserRepository.Hash, password: string, random: seq<Hex.Byte>, statusText: string)
    requires |random| == 24
    requires password != "" && sha256(password) != sha256("heslo")
    ensures var server := AuthController.LoginHandler(store, sha256, Some(AuthService.Credentials(Some("admin"), Some(password))), random);
      var client := DoLogin(s, ApiClient.Delivered(server.result, statusText)).state;
      && client.token == s.token && client.user == s.user
      && IsAuthenticated(client) == IsAuthenticated(s)
      && client.error == Some(Failure(Some(401), "Invalid credentials"))
  {
    assert Text.ToLower("admin") == "admin";
    UserRepository.FindAdminByName(sha256, "admin");
    var c := AuthService.Credentials(Some("admin"), Some(password));
    var l := AuthService.Login(store, sha256, c, random);
    assert UserRepository.Admin(sha256).passwordHash == sha256("heslo");
    assert l.result == Err(AuthService.InvalidCredentials);
    ApiClient.FailureReachesClient(AuthService.InvalidCredentials, "Login failed", statusText);
  }

  /** After the administrator signs in, refreshing the profile against the
      server with the token the session now holds sets the user to the
      administrator's public view and keeps the session authenticated. */
  lemma RefreshAfterAdminLogin(s: Session, store: AuthService.TokenStore, sha256: UserRepository.Hash, random: seq<Hex.Byte>, statusText: string)
    requires |random| == 24
    ensures var server := AuthController.LoginHandler(store, sha256, Some(AuthService.Credentials(Some("admin"), Some("heslo"))), random);
      var client := DoLogin(s, ApiClient.Delivered(server.result, statusText)).state;
      var refreshed := RefreshUser(client, MeAnswer(server.state, sha256, client, statusText));
      && refreshed.state == Session(client.token, JObj(UserEntity.PublicView(UserRepository.Admin(sha256))), false, None)
      && IsAuthenticated(refreshed.state)
  {
    var c := AuthService.Credentials(Some("admin"), Some("heslo"));
    var server := AuthController.LoginHandler(store, sha256, Some(c), random);
    var client := DoLogin(s, ApiClient.Delivered(server.result, statusText)).state;
    var token := AuthService.MakeToken(random);
    AdminLoginAuthenticates(s, store, sha256, random, statusText);
    UsersController.LoginMeLogout(store, sha256, random);
    assert server.state == AuthService.Login(store, sha256, c, random).state;
    assert ApiClient.Authorization(client.token) == Some("Bearer " + token);
  }

  /** Mounting with a stored token the server still knows ends signed in as
      the user the token resolves to, with the token kept. */
  lemma MountWithLiveToken(s: Session, store: AuthService.TokenStore, sha256: UserRepository.Hash, token: string, logoutRemote: Result<Json>, statusText: string)
    requires s.token == JStr(token) && token != "" && ' ' !in token
    requires AuthService.GetUserFromToken(store, sha256, token).Some?
    ensures var m := Mount(s, MeAnswer(store, sha256, s, statusText), logoutRemote);
      && m == Session(s.token, JObj(AuthService.GetUserFromToken(store, sha256, token).value), false, None)
      && IsAuthenticated(m)
  {
    AuthHeader.ReadsClientHeader(token);
  }

  /** Mounting with a stored token the server no longer knows (one that was
      logged out, say) ends signed out; a non-empty such token is also
      dropped and the failed refresh leaves no error behind. */
  lemma MountWithRevokedToken(s: Session, store: AuthService.TokenStore, sha256: UserRepository.Hash, token: string, logoutRemote: Result<Json>, statusText: string)
    requires s.token == JStr(token) && ' ' !in token
    requires AuthService.GetUserFromToken(store, sha256, token).None?
    ensures var m := Mount(s, MeAnswer(store, sha256, s, statusText), logoutRemote);
      && !IsAuthenticated(m) && m.user == JNull
      && (token != "" ==> m == Session(JNull, JNull, false, None))
  {
    if token != "" {
      AuthHeader.ReadsClientHeader(token);
    }
  }
}
