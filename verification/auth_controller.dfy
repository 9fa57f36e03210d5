/** The login and logout handlers (backend/src/controllers/authController.js). */
module AuthController {
  import opened Outcomes
  import opened Json
  import opened Http
  import opened UserRepository
  import opened AuthService
  import AuthHeader
  import Hex

  /** The login answer `{ token, user }`. */
  function LoginJson(ok: LoginOk): (j: Json)
    ensures j.JObj? && j.fields.Keys == {"token", "user"}
    ensures j.fields["token"] == JStr(ok.token) && j.fields["user"] == JObj(ok.user)
  {
    JObj(map["token" := JStr(ok.token), "user" := JObj(ok.user)])
  }

  /** `POST /auth/login`: 200 `{ token, user }`, or the error's status and
      message (400 for missing credentials, 401 for bad ones).  A missing
      body reads as `{}`, so as missing credentials. */
  function LoginHandler(store: TokenStore, sha256: Hash, body: Option<Credentials>, random: seq<Hex.Byte>): (out: Step<TokenStore, Response<Json>>)
    requires |random| == 24
    ensures body.None? ==> out == Step(store, Response(400, ErrorBody("Missing credentials")))
    ensures var l := Login(store, sha256, body.GetOr(Credentials(None, None)), random);
      && out.state == l.state
      && (l.result.Ok? ==> out.result == Response(200, LoginJson(l.result.value)))
      && (l.result.Err? ==> out.result == FailureResponse(l.result.failure, "Login failed"))
  {
    var l := Login(store, sha256, body.GetOr(Credentials(None, None)), random);
    match l.result
    case Ok(ok) => Step(l.state, Response(200, LoginJson(ok)))
    case Err(e) => Step(l.state, FailureResponse(e, "Login failed"))
  }

  /** `POST /auth/logout`: always 200 `{ ok: true }`, whether or not a token
      could be read; a readable token is dropped from the store. */
  function LogoutHandler(store: TokenStore, authorization: Option<string>): (out: Step<TokenStore, Response<Json>>)
    ensures out.result == Response(200, OkTrue)
    ensures out.state == Logout(store, AuthHeader.ReadToken(authorization)).state
    ensures AuthHeader.ReadToken(authorization).None? ==> out.state == store
  {
    var l := Logout(store, AuthHeader.ReadToken(authorization));
    Step(l.state, Response(200, OkTrue))
  }
}
