/** `GET /users/me` (backend/src/controllers/usersController.js). */
module UsersController {
  import opened Outcomes
  import opened Json
  import opened Http
  import opened UserEntity
  import opened UserRepository
  import opened AuthService
  import AuthHeader
  import Text
  import Hex

  const Unauthorized: Response<Json> := Response(401, ErrorBody("Unauthorized"))

  /** 401 when no token can be read from the header or the token resolves to
      no user, otherwise 200 with that user's public view. */
  function GetMe(store: TokenStore, sha256: Hash, authorization: Option<string>): (r: Response<Json>)
    ensures AuthHeader.ReadToken(authorization).None? ==> r == Unauthorized
    ensures AuthHeader.ReadToken(authorization).Some? ==>
      var u := GetUserFromToken(store, sha256, AuthHeader.ReadToken(authorization).value);
      r == (if u.None? then Unauthorized else Response(200, JObj(u.value)))
  {
    match AuthHeader.ReadToken(authorization)
    case None => Unauthorized
    case Some(token) =>
      match GetUserFromToken(store, sha256, token)
      case None => Unauthorized
      case Some(u) => Response(200, JObj(u))
  }

  /** Logging in as the administrator and presenting the token as
      `Bearer <token>` answers 200 with the administrator's public view;
      after logging out with the same header the answer is 401. */
  lemma LoginMeLogout(store: TokenStore, sha256: Hash, random: seq<Hex.Byte>)
    requires |random| == 24
    ensures var login := Login(store, sha256, Credentials(Some("admin"), Some("heslo")), random);
            && login.result.Ok?
            && var header := Some("Bearer " + login.result.value.token);
               && GetMe(login.state, sha256, header) == Response(200, JObj(PublicView(Admin(sha256))))
               && GetMe(Logout(login.state, AuthHeader.ReadToken(header)).state, sha256, header) == Unauthorized
  {
    var c := Credentials(Some("admin"), Some("heslo"));
    assert Text.ToLower("admin") == "admin";
    AdminCanLogIn(store, sha256, "admin", random);
    var login := Login(store, sha256, c, random);
    var token := MakeToken(random);
    assert login.result.value.token == token;
    assert ' ' !in token;
    var header := Some("Bearer " + token);
    AuthHeader.ReadsClientHeader(token);
    LoginThenResolve(store, sha256, c, random);
    assert GetUserFromToken(login.state, sha256, token) == Some(PublicView(Admin(sha256)));
    LogoutRevokes(login.state, sha256, token);
  }
}
