/** Login, logout and token resolution (backend/src/services/authService.js).

    The token store is a map from token to user id that lives as long as the
    process.  `crypto.randomBytes(24)` is the parameter `random`: whatever 24
    bytes the generator produced.  Nothing here assumes two logins draw
    different bytes; the code does not check for collisions either.
 */
module AuthService {
  import opened Outcomes
  import opened Json
  import opened UserEntity
  import opened UserRepository
  import Hex
  import Text
  import Http

  type TokenStore = map<string, string>

  /** The store at process start. */
  const NoTokens: TokenStore := map[]

  /** What a successful login answers: the token and the public user view. */
  datatype LoginOk = LoginOk(token: string, user: Obj)

  /** `{ username, password }`; None stands for a missing property or `null`. */
  datatype Credentials = Credentials(username: Option<string>, password: Option<string>)

  const MissingCredentials: Failure := Failure(Some(400), "Missing credentials")
  const InvalidCredentials: Failure := Failure(Some(401), "Invalid credentials")

  /** `!username || !password`. */
  predicate Missing(c: Credentials)
  {
    c.username.None? || c.username.value == "" || c.password.None? || c.password.value == ""
  }

  /** `makeToken()`: the 24 random bytes as 48 lower-case hex characters,
      from which the bytes can be read back. */
  function MakeToken(random: seq<Hex.Byte>): (t: string)
    requires |random| == 24
    ensures |t| == 48
    ensures forall i :: 0 <= i < |t| ==> Hex.IsHexChar(t[i])
    ensures Hex.Decode(t) == Some(random)
  {
    Hex.DecodeEncode(random);
    Hex.Encode(random)
  }

  /** `login({ username, password })`.  Missing fields: 400.  Unknown user or
      wrong password: the same 401, so a caller cannot tell which.  Success:
      the new token is mapped to the user's id, every other entry is kept,
      and the answer carries the token and the public view. */
  function Login(store: TokenStore, sha256: Hash, c: Credentials, random: seq<Hex.Byte>): (out: Step<TokenStore, Result<LoginOk>>)
    requires |random| == 24
    ensures Missing(c) ==> out == Step(store, Err(MissingCredentials))
    ensures !Missing(c) && FindByUsername(sha256, c.username.value).None? ==> out == Step(store, Err(InvalidCredentials))
    ensures !Missing(c) && FindByUsername(sha256, c.username.value).Some?
            && sha256(c.password.value) != FindByUsername(sha256, c.username.value).value.passwordHash
            ==> out == Step(store, Err(InvalidCredentials))
    ensures !Missing(c) && FindByUsername(sha256, c.username.value).Some?
            && sha256(c.password.value) == FindByUsername(sha256, c.username.value).value.passwordHash
            ==> out.result.Ok?
    ensures out.result.Ok? ==>
      var u := FindByUsername(sha256, c.username.value).value;
      && !Missing(c)
      && sha256(c.password.value) == u.passwordHash
      && out.result.value == LoginOk(MakeToken(random), PublicView(u))
      && out.state == store[MakeToken(random) := u.id]
    ensures out.result.Err? ==> out.state == store
  {
    if Missing(c) then Step(store, Err(MissingCredentials))
    else
      match FindByUsername(sha256, c.username.value)
      case None => Step(store, Err(InvalidCredentials))
      case Some(u) =>
        if sha256(c.password.value) != u.passwordHash then Step(store, Err(InvalidCredentials))
        else
          var token := MakeToken(random);
          Step(store[token := u.id], Ok(LoginOk(token, PublicView(u))))
  }

  /** `logout(token)`: drops that one token if present and always answers
      `{ ok: true }`; an absent (`null`) or unknown token changes nothing. */
  function Logout(store: TokenStore, token: Option<string>): (out: Step<TokenStore, Json>)
    ensures out.result == Http.OkTrue
    ensures token.None? ==> out.state == store
    ensures token.Some? ==> out.state.Keys == store.Keys - {token.value}
    ensures forall t :: t in out.state ==> t in store && out.state[t] == store[t]
  {
    match token
    case None => Step(store, Http.OkTrue)
    case Some(t) => Step(if t in store then store - {t} else store, Http.OkTrue)
  }

  /** `getUserFromToken(token)`: None (`null`) for a token that is not in the
      store or maps to an empty id, otherwise the public view of the user with
      that id, or None if there is no such user. */
  function GetUserFromToken(store: TokenStore, sha256: Hash, token: string): (r: Option<Obj>)
    ensures token !in store || store[token] == "" ==> r.None?
    ensures token in store && store[token] != "" ==>
      r == (match FindById(sha256, store[token]) case None => None case Some(u) => Some(PublicView(u)))
  {
    if token !in store || store[token] == "" then None
    else
      match FindById(sha256, store[token])
      case None => None
      case Some(u) => Some(PublicView(u))
  }

  /** Logging out twice is logging out once. */
  lemma LogoutIdempotent(store: TokenStore, token: Option<string>)
    ensures Logout(Logout(store, token).state, token) == Logout(store, token)
  {
  }

  /** The two refusals of a well-formed login are identical, whether the
      name is unknown or the password wrong. */
  lemma LoginFailuresIndistinguishable(store: TokenStore, sha256: Hash, unknown: Credentials, wrong: Credentials, random: seq<Hex.Byte>)
    requires |random| == 24
    requires !Missing(unknown) && FindByUsername(sha256, unknown.username.value).None?
    requires !Missing(wrong) && FindByUsername(sha256, wrong.username.value).Some?
    requires sha256(wrong.password.value) != FindByUsername(sha256, wrong.username.value).value.passwordHash
    ensures Login(store, sha256, unknown, random) == Login(store, sha256, wrong, random)
  {
  }

  /** After a successful login the new token resolves to the user's public
      view. */
  lemma LoginThenResolve(store: TokenStore, sha256: Hash, c: Credentials, random: seq<Hex.Byte>)
    requires |random| == 24
    requires Login(store, sha256, c, random).result.Ok?
    ensures var out := Login(store, sha256, c, random);
            GetUserFromToken(out.state, sha256, out.result.value.token) == Some(out.result.value.user)
  {
    var u := FindByUsername(sha256, c.username.value).value;
    FindAdminByName(sha256, c.username.value);
    FindAdminById(sha256, u.id);
  }

  /** After logout the token resolves to nothing. */
  lemma LogoutRevokes(store: TokenStore, sha256: Hash, token: string)
    ensures GetUserFromToken(Logout(store, Some(token)).state, sha256, token).None?
  {
  }

  /** The seeded credentials log in under any capitalisation of "admin",
      for every hash function. */
  lemma AdminCanLogIn(store: TokenStore, sha256: Hash, username: string, random: seq<Hex.Byte>)
    requires |random| == 24 && Text.ToLower(username) == "admin"
    ensures var out := Login(store, sha256, Credentials(Some(username), Some("heslo")), random);
            out.result.Ok? && out.result.value.user == PublicView(Admin(sha256))
  {
    FindAdminByName(sha256, username);
  }

  // The store over the life of the process.

  /** A request the service serves: a login with the credentials and the 24
      bytes drawn for its token, or a logout of the token read from the
      header (None when none could be read). */
  datatype Request = LoginRequest(c: Credentials, random: seq<Hex.Byte>) | LogoutRequest(token: Option<string>)

  /** Every login draws the 24 bytes `crypto.randomBytes(24)` gives. */
  predicate WellDrawn(reqs: seq<Request>)
  {
    forall i :: 0 <= i < |reqs| && reqs[i].LoginRequest? ==> |reqs[i].random| == 24
  }

  /** The store after serving each request in turn, from `store`. */
  function Run(store: TokenStore, sha256: Hash, reqs: seq<Request>): TokenStore
    requires WellDrawn(reqs)
    decreases |reqs|
  {
    if |reqs| == 0 then store
    else
      var before := Run(store, sha256, reqs[..|reqs| - 1]);
      match reqs[|reqs| - 1]
      case LoginRequest(c, random) => Login(before, sha256, c, random).state
      case LogoutRequest(token) => Logout(before, token).state
  }

  /** Every token in the store maps to the id of a user of the directory. */
  ghost predicate TokensKnown(store: TokenStore, sha256: Hash)
  {
    forall t :: t in store ==> FindById(sha256, store[t]).Some?
  }

  /** A login maps its new token to the id of the user it found, so every
      token stays mapped to a known user. */
  lemma LoginKeepsTokensKnown(store: TokenStore, sha256: Hash, c: Credentials, random: seq<Hex.Byte>)
    requires TokensKnown(store, sha256) && |random| == 24
    ensures TokensKnown(Login(store, sha256, c, random).state, sha256)
  {
    var l := Login(store, sha256, c, random);
    if l.result.Ok? {
      var u := FindByUsername(sha256, c.username.value).value;
      assert u in Users(sha256);
      var token := MakeToken(random);
      forall t | t in l.state
        ensures FindById(sha256, l.state[t]).Some?
      {
        if t == token {
          FindAdminById(sha256, u.id);
        } else {
          assert l.state[t] == store[t];
        }
      }
    }
  }

  /** A logout only drops entries, so every token stays mapped to a known user. */
  lemma LogoutKeepsTokensKnown(store: TokenStore, sha256: Hash, token: Option<string>)
    requires TokensKnown(store, sha256)
    ensures TokensKnown(Logout(store, token).state, sha256)
  {
  }

  /** From process start, whatever logins and logouts happen, every token the
      store holds belongs to a user of the directory, so it resolves to the
      administrator's public view, the only user there is. */
  lemma {:induction false} TokensAlwaysResolve(sha256: Hash, reqs: seq<Request>)
    requires WellDrawn(reqs)
    ensures TokensKnown(Run(NoTokens, sha256, reqs), sha256)
    ensures var store := Run(NoTokens, sha256, reqs);
      forall t :: t in store ==> GetUserFromToken(store, sha256, t) == Some(PublicView(Admin(sha256)))
    decreases |reqs|
  {
    var store := Run(NoTokens, sha256, reqs);
    if |reqs| > 0 {
      var prefix := reqs[..|reqs| - 1];
      TokensAlwaysResolve(sha256, prefix);
      var before := Run(NoTokens, sha256, prefix);
      match reqs[|reqs| - 1]
      case LoginRequest(c, random) => LoginKeepsTokensKnown(before, sha256, c, random);
      case LogoutRequest(token) => LogoutKeepsTokensKnown(before, sha256, token);
    }
    forall t | t in store
      ensures GetUserFromToken(store, sha256, t) == Some(PublicView(Admin(sha256)))
    {
      FindAdminById(sha256, store[t]);
    }
  }
}
