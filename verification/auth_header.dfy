/** Reading the bearer token from an `Authorization` header, as the auth and
    users controllers both do (backend/src/controllers/authController.js and
    backend/src/controllers/usersController.js carry the same function).

    This is stricter and simpler than section 2.1 of RFC 6750: the header is
    cut at every single space, the scheme is the first piece compared
    case-insensitively with "bearer", the token is the second piece, and any
    further pieces are ignored.  So two spaces after the scheme give an empty
    second piece and no token.
 */
module AuthHeader {
  import opened Outcomes
  import Text

  /** `readTokenFromAuthHeader(req)`, `header` being
      `req.headers.authorization` (None when the header is absent). */
  function ReadToken(header: Option<string>): (r: Option<string>)
    ensures header.None? ==> r.None?
    ensures r.Some? ==> r.value != "" && ' ' !in r.value
  {
    var auth := header.GetOr("");
    var parts := Text.Split(auth);
    var scheme := parts[0];
    if scheme != "" && Text.ToLower(scheme) == "bearer" && |parts| >= 2 && parts[1] != "" then
      assert ' ' !in parts[1];
      Some(parts[1])
    else None
  }

  /** A header of the form `<scheme> <token>[ <anything>]` yields the token
      when the scheme is "bearer" in any capitalisation and the token is a
      non-empty run of non-space characters. */
  lemma ReadsWellFormedHeader(scheme: string, token: string, rest: string)
    requires Text.ToLower(scheme) == "bearer" && ' ' !in scheme
    requires token != "" && ' ' !in token
    requires rest == "" || rest[0] == ' '
    ensures ReadToken(Some(scheme + " " + token + rest)) == Some(token)
  {
    var h := scheme + " " + token + rest;
    if rest == "" {
      assert h == scheme + " " + token;
      Text.SplitAfterWord(scheme, token);
      Text.SplitJoin([token]);
    } else {
      assert h == scheme + " " + (token + " " + rest[1..]);
      Text.SplitAfterWord(scheme, token + " " + rest[1..]);
      Text.SplitAfterWord(token, rest[1..]);
    }
    assert "bearer" != "";
  }

  /** The header the client sends, `Bearer <token>`, yields the token. */
  lemma ReadsClientHeader(token: string)
    requires token != "" && ' ' !in token
    ensures ReadToken(Some("Bearer " + token)) == Some(token)
  {
    assert Text.ToLower("Bearer") == "bearer";
    ReadsWellFormedHeader("Bearer", token, "");
    assert "Bearer" + " " + token + "" == "Bearer " + token;
  }

  /** `header` is `<scheme> <token><rest>` with a bearer scheme and `rest`
      empty or starting at a space. */
  ghost predicate BearerShape(header: Option<string>, scheme: string, token: string, rest: string)
  {
    && Text.ToLower(scheme) == "bearer" && ' ' !in scheme
    && (rest == "" || rest[0] == ' ')
    && header == Some(scheme + " " + token + rest)
  }

  /** Conversely, whenever a token is read the header has that form. */
  lemma WellFormedWhenRead(header: Option<string>)
    requires ReadToken(header).Some?
    ensures exists scheme, rest :: BearerShape(header, scheme, ReadToken(header).value, rest)
  {
    var parts := Text.Split(header.value);
    var t := parts[1];
    var scheme := parts[0];
    var rest := if |parts| == 2 then "" else " " + Text.Join(parts[2..]);
    assert Text.Join(parts[1..]) == t + rest by {
      if |parts| > 2 {
        assert parts[1..][1..] == parts[2..];
      }
    }
    assert Text.Join(parts) == scheme + " " + Text.Join(parts[1..]);
    assert header.value == scheme + " " + t + rest;
    assert ' ' !in scheme;
    assert Text.ToLower(scheme) == "bearer";
    assert ReadToken(header).value == t;
    assert rest == "" || rest[0] == ' ';
    assert BearerShape(header, scheme, t, rest);
  }

  /** Two spaces after the scheme: the second piece is empty, so no token. */
  lemma DoubleSpaceYieldsNothing(token: string)
    ensures ReadToken(Some("Bearer  " + token)).None?
  {
    var h := "Bearer  " + token;
    assert h == "Bearer" + " " + (" " + token);
    Text.SplitAfterWord("Bearer", " " + token);
    assert (" " + token)[1..] == token;
    assert Text.Split(h)[1] == "";
  }
}
