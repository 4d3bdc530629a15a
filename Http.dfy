/** FastAPI's `HTTPException` and the `Authorization: Bearer <token>` parser
    that the inventory router and the mines router each define, with the same
    text, as `get_current_user_id`. Decoding the JWT is foreign code
    (PyJWT behind `AuthService.decode_access_token`); it is a parameter that
    yields the user id or `None` when decoding raises. */
module Http {
  import opened Wrappers
  import opened Strings

  datatype HttpException = HttpException(statusCode: int, detail: string)

  const MissingHeader := HttpException(401, "Authorization header missing")
  const InvalidFormat := HttpException(401, "Invalid authorization format")
  const InvalidToken := HttpException(401, "Invalid token")

  /** `h` is a scheme, one space and `token`, with no other space, and the
      scheme reads "bearer" in any ASCII letter case. */
  predicate IsBearerHeader(h: string, token: string) {
    && |h| >= |token| + 1
    && var i := |h| - |token| - 1;
    && h[i] == ' ' && h[i + 1..] == token
    && ' ' !in h[..i] && ' ' !in token
    && AsciiLower(h[..i]) == "bearer"
  }

  /** `get_current_user_id(authorization)`. */
  function GetCurrentUserId(authorization: Option<string>, decode: string -> Option<int>): (r: Result<int, HttpException>)
    ensures r.Err? ==> r.error.statusCode == 401
  {
    if authorization.None? || authorization.value == "" then
      Err(MissingHeader)
    else
      var parts := Split(authorization.value, ' ');
      if |parts| != 2 || AsciiLower(parts[0]) != "bearer" then
        Err(InvalidFormat)
      else
        var token := parts[1];
        match decode(token)
        case None => Err(InvalidToken)
        case Some(userId) => Ok(userId)
  }

  /** What the parser accepts, in both directions: a missing or empty header
      is rejected as missing; a header of the form "bearer <token>" (exactly
      one space, scheme in any case) yields the decoded id of exactly that
      token, or "Invalid token" when decoding fails; any other header is an
      invalid format. */
  lemma GetCurrentUserIdSpec(authorization: Option<string>, decode: string -> Option<int>)
    ensures authorization.None? || authorization.value == "" ==>
              GetCurrentUserId(authorization, decode) == Err(MissingHeader)
    ensures forall token :: authorization.Some? && IsBearerHeader(authorization.value, token) ==>
              GetCurrentUserId(authorization, decode) ==
                (if decode(token).Some? then Ok(decode(token).value) else Err(InvalidToken))
    ensures authorization.Some? && authorization.value != "" &&
            (forall token :: !IsBearerHeader(authorization.value, token)) ==>
              GetCurrentUserId(authorization, decode) == Err(InvalidFormat)
  {
    if authorization.Some? && authorization.value != "" {
      var h := authorization.value;
      forall token | IsBearerHeader(h, token)
        ensures GetCurrentUserId(authorization, decode) ==
                  (if decode(token).Some? then Ok(decode(token).value) else Err(InvalidToken))
      {
        var i := |h| - |token| - 1;
        assert h == h[..i] + [' '] + token;
        SplitAroundOne(h[..i], token, ' ');
      }
      var parts := Split(h, ' ');
      if |parts| == 2 && AsciiLower(parts[0]) == "bearer" {
        SplitIntoTwo(h, ' ');
        assert h[..|h| - |parts[1]| - 1] == parts[0];
        assert IsBearerHeader(h, parts[1]);
      }
    }
  }
}
