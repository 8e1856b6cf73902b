/** The token service of src/service.py: issuing an access token at login and turning an
    `Authorization` header into the authenticated user name or one of the three
    authentication errors. Time is a whole number of seconds, passed in. */
module Auth {
  import opened Wrappers
  import Text
  import Jwt
  import Codec

  const SecretKey: string := "bentoml-cli-8r"
  const Algorithm: string := "HS256"
  const AccessTokenExpireMinutes: int := 30
  /** The lifetime of an access token, in seconds. */
  const TokenLifetime: int := AccessTokenExpireMinutes * 60

  /** `create_access_token`: a token with `sub` the user name and `exp` 30 minutes after
      `now`, signed with the service secret. It never contains a space. */
  function CreateAccessToken(username: string, now: int, hs256: Jwt.Mac): (token: string)
    ensures ' ' !in token
  {
    Jwt.Encode(Jwt.Claims(Some(username), Some(now + TokenLifetime)), SecretKey, Algorithm, hs256)
  }

  /** The three `ValueError`s `get_current_user` raises. */
  datatype AuthError = MissingOrInvalidHeader | ExpiredToken | InvalidToken

  /** The text of each error, which `predict` returns to the client. */
  function Message(e: AuthError): string {
    match e
    case MissingOrInvalidHeader => "Missing or invalid token"
    case ExpiredToken => "Expired token"
    case InvalidToken => "Invalid token"
  }

  /** How `get_current_user` ends: it returns the `sub` claim, raises one of the errors,
      or, for an authentic unexpired token without `sub`, raises a `KeyError` that neither
      `except` clause catches. */
  datatype AuthOutcome = Authenticated(username: string) | Rejected(error: AuthError) | MissingSubject

  /** The header is present, non-empty, and starts with exactly `Bearer ` (case and the
      single space included). */
  predicate HasBearerPrefix(header: Option<string>) {
    header.Some? && header.value != "" && "Bearer " <= header.value
  }

  /** After `Bearer `, `split(" ")` always has a second piece: the first piece of the rest. */
  lemma BearerSplit(header: string)
    requires "Bearer " <= header
    ensures |Text.Split(header, ' ')| >= 2
    ensures Text.Split(header, ' ')[1] == Text.Split(header[7..], ' ')[0]
  {
    assert header == "Bearer" + [' '] + header[7..];
    Text.SplitAppend("Bearer", ' ', header[7..]);
    Text.SplitNoSeparator("Bearer", ' ');
  }

  /** `auth_header.split(" ")[1]`: the text between the first and the second space (or
      the end of the header); it is empty when a space follows `Bearer ` directly or
      nothing follows it. */
  function BearerToken(header: string): (token: string)
    requires "Bearer " <= header
    ensures token <= header[7..] && ' ' !in token
    ensures |token| == |header| - 7 || header[7 + |token|] == ' '
  {
    BearerSplit(header);
    Text.SplitFirst(header[7..], ' ');
    Text.Split(header, ' ')[1]
  }

  /** `get_current_user(auth_header)` at time `now`. */
  function GetCurrentUser(header: Option<string>, now: int, hs256: Jwt.Mac): (r: AuthOutcome)
    ensures r == Rejected(MissingOrInvalidHeader) <==> !HasBearerPrefix(header)
    ensures HasBearerPrefix(header) ==>
      var token := BearerToken(header.value);
      (r == Rejected(ExpiredToken) <==> Jwt.AuthenticButExpired(token, SecretKey, [Algorithm], now, hs256)) &&
      (r == Rejected(InvalidToken) <==>
        !Jwt.ValidAt(token, SecretKey, [Algorithm], now, hs256) &&
        !Jwt.AuthenticButExpired(token, SecretKey, [Algorithm], now, hs256)) &&
      (Jwt.ValidAt(token, SecretKey, [Algorithm], now, hs256) ==>
        r == match Jwt.PayloadClaims(token).value.sub
             case Some(u) => Authenticated(u)
             case None => MissingSubject)
    ensures r.Authenticated? || r.MissingSubject? ==>
      HasBearerPrefix(header) && Jwt.ValidAt(BearerToken(header.value), SecretKey, [Algorithm], now, hs256)
  {
    if !HasBearerPrefix(header) then Rejected(MissingOrInvalidHeader)
    else
      match Jwt.Decode(BearerToken(header.value), SecretKey, [Algorithm], now, hs256)
      case Ok(claims) => if claims.sub.Some? then Authenticated(claims.sub.value) else MissingSubject
      case Err(e) => if e == Jwt.ExpiredSignature then Rejected(ExpiredToken) else Rejected(InvalidToken)
  }

  /** The token between `Bearer ` and the next space (or the end) is what gets decoded. */
  lemma BearerTokenOf(token: string, rest: string)
    requires ' ' !in token
    requires rest == [] || rest[0] == ' '
    ensures BearerToken("Bearer " + token + rest) == token
  {
    var header := "Bearer " + token + rest;
    assert header[7..] == token + rest;
    BearerSplit(header);
    Text.FirstPieceOf(token, ' ', rest);
  }

  /** An issued token carries `sub` = the user name and `exp` = issue time plus 30 minutes:
      decoded under the service secret before `exp`, those are exactly its claims. */
  lemma IssuedTokenClaims(username: string, issuedAt: int, now: int, hs256: Jwt.Mac)
    requires now < issuedAt + TokenLifetime
    ensures Jwt.Decode(CreateAccessToken(username, issuedAt, hs256), SecretKey, [Algorithm], now, hs256) ==
      Ok(Jwt.Claims(Some(username), Some(issuedAt + 1800)))
  {
    Jwt.DecodeEncode(Jwt.Claims(Some(username), Some(issuedAt + TokenLifetime)), SecretKey, Algorithm, [Algorithm], now, hs256);
  }

  /** The lifetime of an issued token: presented after `Bearer ` (and followed by nothing or
      by a space), it authenticates exactly the user it was issued to at every time before its
      `exp` (issue time plus 30 minutes), and from `exp` on it is reported as expired. */
  lemma IssuedTokenLifetime(username: string, issuedAt: int, now: int, rest: string, hs256: Jwt.Mac)
    requires rest == [] || rest[0] == ' '
    ensures GetCurrentUser(Some("Bearer " + CreateAccessToken(username, issuedAt, hs256) + rest), now, hs256) ==
      if now < issuedAt + TokenLifetime then Authenticated(username) else Rejected(ExpiredToken)
  {
    var token := CreateAccessToken(username, issuedAt, hs256);
    BearerTokenOf(token, rest);
    Jwt.DecodeEncode(Jwt.Claims(Some(username), Some(issuedAt + TokenLifetime)), SecretKey, Algorithm, [Algorithm], now, hs256);
  }

  /** A token signed with the service secret whose `exp` has been reached is reported as
      expired, not as invalid, whatever its subject. */
  lemma SignedExpiredToken(claims: Jwt.Claims, now: int, hs256: Jwt.Mac)
    requires claims.exp.Some? && claims.exp.value <= now
    ensures GetCurrentUser(Some("Bearer " + Jwt.Encode(claims, SecretKey, Algorithm, hs256)), now, hs256) ==
      Rejected(ExpiredToken)
  {
    var token := Jwt.Encode(claims, SecretKey, Algorithm, hs256);
    BearerTokenOf(token, []);
    assert "Bearer " + token + [] == "Bearer " + token;
    Jwt.DecodeEncode(claims, SecretKey, Algorithm, [Algorithm], now, hs256);
  }

  /** A token signed with the service secret and not expired authenticates its `sub`,
      unmodified, whatever the claims and however it was issued. */
  lemma SignedTokenWithSubject(claims: Jwt.Claims, now: int, hs256: Jwt.Mac)
    requires claims.sub.Some?
    requires claims.exp.None? || now < claims.exp.value
    ensures GetCurrentUser(Some("Bearer " + Jwt.Encode(claims, SecretKey, Algorithm, hs256)), now, hs256) ==
      Authenticated(claims.sub.value)
  {
    var token := Jwt.Encode(claims, SecretKey, Algorithm, hs256);
    BearerTokenOf(token, []);
    assert "Bearer " + token + [] == "Bearer " + token;
    Jwt.DecodeEncode(claims, SecretKey, Algorithm, [Algorithm], now, hs256);
  }

  /** A token signed with the service secret, not expired, but without a `sub` claim
      ends in the uncaught `KeyError`. */
  lemma SignedTokenWithoutSubject(exp: Option<int>, now: int, hs256: Jwt.Mac)
    requires exp.None? || now < exp.value
    ensures GetCurrentUser(Some("Bearer " + Jwt.Encode(Jwt.Claims(None, exp), SecretKey, Algorithm, hs256)), now, hs256) ==
      MissingSubject
  {
    var claims := Jwt.Claims(None, exp);
    var token := Jwt.Encode(claims, SecretKey, Algorithm, hs256);
    BearerTokenOf(token, []);
    assert "Bearer " + token + [] == "Bearer " + token;
    Jwt.DecodeEncode(claims, SecretKey, Algorithm, [Algorithm], now, hs256);
  }

  /** A token whose signature does not verify under the service secret (signed with
      another key, or tampered with), or that names another algorithm, is invalid at
      every time, even when its `exp` is in the past. */
  lemma ForgedTokenInvalid(alg: string, claims: Jwt.Claims, signature: string, now: int, hs256: Jwt.Mac)
    requires alg != Algorithm || signature != hs256(SecretKey, Jwt.SigningInput(alg, claims))
    ensures GetCurrentUser(Some("Bearer " + Jwt.Serialize(alg, claims, signature)), now, hs256) ==
      Rejected(InvalidToken)
  {
    var token := Jwt.Serialize(alg, claims, signature);
    BearerTokenOf(token, []);
    assert "Bearer " + token + [] == "Bearer " + token;
    Jwt.DecodeForged(alg, claims, signature, SecretKey, [Algorithm], now, hs256);
  }

  /** Whatever follows `Bearer `: a token that is not authentic under the service secret gives
      "Invalid token", never "Expired token" and never a user. */
  lemma NotAuthenticInvalid(header: string, now: int, hs256: Jwt.Mac)
    requires HasBearerPrefix(Some(header))
    requires !Jwt.Authentic(BearerToken(header), SecretKey, [Algorithm], hs256)
    ensures GetCurrentUser(Some(header), now, hs256) == Rejected(InvalidToken)
  {
  }

  /** Three dot-separated segments whose header decodes to an algorithm other than HS256
      are invalid, whatever the payload and signature segments hold. */
  lemma UnknownAlgorithmInvalid(h: string, p: string, sig: string, now: int, hs256: Jwt.Mac)
    requires '.' !in h && '.' !in p && '.' !in sig
    requires ' ' !in h && ' ' !in p && ' ' !in sig
    requires Codec.Unescape(h).Some? && Codec.Unescape(h).value != Algorithm
    ensures GetCurrentUser(Some("Bearer " + (h + ['.'] + p + ['.'] + sig)), now, hs256) == Rejected(InvalidToken)
  {
    var token := h + ['.'] + p + ['.'] + sig;
    assert ' ' !in token;
    BearerTokenOf(token, []);
    assert "Bearer " + token + [] == "Bearer " + token;
    Jwt.ThreeSegments(h, p, sig, SecretKey, [Algorithm], hs256);
    NotAuthenticInvalid("Bearer " + token, now, hs256);
  }

  /** Garbage with the two dots of a token is invalid too. In this model's encoding
      `foo.bar.baz` names the algorithm `foo`, which is not allowed (with base64url and
      JSON its header would fail to decode instead); either way it is "Invalid token". */
  lemma DottedGarbageInvalid(now: int, hs256: Jwt.Mac)
    ensures GetCurrentUser(Some("Bearer foo.bar.baz"), now, hs256) == Rejected(InvalidToken)
  {
    Codec.UnescapeUnmarked("foo");
    UnknownAlgorithmInvalid("foo", "bar", "baz", now, hs256);
    assert "Bearer " + ("foo" + ['.'] + "bar" + ['.'] + "baz") == "Bearer foo.bar.baz";
  }

  /** A token with one dot has too few segments: `a.b` is invalid. */
  lemma TooFewSegmentsInvalid(now: int, hs256: Jwt.Mac)
    ensures GetCurrentUser(Some("Bearer a.b"), now, hs256) == Rejected(InvalidToken)
  {
    var token := "a.b";
    assert "Bearer " + token + [] == "Bearer a.b";
    BearerTokenOf(token, []);
    assert token == Text.Join(["a", "b"], '.') by {
      assert ["a", "b"][1..] == ["b"];
    }
    Text.SplitJoin(["a", "b"], '.');
    NotAuthenticInvalid("Bearer a.b", now, hs256);
  }

  /** Text that is not three dot-separated segments, including the empty token of a bare
      `Bearer ` header, is invalid. */
  lemma UndecodableTokenInvalid(token: string, rest: string, now: int, hs256: Jwt.Mac)
    requires ' ' !in token && '.' !in token
    requires rest == [] || rest[0] == ' '
    ensures GetCurrentUser(Some("Bearer " + token + rest), now, hs256) == Rejected(InvalidToken)
  {
    BearerTokenOf(token, rest);
    Jwt.DecodeWithoutSegments(token, SecretKey, [Algorithm], now, hs256);
  }

  /** The headers the service's tests send (none, `Bearer invalid_token`) and the bare `Bearer `. */
  lemma TestHeaders(now: int, hs256: Jwt.Mac)
    ensures GetCurrentUser(None, now, hs256) == Rejected(MissingOrInvalidHeader)
    ensures GetCurrentUser(Some("Bearer invalid_token"), now, hs256) == Rejected(InvalidToken)
    ensures GetCurrentUser(Some("Bearer "), now, hs256) == Rejected(InvalidToken)
  {
    UndecodableTokenInvalid("invalid_token", [], now, hs256);
    assert "Bearer " + "invalid_token" + [] == "Bearer invalid_token";
    UndecodableTokenInvalid("", [], now, hs256);
    assert "Bearer " + "" + [] == "Bearer ";
  }
}
