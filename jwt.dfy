/** JSON Web Tokens (RFC 7519) signed with HS256 (section 3.2 of RFC 7518), as the
    service uses them through PyJWT's `jwt.encode` and `jwt.decode`.

    A token is three dot-separated segments: the header (carrying `alg`), the payload
    (carrying the claims) and the signature over the text of the first two. The segments'
    JSON and base64url encodings are replaced by the encoding of module Codec, and the
    HMAC-SHA256 function is a parameter of type Mac: verification recomputes the MAC over
    the received signing input and compares, so nothing about the MAC is assumed. */
module Jwt {
  import opened Wrappers
  import Text
  import Codec

  /** The two registered claims the service reads and writes: `sub` (section 4.1.2 of
      RFC 7519) and `exp` (section 4.1.4), a time in whole seconds. Either may be absent
      from a decoded payload. */
  datatype Claims = Claims(sub: Option<string>, exp: Option<int>)

  /** A keyed MAC: key and signing input to signature. */
  type Mac = (string, string) -> string

  /** The PyJWT exceptions `jwt.decode` raises on this path; all but ExpiredSignature
      are caught in the service as the general `PyJWTError`. */
  datatype JwtError = DecodeError | InvalidAlgorithm | InvalidSignature | ExpiredSignature

  // ---- writing a token ----

  function SubField(sub: Option<string>): string {
    match sub
    case None => ""
    case Some(s) => "s" + Codec.Escape(s)
  }

  function ExpField(exp: Option<int>): string {
    match exp
    case None => ""
    case Some(e) => Codec.IntText(e)
  }

  function HeaderSegment(alg: string): string {
    Codec.Escape(alg)
  }

  function PayloadSegment(c: Claims): string {
    SubField(c.sub) + [','] + ExpField(c.exp)
  }

  /** The text the signature is computed over: header and payload segments. */
  function SigningInput(alg: string, c: Claims): string {
    HeaderSegment(alg) + ['.'] + PayloadSegment(c)
  }

  /** The compact serialization of a token with the given signature. No segment
      contains a space, so neither does the token. */
  function Serialize(alg: string, c: Claims, signature: string): (token: string)
    ensures ' ' !in token
  {
    SegmentsArePlain(alg, c, signature);
    SigningInput(alg, c) + ['.'] + Codec.Escape(signature)
  }

  /** `jwt.encode(claims, key, algorithm=alg)`. */
  function Encode(c: Claims, key: string, alg: string, hs256: Mac): string {
    Serialize(alg, c, hs256(key, SigningInput(alg, c)))
  }

  // ---- reading a token ----

  /** A token cut into its segments, with the header's `alg` and the signature decoded. */
  datatype Segments = Segments(signingInput: string, alg: string, payload: string, signature: string)

  function ParseSegments(token: string): Option<Segments> {
    var parts := Text.Split(token, '.');
    if |parts| != 3 then None
    else
      match (Codec.Unescape(parts[0]), Codec.Unescape(parts[2]))
      case (Some(alg), Some(sig)) => Some(Segments(parts[0] + ['.'] + parts[1], alg, parts[1], sig))
      case _ => None
  }

  function ParseSub(f: string): Option<Option<string>> {
    if f == "" then Some(None)
    else if f[0] == 's' then
      match Codec.Unescape(f[1..]) case Some(s) => Some(Some(s)) case None => None
    else None
  }

  function ParseExp(f: string): Option<Option<int>> {
    if f == "" then Some(None)
    else match Codec.ParseInt(f) case Some(e) => Some(Some(e)) case None => None
  }

  function ParsePayload(p: string): Option<Claims> {
    var fields := Text.Split(p, ',');
    if |fields| != 2 then None
    else
      match (ParseSub(fields[0]), ParseExp(fields[1]))
      case (Some(s), Some(e)) => Some(Claims(s, e))
      case _ => None
  }

  /** The token is well formed, names an allowed algorithm, and its signature is the MAC
      under `key` of the signing input as received. */
  predicate Authentic(token: string, key: string, algorithms: seq<string>, hs256: Mac) {
    match ParseSegments(token)
    case None => false
    case Some(seg) => seg.alg in algorithms && seg.signature == hs256(key, seg.signingInput)
  }

  /** The claims of a token's payload, when the token has its three segments and the
      payload decodes. */
  function PayloadClaims(token: string): Option<Claims> {
    match ParseSegments(token)
    case None => None
    case Some(seg) => ParsePayload(seg.payload)
  }

  /** The token is authentic, its payload decodes, and its `exp` (if any) lies after `now`. */
  predicate ValidAt(token: string, key: string, algorithms: seq<string>, now: int, hs256: Mac) {
    Authentic(token, key, algorithms, hs256) && PayloadClaims(token).Some? &&
    (PayloadClaims(token).value.exp.None? || now < PayloadClaims(token).value.exp.value)
  }

  /** The token is authentic and its payload decodes to claims whose `exp` is not after `now`. */
  predicate AuthenticButExpired(token: string, key: string, algorithms: seq<string>, now: int, hs256: Mac) {
    Authentic(token, key, algorithms, hs256) && PayloadClaims(token).Some? &&
    PayloadClaims(token).value.exp.Some? && PayloadClaims(token).value.exp.value <= now
  }

  /** `jwt.decode(token, key, algorithms=algorithms)` at time `now`, in PyJWT's order:
      split and decode the segments, check `alg` against the allowed list, verify the
      signature, decode the payload, then check `exp` (a token is expired once `now` has
      reached `exp`; a token without `exp` never expires). */
  function Decode(token: string, key: string, algorithms: seq<string>, now: int, hs256: Mac)
    : (r: Result<Claims, JwtError>)
    ensures r.Ok? <==> ValidAt(token, key, algorithms, now, hs256)
    ensures r.Ok? ==> Some(r.value) == PayloadClaims(token)
    ensures r == Err(ExpiredSignature) <==> AuthenticButExpired(token, key, algorithms, now, hs256)
  {
    match ParseSegments(token)
    case None => Err(DecodeError)
    case Some(seg) =>
      if seg.alg !in algorithms then Err(InvalidAlgorithm)
      else if seg.signature != hs256(key, seg.signingInput) then Err(InvalidSignature)
      else
        match ParsePayload(seg.payload)
        case None => Err(DecodeError)
        case Some(c) =>
          if c.exp.Some? && c.exp.value <= now then Err(ExpiredSignature) else Ok(c)
  }

  // ---- properties ----

  lemma SegmentsArePlain(alg: string, c: Claims, signature: string)
    ensures '.' !in HeaderSegment(alg) && ' ' !in HeaderSegment(alg)
    ensures '.' !in PayloadSegment(c) && ' ' !in PayloadSegment(c)
    ensures '.' !in Codec.Escape(signature) && ' ' !in Codec.Escape(signature)
    ensures ',' !in SubField(c.sub) && ',' !in ExpField(c.exp)
  {
  }

  /** The payload segment of some claims decodes to those claims. */
  lemma ParsePayloadSegment(c: Claims)
    ensures ParsePayload(PayloadSegment(c)) == Some(c)
  {
    var s, e := SubField(c.sub), ExpField(c.exp);
    SegmentsArePlain("", c, "");
    assert PayloadSegment(c) == Text.Join([s, e], ',');
    Text.SplitJoin([s, e], ',');
    match c.sub {
      case None =>
      case Some(u) =>
        assert s[1..] == Codec.Escape(u);
        Codec.UnescapeEscape(u);
    }
    match c.exp {
      case None =>
      case Some(x) => Codec.ParseIntText(x);
    }
  }

  /** A serialized token splits back into exactly its segments. */
  lemma ParseSerialized(alg: string, c: Claims, signature: string)
    ensures ParseSegments(Serialize(alg, c, signature)) ==
      Some(Segments(SigningInput(alg, c), alg, PayloadSegment(c), signature))
  {
    var h, p, s := HeaderSegment(alg), PayloadSegment(c), Codec.Escape(signature);
    SegmentsArePlain(alg, c, signature);
    assert [h, p, s][1..] == [p, s] && [p, s][1..] == [s];
    assert Text.Join([s], '.') == s;
    assert Text.Join([p, s], '.') == p + ['.'] + s;
    assert Text.Join([h, p, s], '.') == h + ['.'] + (p + ['.'] + s);
    assert Serialize(alg, c, signature) == Text.Join([h, p, s], '.');
    Text.SplitJoin([h, p, s], '.');
    Codec.UnescapeEscape(alg);
    Codec.UnescapeEscape(signature);
  }

  /** Round trip: a token encoded under `key` with an allowed algorithm decodes under the
      same key to exactly its claims while `exp` lies in the future (or is absent), and
      is rejected as expired, and only as expired, once `now` has reached `exp`. */
  lemma DecodeEncode(c: Claims, key: string, alg: string, algorithms: seq<string>, now: int, hs256: Mac)
    requires alg in algorithms
    ensures Decode(Encode(c, key, alg, hs256), key, algorithms, now, hs256) ==
      if c.exp.Some? && c.exp.value <= now then Err(ExpiredSignature) else Ok(c)
  {
    ParseSerialized(alg, c, hs256(key, SigningInput(alg, c)));
    ParsePayloadSegment(c);
  }

  /** A token naming an algorithm outside the allowed list, or whose signature is not the
      MAC of its signing input under `key`, is never accepted and never reported as expired,
      whatever its claims and the time: both are checked before `exp` is looked at. */
  lemma DecodeForged(alg: string, c: Claims, signature: string, key: string, algorithms: seq<string>, now: int, hs256: Mac)
    requires alg !in algorithms || signature != hs256(key, SigningInput(alg, c))
    ensures Decode(Serialize(alg, c, signature), key, algorithms, now, hs256) ==
      if alg in algorithms then Err(InvalidSignature) else Err(InvalidAlgorithm)
  {
    ParseSerialized(alg, c, signature);
  }

  /** Three dot-free segments joined by dots are cut back into exactly those segments, so a
      header segment that decodes to an algorithm outside the list makes the token
      inauthentic. */
  lemma ThreeSegments(h: string, p: string, s: string, key: string, algorithms: seq<string>, hs256: Mac)
    requires '.' !in h && '.' !in p && '.' !in s
    ensures Text.Split(h + ['.'] + p + ['.'] + s, '.') == [h, p, s]
    ensures Codec.Unescape(h).Some? && Codec.Unescape(h).value !in algorithms ==>
      !Authentic(h + ['.'] + p + ['.'] + s, key, algorithms, hs256)
  {
    assert [h, p, s][1..] == [p, s] && [p, s][1..] == [s];
    assert Text.Join([s], '.') == s;
    assert Text.Join([p, s], '.') == p + ['.'] + s;
    assert h + ['.'] + p + ['.'] + s == Text.Join([h, p, s], '.');
    Text.SplitJoin([h, p, s], '.');
  }

  /** Text with no `.` in it (such as the empty string or `invalid_token`) is not a token. */
  lemma DecodeWithoutSegments(token: string, key: string, algorithms: seq<string>, now: int, hs256: Mac)
    requires '.' !in token
    ensures Decode(token, key, algorithms, now, hs256) == Err(DecodeError)
  {
    Text.SplitNoSeparator(token, '.');
  }
}
