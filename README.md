# Admission prediction service: authentication and request path

A Dafny model of the request path of the admission prediction service
(`src/service.py`). The service issues a bearer token at `login`. It checks that token
on every `predict` request and then runs the fitted scaler and regression model on the
seven admission features. The model covers:

- **Token service** (module `Auth`). `create_access_token` issues a JSON Web Token
  (RFC 7519) with a `sub` claim (section 4.1.2) and an `exp` claim 30 minutes after
  issue (section 4.1.4), signed with HS256 (section 3.2 of RFC 7518) under the
  service secret. `get_current_user` parses the `Authorization` header. It ends in
  one of: the user name, "Missing or invalid token", "Expired token", "Invalid token",
  or an uncaught `KeyError` for a valid token (authentic, payload decoded, `exp`
  absent or ahead) without `sub`.
- **Tokens** (module `Jwt`). Three dot-separated segments (header with `alg`, payload,
  signature), decoded in PyJWT's order: segments, allowed algorithm, signature,
  payload, expiry. The payload's base64url and JSON decoding are one step of the
  stand-in encoding, taken after the signature check. In PyJWT the base64url step
  comes before that check. Every decoding failure is "Invalid token" either way, so
  the merge changes no outcome. HMAC-SHA256 is a function parameter `hs256`. Verification
  recomputes the MAC over the received signing input and compares. So "sign, then
  verify under the same secret succeeds" holds for every MAC and needs no axiom.
- **Encoding** (module `Codec`). A stand-in for base64url and JSON: escaping of the
  token separators and of the space, plus decimal integers. It has the two properties the
  request path relies on: an encoded token contains no space, and decoding inverts
  encoding.
- **String splitting** (module `Text`). Python's `str.split(" ")`, which extracts the
  token from the header.
- **Endpoints** (module `Handlers`). `login` and `predict` are methods that take a request
  `Context` and set its `statusCode` field to 401 on failure. They return a
  JSON body or let an exception escape. The seven-entry feature row is built in the
  fitted order, then scaled, then predicted. Scaler and model are function parameters.

Time is a whole number of seconds passed as `now`. It replaces `datetime.utcnow()`.

Two behaviours of the code that are easy to miss:

- A payload without `sub` is not "Invalid token". The lookup `payload["sub"]` raises
  a `KeyError` that neither `except` clause catches (outcome `MissingSubject`; in
  `predict`, `Raised(KeyError)` with the status left unchanged).
- A bare `Bearer ` header passes the prefix test. Its empty token then fails decoding
  as "Invalid token", not as a missing header.

## Model

| member | source | states |
|---|---|---|
| `Text.Split` | src/service.py:49 | `split(" ")` always yields at least one piece, and no piece contains the separator |
| `Text.SplitFirst` | src/service.py:49 | the first piece is the longest separator-free prefix: it ends at the end of the string or just before a separator |
| `Text.SplitJoin` | src/service.py:49 | splitting a join of separator-free pieces gives the pieces back |
| `Text.JoinSplit` | src/service.py:49 | joining the pieces of a split gives the original string back |
| `Text.FirstPieceOf` | src/service.py:49 | a separator-free word followed by nothing or by a separator is the first piece |
| `Codec.UnescapeEscape` | src/service.py:43-50 | the field encoding used in tokens is inverted by decoding |
| `Codec.ParseIntText` | src/service.py:43-50 | a written `exp` integer reads back as the same integer |
| `Jwt.Serialize` | src/service.py:43 | an encoded token never contains a space |
| `Jwt.Decode` | src/service.py:50 | a token is accepted if and only if it is authentic (well formed, allowed `alg`, signature equal to the MAC of the received signing input), its payload decodes and its `exp` is absent or ahead; the accepted claims are exactly the payload's; "expired" is reported if and only if the token is authentic, its payload decodes and its `exp` has been reached |
| `Jwt.DecodeEncode` | src/service.py:43-50 | a token made by `Jwt.Encode` (`jwt.encode`) under a key with an allowed algorithm decodes under that key to exactly its claims before `exp`, and is expired from `exp` on |
| `Jwt.DecodeForged` | src/service.py:50 | a token whose signature is not the MAC of its signing input fails as an invalid signature (or as a disallowed algorithm), never as expired, at every time |
| `Jwt.ThreeSegments` | src/service.py:50 | text made of three dot-free segments is cut back into exactly them, and a header naming an algorithm outside the list makes it inauthentic |
| `Jwt.DecodeWithoutSegments` | src/service.py:50 | text without a `.` (such as `invalid_token` or the empty string) fails as a decode error |
| `Auth.CreateAccessToken` | src/service.py:39-43 | an issued token contains no space, so it survives the header split |
| `Auth.IssuedTokenClaims` | src/service.py:39-43 | an issued token decodes under the secret to `sub` = the user name and `exp` = issue time + 1800 s |
| `Auth.BearerSplit` | src/service.py:46-49 | after the `Bearer ` prefix, index 1 of `split(" ")` always exists and is the first piece of the text after the prefix |
| `Auth.BearerToken` | src/service.py:46-49 | the extracted token is a space-free prefix of the text after `Bearer `, ending at the next space or at the end |
| `Auth.BearerTokenOf` | src/service.py:46-49 | `Bearer ` + a space-free token + (nothing, or a space and more) yields exactly that token |
| `Auth.GetCurrentUser` | src/service.py:45-55 | every header ends in exactly one outcome: "Missing or invalid token" if and only if the header is absent, empty or lacks the exact `Bearer ` prefix; after the prefix, "Expired token" if and only if the token is authentic with its `exp` reached; "Invalid token" if and only if it is neither valid nor authentic-but-expired; a valid token yields its `sub` unmodified, or the `KeyError` outcome when it has none; a user or the `KeyError` only ever comes from a valid token |
| `Auth.IssuedTokenLifetime` | src/service.py:39-55 | an issued token authenticates exactly its user at every time before issue + 30 min, and is "Expired token" from then on |
| `Auth.SignedExpiredToken` | src/service.py:50-53 | a correctly signed token whose `exp` has been reached gives "Expired token", not "Invalid token", whatever its subject |
| `Auth.SignedTokenWithSubject` | src/service.py:50-51 | any token signed with the service secret, unexpired and carrying `sub`, authenticates exactly that `sub` |
| `Auth.SignedTokenWithoutSubject` | src/service.py:50-51 | a correctly signed, unexpired token without `sub` ends in the uncaught `KeyError` |
| `Auth.ForgedTokenInvalid` | src/service.py:50-55 | a token naming an algorithm other than HS256 (even with a correct MAC), or whose signature is not the MAC under the service secret, gives "Invalid token" at every time, even when expired |
| `Auth.NotAuthenticInvalid` | src/service.py:46-55 | after the `Bearer ` prefix, any token that is not authentic under the service secret gives "Invalid token" |
| `Auth.UnknownAlgorithmInvalid` | src/service.py:50-55 | any three dot-separated segments whose header names an algorithm other than HS256 give "Invalid token", whatever the other segments hold |
| `Auth.DottedGarbageInvalid` | src/service.py:50-55 | `Bearer foo.bar.baz` gives "Invalid token" (in the stand-in encoding its header names the algorithm `foo`; in PyJWT the header fails to decode; both give the same answer) |
| `Auth.TooFewSegmentsInvalid` | src/service.py:50-55 | `Bearer a.b` (two segments) gives "Invalid token" |
| `Auth.UndecodableTokenInvalid` | src/service.py:49-55 | a token text without `.`, including the empty token of a bare `Bearer `, gives "Invalid token" |
| `Auth.TestHeaders` | src/service.py:45-55 | no header is "Missing or invalid token"; `Bearer invalid_token` and `Bearer ` are "Invalid token" |
| `Handlers.HeaderGet` | src/service.py:67 | the lookup finds nothing if and only if no header's name equals the requested one up to case; otherwise it yields the value of the first header whose name matches |
| `Handlers.AuthorizationAnyCase` | src/service.py:67 | any capitalisation of `Authorization` in the first header is found, and that header's value is taken |
| `Handlers.FeatureRow` | src/service.py:75-83 | the feature row has exactly 7 entries; entry i is the request field named `gre_score`, `toefl_score`, `university_rating`, `sop`, `lor`, `cgpa`, `research` in that order, with no range check |
| `Handlers.Login` | src/service.py:57-63 | correct credentials (`admin`/`password`, both required) return a bearer token issued for the submitted user name and leave the status alone; anything else sets 401 and returns "Incorrect credentials" with no token |
| `Handlers.Predict` | src/service.py:65-89 | an auth error sets 401 and returns its message, independently of scaler and model; a missing `sub` raises `KeyError`; otherwise the status is untouched and the answer is element 0 of model(scaler([row])), an empty prediction raising `IndexError` |
| `Handlers.ValidTokenScenario` | tests/test_service.py:70-83 | login as admin, then predict with the token within 30 minutes, with a scaler and a model that answer one row per input row: both answer 200, token type `bearer`, and the body is a prediction (`chance_of_admit`) equal to the model's first output on the scaled features, for any features (a GRE score of 400 included) |
| `Handlers.RejectedTokenScenario` | tests/test_service.py:109-118 | predict without a header, or with `Bearer invalid_token`, answers 401 with the matching message |
| `Handlers.ExpiredTokenScenario` | tests/test_service.py:57-68 | a correctly signed token that expired 30 minutes ago answers 401 "Expired token" |
| `Handlers.WrongCredentialsScenario` | tests/test_service.py:102-105 | login as `wrong`/`wrong` sets 401 and answers "Incorrect credentials" |

## Left out

- HMAC-SHA256 is not modelled: it is the parameter `hs256`, so the model proves nothing about unforgeability, only that verification recomputes and compares.
- The base64url and JSON encodings of PyJWT are replaced by the escaping and decimal encoding of `Codec`. The JWT header's `typ` field is not modelled, and PyJWT's splitting of a token with extra dots is not modelled.
- Claims other than `sub` and `exp` (`nbf`, `iat`, `aud`, `iss`), which PyJWT would also check, are not modelled. Tokens issued by the service carry only `sub` and `exp`.
- Jwt.Decode: at exactly `now == exp` the model reports the token expired (expired once `now` has reached `exp`). The precise comparison is internal to PyJWT. The model is settled only in that it accepts for `now < exp` and rejects for `exp < now`.
- The wall clock is a parameter; PyJWT's truncation of the expiry `datetime` to whole seconds is not modelled, because time is already whole seconds here.
- Handlers.ValidTokenScenario: a prediction is promised only for a scaler and a model that return one row per input row, as fitted sklearn estimators do. The tests' check that the prediction is positive depends on the fitted coefficients and is not modelled.
- Handlers.ExpiredTokenScenario: the token's `exp` is taken as `now` minus 30 minutes. The test computes it with `.timestamp()` on a naive `datetime.utcnow()`, which equals that only on a host whose local time is UTC; the scenario assumes such a host.
- Floating point is not modelled: features and predictions are reals, and the integer fields convert to them exactly. `scaler.transform` and `admission_model.predict` are uninterpreted function parameters. Only their order of composition and the feature layout are modelled.
- Handlers.Predict: "the scaler and the model are not invoked" on an auth failure is stated only as the outcome being independent of them. Calls to pure parameters leave no other trace.
- The framework's answer to an escaping `KeyError` or `IndexError` is not modelled. Nor is the actual status it sends for `login` after the handler sets 401.
- Service registration, HTTP plumbing, request body parsing and type coercion (malformed bodies are refused before a handler runs) are left out. So is the loading of the model artifacts at import.
- Header names are compared in ASCII lower case. Python's full Unicode `lower()` and the latin-1 byte encoding of header names are not modelled.
- src/prepare_data.py and src/train_model.py (data preparation, fitting, metrics and plots) are one-shot scripts with file I/O and are not part of this model.
