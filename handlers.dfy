/** The two endpoints of src/service.py, `login` and `predict`, as methods that write the
    response status of a request context, and client scenarios that mirror the service's
    tests. The fitted scaler and regression model are function parameters; floating-point
    numbers are modelled as reals. */
module Handlers {
  import opened Wrappers
  import Jwt
  import Auth

  /** The `User` request body. */
  datatype User = User(username: string, password: string)

  /** The `AdmissionInput` request body, its fields in declaration order. */
  datatype AdmissionInput = AdmissionInput(
    greScore: int, toeflScore: int, universityRating: int,
    sop: real, lor: real, cgpa: real, research: int)

  /** The JSON bodies the endpoints return. */
  datatype Body =
    | TokenBody(accessToken: string, tokenType: string)
    | MessageBody(message: string)
    | PredictionBody(chanceOfAdmit: real)

  /** Exceptions that leave a handler uncaught (the framework answers those itself). */
  datatype Exception = KeyError | IndexError

  datatype Outcome = Returned(body: Body) | Raised(exception: Exception)

  /** `scaler.transform` and `admission_model.predict` on a batch of rows. */
  type Scaler = seq<seq<real>> -> seq<seq<real>>
  type Regressor = seq<seq<real>> -> seq<real>

  /** The status the framework answers with unless a handler sets another. */
  const DefaultStatus: int := 200
  const Unauthorized: int := 401

  /** ASCII lower case, the case header names are compared in. */
  function LowerChar(c: char): char {
    if 'A' <= c <= 'Z' then (c as int + 32) as char else c
  }

  function Lower(s: string): string {
    seq(|s|, i requires 0 <= i < |s| => LowerChar(s[i]))
  }

  /** A request header list's `get(name)`: the value of the first header whose name equals
      `name` up to case, or nothing when no header does. */
  function HeaderGet(headers: seq<(string, string)>, name: string): (r: Option<string>)
    ensures r.None? <==> forall i :: 0 <= i < |headers| ==> Lower(headers[i].0) != Lower(name)
    ensures r.Some? ==> exists i :: (0 <= i < |headers| && Lower(headers[i].0) == Lower(name) &&
      r.value == headers[i].1 && forall j :: 0 <= j < i ==> Lower(headers[j].0) != Lower(name))
    decreases |headers|
  {
    if |headers| == 0 then None
    else if Lower(headers[0].0) == Lower(name) then Some(headers[0].1)
    else
      var r := HeaderGet(headers[1..], name);
      assert forall i :: 1 <= i < |headers| ==> headers[1..][i - 1] == headers[i];
      if r.Some? then
        var k :| 0 <= k < |headers[1..]| && Lower(headers[1..][k].0) == Lower(name) &&
          r.value == headers[1..][k].1 && forall j :: 0 <= j < k ==> Lower(headers[1..][j].0) != Lower(name);
        assert Lower(headers[k + 1].0) == Lower(name) && r.value == headers[k + 1].1;
        assert forall j :: 1 <= j < k + 1 ==> Lower(headers[j].0) != Lower(name);
        r
      else r
  }

  /** Every capitalisation of `Authorization` (`authorization`, `AUTHORIZATION`, ...) is
      found, and the first such header is the one whose value is taken. */
  lemma AuthorizationAnyCase(name: string, value: string, rest: seq<(string, string)>)
    requires Lower(name) == "authorization"
    ensures HeaderGet([(name, value)] + rest, "Authorization") == Some(value)
  {
    LowerAuthorization();
    assert ([(name, value)] + rest)[0] == (name, value);
  }

  /** A request carrying exactly one `Authorization` header. */
  lemma SingleAuthorization(value: string)
    ensures HeaderGet([("Authorization", value)], "Authorization") == Some(value)
  {
    LowerAuthorization();
    AuthorizationAnyCase("Authorization", value, []);
    assert [("Authorization", value)] + [] == [("Authorization", value)];
  }

  lemma LowerAuthorization()
    ensures Lower("Authorization") == "authorization"
  {
    var t := Lower("Authorization");
    assert |t| == 13;
    assert t[0] == 'a';
  }

  /** The request context: the request's headers, as (name, value) pairs in the order
      received, and the response status code a handler may set. */
  class Context {
    const requestHeaders: seq<(string, string)>
    var statusCode: int

    constructor (requestHeaders: seq<(string, string)>)
      ensures this.requestHeaders == requestHeaders && statusCode == DefaultStatus
    {
      this.requestHeaders := requestHeaders;
      statusCode := DefaultStatus;
    }

    /** `ctx.request.headers.get("Authorization")`. */
    function AuthorizationHeader(): Option<string> {
      HeaderGet(requestHeaders, "Authorization")
    }
  }

  /** The single accepted credential pair. */
  predicate CorrectCredentials(user: User) {
    user.username == "admin" && user.password == "password"
  }

  /** The request body's field names, in the order the model's features were fitted. */
  const FeatureNames: seq<string> :=
    ["gre_score", "toefl_score", "university_rating", "sop", "lor", "cgpa", "research"]

  /** A request body field by its name, as a float. */
  function Field(data: AdmissionInput, name: string): Option<real> {
    if name == "gre_score" then Some(data.greScore as real)
    else if name == "toefl_score" then Some(data.toeflScore as real)
    else if name == "university_rating" then Some(data.universityRating as real)
    else if name == "sop" then Some(data.sop)
    else if name == "lor" then Some(data.lor)
    else if name == "cgpa" then Some(data.cgpa)
    else if name == "research" then Some(data.research as real)
    else None
  }

  /** The feature row passed to the scaler: exactly seven entries, entry `i` being the
      field named `FeatureNames[i]`. No field is range-checked. */
  function FeatureRow(data: AdmissionInput): (row: seq<real>)
    ensures |row| == |FeatureNames| == 7
    ensures forall i :: 0 <= i < |row| ==> Field(data, FeatureNames[i]) == Some(row[i])
  {
    [data.greScore as real, data.toeflScore as real, data.universityRating as real,
     data.sop, data.lor, data.cgpa, data.research as real]
  }

  /** What `predict` answers once authentication has passed: the model applied to the
      scaled one-row batch, and the first prediction; an empty prediction raises. */
  function Prediction(data: AdmissionInput, scaler: Scaler, model: Regressor): Outcome {
    var prediction := model(scaler([FeatureRow(data)]));
    if |prediction| == 0 then Raised(IndexError) else Returned(PredictionBody(prediction[0]))
  }

  /** `login`: the right credentials get a bearer token issued at `now` for the submitted
      user name, and the status is left alone; any others set 401 and get a message, with
      no token issued. */
  method Login(user: User, ctx: Context, now: int, hs256: Jwt.Mac) returns (body: Body)
    modifies ctx
    ensures CorrectCredentials(user) ==>
      body == TokenBody(Auth.CreateAccessToken(user.username, now, hs256), "bearer") &&
      ctx.statusCode == old(ctx.statusCode)
    ensures !CorrectCredentials(user) ==>
      body == MessageBody("Incorrect credentials") && ctx.statusCode == Unauthorized
  {
    if user.username == "admin" && user.password == "password" {
      body := TokenBody(Auth.CreateAccessToken(user.username, now, hs256), "bearer");
    } else {
      ctx.statusCode := Unauthorized;
      body := MessageBody("Incorrect credentials");
    }
  }

  /** `predict`: an authentication error sets 401 and returns its message without touching
      the scaler or the model; a token without a subject lets the `KeyError` escape; an
      authenticated request leaves the status alone and answers the model's prediction for
      the scaled features. */
  method Predict(data: AdmissionInput, ctx: Context, now: int, hs256: Jwt.Mac, scaler: Scaler, model: Regressor)
    returns (outcome: Outcome)
    modifies ctx
    ensures match Auth.GetCurrentUser(ctx.AuthorizationHeader(), now, hs256)
      case Rejected(e) =>
        outcome == Returned(MessageBody(Auth.Message(e))) && ctx.statusCode == Unauthorized
      case MissingSubject =>
        outcome == Raised(KeyError) && ctx.statusCode == old(ctx.statusCode)
      case Authenticated(_) =>
        outcome == Prediction(data, scaler, model) && ctx.statusCode == old(ctx.statusCode)
  {
    var authHeader := ctx.AuthorizationHeader();
    match Auth.GetCurrentUser(authHeader, now, hs256) {
      case Rejected(e) =>
        ctx.statusCode := Unauthorized;
        return Returned(MessageBody(Auth.Message(e)));
      case MissingSubject =>
        return Raised(KeyError);
      case Authenticated(_) =>
    }
    var inputData := [FeatureRow(data)];
    var inputDataScaled := scaler(inputData);
    var prediction := model(inputDataScaled);
    if |prediction| == 0 {
      return Raised(IndexError);
    }
    return Returned(PredictionBody(prediction[0]));
  }

  // ---- client scenarios ----

  /** Log in as `admin`, then call `predict` with the issued token at any time within
      30 minutes, with a scaler and a model that, like fitted sklearn estimators, answer
      one row per input row: both requests answer 200, the token type is `bearer`, and the
      body is a prediction, the model's first output on the scaled features, for any
      feature values (a GRE score of 400 included). */
  method ValidTokenScenario(issuedAt: int, now: int, data: AdmissionInput, hs256: Jwt.Mac, scaler: Scaler, model: Regressor)
    returns (loginStatus: int, tokenType: string, predictStatus: int, outcome: Outcome)
    requires issuedAt <= now < issuedAt + Auth.TokenLifetime
    requires forall batch :: |scaler(batch)| == |batch|
    requires forall batch :: |model(batch)| == |batch|
    ensures loginStatus == DefaultStatus && tokenType == "bearer" && predictStatus == DefaultStatus
    ensures outcome.Returned? && outcome.body.PredictionBody?
    ensures outcome.body.chanceOfAdmit == model(scaler([FeatureRow(data)]))[0]
  {
    var loginCtx := new Context([]);
    var body := Login(User("admin", "password"), loginCtx, issuedAt, hs256);
    loginStatus, tokenType := loginCtx.statusCode, body.tokenType;
    var header := "Bearer " + body.accessToken;
    var ctx := new Context([("Authorization", header)]);
    SingleAuthorization(header);
    Auth.IssuedTokenLifetime("admin", issuedAt, now, [], hs256);
    assert header + [] == header;
    outcome := Predict(data, ctx, now, hs256, scaler, model);
    predictStatus := ctx.statusCode;
  }

  /** A `predict` request without an `Authorization` header, or with `Bearer invalid_token`,
      answers 401. */
  method RejectedTokenScenario(now: int, data: AdmissionInput, hs256: Jwt.Mac, scaler: Scaler, model: Regressor)
    returns (missingStatus: int, missing: Outcome, invalidStatus: int, invalid: Outcome)
    ensures missingStatus == Unauthorized && missing == Returned(MessageBody("Missing or invalid token"))
    ensures invalidStatus == Unauthorized && invalid == Returned(MessageBody("Invalid token"))
  {
    Auth.TestHeaders(now, hs256);
    var ctx1 := new Context([]);
    missing := Predict(data, ctx1, now, hs256, scaler, model);
    missingStatus := ctx1.statusCode;
    var ctx2 := new Context([("Authorization", "Bearer invalid_token")]);
    SingleAuthorization("Bearer invalid_token");
    invalid := Predict(data, ctx2, now, hs256, scaler, model);
    invalidStatus := ctx2.statusCode;
  }

  /** A token signed with the service secret for `admin` whose `exp` lies 30 minutes before
      `now` answers 401 with "Expired token". */
  method ExpiredTokenScenario(now: int, data: AdmissionInput, hs256: Jwt.Mac, scaler: Scaler, model: Regressor)
    returns (status: int, outcome: Outcome)
    ensures status == Unauthorized && outcome == Returned(MessageBody("Expired token"))
  {
    var claims := Jwt.Claims(Some("admin"), Some(now - Auth.TokenLifetime));
    var token := Jwt.Encode(claims, Auth.SecretKey, Auth.Algorithm, hs256);
    Auth.SignedExpiredToken(claims, now, hs256);
    var ctx := new Context([("Authorization", "Bearer " + token)]);
    SingleAuthorization("Bearer " + token);
    outcome := Predict(data, ctx, now, hs256, scaler, model);
    status := ctx.statusCode;
  }

  /** Logging in as `wrong`/`wrong` answers 401 with "Incorrect credentials". */
  method WrongCredentialsScenario(now: int, hs256: Jwt.Mac) returns (status: int, body: Body)
    ensures status == Unauthorized && body == MessageBody("Incorrect credentials")
  {
    var ctx := new Context([]);
    body := Login(User("wrong", "wrong"), ctx, now, hs256);
    status := ctx.statusCode;
  }
}
