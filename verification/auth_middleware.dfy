/** The bearer-token gate in front of the `/api` routes, and the typed read of
    the claims it leaves in the request context. Token validation is a foreign
    library call and is passed in as `validate`. */
module AuthMiddleware {

  import opened Base
  import opened Text
  import opened Models
  import opened Http

  /** The context key under which verified claims are stored. */
  const UserClaimsKey: string := "userClaims"

  /** A value held in the request context: verified claims, or a value of some
      other Go type. */
  datatype CtxValue = ClaimsValue(claims: Claims) | OtherValue(goType: string)

  type Context = map<string, CtxValue>

  /** The claims stored under `userClaims`, or "none" when the key is absent or
      holds a value that is not claims. */
  function GetUserClaims(ctx: Context): (r: Option<Claims>)
    ensures r.Some? <==> UserClaimsKey in ctx && ctx[UserClaimsKey].ClaimsValue?
    ensures r.Some? ==> ctx[UserClaimsKey] == ClaimsValue(r.value)
  {
    if UserClaimsKey in ctx then
      match ctx[UserClaimsKey]
      case ClaimsValue(c) => Some(c)
      case OtherValue(_) => None
    else None
  }

  datatype HeaderError = MissingHeader | MalformedHeader

  const BearerScheme: string := "bearer"

  /** The header is `scheme + " " + token` with a case variant of `bearer` and
      no further space. */
  ghost predicate WellFormedBearer(header: string, token: string)
  {
    exists scheme :: header == scheme + " " + token
      && ' ' !in scheme && ' ' !in token && EqualFold(scheme, BearerScheme)
  }

  /** The token carried by an `Authorization` header: the header split on single
      spaces must give exactly two parts, the first equal to `bearer` up to
      letter case; the token is the second part, possibly empty. */
  function BearerToken(header: string): (r: Result<string, HeaderError>)
    ensures r == Err(MissingHeader) <==> header == ""
    ensures r.Ok? ==> WellFormedBearer(header, r.value)
    ensures r == Err(MalformedHeader) ==> forall token :: !WellFormedBearer(header, token)
  {
    if header == "" then Err(MissingHeader)
    else
      var parts := Split(header, ' ');
      if |parts| != 2 || ToLower(parts[0]) != BearerScheme then
        MalformedHasNoShape(header);
        Err(MalformedHeader)
      else
        AcceptedHasShape(header);
        Ok(parts[1])
  }

  /** Two space-free parts with a `bearer` scheme rebuild the header. */
  lemma AcceptedHasShape(header: string)
    requires |Split(header, ' ')| == 2 && ToLower(Split(header, ' ')[0]) == BearerScheme
    ensures WellFormedBearer(header, Split(header, ' ')[1])
  {
    var parts := Split(header, ' ');
    ToLowerIdempotent(BearerScheme);
    assert Join(parts, ' ') == parts[0] + [' '] + parts[1];
    assert ' ' !in parts[0] && ' ' !in parts[1];
    ToLowerEqualIff(parts[0], BearerScheme);
    assert header == parts[0] + " " + parts[1];
  }

  /** A header that splits otherwise has no well-formed reading. */
  lemma MalformedHasNoShape(header: string)
    requires |Split(header, ' ')| != 2 || ToLower(Split(header, ' ')[0]) != BearerScheme
    ensures forall token :: !WellFormedBearer(header, token)
  {
    forall token | WellFormedBearer(header, token)
      ensures false
    {
      var scheme :| header == scheme + " " + token
        && ' ' !in scheme && ' ' !in token && EqualFold(scheme, BearerScheme);
      var parts := [scheme, token];
      assert Join(parts, ' ') == header;
      SplitJoin(parts, ' ');
      ToLowerIdempotent(BearerScheme);
      ToLowerEqualIff(scheme, BearerScheme);
    }
  }

  /** A header is accepted exactly when it has the well-formed shape, and then
      the token is exactly the text after the one space. */
  lemma BearerTokenIff(header: string, token: string)
    ensures BearerToken(header) == Ok(token) <==> WellFormedBearer(header, token)
  {
    if WellFormedBearer(header, token) {
      var scheme :| header == scheme + " " + token
        && ' ' !in scheme && ' ' !in token && EqualFold(scheme, BearerScheme);
      var parts := [scheme, token];
      assert Join(parts, ' ') == header;
      SplitJoin(parts, ' ');
      ToLowerIdempotent(BearerScheme);
      ToLowerEqualIff(scheme, BearerScheme);
    }
  }

  /** A lone scheme, or a double space, is turned away. */
  lemma MalformedHeaderExamples()
    ensures BearerToken("Bearer") == Err(MalformedHeader)
    ensures BearerToken("Bearer  x") == Err(MalformedHeader)
  {
    SplitJoin(["Bearer"], ' ');
    var three := ["Bearer", "", "x"];
    assert Join(three, ' ') == "Bearer  x";
    SplitJoin(three, ' ');
  }

  /** The scheme's case does not matter. */
  lemma UpperCaseSchemeAccepted()
    ensures BearerToken("BEARER x") == Ok("x")
  {
    var parts := ["BEARER", "x"];
    assert Join(parts, ' ') == "BEARER x";
    SplitJoin(parts, ' ');
    var lowered := ToLower("BEARER");
    assert lowered[0] == 'b' && lowered[1] == 'e' && lowered[2] == 'a';
    assert lowered[3] == 'r' && lowered[4] == 'e' && lowered[5] == 'r';
    assert lowered == BearerScheme;
  }

  /** The token may be empty. */
  lemma EmptyTokenAccepted()
    ensures BearerToken("Bearer ") == Ok("")
  {
    var parts := ["Bearer", ""];
    assert Join(parts, ' ') == "Bearer ";
    SplitJoin(parts, ' ');
    var lowered := ToLower("Bearer");
    assert lowered[0] == 'b' && lowered[1] == 'e' && lowered[2] == 'a';
    assert lowered[3] == 'r' && lowered[4] == 'e' && lowered[5] == 'r';
    assert lowered == BearerScheme;
  }

  /** What the middleware does with a request: answer it and stop the chain, or
      hand the (possibly extended) context on to the next handler. */
  datatype Outcome = Abort(response: Envelope) | Next(ctx: Context)

  /** The middleware itself. `validate` stands for signature/expiry checking of
      the token, answering the claims or an error text. */
  function Authenticate(header: string, validate: string -> Result<Claims, string>, ctx: Context): (r: Outcome)
    ensures header == "" ==>
      r == Abort(Failure(StatusUnauthorized, "Authorization header required", NoPayload))
    ensures r.Abort? ==> r.response.status == StatusUnauthorized && !r.response.success
    ensures r.Next? <==> BearerToken(header).Ok? && validate(BearerToken(header).value).Ok?
    ensures r.Next? ==> r.ctx == ctx[UserClaimsKey := ClaimsValue(validate(BearerToken(header).value).value)]
  {
    match BearerToken(header)
    case Err(MissingHeader) => Abort(Failure(StatusUnauthorized, "Authorization header required", NoPayload))
    case Err(MalformedHeader) => Abort(Failure(StatusUnauthorized, "Invalid Authorization header format", NoPayload))
    case Ok(token) =>
      match validate(token)
      case Err(e) => Abort(Failure(StatusUnauthorized, "Invalid or expired token", Detail(e)))
      case Ok(claims) => Next(ctx[UserClaimsKey := ClaimsValue(claims)])
  }

  /** After the gate lets a request through, downstream handlers read back
      exactly the claims validation produced. */
  lemma AuthenticatedClaimsReadable(header: string, validate: string -> Result<Claims, string>, ctx: Context)
    requires Authenticate(header, validate, ctx).Next?
    ensures GetUserClaims(Authenticate(header, validate, ctx).ctx)
      == Some(validate(BearerToken(header).value).value)
  {
  }
}
