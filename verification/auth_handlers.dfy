/** Account registration, login and deletion over the user table. Password
    hashing and comparison (bcrypt) and token signing (JWT) are foreign
    libraries and are passed in as functions. */
module AuthHandlers {

  import opened Base
  import opened Text
  import opened Models
  import opened Http
  import opened UserStore
  import opened AuthMiddleware

  datatype RegisterRequest = RegisterRequest(username: string, email: string, password: string)

  datatype LoginRequest = LoginRequest(email: string, password: string)

  /** The response and the user table after the request. */
  datatype Outcome = Outcome(response: Envelope, users: Users)

  const Issuer: string := "manim-orchestrator-api"

  /** Tokens are valid for 24 hours; instants are counted in seconds. */
  const TokenLifetime: int := 24 * 60 * 60

  const InvalidCredentials: Envelope := Failure(StatusUnauthorized, "Invalid credentials", NoPayload)

  /** Every stored address is in lower case. */
  predicate EmailsLowerCase(u: Users)
  {
    forall id :: id in u ==> ToLower(u[id].email) == u[id].email
  }

  /** An account registered under `email`, in any letter case. */
  predicate Registered(u: Users, email: string)
  {
    exists id :: id in u && u[id].email == ToLower(email)
  }

  /** `POST /auth/register`. The address is lower-cased before the lookup and
      before it is stored; an address already taken answers 409 whatever the
      username; only the hash of the password is stored. */
  function Register(body: Bound<RegisterRequest>, u: Users, hash: string -> Result<string, string>,
                    newId: Uuid, now: Time): (r: Outcome)
    ensures body.BindError? ==> r.response.status == StatusBadRequest && r.users == u
    ensures r.response.status == StatusConflict <==> body.Bound? && Registered(u, body.req.email)
    ensures body.Bound? && !Registered(u, body.req.email) && hash(body.req.password).Ok? && newId !in u ==>
      r.response.status == StatusCreated
    ensures r.response.status != StatusCreated ==> r.users == u
    ensures r.response.status == StatusCreated ==>
      && body.Bound? && !Registered(u, body.req.email)
      && hash(body.req.password).Ok? && newId !in u
      && r.response == Success(StatusCreated, "User created successfully", NoPayload)
      && r.users == u[newId := User(newId, body.req.username, ToLower(body.req.email),
                                   hash(body.req.password).value, now, now)]
  {
    match body
    case BindError(e) => Outcome(Failure(StatusBadRequest, "Invalid request body", Detail(e)), u)
    case Bound(req) =>
      var email := ToLower(req.email);
      if FindByEmail(u, email).Some? then
        Outcome(Failure(StatusConflict, "User with email already exists", NoPayload), u)
      else
        match hash(req.password)
        case Err(e) => Outcome(Failure(StatusInternalServerError, "Error hashing password", Detail(e)), u)
        case Ok(h) =>
          match UserStore.Create(u, NewUser(req.username, email, h), newId, now)
          case Err(_) => Outcome(Failure(StatusInternalServerError, "Error creating user", NoPayload), u)
          case Ok(created) => Outcome(Success(StatusCreated, "User created successfully", NoPayload), created.users)
  }

  /** Registration keeps every row under its own id, every address in lower
      case, and no address used twice. */
  lemma RegisterKeepsInvariants(body: Bound<RegisterRequest>, u: Users, hash: string -> Result<string, string>,
                                newId: Uuid, now: Time)
    requires WellKeyed(u) && EmailsUnique(u) && EmailsLowerCase(u)
    ensures var r := Register(body, u, hash, newId, now);
      WellKeyed(r.users) && EmailsUnique(r.users) && EmailsLowerCase(r.users)
  {
    var r := Register(body, u, hash, newId, now);
    if r.response.status == StatusCreated {
      ToLowerIdempotent(body.req.email);
    }
  }

  /** The claims a token is signed over: the account's id (also the subject),
      address and name, issued now and expiring a day later. */
  function TokenClaims(user: User, now: Time): (c: Claims)
    ensures c.userId == user.id && c.subject == user.id
    ensures c.email == user.email && c.username == user.username
    ensures c.issuer == Issuer && c.expiresAt - c.issuedAt == TokenLifetime && c.issuedAt == now
  {
    Claims(user.id, user.email, user.username, user.id, Issuer, now, now + TokenLifetime)
  }

  /** `POST /auth/login`. An unknown address and a wrong password give the
      same 401, so a client cannot tell which accounts exist. */
  function Login(body: Bound<LoginRequest>, u: Users, matches: (string, string) -> bool,
                 sign: Claims -> Option<string>, now: Time): (r: Envelope)
    ensures body.BindError? ==> r.status == StatusBadRequest
    ensures r.status == StatusUnauthorized ==> r == InvalidCredentials
    ensures body.Bound? ==>
      var found := FindByEmail(u, ToLower(body.req.email));
      && (r.status == StatusUnauthorized <==>
            found.None? || !matches(found.value.passwordHash, body.req.password))
      && (r.status == StatusOK <==>
            && found.Some? && matches(found.value.passwordHash, body.req.password)
            && sign(TokenClaims(found.value, now)).Some?)
      && (r.status == StatusOK ==>
            r == Success(StatusOK, "Login successful", TokenBody(sign(TokenClaims(found.value, now)).value)))
  {
    match body
    case BindError(e) => Failure(StatusBadRequest, "Invalid request body", Detail(e))
    case Bound(req) =>
      match FindByEmail(u, ToLower(req.email))
      case None => InvalidCredentials
      case Some(user) =>
        if !matches(user.passwordHash, req.password) then InvalidCredentials
        else
          match sign(TokenClaims(user, now))
          case None => Failure(StatusInternalServerError, "Failed to generate authentication token", NoPayload)
          case Some(token) => Success(StatusOK, "Login successful", TokenBody(token))
  }

  /** Whoever registers can log in with the same password and any letter case
      of the same address, and the token names the new account. The hash
      comparison must accept the hash of the password it was made from. */
  lemma RegisterThenLogin(req: RegisterRequest, u: Users, hash: string -> Result<string, string>,
                          newId: Uuid, now: Time, loginEmail: string,
                          matches: (string, string) -> bool, sign: Claims -> Option<string>, later: Time)
    requires Register(Bound(req), u, hash, newId, now).response.status == StatusCreated
    requires hash(req.password).Ok? ==> matches(hash(req.password).value, req.password)
    requires EqualFold(loginEmail, req.email)
    requires forall c :: sign(c).Some?
    ensures var u' := Register(Bound(req), u, hash, newId, now).users;
      var user := u'[newId];
      Login(Bound(LoginRequest(loginEmail, req.password)), u', matches, sign, later)
        == Success(StatusOK, "Login successful", TokenBody(sign(TokenClaims(user, later)).value))
  {
    var u' := Register(Bound(req), u, hash, newId, now).users;
    var email := ToLower(req.email);
    ToLowerEqualIff(loginEmail, req.email);
    assert ToLower(loginEmail) == email;
    assert WithEmail(u', email) == {newId} by {
      forall id | id in u' && u'[id].email == email
        ensures id == newId
      {
        if id != newId {
          assert false;
        }
      }
    }
    assert FindByEmail(u', email) == Some(u'[newId]);
  }

  /** `POST /api/delete`: the account named by the token's e-mail
      claim (not its subject) is removed. A missing account is reported with a
      success envelope carrying 404. */
  function DeleteAccount(ctx: Context, u: Users): (r: Outcome)
    ensures UserClaimsKey !in ctx ==>
      r == Outcome(Failure(StatusInternalServerError, "Authentication error: User session data missing.", NoPayload), u)
    ensures UserClaimsKey in ctx && ctx[UserClaimsKey].OtherValue? ==>
      r == Outcome(Failure(StatusInternalServerError, "Authentication error: Invalid user session data format.", NoPayload), u)
    ensures GetUserClaims(ctx).Some? ==>
      var found := FindByEmail(u, GetUserClaims(ctx).value.email);
      && (found.None? ==> r == Outcome(Success(StatusNotFound, "User account not found or already deleted.", NoPayload), u))
      && (found.Some? ==>
            && r.response == Success(StatusNoContent, "User account deleted successfully", NoPayload)
            && r.users == UserStore.Delete(u, found.value.id))
  {
    if UserClaimsKey !in ctx then
      Outcome(Failure(StatusInternalServerError, "Authentication error: User session data missing.", NoPayload), u)
    else
      match ctx[UserClaimsKey]
      case OtherValue(_) =>
        Outcome(Failure(StatusInternalServerError, "Authentication error: Invalid user session data format.", NoPayload), u)
      case ClaimsValue(claims) =>
        match FindByEmail(u, claims.email)
        case None => Outcome(Success(StatusNotFound, "User account not found or already deleted.", NoPayload), u)
        case Some(user) =>
          Outcome(Success(StatusNoContent, "User account deleted successfully", NoPayload), UserStore.Delete(u, user.id))
  }

  /** Deletion removes exactly the account holding the token's address: every
      other account stays, and afterwards no account holds that address, so
      logging in with it (in any letter case) is refused. */
  lemma DeleteAccountRemovesOnlyHolder(ctx: Context, u: Users, matches: (string, string) -> bool,
                                       sign: Claims -> Option<string>, now: Time, password: string, loginEmail: string)
    requires WellKeyed(u) && EmailsUnique(u)
    requires GetUserClaims(ctx).Some?
    requires ToLower(loginEmail) == GetUserClaims(ctx).value.email
    ensures var e := GetUserClaims(ctx).value.email;
      var r := DeleteAccount(ctx, u);
      && r.users.Keys == u.Keys - (set id | id in u && u[id].email == e)
      && (forall id :: id in r.users ==> r.users[id] == u[id])
      && Login(Bound(LoginRequest(loginEmail, password)), r.users, matches, sign, now) == InvalidCredentials
  {
    var e := GetUserClaims(ctx).value.email;
    var r := DeleteAccount(ctx, u);
    var holders := set id | id in u && u[id].email == e;
    var found := FindByEmail(u, e);
    if found.Some? {
      var k := found.value.id;
      assert k in holders;
      forall id | id in holders
        ensures id == k
      {
        if id != k {
          assert false;
        }
      }
      assert holders == {k};
    } else {
      assert holders == {};
    }
    assert FindByEmail(r.users, e).None?;
  }
}
