/**
 * Token issue and verification, password authentication and the current-user
 * dependencies: the cookie-reading version the web application uses. The token and
 * password libraries are the `Crypto` parameters; `now` is the request time in seconds.
 */
module Security {
  import opened Wrappers
  import opened Values
  import opened Text
  import opened Store
  import opened Crypto
  import Settings
  import Users
  import UserCrud

  const AccessTokenSeconds: int := Settings.AccessTokenExpireMinutes * 60
  const RefreshTokenSeconds: int := Settings.RefreshTokenExpireDays * 24 * 60 * 60

  /** `now + expires_delta` when the delta is truthy (a zero timedelta is not), else `now + fallback`; deltas in seconds. */
  function Expiry(now: int, delta: Option<int>, fallback: int): int {
    if delta.Some? && delta.value != 0 then now + delta.value else now + fallback
  }

  /** What `str(subject)` can be taken of: the subjects are user ids. */
  predicate Displayable(v: Value) {
    !v.Decimal? && !v.DateTime?
  }

  /** The access token's claims: `{"exp": expire, "sub": str(subject)}`. */
  function AccessClaims(subject: Value, delta: Option<int>, now: int): Record
    requires Displayable(subject)
  {
    map["exp" := Int(Expiry(now, delta, AccessTokenSeconds)), "sub" := Str(Display(subject))]
  }

  /** The refresh token's claims add `"type": "refresh"`. */
  function RefreshClaims(subject: Value, delta: Option<int>, now: int): Record
    requires Displayable(subject)
  {
    map["exp" := Int(Expiry(now, delta, RefreshTokenSeconds)), "sub" := Str(Display(subject)), "type" := Str("refresh")]
  }

  /** `create_access_token` */
  function CreateAccessToken(codec: JwtCodec, subject: Value, delta: Option<int>, now: int): string
    requires Displayable(subject)
  {
    codec.encode(AccessClaims(subject, delta, now))
  }

  /** `create_refresh_token` */
  function CreateRefreshToken(codec: JwtCodec, subject: Value, delta: Option<int>, now: int): string
    requires Displayable(subject)
  {
    codec.encode(RefreshClaims(subject, delta, now))
  }

  /**
   * `verify_token`: the `sub` claim of a token that decodes, None when it has none,
   * and None for every decoding error. python-jose raises a `JWTError` for a `sub`
   * that is not a string, so a string is all it can return.
   */
  function VerifyToken(codec: JwtCodec, token: string, now: int): Option<string> {
    match codec.decode(token, now)
    case None => None
    case Some(payload) =>
      var subject := Column(payload, "sub");
      if subject.Str? then Some(subject.s) else None
  }

  /** `authenticate_user`: the user with that email whose stored hash the password verifies against, else None (the source's False). */
  function AuthenticateUser(ctx: PasswordContext, users: TableState, email: string, password: string): (r: Option<Record>)
    requires forall i :: 0 <= i < |users.ids| ==> users.ids[i] in users.rows
    ensures r.Some? ==>
      && (exists id :: id in users.rows && users.rows[id] == r.value) && Column(r.value, "email") == Str(email)
      && Verify(ctx, password, Column(r.value, "hashed_password"))
  {
    match UserCrud.GetUserByEmail(users, email)
    case None => None
    case Some(user) => if Verify(ctx, password, Column(user, "hashed_password")) then Some(user) else None
  }

  /** The one exception `get_current_user` raises for every failure. */
  const CredentialsError: Fault := HttpError(401, "Could not validate credentials", true)

  /** A leading "Bearer " (seven characters) is removed; anything else is left alone. */
  function StripBearer(token: string): string {
    if StartsWith(token, "Bearer ") then token[7..] else token
  }

  /**
   * `get_current_user`: the `access_token` cookie, less its "Bearer " prefix, must
   * verify to the decimal id of an existing user; `int(subject)` on any other subject
   * is an uncaught ValueError.
   */
  function GetCurrentUser(codec: JwtCodec, users: TableState, cookies: map<string, string>, now: int): Result<Record, Fault> {
    if "access_token" !in cookies || cookies["access_token"] == "" then Failure(CredentialsError)
    else
      match VerifyToken(codec, StripBearer(cookies["access_token"]), now)
      case None => Failure(CredentialsError)
      case Some(subject) =>
        match ParseInt(subject)
        case None => Failure(Unhandled("ValueError"))
        case Some(id) =>
          match UserCrud.GetUser(users, id)
          case None => Failure(CredentialsError)
          case Some(user) => Success(user)
  }

  /** `get_current_active_user`: 400 "Inactive user" for a falsy `is_active`; a user without the attribute counts as active. */
  function GetCurrentActiveUser(codec: JwtCodec, users: TableState, cookies: map<string, string>, now: int): Result<Record, Fault> {
    match GetCurrentUser(codec, users, cookies, now)
    case Failure(e) => Failure(e)
    case Success(user) =>
      if "is_active" in user && !Truthy(user["is_active"]) then Failure(HttpError(400, "Inactive user", false))
      else Success(user)
  }

  // ---------------------------------------------------------------- token properties

  /**
   * An access token expires `expires_delta` after issue when the delta is truthy and
   * ACCESS_TOKEN_EXPIRE_MINUTES after otherwise; its claims are exactly `exp` and
   * `sub = str(subject)`.
   */
  lemma AccessClaimsShape(subject: Value, delta: Option<int>, now: int)
    requires Displayable(subject)
    ensures var c := AccessClaims(subject, delta, now);
      && c.Keys == {"exp", "sub"} && c["sub"] == Str(Display(subject))
      && (delta.None? || delta == Some(0) ==> Expires(c, now + 1800))
      && (delta.Some? && delta.value != 0 ==> Expires(c, now + delta.value))
  {
  }

  /** A refresh token has the same two claims, a falsy delta meaning REFRESH_TOKEN_EXPIRE_DAYS, plus `type = "refresh"`. */
  lemma RefreshClaimsShape(subject: Value, delta: Option<int>, now: int)
    requires Displayable(subject)
    ensures var c := RefreshClaims(subject, delta, now);
      && c.Keys == {"exp", "sub", "type"} && c["sub"] == Str(Display(subject)) && c["type"] == Str("refresh")
      && (delta.None? || delta == Some(0) ==> Expires(c, now + 604800))
      && (delta.Some? && delta.value != 0 ==> Expires(c, now + delta.value))
  {
  }

  /** A token issued for `subject` verifies to `str(subject)` until it expires, and to None after. */
  lemma AccessTokenVerifies(codec: JwtCodec, subject: Value, delta: Option<int>, now: int, later: int)
    requires JwtSound(codec) && Displayable(subject)
    ensures var exp := Expiry(now, delta, AccessTokenSeconds);
      VerifyToken(codec, CreateAccessToken(codec, subject, delta, now), later) ==
        (if later <= exp then Some(Display(subject)) else None)
  {
    var claims := AccessClaims(subject, delta, now);
    assert Expires(claims, Expiry(now, delta, AccessTokenSeconds)) && SubjectIsString(claims);
  }

  /**
   * `verify_token` does not look at `type`: a refresh token verifies to its subject
   * exactly as an access token for the same subject and expiry does.
   */
  lemma RefreshTokenVerifies(codec: JwtCodec, subject: Value, delta: Option<int>, now: int, later: int)
    requires JwtSound(codec) && Displayable(subject)
    ensures var exp := Expiry(now, delta, RefreshTokenSeconds);
      VerifyToken(codec, CreateRefreshToken(codec, subject, delta, now), later) ==
        (if later <= exp then Some(Display(subject)) else None)
    ensures VerifyToken(codec, CreateRefreshToken(codec, subject, delta, now), later) ==
      VerifyToken(codec, codec.encode(RefreshClaims(subject, delta, now) - {"type"}), later)
  {
    var claims := RefreshClaims(subject, delta, now);
    var exp := Expiry(now, delta, RefreshTokenSeconds);
    assert Expires(claims, exp) && SubjectIsString(claims);
    var plain := claims - {"type"};
    assert Expires(plain, exp) && SubjectIsString(plain);
  }

  /** `verify_token` never raises: a token that does not decode, or carries no subject, is None. */
  lemma VerifyTokenFailures(codec: JwtCodec, token: string, now: int)
    ensures codec.decode(token, now).None? ==> VerifyToken(codec, token, now).None?
    ensures codec.decode(token, now).Some? && "sub" !in codec.decode(token, now).value ==> VerifyToken(codec, token, now).None?
    ensures VerifyToken(codec, token, now).Some? ==>
      codec.decode(token, now).Some? && Column(codec.decode(token, now).value, "sub") == Str(VerifyToken(codec, token, now).value)
  {
  }

  // ---------------------------------------------------------------- authentication

  /**
   * In a consistent users table, authentication succeeds exactly when the user with
   * that email exists and the password verifies against their hash, and then answers
   * that user.
   */
  lemma AuthenticateUserIff(ctx: PasswordContext, users: TableState, email: string, password: string, id: int)
    requires Consistent(Users.Table, users)
    requires id in users.rows && Column(users.rows[id], "email") == Str(email)
    ensures AuthenticateUser(ctx, users, email, password) ==
      (if Verify(ctx, password, Column(users.rows[id], "hashed_password")) then Some(users.rows[id]) else None)
  {
    UserCrud.GetUserByEmailIsTheRow(users, email, id);
  }

  /** An unknown email and a wrong password give the same None. */
  lemma AuthenticateFailsAlike(ctx: PasswordContext, users: TableState, email: string, password: string)
    requires Consistent(Users.Table, users)
    ensures (forall x :: x in users.rows ==> Column(users.rows[x], "email") != Str(email)) ==>
      AuthenticateUser(ctx, users, email, password) == None
    ensures (forall x :: x in users.rows && Column(users.rows[x], "email") == Str(email) ==>
              !Verify(ctx, password, Column(users.rows[x], "hashed_password"))) ==>
      AuthenticateUser(ctx, users, email, password) == None
  {
    UserCrud.GetUserByEmailIsTheRow(users, email, 0);
    match UserCrud.FirstByEmail(users.ids, users.rows, email) {
      case None =>
      case Some(id) =>
        UserCrud.FirstByEmailFinds(users.ids, users.rows, email);
    }
  }

  /** A user created with the hashing `create_user` authenticates with the password they registered. */
  lemma CreatedUserAuthenticates(ctx: PasswordContext, users: TableState, obj: Record, now: int)
    requires HashSound(ctx) && Consistent(Users.Table, users) && UserCrud.Readable(obj) && obj["email"].Str?
    ensures var st := UserCrud.CreateUserStep(ctx, users, obj, now);
      st.result.Success? ==> AuthenticateUser(ctx, st.state, obj["email"].s, obj["password"].s) == Some(st.result.value)
  {
    var st := UserCrud.CreateUserStep(ctx, users, obj, now);
    if st.result.Success? {
      Users.TableWellFormed();
      InsertPreserves(Users.Table, users, UserCrud.UserRecord(ctx, obj), now);
      UserCrud.CreateCopiesField(ctx, users, obj, now, "email");
      UserCrud.CreateStoresHash(ctx, users, obj, now);
      UserCrud.CreateThenGetUser(ctx, users, obj, now);
      AuthenticateUserIff(ctx, st.state, obj["email"].s, obj["password"].s, users.nextId);
    }
  }

  // ---------------------------------------------------------------- current user

  lemma StripBearerPrefix(token: string)
    ensures StripBearer("Bearer " + token) == token
    ensures !StartsWith(token, "Bearer ") ==> StripBearer(token) == token
  {
    assert ("Bearer " + token)[..7] == "Bearer ";
  }

  /**
   * Every way `get_current_user` fails: no cookie (or an empty one), a token that does
   * not verify, and a subject naming no user all give the same 401; a subject that is
   * not a decimal integer is a ValueError. Otherwise it answers the subject's user.
   */
  lemma GetCurrentUserCases(codec: JwtCodec, users: TableState, cookies: map<string, string>, now: int)
    ensures "access_token" !in cookies || cookies["access_token"] == "" ==>
      GetCurrentUser(codec, users, cookies, now) == Failure(CredentialsError)
    ensures "access_token" in cookies && cookies["access_token"] != "" ==>
      var subject := VerifyToken(codec, StripBearer(cookies["access_token"]), now);
      GetCurrentUser(codec, users, cookies, now) ==
        if subject.None? then Failure(CredentialsError)
        else if ParseInt(subject.value).None? then Failure(Unhandled("ValueError"))
        else if ParseInt(subject.value).value !in users.rows then Failure(CredentialsError)
        else Success(users.rows[ParseInt(subject.value).value])
  {
  }

  /** The active check is the only difference: a falsy `is_active` turns a found user into a 400, a missing one does not. */
  lemma ActiveUserIff(codec: JwtCodec, users: TableState, cookies: map<string, string>, now: int)
    ensures var u := GetCurrentUser(codec, users, cookies, now);
      GetCurrentActiveUser(codec, users, cookies, now) ==
        (if u.Success? && "is_active" in u.value && !Truthy(u.value["is_active"]) then Failure(HttpError(400, "Inactive user", false)) else u)
  {
  }

  /** A cookie holding "Bearer " and an unexpired token issued for an existing user's id resolves to that user. */
  lemma BearerCookieResolves(codec: JwtCodec, users: TableState, id: int, delta: Option<int>, now: int, later: int)
    requires JwtSound(codec) && id in users.rows && later <= Expiry(now, delta, AccessTokenSeconds)
    ensures GetCurrentUser(codec, users, map["access_token" := "Bearer " + CreateAccessToken(codec, Int(id), delta, now)], later) ==
      Success(users.rows[id])
  {
    var token := CreateAccessToken(codec, Int(id), delta, now);
    StripBearerPrefix(token);
    AccessTokenVerifies(codec, Int(id), delta, now, later);
    ParseIntToString(id);
  }
}
