/**
 * The `/auth` endpoints of the API: login, refresh, register and me. Their security
 * helpers are those of `Security` and `MdmsgaSecurity`.
 */
module XdmsAuth {
  import opened Wrappers
  import opened Values
  import opened Text
  import opened Schemas
  import opened Store
  import opened Crypto
  import opened Security
  import Users
  import UserCrud
  import AuthSchemas
  import MdmsgaSecurity

  const LoginError: Fault := HttpError(401, "Incorrect email or password", true)
  const InactiveError: Fault := HttpError(400, "Inactive user", false)
  const RefreshError: Fault := HttpError(401, "Invalid refresh token", false)
  const ExistsError: Fault := HttpError(400, "User with this email already exists", false)

  /** The `Token` body both endpoints return: a fresh access and refresh token for `user.id`, "bearer", and the user. */
  function IssueTokens(codec: JwtCodec, user: Record, now: int): AuthSchemas.Token
    requires Column(user, "id").Int?
  {
    var id := Column(user, "id");
    AuthSchemas.Token(
      CreateAccessToken(codec, id, Some(AccessTokenSeconds), now),
      CreateRefreshToken(codec, id, Some(RefreshTokenSeconds), now),
      "bearer", Project(Users.Response, user))
  }

  /** `login`: authenticate the form's username as an email, then refuse an inactive user. */
  function Login(codec: JwtCodec, ctx: PasswordContext, users: TableState, username: string, password: string, now: int): Result<AuthSchemas.Token, Fault>
    requires Consistent(Users.Table, users)
  {
    match AuthenticateUser(ctx, users, username, password)
    case None => Failure(LoginError)
    case Some(user) =>
      if !Truthy(Column(user, "is_active")) then Failure(InactiveError) else Success(IssueTokens(codec, user, now))
  }

  /** `refresh_token`: any token that verifies to a non-empty subject naming an active user; there is no `type` check. */
  function Refresh(codec: JwtCodec, users: TableState, refreshToken: string, now: int): Result<AuthSchemas.Token, Fault>
    requires Consistent(Users.Table, users)
  {
    var subject := VerifyToken(codec, refreshToken, now);
    if subject.None? || subject.value == "" then Failure(RefreshError)
    else
      match ParseInt(subject.value)
      case None => Failure(Unhandled("ValueError"))
      case Some(id) =>
        match UserCrud.GetUser(users, id)
        case None => Failure(RefreshError)
        case Some(user) => if !Truthy(Column(user, "is_active")) then Failure(RefreshError) else Success(IssueTokens(codec, user, now))
  }

  /** `read_users_me`: the active current user, as a `UserResponse`. */
  function Me(codec: JwtCodec, users: TableState, token: string, now: int): Result<Record, Fault> {
    match MdmsgaSecurity.GetCurrentActiveUser(codec, users, token, now)
    case Failure(e) => Failure(e)
    case Success(user) => Success(Project(Users.Response, user))
  }

  /** `register`: validate, refuse a taken email, else `create_user` and answer the new user. */
  function RegisterStep(ctx: PasswordContext, s: TableState, body: Record, now: int): Step<Record>
    requires forall i :: 0 <= i < |s.ids| ==> s.ids[i] in s.rows
  {
    match Validate(AuthSchemas.UserCreate, body)
    case Failure(errors) => Step(s, Failure(Unprocessable(errors)))
    case Success(obj) =>
      UserCrud.ValidatedIsReadable(body);
      if UserCrud.GetUserByEmail(s, obj["email"].s).Some? then Step(s, Failure(ExistsError))
      else
        var st := UserCrud.CreateUserStep(ctx, s, obj, now);
        Step(st.state, if st.result.Success? then Success(Project(Users.Response, st.result.value)) else st.result)
  }

  method Register(db: Repository, ctx: PasswordContext, body: Record, now: int) returns (r: Result<Record, Fault>)
    requires db.spec == Users.Table && db.Valid()
    modifies db
    ensures db.Valid()
    ensures Step(db.State(), r) == RegisterStep(ctx, old(db.State()), body, now)
  {
    var v := Validate(AuthSchemas.UserCreate, body);
    if v.Failure? {
      return Failure(Unprocessable(v.error));
    }
    var obj := v.value;
    UserCrud.ValidatedIsReadable(body);
    if UserCrud.GetUserByEmail(db.State(), obj["email"].s).Some? {
      return Failure(ExistsError);
    }
    var created := UserCrud.CreateUser(db, ctx, obj, now);
    if created.Success? {
      r := Success(Project(Users.Response, created.value));
    } else {
      r := created;
    }
  }

  // ---------------------------------------------------------------- properties

  /**
   * An unknown email and a wrong password are the same 401; an authenticated user who
   * is inactive gets 400, so activity is only revealed to someone who knows the password.
   */
  lemma LoginFailures(codec: JwtCodec, ctx: PasswordContext, users: TableState, email: string, password: string, now: int)
    requires Consistent(Users.Table, users)
    ensures AuthenticateUser(ctx, users, email, password).None? ==> Login(codec, ctx, users, email, password, now) == Failure(LoginError)
    ensures Login(codec, ctx, users, email, password, now) == Failure(InactiveError) <==>
      AuthenticateUser(ctx, users, email, password).Some? && !Truthy(Column(AuthenticateUser(ctx, users, email, password).value, "is_active"))
  {
  }

  /**
   * A successful login answers "bearer", the user as a `UserResponse`, and two tokens
   * that verify to the user's id: the access one for 30 minutes, the refresh one for 7 days.
   */
  lemma LoginTokens(codec: JwtCodec, ctx: PasswordContext, users: TableState, email: string, password: string, now: int, later: int)
    requires JwtSound(codec) && Consistent(Users.Table, users)
    ensures var r := Login(codec, ctx, users, email, password, now);
      r.Success? ==>
        var user := AuthenticateUser(ctx, users, email, password).value;
        && Truthy(Column(user, "is_active"))
        && r.value.tokenType == "bearer" && r.value.user == Project(Users.Response, user)
        && Column(user, "id").Int?
        && VerifyToken(codec, r.value.accessToken, later) == (if later <= now + 1800 then Some(IntToString(Column(user, "id").i)) else None)
        && VerifyToken(codec, r.value.refreshToken, later) == (if later <= now + 604800 then Some(IntToString(Column(user, "id").i)) else None)
  {
    var r := Login(codec, ctx, users, email, password, now);
    if r.Success? {
      var user := AuthenticateUser(ctx, users, email, password).value;
      AccessTokenVerifies(codec, Column(user, "id"), Some(AccessTokenSeconds), now, later);
      RefreshTokenVerifies(codec, Column(user, "id"), Some(RefreshTokenSeconds), now, later);
    }
  }

  /** Refresh refuses, with the same 401, a token that does not verify, an empty subject, a missing user and an inactive one. */
  lemma RefreshFailures(codec: JwtCodec, users: TableState, token: string, now: int)
    requires Consistent(Users.Table, users)
    ensures var subject := VerifyToken(codec, token, now);
      && (subject.None? || subject == Some("") ==> Refresh(codec, users, token, now) == Failure(RefreshError))
      && (subject.Some? && ParseInt(subject.value).Some? ==>
            var id := ParseInt(subject.value).value;
            Refresh(codec, users, token, now) ==
              if id !in users.rows || !Truthy(Column(users.rows[id], "is_active")) then Failure(RefreshError)
              else Success(IssueTokens(codec, users.rows[id], now)))
  {
  }

  /** With no `type` check, the access token of a login is accepted by refresh while it is unexpired and the user active. */
  lemma RefreshAcceptsAccessToken(codec: JwtCodec, ctx: PasswordContext, users: TableState, email: string, password: string, now: int, later: int)
    requires JwtSound(codec) && Consistent(Users.Table, users) && later <= now + 1800
    ensures var r := Login(codec, ctx, users, email, password, now);
      r.Success? ==> Refresh(codec, users, r.value.accessToken, later).Success?
  {
    var r := Login(codec, ctx, users, email, password, now);
    if r.Success? {
      var user := AuthenticateUser(ctx, users, email, password).value;
      var id :| id in users.rows && users.rows[id] == user;
      assert Column(user, "id") == Int(id);
      AccessTokenVerifies(codec, Int(id), Some(AccessTokenSeconds), now, later);
      RefreshOfUserId(codec, users, r.value.accessToken, later, id);
    }
  }

  /** Refresh accepts any token that verifies to the decimal id of an active user, and issues that user's tokens. */
  lemma RefreshOfUserId(codec: JwtCodec, users: TableState, token: string, now: int, id: int)
    requires Consistent(Users.Table, users) && VerifyToken(codec, token, now) == Some(IntToString(id))
    requires id in users.rows && Truthy(Column(users.rows[id], "is_active"))
    ensures Refresh(codec, users, token, now) == Success(IssueTokens(codec, users.rows[id], now))
  {
    ParseIntToString(id);
  }

  /** Register refuses a taken email with 400 and changes nothing. */
  lemma RegisterTakenEmail(ctx: PasswordContext, s: TableState, body: Record, now: int, other: int)
    requires Consistent(Users.Table, s) && Validate(AuthSchemas.UserCreate, body).Success?
    requires other in s.rows && "email" in body && Column(s.rows[other], "email") == body["email"]
    ensures RegisterStep(ctx, s, body, now) == Step(s, Failure(ExistsError))
  {
    UserCrud.ValidatedIsReadable(body);
    UserCrud.GetUserByEmailIsTheRow(s, body["email"].s, other);
  }

  /** A registration that succeeds is the hashing `create_user` of the parsed body, for an email no user has. */
  lemma RegisterIsCreate(ctx: PasswordContext, s: TableState, body: Record, now: int)
    requires Consistent(Users.Table, s)
    ensures var st := RegisterStep(ctx, s, body, now);
      st.result.Success? ==>
        && Validate(AuthSchemas.UserCreate, body).Success?
        && var obj := Validate(AuthSchemas.UserCreate, body).value;
        && UserCrud.Readable(obj) && obj["email"].Str?
        && "email" in body && "password" in body && obj["email"] == body["email"] && obj["password"] == body["password"]
        && var created := UserCrud.CreateUserStep(ctx, s, obj, now);
        && created.result.Success? && st.state == created.state
        && st.result.value == Project(Users.Response, created.result.value)
  {
    if Validate(AuthSchemas.UserCreate, body).Success? {
      UserCrud.ValidatedIsReadable(body);
    }
  }

  /**
   * Otherwise a successful registration adds exactly one user, under the next id,
   * keeps the table consistent, answers the user as a `UserResponse`, and that user
   * can log in with the password sent.
   */
  lemma RegisterCreatesOne(ctx: PasswordContext, s: TableState, body: Record, now: int) returns (user: Record)
    requires HashSound(ctx) && Consistent(Users.Table, s)
    ensures var st := RegisterStep(ctx, s, body, now);
      st.result.Success? ==>
        && st.state.ids == s.ids + [s.nextId]
        && st.state.rows == s.rows[s.nextId := user]
        && st.result.value == Project(Users.Response, user)
        && Consistent(Users.Table, st.state)
        && "email" in body && "password" in body && body["email"].Str? && body["password"].Str?
        && AuthenticateUser(ctx, st.state, body["email"].s, body["password"].s) == Some(user)
  {
    var st := RegisterStep(ctx, s, body, now);
    RegisterIsCreate(ctx, s, body, now);
    user := map[];
    if st.result.Success? {
      var obj := Validate(AuthSchemas.UserCreate, body).value;
      user := UserCrud.CreateUserStep(ctx, s, obj, now).result.value;
      UserCrud.CreateThenGetUser(ctx, s, obj, now);
      Users.TableWellFormed();
      InsertPreserves(Users.Table, s, UserCrud.UserRecord(ctx, obj), now);
      CreatedUserAuthenticates(ctx, s, obj, now);
    }
  }

  /** `/me` answers the active current user as a `UserResponse`, and fails exactly as the dependency does. */
  lemma MeIsActiveUser(codec: JwtCodec, users: TableState, token: string, now: int)
    ensures var u := MdmsgaSecurity.GetCurrentActiveUser(codec, users, token, now);
      && (u.Success? <==> Me(codec, users, token, now).Success?)
      && (u.Success? ==> Me(codec, users, token, now).value == Project(Users.Response, u.value))
      && (u.Failure? ==> Me(codec, users, token, now).error == u.error)
  {
  }
}
