/**
 * The web front end's login form (`POST /auth/login` of the HTML app): it
 * authenticates the form's email and password, and on success redirects to the
 * dashboard with the access token in a "Bearer " cookie that the page
 * dependencies (`Security.GetCurrentUser`) read back.
 */
module Web {
  import opened Wrappers
  import opened Values
  import opened Text
  import opened Store
  import opened Crypto
  import opened Security
  import Users

  /** A `Set-Cookie` header. */
  datatype Cookie = Cookie(name: string, value: string, httpOnly: bool, maxAge: int, sameSite: string)

  /** What the form handler answers: the login page again with an error, or a redirect setting a cookie. */
  datatype FormResponse =
    | LoginPage(status: int, error: string)
    | Redirect(status: int, location: string, cookie: Cookie)

  /** `getattr(user, "is_active", True)`: a row with no such column counts as active. */
  predicate IsActive(user: Record) {
    "is_active" !in user || Truthy(user["is_active"])
  }

  /** The value the cookie carries: "Bearer " and a 30-minute access token for the user's id. */
  function SessionCookie(codec: JwtCodec, user: Record, now: int): Cookie
    requires Displayable(Column(user, "id"))
  {
    Cookie("access_token", "Bearer " + CreateAccessToken(codec, Column(user, "id"), Some(AccessTokenSeconds), now), true, 1800, "lax")
  }

  /** `login_form` */
  function LoginForm(codec: JwtCodec, ctx: PasswordContext, users: TableState, email: string, password: string, now: int): (r: FormResponse)
    requires Consistent(Users.Table, users)
    ensures r.Redirect? <==> AuthenticateUser(ctx, users, email, password).Some? && IsActive(AuthenticateUser(ctx, users, email, password).value)
  {
    match AuthenticateUser(ctx, users, email, password)
    case None => LoginPage(401, "Invalid email or password")
    case Some(user) =>
      if !IsActive(user) then LoginPage(401, "Account is inactive")
      else
        UserHasId(users, user);
        Redirect(302, "/dashboard", SessionCookie(codec, user, now))
  }

  /** A stored row carries its own id, an int. */
  lemma UserHasId(users: TableState, user: Record)
    requires Consistent(Users.Table, users) && exists id :: id in users.rows && users.rows[id] == user
    ensures Column(user, "id").Int? && Column(user, "id").i in users.rows && users.rows[Column(user, "id").i] == user
  {
    var id :| id in users.rows && users.rows[id] == user;
    assert Column(user, "id") == Int(id);
  }

  // ---------------------------------------------------------------- properties

  /**
   * The two refusals are both 401 on the login page: an unknown email and a wrong
   * password give the same message, an inactive account its own.
   */
  lemma LoginFormFailures(codec: JwtCodec, ctx: PasswordContext, users: TableState, email: string, password: string, now: int)
    requires Consistent(Users.Table, users)
    ensures var u := AuthenticateUser(ctx, users, email, password);
      && (u.None? ==> LoginForm(codec, ctx, users, email, password, now) == LoginPage(401, "Invalid email or password"))
      && (u.Some? && !IsActive(u.value) ==> LoginForm(codec, ctx, users, email, password, now) == LoginPage(401, "Account is inactive"))
  {
  }

  /**
   * A successful login is a 302 to "/dashboard" with an http-only, lax cookie that
   * lives as long as the token in it (30 minutes); while it lives, sending it back
   * resolves to the user who logged in, and after that it is refused with 401.
   */
  lemma LoginCookieResolves(codec: JwtCodec, ctx: PasswordContext, users: TableState, email: string, password: string, now: int, later: int)
    requires JwtSound(codec) && Consistent(Users.Table, users)
    ensures var r := LoginForm(codec, ctx, users, email, password, now);
      r.Redirect? ==>
        && r.status == 302 && r.location == "/dashboard"
        && r.cookie.name == "access_token" && r.cookie.httpOnly && r.cookie.sameSite == "lax"
        && r.cookie.maxAge == AccessTokenSeconds
        && GetCurrentUser(codec, users, map[r.cookie.name := r.cookie.value], later) ==
             (if later <= now + r.cookie.maxAge then Success(AuthenticateUser(ctx, users, email, password).value) else Failure(CredentialsError))
  {
    var r := LoginForm(codec, ctx, users, email, password, now);
    if r.Redirect? {
      var user := AuthenticateUser(ctx, users, email, password).value;
      UserHasId(users, user);
      var id := Column(user, "id").i;
      var token := CreateAccessToken(codec, Int(id), Some(AccessTokenSeconds), now);
      StripBearerPrefix(token);
      AccessTokenVerifies(codec, Int(id), Some(AccessTokenSeconds), now, later);
      if later <= now + AccessTokenSeconds {
        BearerCookieResolves(codec, users, id, Some(AccessTokenSeconds), now, later);
      }
    }
  }

  /** The page dependency that also checks activity lets the same cookie through. */
  lemma LoginCookieIsActive(codec: JwtCodec, ctx: PasswordContext, users: TableState, email: string, password: string, now: int, later: int)
    requires JwtSound(codec) && Consistent(Users.Table, users) && later <= now + AccessTokenSeconds
    ensures var r := LoginForm(codec, ctx, users, email, password, now);
      r.Redirect? ==>
        GetCurrentActiveUser(codec, users, map[r.cookie.name := r.cookie.value], later) == Success(AuthenticateUser(ctx, users, email, password).value)
  {
    LoginCookieResolves(codec, ctx, users, email, password, now, later);
  }
}
