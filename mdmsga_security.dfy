/**
 * The API back end's copy of the security utilities. Token issue, verification and
 * authentication are those of `Security`; the current-user dependencies differ: they
 * take the token itself, with no cookie and no "Bearer " stripping, and read
 * `user.is_active` as an attribute.
 */
module MdmsgaSecurity {
  import opened Wrappers
  import opened Values
  import opened Text
  import opened Store
  import opened Crypto
  import opened Security
  import UserCrud

  /** `get_current_user(db, token)`: the token as given must verify to the decimal id of an existing user. */
  function GetCurrentUser(codec: JwtCodec, users: TableState, token: string, now: int): Result<Record, Fault> {
    match VerifyToken(codec, token, now)
    case None => Failure(CredentialsError)
    case Some(subject) =>
      match ParseInt(subject)
      case None => Failure(Unhandled("ValueError"))
      case Some(id) =>
        match UserCrud.GetUser(users, id)
        case None => Failure(CredentialsError)
        case Some(user) => Success(user)
  }

  /** `get_current_active_user(db, token)`: 400 "Inactive user" when `user.is_active` is falsy; a row without the column has no such attribute. */
  function GetCurrentActiveUser(codec: JwtCodec, users: TableState, token: string, now: int): Result<Record, Fault> {
    match GetCurrentUser(codec, users, token, now)
    case Failure(e) => Failure(e)
    case Success(user) =>
      if "is_active" !in user then Failure(Unhandled("AttributeError"))
      else if !Truthy(user["is_active"]) then Failure(HttpError(400, "Inactive user", false))
      else Success(user)
  }

  /**
   * The cookie version is this one after stripping: for a non-empty cookie it answers
   * what this one answers for the cookie less any "Bearer " prefix. So a "Bearer "
   * token given here is verified with its prefix.
   */
  lemma CookieVersionStrips(codec: JwtCodec, users: TableState, cookie: string, now: int)
    requires cookie != ""
    ensures Security.GetCurrentUser(codec, users, map["access_token" := cookie], now) ==
      GetCurrentUser(codec, users, StripBearer(cookie), now)
    ensures !StartsWith(cookie, "Bearer ") ==>
      Security.GetCurrentUser(codec, users, map["access_token" := cookie], now) == GetCurrentUser(codec, users, cookie, now)
  {
    StripBearerPrefix(cookie);
  }

  /** An invalid token and an unknown user give the same 401; a non-integer subject is a ValueError. */
  lemma GetCurrentUserCases(codec: JwtCodec, users: TableState, token: string, now: int)
    ensures var subject := VerifyToken(codec, token, now);
      GetCurrentUser(codec, users, token, now) ==
        if subject.None? then Failure(CredentialsError)
        else if ParseInt(subject.value).None? then Failure(Unhandled("ValueError"))
        else if ParseInt(subject.value).value !in users.rows then Failure(CredentialsError)
        else Success(users.rows[ParseInt(subject.value).value])
  {
  }

  /** For a user row that has the column, the check agrees with the cookie version's: 400 exactly when `is_active` is falsy. */
  lemma ActiveUserIff(codec: JwtCodec, users: TableState, token: string, now: int)
    ensures var u := GetCurrentUser(codec, users, token, now);
      u.Success? && "is_active" in u.value ==>
        GetCurrentActiveUser(codec, users, token, now) ==
          (if !Truthy(u.value["is_active"]) then Failure(HttpError(400, "Inactive user", false)) else u)
    ensures GetCurrentUser(codec, users, token, now).Failure? ==>
      GetCurrentActiveUser(codec, users, token, now) == GetCurrentUser(codec, users, token, now)
  {
  }

  /** An unexpired token issued for an existing user's id resolves to that user. */
  lemma IssuedTokenResolves(codec: JwtCodec, users: TableState, id: int, delta: Option<int>, now: int, later: int)
    requires JwtSound(codec) && id in users.rows && later <= Expiry(now, delta, AccessTokenSeconds)
    ensures GetCurrentUser(codec, users, CreateAccessToken(codec, Int(id), delta, now), later) == Success(users.rows[id])
  {
    AccessTokenVerifies(codec, Int(id), delta, now, later);
    ParseIntToString(id);
  }
}
