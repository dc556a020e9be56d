/** The authentication request and response models. */
module AuthSchemas {
  import opened Wrappers
  import opened Values
  import opened Schemas

  /** `Token`: the login and refresh response. */
  datatype Token = Token(accessToken: string, refreshToken: string, tokenType: string, user: Record)

  /** `TokenRefresh`: the refresh request, a refresh token and nothing else. */
  const TokenRefresh: Schema := map["refresh_token" := Required(TStr)]

  /** `UserLogin`: email and password, both required. */
  const UserLogin: Schema := map["email" := Required(TStr), "password" := Required(TStr)]

  /** `UserCreate`: the registration request; the role is a free string defaulting to "viewer". */
  const UserCreate: Schema := map[
    "email" := Required(TStr), "password" := Required(TStr), "first_name" := Required(TStr),
    "last_name" := Required(TStr), "role" := Field(TStr, true, Some(Str("viewer"))),
    "phone" := Nullable(TStr), "dealership_id" := Nullable(TInt)]

  /** A refresh request is valid exactly when it sends a string refresh_token, and the parsed request holds only that. */
  lemma TokenRefreshFields(body: Record)
    ensures Validate(TokenRefresh, body).Success? <==> "refresh_token" in body && body["refresh_token"].Str?
    ensures Validate(TokenRefresh, body).Success? ==> Validate(TokenRefresh, body).value == map["refresh_token" := body["refresh_token"]]
  {
    ValidateSucceedsIff(TokenRefresh, body);
    if Validate(TokenRefresh, body).Success? {
      DumpFields(TokenRefresh, body);
    }
  }

  /** A login request is valid exactly when it sends an email and a password, both strings. */
  lemma UserLoginRequires(body: Record)
    ensures Validate(UserLogin, body).Success? <==>
      "email" in body && body["email"].Str? && "password" in body && body["password"].Str?
  {
    ValidateSucceedsIff(UserLogin, body);
  }

  lemma RequiredUserCreateFields()
    ensures RequiredFields(UserCreate) == {"email", "password", "first_name", "last_name"}
  {
  }

  /**
   * Registration requires email, password and both names; a role left out is "viewer",
   * a phone or dealership left out is None, a dealership sent is converted to an int,
   * and the parsed request is a `UserCreate`.
   */
  lemma UserCreateDefaults(body: Record)
    ensures Validate(UserCreate, body).Success? ==>
      && {"email", "password", "first_name", "last_name"} <= body.Keys
      && Conforms(UserCreate, Validate(UserCreate, body).value)
      && Validate(UserCreate, body).value["role"] == (if "role" in body then body["role"] else Str("viewer"))
      && Validate(UserCreate, body).value["phone"] == Column(body, "phone")
      && Validate(UserCreate, body).value["dealership_id"] ==
           (if "dealership_id" in body then Parse(UserCreate["dealership_id"], body["dealership_id"]).GetOr(Null) else Null)
  {
    if Validate(UserCreate, body).Success? {
      ValidateRequired(UserCreate, body);
      RequiredUserCreateFields();
      StringFieldKeeps(UserCreate, body, "role");
      StringFieldKeeps(UserCreate, body, "phone");
      DumpFields(UserCreate, body);
      ValidatedConforms(UserCreate, body);
    }
  }
}
