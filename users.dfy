/**
 * Users: the `users` table, the `User...` request and response models, the
 * `full_name` and `is_admin` properties, and the five `/users` endpoints over one
 * `Store.Repository`. The create endpoint passes the request body, password
 * included, to the model's constructor; hashing the password is
 * `UserCrud.CreateUser`'s job, which this endpoint does not call.
 */
module Users {
  import opened Wrappers
  import opened Values
  import opened Coercion
  import opened Schemas
  import opened Store

  /** `UserRole`, a string enum. */
  datatype UserRole =
    | SuperAdmin | DealerAdmin | SalesManager | SalesPerson | ServiceManager
    | ServiceTechnician | FinanceManager | InventoryManager | CustomerService | Viewer
  {
    function Wire(): string {
      match this
      case SuperAdmin => "super_admin"
      case DealerAdmin => "dealer_admin"
      case SalesManager => "sales_manager"
      case SalesPerson => "sales_person"
      case ServiceManager => "service_manager"
      case ServiceTechnician => "service_technician"
      case FinanceManager => "finance_manager"
      case InventoryManager => "inventory_manager"
      case CustomerService => "customer_service"
      case Viewer => "viewer"
    }

    /** The member's name, which is what the `Enum` column stores. */
    function Name(): string {
      match this
      case SuperAdmin => "SUPER_ADMIN"
      case DealerAdmin => "DEALER_ADMIN"
      case SalesManager => "SALES_MANAGER"
      case SalesPerson => "SALES_PERSON"
      case ServiceManager => "SERVICE_MANAGER"
      case ServiceTechnician => "SERVICE_TECHNICIAN"
      case FinanceManager => "FINANCE_MANAGER"
      case InventoryManager => "INVENTORY_MANAGER"
      case CustomerService => "CUSTOMER_SERVICE"
      case Viewer => "VIEWER"
    }
  }

  const RoleMembers: map<string, string> := map[
    "SUPER_ADMIN" := "super_admin", "DEALER_ADMIN" := "dealer_admin", "SALES_MANAGER" := "sales_manager",
    "SALES_PERSON" := "sales_person", "SERVICE_MANAGER" := "service_manager",
    "SERVICE_TECHNICIAN" := "service_technician", "FINANCE_MANAGER" := "finance_manager",
    "INVENTORY_MANAGER" := "inventory_manager", "CUSTOMER_SERVICE" := "customer_service", "VIEWER" := "viewer"]

  const RoleValues: set<string> := {
    "super_admin", "dealer_admin", "sales_manager", "sales_person", "service_manager",
    "service_technician", "finance_manager", "inventory_manager", "customer_service", "viewer"}

  /** `UserRole(s)`: the member whose value is s, or None (a ValueError). */
  function ParseRole(s: string): (r: Option<UserRole>)
    ensures r.Some? ==> r.value.Wire() == s
    ensures r.Some? <==> s in RoleValues
  {
    if s == "super_admin" then Some(SuperAdmin)
    else if s == "dealer_admin" then Some(DealerAdmin)
    else if s == "sales_manager" then Some(SalesManager)
    else if s == "sales_person" then Some(SalesPerson)
    else if s == "service_manager" then Some(ServiceManager)
    else if s == "service_technician" then Some(ServiceTechnician)
    else if s == "finance_manager" then Some(FinanceManager)
    else if s == "inventory_manager" then Some(InventoryManager)
    else if s == "customer_service" then Some(CustomerService)
    else if s == "viewer" then Some(Viewer)
    else None
  }

  /** The ten members have ten distinct values, each parses back to itself, and the enum maps its name to that value. */
  lemma RoleRoundTrip(role: UserRole)
    ensures role.Wire() in RoleValues
    ensures ParseRole(role.Wire()) == Some(role)
    ensures role.Name() in RoleMembers && RoleMembers[role.Name()] == role.Wire()
  {
  }

  /** The values of the name map are the ten values, and no value is also a name. */
  lemma RoleMembersAgree()
    ensures RoleMembers.Values == RoleValues
    ensures RoleMembers.Keys !! RoleValues
    ensures MembersWellFormed(RoleMembers)
  {
    RoleMemberValues();
    forall v | v in RoleValues ensures v !in RoleMembers {
      RoleValueCase(v);
      RoleNameCase(v);
    }
  }

  lemma RoleMemberValues()
    ensures RoleMembers.Values == RoleValues
  {
    assert RoleMembers["SUPER_ADMIN"] == "super_admin" && RoleMembers["DEALER_ADMIN"] == "dealer_admin";
    assert RoleMembers["SALES_MANAGER"] == "sales_manager" && RoleMembers["SALES_PERSON"] == "sales_person";
    assert RoleMembers["SERVICE_MANAGER"] == "service_manager" && RoleMembers["SERVICE_TECHNICIAN"] == "service_technician";
    assert RoleMembers["FINANCE_MANAGER"] == "finance_manager" && RoleMembers["INVENTORY_MANAGER"] == "inventory_manager";
    assert RoleMembers["CUSTOMER_SERVICE"] == "customer_service" && RoleMembers["VIEWER"] == "viewer";
  }

  /** Member values are lower-case ... */
  lemma RoleValueCase(v: string)
    requires v in RoleValues
    ensures |v| > 0 && 'a' <= v[0] <= 'z'
  {
  }

  /** ... and member names upper-case. */
  lemma RoleNameCase(n: string)
    ensures n in RoleMembers ==> |n| > 0 && 'A' <= n[0] <= 'Z'
  {
  }

  /** `UserBase`: every field `Optional[...] = None`. */
  const Base: Schema := map[
    "email" := Nullable(TStr), "first_name" := Nullable(TStr), "last_name" := Nullable(TStr),
    "role" := Nullable(TChoice(RoleValues)), "phone" := Nullable(TStr), "dealership_id" := Nullable(TInt)]

  /** `UserCreate`: the base fields, with email, password and both names required. */
  const Create: Schema := map[
    "email" := Required(TStr), "password" := Required(TStr), "first_name" := Required(TStr),
    "last_name" := Required(TStr), "role" := Nullable(TChoice(RoleValues)), "phone" := Nullable(TStr),
    "dealership_id" := Nullable(TInt)]

  /** `UserUpdate`: the base fields plus an optional password, which is every create field made optional. */
  const Update: Schema := Optionalized(Create)

  /** `UserResponse`: the base fields plus id, the two flags, avatar_url, the timestamps and last_login. */
  const Response: Schema := map[
    "email" := Nullable(TStr), "first_name" := Nullable(TStr), "last_name" := Nullable(TStr),
    "role" := Nullable(TChoice(RoleValues)), "phone" := Nullable(TStr), "dealership_id" := Nullable(TInt),
    "id" := Required(TInt), "is_active" := Required(TBool), "is_verified" := Required(TBool),
    "avatar_url" := Nullable(TStr), "created_at" := Required(TDateTime), "updated_at" := Required(TDateTime),
    "last_login" := Nullable(TDateTime)]

  /** The columns of the `User` model. */
  const Columns: set<string> := {
    "id", "email", "hashed_password", "first_name", "last_name", "role", "is_active", "is_verified",
    "phone", "avatar_url", "created_at", "updated_at", "last_login", "dealership_id"}

  /** The `User` model: role enum defaulting to VIEWER, the two flags, unique email, no relationships. */
  const Table: TableSpec := TableSpec(
    notFound := "User not found", deleted := "User deleted successfully",
    create := Create, update := Update, columns := Columns, collections := {},
    defaults := map["role" := Str("viewer"), "is_active" := Bool(true), "is_verified" := Bool(false)],
    unique := ["email"], enums := map["role" := RoleMembers], cascade := None)

  /** `password` is a request field, create and update alike, with no column and no column default. */
  lemma PasswordField()
    ensures "password" in Create && "password" in Update && "password" !in Columns
    ensures forall now :: ColumnDefault(Table, now, "password").None? && ColumnDefault(Table, now, "hashed_password").None?
    ensures "hashed_password" !in Create && "hashed_password" != "id"
    ensures !(Create.Keys <= Columns)
    ensures {"password"} !! Table.columns && {"password"} !! Table.collections
  {
  }

  /** The role field and its enum column. */
  lemma RoleField()
    ensures Create["role"] == Nullable(TChoice(RoleValues)) && "role" in Columns
    ensures Table.enums.Keys == {"role"} && Table.enums["role"] == RoleMembers
  {
  }

  lemma RoleDefault(now: int)
    ensures ColumnDefault(Table, now, "role") == Some(Str("viewer")) && "viewer" !in RoleMembers
  {
  }

  lemma TableWellFormed()
    ensures WellFormed(Table)
  {
    KeysOfTable();
    RoleField();
    RoleMembersAgree();
  }

  /** The keys well-formedness is about: no id or timestamp field, no relationship a column. */
  lemma KeysOfTable()
    ensures "id" !in Table.update && "updated_at" !in Table.update && AllOptional(Table.update)
    ensures Table.enums.Keys == {"role"} && Table.unique == ["email"]
    ensures Table.columns !! Table.collections
  {
    assert "id" !in Create && "updated_at" !in Create;
  }

  lemma Messages()
    ensures NotFound(Table) == HttpError(404, "User not found", false)
    ensures Table.deleted == "User deleted successfully"
  {
  }

  /** `is_admin`: the role is SUPER_ADMIN or DEALER_ADMIN. */
  predicate IsAdmin(user: Record) {
    Column(user, "role") == Str(SuperAdmin.Wire()) || Column(user, "role") == Str(DealerAdmin.Wire())
  }

  /** A stored user's role is NULL or a member, and the user is an admin exactly when that member is one of the two admin roles. */
  lemma StoredRole(s: TableState, id: int)
    requires Consistent(Table, s) && id in s.rows
    ensures var v := Column(s.rows[id], "role");
      && (v == Null || (v.Str? && ParseRole(v.s).Some?))
      && (IsAdmin(s.rows[id]) <==> v.Str? && (ParseRole(v.s) == Some(SuperAdmin) || ParseRole(v.s) == Some(DealerAdmin)))
  {
    StoredInDomain(Table, s, id);
    RoleInDomain(s.rows[id]);
  }

  /** A row in the enum's domain holds NULL or a role value. */
  lemma RoleInDomain(user: Record)
    requires InDomain(Table.enums, user)
    ensures var v := Column(user, "role"); v == Null || (v.Str? && v.s in RoleValues)
  {
    RoleField();
    RoleMembersAgree();
  }

  /** No two stored users share an email. */
  lemma EmailsUnique(s: TableState, x: int, y: int)
    requires Consistent(Table, s) && x in s.rows && y in s.rows && x != y
    ensures Column(s.rows[x], "email") == Null || Column(s.rows[x], "email") != Column(s.rows[y], "email")
  {
    assert !Clash(Table.unique[0], s.rows[x], s.rows[y]);
  }

  // ---------------------------------------------------------------- endpoints

  /** `get_users`: the page [skip, skip + limit) of the table. */
  function GetUsers(db: Repository, skip: int, limit: int): (r: Result<seq<Record>, Fault>)
    reads db
    requires db.spec == Table && db.Valid()
    ensures r.Success? <==> skip >= 0 && limit >= 0
    ensures r.Success? ==> |r.value| == (if skip >= |db.ids| then 0 else if limit < |db.ids| - skip then limit else |db.ids| - skip)
    ensures r.Success? ==> forall i :: 0 <= i < |r.value| ==> skip + i < |db.ids| && r.value[i] == db.rows[db.ids[skip + i]]
  {
    List(db.State(), skip, limit)
  }

  /** `get_user` (the endpoint) */
  function GetUser(db: Repository, userId: int): (r: Result<Record, Fault>)
    reads db
    requires db.spec == Table
    ensures r.Success? <==> userId in db.rows
    ensures r.Success? ==> r.value == db.rows[userId]
    ensures r.Failure? ==> r.error == HttpError(404, "User not found", false)
  {
    Messages();
    Get(Table, db.State(), userId)
  }

  /** `create_user` (the endpoint): `User(**user.model_dump())`; as written, a TypeError for every valid body. */
  method CreateUser(db: Repository, user: Record, now: int) returns (r: Result<Record, Fault>)
    requires db.spec == Table && db.Valid()
    modifies db
    ensures db.Valid()
    ensures Step(db.State(), r) == CreateStep(Table, old(db.State()), user, now)
    ensures Validate(Create, user).Success? ==> r == Failure(Unhandled("TypeError")) && db.State() == old(db.State())
  {
    r := db.Create(user, now);
    if Validate(Create, user).Success? {
      CreateRaisesTypeError(old(db.State()), user, now);
    }
  }

  /** `update_user`: the set columns are written; a password sent is set on the instance only. */
  method UpdateUser(db: Repository, userId: int, user: Record, now: int) returns (r: Result<Record, Fault>)
    requires db.spec == Table && db.Valid()
    modifies db
    ensures db.Valid()
    ensures Step(db.State(), r) == UpdateStep(Table, old(db.State()), userId, user, now)
  {
    TableWellFormed();
    r := db.Update(userId, user, now);
  }

  /** `delete_user`: a hard delete; the table has no cascade. */
  method DeleteUser(db: Repository, userId: int) returns (r: Result<string, Fault>)
    requires db.spec == Table && db.Valid()
    modifies db
    ensures db.Valid()
    ensures Step(db.State(), r) == DeleteStep(Table, old(db.State()), userId)
    ensures r.Success? ==> r.value == "User deleted successfully" && db.children == old(db.children)
  {
    r := db.Delete(userId);
    Messages();
  }

  // ---------------------------------------------------------------- properties

  /** Every base field is optional and defaults to None; create adds password and makes email, password and both names required. */
  lemma CreateRequires(body: Record)
    ensures AllOptional(Base)
    ensures Validate(Create, body).Success? <==>
      && "email" in body && "password" in body && "first_name" in body && "last_name" in body
      && forall k :: k in Create && k in body ==> Accepts(Create[k], body[k])
  {
    ValidateRequired(Create, body);
    RequiredCreateFields();
  }

  lemma RequiredCreateFields()
    ensures RequiredFields(Create) == {"email", "password", "first_name", "last_name"}
  {
  }

  /** Update is the base fields plus an optional password, all optional. */
  lemma UpdateFields()
    ensures Update.Keys == Base.Keys + {"password"} && AllOptional(Update)
    ensures Validate(Update, map[]).Success? && DumpSet(Update, map[]) == map[]
  {
    EmptyUpdateSetsNothing(Update);
  }

  /** The response adds id, the flags, avatar_url, the timestamps and last_login; it never carries a password or its hash. */
  lemma ResponseFields(row: Record)
    ensures Project(Response, row).Keys == Base.Keys + {"id", "is_active", "is_verified", "avatar_url", "created_at", "updated_at", "last_login"}
    ensures "password" !in Project(Response, row) && "hashed_password" !in Project(Response, row)
    ensures forall k :: k in Project(Response, row) ==> Project(Response, row)[k] == Column(row, k)
  {
  }

  /**
   * As written, `User(**user.model_dump())` passes `password`, which is no attribute
   * of the model: every valid body fails with a TypeError and nothing is stored.
   */
  lemma CreateRaisesTypeError(s: TableState, body: Record, now: int)
    requires Validate(Create, body).Success?
    ensures CreateStep(Table, s, body, now) == Step(s, Failure(Unhandled("TypeError")))
  {
    PasswordField();
    CreateTypeError(Table, s, body, now);
  }

  /** Leaving the password out, the row holds neither the password nor a hash of it. */
  lemma CreateDropsPassword(s: TableState, body: Record, now: int)
    requires Consistent(Table, s)
    ensures var st := MappedCreateStep(Table, s, body, now);
      st.result.Success? ==> "password" !in st.result.value && Column(st.result.value, "hashed_password") == Null
  {
    TableWellFormed();
    PasswordField();
    CreateThenGet(Table, s, body, now);
    CreateOtherColumns(Table, s, body, now, {"hashed_password"});
  }

  /**
   * A new user's role is the member sent, or VIEWER when none (or null) is sent; a
   * user created without a role is not an admin.
   */
  lemma CreateRole(s: TableState, body: Record, now: int)
    ensures var st := MappedCreateStep(Table, s, body, now);
      st.result.Success? ==>
        && Column(st.result.value, "role") == (if Column(body, "role") != Null then body["role"] else Str("viewer"))
        && (Column(body, "role") == Null ==> !IsAdmin(st.result.value))
  {
    RoleCreateFacts(now);
    CreateChoiceField(Table, s, body, now, "role", RoleValues, "viewer");
    ViewerIsNoAdmin(MappedCreateStep(Table, s, body, now).result);
  }

  /** The role field as the create lemmas need it: an Optional choice of the values, defaulting to "viewer". */
  lemma RoleCreateFacts(now: int)
    ensures "role" in Table.create && "role" in Table.columns && "role" != "id" && "role" in Table.enums
    ensures Table.create["role"] == Nullable(TChoice(RoleValues)) && RoleValues !! Table.enums["role"].Keys
    ensures ColumnDefault(Table, now, "role") == Some(Str("viewer")) && "viewer" !in Table.enums["role"]
  {
    RoleField();
    RoleMembersAgree();
    RoleDefault(now);
  }

  /** A viewer is not an admin. */
  lemma ViewerIsNoAdmin(r: Result<Record, Fault>)
    ensures r.Success? && Column(r.value, "role") == Str("viewer") ==> !IsAdmin(r.value)
  {
  }

  /** A new user starts active and unverified. */
  lemma CreateDefaults(s: TableState, body: Record, now: int)
    ensures var st := MappedCreateStep(Table, s, body, now);
      st.result.Success? ==> Column(st.result.value, "is_active") == Bool(true) && Column(st.result.value, "is_verified") == Bool(false)
  {
    assert ColumnDefault(Table, now, "is_active") == Some(Bool(true));
    assert ColumnDefault(Table, now, "is_verified") == Some(Bool(false));
    CreateOtherColumns(Table, s, body, now, {"is_active", "is_verified"});
  }

  /** ... and is created and updated now. */
  lemma CreateTimestamps(s: TableState, body: Record, now: int)
    ensures var st := MappedCreateStep(Table, s, body, now);
      st.result.Success? ==> Column(st.result.value, "created_at") == DateTime(now) && Column(st.result.value, "updated_at") == DateTime(now)
  {
    StampsAreNoFields();
    CreateStampsNow(Table, s, body, now);
  }

  /** Neither timestamp is a field of the create model. */
  lemma StampsAreNoFields()
    ensures "created_at" !in Table.create && "updated_at" !in Table.create
  {
    assert Table.create == Create;
  }

  /** A valid create body carries a password string. */
  lemma PasswordSent(body: Record)
    requires Validate(Create, body).Success?
    ensures "password" in body && body["password"].Str?
  {
    ErrorsNameFields(Create, body, "password");
    ValidatedField(Create, body, "password");
    StringFieldsTakeStrings(TStr, body["password"]);
  }

  /** The two name fields: required strings with a column and no enum. */
  lemma NameFields()
    ensures Create["first_name"] == Required(TStr) && Create["last_name"] == Required(TStr)
    ensures "first_name" in Columns && "last_name" in Columns
    ensures "first_name" !in Table.enums && "last_name" !in Table.enums
  {
  }

  /** A created user keeps the two names sent, and its full name is them joined by a space. */
  lemma CreatedFullName(s: TableState, body: Record, now: int, first: string, last: string)
    requires Column(body, "first_name") == Str(first) && Column(body, "last_name") == Str(last)
    ensures var st := MappedCreateStep(Table, s, body, now);
      st.result.Success? ==>
        && Column(st.result.value, "first_name") == Str(first) && Column(st.result.value, "last_name") == Str(last)
        && FullName(st.result.value) == first + " " + last
  {
    NameFields();
    CreateStringField(Table, s, body, now, "first_name", first);
    CreateStringField(Table, s, body, now, "last_name", last);
    var st := MappedCreateStep(Table, s, body, now);
    if st.result.Success? {
      FullNameParts(st.result.value, first, last);
    }
  }

  /** No conflict handling: a repeated email is an uncaught database error and stores nothing. */
  lemma DuplicateEmail(s: TableState, body: Record, now: int, other: int)
    requires other in s.rows && Validate(Create, body).Success?
    requires "email" in body && body["email"] == Column(s.rows[other], "email")
    ensures var st := MappedCreateStep(Table, s, body, now);
      st.result.Failure? && st.result.error.Unhandled? && st.state.rows == s.rows
  {
    assert Create["email"] == Required(TStr);
    CreateDuplicateString(Table, s, body, now, other, 0);
  }

  /**
   * An update sending only a password writes nothing: the row and its `updated_at`
   * stay. The password is set on the returned instance only; the `UserResponse`
   * answer drops it.
   */
  lemma UpdatePasswordOnly(s: TableState, userId: int, body: Record, now: int)
    requires Consistent(Table, s) && userId in s.rows && Validate(Update, body).Success?
    requires body.Keys <= {"password"}
    ensures UpdateStep(Table, s, userId, body, now) == Step(s, Success(s.rows[userId] + DumpSet(Update, body)))
  {
    TableWellFormed();
    PasswordField();
    UpdateWithin(Table, s, userId, body, now, {"password"});
  }

  /** There are no role rules: an update may give any user any role. */
  lemma AnyRoleChange(s: TableState, userId: int, target: UserRole, now: int)
    requires Consistent(Table, s) && userId in s.rows
    ensures var st := UpdateStep(Table, s, userId, map["role" := Str(target.Wire())], now);
      st.result.Success? && Column(st.result.value, "role") == Str(target.Wire())
  {
    TableWellFormed();
    RoleField();
    RoleRoundTrip(target);
    RoleMembersAgree();
    StringFieldsTakeStrings(TChoice(RoleValues), Str(target.Wire()));
    UpdateOneColumn(Table, s, userId, "role", Str(target.Wire()), now);
  }

  /** get, update and delete of an unknown id: 404 "User not found", nothing changed. */
  lemma UnknownUser(s: TableState, userId: int, body: Record, now: int)
    requires userId !in s.rows && Validate(Update, body).Success?
    ensures Get(Table, s, userId) == Failure(HttpError(404, "User not found", false))
    ensures UpdateStep(Table, s, userId, body, now).result == Failure(HttpError(404, "User not found", false))
    ensures UpdateStep(Table, s, userId, body, now).state == s
    ensures DeleteStep(Table, s, userId).result == Failure(HttpError(404, "User not found", false))
    ensures DeleteStep(Table, s, userId).state == s
  {
    Messages();
    UpdateNotFound(Table, s, userId, body, now);
  }
}
