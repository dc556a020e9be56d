/**
 * The user queries and the hashing `create_user` that authentication and registration
 * use, over the `users` table of `Users`.
 */
module UserCrud {
  import opened Wrappers
  import opened Values
  import opened Schemas
  import opened Store
  import opened Crypto
  import Users
  import AuthSchemas

  /** `get_user`: the row with that id, or None. */
  function GetUser(s: TableState, userId: int): (r: Option<Record>)
    ensures r.Some? <==> userId in s.rows
    ensures r.Some? ==> r.value == s.rows[userId]
  {
    if userId in s.rows then Some(s.rows[userId]) else None
  }

  /** The first id in `ids` whose row's email is exactly `email`. */
  function FirstByEmail(ids: seq<int>, rows: map<int, Record>, email: string): (r: Option<int>)
    requires forall i :: 0 <= i < |ids| ==> ids[i] in rows
    ensures r.Some? ==> r.value in rows && Column(rows[r.value], "email") == Str(email)
  {
    if ids == [] then None
    else if Column(rows[ids[0]], "email") == Str(email) then Some(ids[0])
    else FirstByEmail(ids[1..], rows, email)
  }

  /**
   * The search finds an id exactly when some listed row has the email, and then the
   * first such id: every earlier row has another email.
   */
  lemma {:induction false} FirstByEmailFinds(ids: seq<int>, rows: map<int, Record>, email: string)
    requires forall i :: 0 <= i < |ids| ==> ids[i] in rows
    ensures FirstByEmail(ids, rows, email).None? <==> forall i :: 0 <= i < |ids| ==> Column(rows[ids[i]], "email") != Str(email)
    ensures FirstByEmail(ids, rows, email).Some? ==> exists i ::
      && 0 <= i < |ids| && ids[i] == FirstByEmail(ids, rows, email).value
      && Column(rows[ids[i]], "email") == Str(email)
      && forall j :: 0 <= j < i ==> Column(rows[ids[j]], "email") != Str(email)
  {
    if ids != [] && Column(rows[ids[0]], "email") != Str(email) {
      FirstByEmailFinds(ids[1..], rows, email);
      if FirstByEmail(ids[1..], rows, email).Some? {
        var i :| && 0 <= i < |ids[1..]| && ids[1..][i] == FirstByEmail(ids[1..], rows, email).value
          && Column(rows[ids[1..][i]], "email") == Str(email)
          && forall j :: 0 <= j < i ==> Column(rows[ids[1..][j]], "email") != Str(email);
        assert ids[i + 1] == ids[1..][i];
        forall j | 0 <= j < i + 1 ensures Column(rows[ids[j]], "email") != Str(email) {
          if j > 0 {
            assert ids[j] == ids[1..][j - 1];
          }
        }
      } else {
        forall i | 0 <= i < |ids| ensures Column(rows[ids[i]], "email") != Str(email) {
          if i > 0 {
            assert ids[i] == ids[1..][i - 1];
          }
        }
      }
    }
  }

  /** `get_user_by_email`: the first row, in table order, whose email is exactly `email` (case-sensitive). */
  function GetUserByEmail(s: TableState, email: string): (r: Option<Record>)
    requires forall i :: 0 <= i < |s.ids| ==> s.ids[i] in s.rows
    ensures r.Some? ==> (exists id :: id in s.rows && s.rows[id] == r.value) && Column(r.value, "email") == Str(email)
  {
    match FirstByEmail(s.ids, s.rows, email)
    case None => None
    case Some(id) => Some(s.rows[id])
  }

  /**
   * In a consistent table there is at most one row per email, so the query answers
   * that row, and None exactly when no row has the email.
   */
  lemma GetUserByEmailIsTheRow(s: TableState, email: string, id: int)
    requires Consistent(Users.Table, s)
    ensures GetUserByEmail(s, email).None? <==> forall x :: x in s.rows ==> Column(s.rows[x], "email") != Str(email)
    ensures id in s.rows && Column(s.rows[id], "email") == Str(email) ==> GetUserByEmail(s, email) == Some(s.rows[id])
  {
    FirstByEmailFinds(s.ids, s.rows, email);
    if GetUserByEmail(s, email).None? {
      forall x | x in s.rows ensures Column(s.rows[x], "email") != Str(email) {
        var i :| 0 <= i < |s.ids| && s.ids[i] == x;
      }
    } else {
      var found := FirstByEmail(s.ids, s.rows, email).value;
      if id in s.rows && Column(s.rows[id], "email") == Str(email) && found != id {
        assert Clash(Users.Table.unique[0], s.rows[found], s.rows[id]);
      }
    }
    if id in s.rows && Column(s.rows[id], "email") == Str(email) {
      var i :| 0 <= i < |s.ids| && s.ids[i] == id;
    }
  }

  /** The request fields `create_user` copies into the new row unchanged. */
  const Copied: set<string> := {"email", "first_name", "last_name", "role", "phone", "dealership_id"}

  /** What `create_user` reads off its `UserCreate` argument: the copied fields and a string password. */
  predicate Readable(obj: Record) {
    Copied <= obj.Keys && "password" in obj && obj["password"].Str?
  }

  /** Every `UserCreate` instance can be read so. */
  lemma ConformingIsReadable(obj: Record)
    requires Conforms(AuthSchemas.UserCreate, obj)
    ensures Readable(obj)
  {
    assert Holds(AuthSchemas.UserCreate["password"], obj["password"]);
  }

  /** A valid registration body parses to a readable `UserCreate` carrying the email and password sent. */
  lemma ValidatedIsReadable(body: Record)
    requires Validate(AuthSchemas.UserCreate, body).Success?
    ensures var obj := Validate(AuthSchemas.UserCreate, body).value;
      && Readable(obj) && obj["email"].Str? && "email" in body && "password" in body
      && obj["email"] == body["email"] && obj["password"] == body["password"]
  {
    var obj := Validate(AuthSchemas.UserCreate, body).value;
    AuthSchemas.UserCreateDefaults(body);
    ConformingIsReadable(obj);
    DumpFields(AuthSchemas.UserCreate, body);
    assert Holds(AuthSchemas.UserCreate["email"], obj["email"]);
  }

  /** The constructor arguments `create_user` passes: the password hashed, six fields copied. */
  function UserRecord(ctx: PasswordContext, obj: Record): Record
    requires Readable(obj)
  {
    map[
      "email" := obj["email"], "hashed_password" := Str(ctx.hash(obj["password"].s)),
      "first_name" := obj["first_name"], "last_name" := obj["last_name"], "role" := obj["role"],
      "phone" := obj["phone"], "dealership_id" := obj["dealership_id"]]
  }

  /** `create_user`: insert the new user and commit. */
  function CreateUserStep(ctx: PasswordContext, s: TableState, obj: Record, now: int): Step<Record>
    requires Readable(obj)
  {
    InsertStep(Users.Table, s, UserRecord(ctx, obj), now)
  }

  /** `create_user` on the table. */
  method CreateUser(db: Repository, ctx: PasswordContext, obj: Record, now: int) returns (r: Result<Record, Fault>)
    requires db.spec == Users.Table && db.Valid()
    requires Readable(obj)
    modifies db
    ensures db.Valid()
    ensures Step(db.State(), r) == CreateUserStep(ctx, old(db.State()), obj, now)
  {
    r := db.Insert(UserRecord(ctx, obj), now);
  }

  /** The arguments `create_user` builds: the hash, the copied fields, and no plain password. */
  lemma UserRecordColumns(ctx: PasswordContext, obj: Record, k: string)
    requires Readable(obj)
    ensures var given := UserRecord(ctx, obj);
      && "password" !in given && "id" !in given
      && Column(given, "hashed_password") == Str(ctx.hash(obj["password"].s))
      && (k in Copied ==> Column(given, k) == obj[k])
  {
  }

  /**
   * The stored user holds the hash of the password and never the password itself; with
   * a sound hasher the password verifies against the stored hash.
   */
  lemma CreateStoresHash(ctx: PasswordContext, s: TableState, obj: Record, now: int)
    requires Readable(obj)
    ensures var st := CreateUserStep(ctx, s, obj, now);
      st.result.Success? ==>
        && Column(st.result.value, "hashed_password") == Str(ctx.hash(obj["password"].s))
        && "password" !in st.result.value
        && (HashSound(ctx) ==> Verify(ctx, obj["password"].s, Column(st.result.value, "hashed_password")))
  {
    var given := UserRecord(ctx, obj);
    UserRecordColumns(ctx, obj, "role");
    Users.PasswordField();
    InsertColumn(Users.Table, s, given, now, "hashed_password");
    InsertNoOtherColumn(Users.Table, s, given, now, "password");
  }

  /** Email, both names, phone and dealership are stored as given ... */
  lemma CreateCopiesField(ctx: PasswordContext, s: TableState, obj: Record, now: int, k: string)
    requires Readable(obj)
    requires k in Copied && k != "role"
    ensures var st := CreateUserStep(ctx, s, obj, now);
      st.result.Success? ==> Column(st.result.value, k) == obj[k]
  {
    UserRecordColumns(ctx, obj, k);
    assert ColumnDefault(Users.Table, now, k) == None;
    InsertColumn(Users.Table, s, UserRecord(ctx, obj), now, k);
  }

  /**
   * ... and a null role falls back to VIEWER; a role sent is the member it names, by
   * name or by value, read back as its value.
   */
  lemma CreateRole(ctx: PasswordContext, s: TableState, obj: Record, now: int)
    requires Readable(obj)
    ensures var st := CreateUserStep(ctx, s, obj, now);
      st.result.Success? ==>
        if obj["role"] == Null then Column(st.result.value, "role") == Str("viewer")
        else obj["role"].Str? && Column(st.result.value, "role") == Str(Bound(Users.RoleMembers, obj["role"].s))
  {
    UserRecordColumns(ctx, obj, "role");
    Users.RoleField();
    Users.RoleDefault(now);
    InsertColumn(Users.Table, s, UserRecord(ctx, obj), now, "role");
    var st := CreateUserStep(ctx, s, obj, now);
    if st.result.Success? && obj["role"] != Null {
      var r := InsertRecord(Users.Table, UserRecord(ctx, obj), s.nextId, now);
      assert Column(r, "role") == obj["role"];
      assert Bindable(Users.Table.enums, r);
    }
  }

  /** The member name "VIEWER", which the request model lets through as a string, is stored as "viewer". */
  lemma CreateRoleByName(ctx: PasswordContext, s: TableState, obj: Record, now: int, role: Users.UserRole)
    requires Readable(obj) && obj["role"] == Str(role.Name())
    ensures var st := CreateUserStep(ctx, s, obj, now);
      st.result.Success? ==> Column(st.result.value, "role") == Str(role.Wire())
  {
    CreateRole(ctx, s, obj, now);
    Users.RoleRoundTrip(role);
  }

  /**
   * A role that is neither a member name nor a value (the request model takes any
   * string) passes to PostgreSQL, which refuses it for the enum type: an uncaught
   * DataError, nothing stored.
   */
  lemma CreateBadRole(ctx: PasswordContext, s: TableState, obj: Record, now: int)
    requires Readable(obj)
    requires obj["role"].Str? && obj["role"].s !in Labels(Users.RoleMembers)
    ensures CreateUserStep(ctx, s, obj, now).result == Failure(Unhandled("DataError"))
    ensures CreateUserStep(ctx, s, obj, now).state.rows == s.rows
  {
    UserRecordColumns(ctx, obj, "role");
    Users.RoleField();
    InsertUnbindable(Users.Table, s, UserRecord(ctx, obj), now, "role");
  }

  /** After a successful create the table holds the new user, and `get_user` on its id returns it. */
  lemma CreateThenGetUser(ctx: PasswordContext, s: TableState, obj: Record, now: int)
    requires Readable(obj)
    ensures var st := CreateUserStep(ctx, s, obj, now);
      st.result.Success? ==>
        && st.result.value["id"] == Int(s.nextId)
        && st.state.rows == s.rows[s.nextId := st.result.value]
        && st.state.ids == s.ids + [s.nextId]
        && GetUser(st.state, s.nextId) == Some(st.result.value)
  {
  }
}
