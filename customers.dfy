/**
 * Customers: the `customers` table with its cascaded `customer_notes`, the
 * `Customer...` request and response models, the `full_name` property, and the
 * five `/customers` endpoints over one `Store.Repository`.
 */
module Customers {
  import opened Wrappers
  import opened Values
  import opened Text
  import opened Coercion
  import opened Schemas
  import opened Store

  /** `CustomerCreate` (= `CustomerBase`); `EmailStr` is a string. */
  const Create: Schema := map[
    "first_name" := Required(TStr), "last_name" := Required(TStr), "email" := Nullable(TStr),
    "phone" := Nullable(TStr), "address_line_1" := Nullable(TStr), "address_line_2" := Nullable(TStr),
    "city" := Nullable(TStr), "state" := Nullable(TStr), "zip_code" := Nullable(TStr),
    "country" := Defaulted(TStr, Str("USA")), "customer_type" := Nullable(TStr), "source" := Nullable(TStr),
    "preferred_contact_method" := Nullable(TStr)]

  /** `CustomerUpdate`: every base field, `Optional[...] = None`. */
  const Update: Schema := Optionalized(Create)

  /** `CustomerResponse`: the base fields plus id, dealership_id, the two flags and the timestamps. */
  const Response: Schema := Create + map[
    "id" := Required(TInt), "dealership_id" := Required(TInt), "is_active" := Required(TBool),
    "is_verified" := Required(TBool), "created_at" := Required(TDateTime), "updated_at" := Required(TDateTime)]

  /** The columns of the `Customer` model. */
  const Columns: set<string> := {
    "id", "dealership_id", "first_name", "last_name", "email", "phone", "date_of_birth",
    "address_line_1", "address_line_2", "city", "state", "zip_code", "country", "customer_type",
    "source", "preferred_contact_method", "is_active", "is_verified", "created_at", "updated_at"}

  /** The `CustomerNote` model: no column defaults beyond the timestamps. */
  const NoteTable: TableSpec := TableSpec(
    notFound := "", deleted := "", create := map[], update := map[],
    columns := {"id", "customer_id", "user_id", "title", "content", "note_type", "created_at", "updated_at"},
    collections := {}, defaults := map[], unique := [], enums := map[], cascade := None)

  /** The `Customer` model: column defaults, nothing unique, the notes cascade. */
  const Table: TableSpec := TableSpec(
    notFound := "Customer not found", deleted := "Customer deleted successfully",
    create := Create, update := Update, columns := Columns,
    collections := {"notes", "sales", "service_appointments"},
    defaults := map["country" := Str("USA"), "is_active" := Bool(true), "is_verified" := Bool(false)],
    unique := [], enums := map[], cascade := Some(Cascade("customer_id", NoteTable)))

  /** Every field of the create model has a column, so create passes the constructor only attributes. */
  lemma CreateFieldsAreColumns()
    ensures Table.create.Keys <= Table.columns
  {
  }

  /** The two name fields: required strings with a column and no enum. */
  lemma NameFields()
    ensures Create["first_name"] == Required(TStr) && Create["last_name"] == Required(TStr)
    ensures "first_name" in Columns && "last_name" in Columns && Table.enums == map[]
  {
  }

  /** Neither timestamp is a field of the create model. */
  lemma StampsAreNoFields()
    ensures "created_at" !in Table.create && "updated_at" !in Table.create
  {
    assert Table.create == Create;
  }

  lemma TableWellFormed()
    ensures WellFormed(Table)
  {
    KeysOfTable();
  }

  /** The keys well-formedness is about: no id or timestamp field, no relationship a column. */
  lemma KeysOfTable()
    ensures "id" !in Table.update && "updated_at" !in Table.update && AllOptional(Table.update)
    ensures Table.enums.Keys == {} && Table.unique == []
    ensures Table.columns !! Table.collections
  {
    assert "id" !in Create && "updated_at" !in Create;
    assert "notes" !in Columns;
    assert "sales" !in Columns;
    assert "service_appointments" !in Columns;
  }

  lemma Messages()
    ensures NotFound(Table) == HttpError(404, "Customer not found", false)
    ensures Table.deleted == "Customer deleted successfully"
  {
  }

  // ---------------------------------------------------------------- endpoints

  /** `get_customers`: the page [skip, skip + limit) of the table. */
  function GetCustomers(db: Repository, skip: int, limit: int): (r: Result<seq<Record>, Fault>)
    reads db
    requires db.spec == Table && db.Valid()
    ensures r.Success? <==> skip >= 0 && limit >= 0
    ensures r.Success? ==> |r.value| == (if skip >= |db.ids| then 0 else if limit < |db.ids| - skip then limit else |db.ids| - skip)
    ensures r.Success? ==> forall i :: 0 <= i < |r.value| ==> skip + i < |db.ids| && r.value[i] == db.rows[db.ids[skip + i]]
  {
    List(db.State(), skip, limit)
  }

  /** `get_customer` */
  function GetCustomer(db: Repository, customerId: int): (r: Result<Record, Fault>)
    reads db
    requires db.spec == Table
    ensures r.Success? <==> customerId in db.rows
    ensures r.Success? ==> r.value == db.rows[customerId]
    ensures r.Failure? ==> r.error == HttpError(404, "Customer not found", false)
  {
    Messages();
    Get(Table, db.State(), customerId)
  }

  /** `create_customer` */
  method CreateCustomer(db: Repository, customer: Record, now: int) returns (r: Result<Record, Fault>)
    requires db.spec == Table && db.Valid()
    modifies db
    ensures db.Valid()
    ensures Step(db.State(), r) == CreateStep(Table, old(db.State()), customer, now)
  {
    r := db.Create(customer, now);
  }

  /** `update_customer` */
  method UpdateCustomer(db: Repository, customerId: int, customer: Record, now: int) returns (r: Result<Record, Fault>)
    requires db.spec == Table && db.Valid()
    modifies db
    ensures db.Valid()
    ensures Step(db.State(), r) == UpdateStep(Table, old(db.State()), customerId, customer, now)
  {
    TableWellFormed();
    r := db.Update(customerId, customer, now);
  }

  /**
   * `delete_customer`: the customer's notes go with it. The `sales` and
   * `service_appointments` relationships have no cascade, so for a customer that has
   * any SQLAlchemy sets their NOT NULL `customer_id` to NULL and the commit fails with
   * an IntegrityError; those tables are not part of this model, which deletes the row.
   */
  method DeleteCustomer(db: Repository, customerId: int) returns (r: Result<string, Fault>)
    requires db.spec == Table && db.Valid()
    modifies db
    ensures db.Valid()
    ensures Step(db.State(), r) == DeleteStep(Table, old(db.State()), customerId)
    ensures r.Success? ==> r.value == "Customer deleted successfully"
    ensures r.Success? ==> forall k :: k in db.children <==> k in old(db.children) && Column(old(db.children)[k], "customer_id") != Int(customerId)
  {
    r := db.Delete(customerId);
    Messages();
  }

  // ---------------------------------------------------------------- properties

  /** Create requires first_name and last_name only. */
  lemma CreateRequires(body: Record)
    ensures Validate(Create, body).Success? <==>
      && "first_name" in body && "last_name" in body
      && forall k :: k in Create && k in body ==> Accepts(Create[k], body[k])
  {
    ValidateRequired(Create, body);
    RequiredCreateFields();
  }

  lemma RequiredCreateFields()
    ensures RequiredFields(Create) == {"first_name", "last_name"}
  {
  }

  /** Every update field is optional, so the empty update is valid and sets nothing. */
  lemma UpdateAllOptional()
    ensures Update.Keys == Create.Keys
    ensures Validate(Update, map[]).Success? && DumpSet(Update, map[]) == map[]
  {
    EmptyUpdateSetsNothing(Update);
  }

  /** The response is the base fields plus id, dealership_id, the two flags and the timestamps. */
  lemma ResponseFields(row: Record)
    ensures Project(Response, row).Keys == Create.Keys + {"id", "dealership_id", "is_active", "is_verified", "created_at", "updated_at"}
    ensures forall k :: k in Project(Response, row) ==> Project(Response, row)[k] == Column(row, k)
  {
  }

  lemma ColumnDefaults(now: int)
    ensures ColumnDefault(Table, now, "is_active") == Some(Bool(true))
    ensures ColumnDefault(Table, now, "is_verified") == Some(Bool(false))
    ensures "is_active" !in Table.create && "is_verified" !in Table.create && Table.enums == map[]
  {
  }

  /** A new customer starts active and unverified. */
  lemma CreateDefaults(s: TableState, body: Record, now: int)
    ensures var st := CreateStep(Table, s, body, now);
      st.result.Success? ==> Column(st.result.value, "is_active") == Bool(true) && Column(st.result.value, "is_verified") == Bool(false)
  {
    ColumnDefaults(now);
    CreateFieldsAreColumns();
    CreateColumnDefault(Table, s, body, now, "is_active", Bool(true));
    CreateColumnDefault(Table, s, body, now, "is_verified", Bool(false));
  }

  /**
   * `dealership_id` is declared NOT NULL, with no default, and `CustomerCreate` has no
   * such field: every valid body is stored, here, with that column NULL, a row
   * PostgreSQL refuses at commit.
   */
  lemma CreateStoresNullDealership(s: TableState, body: Record, now: int)
    requires Validate(Create, body).Success?
    ensures var st := CreateStep(Table, s, body, now);
      st.result.Success? && Column(st.result.value, "dealership_id") == Null
  {
    KeysOfTable();
    NullDealershipFacts(now);
    CreateFieldsAreColumns();
    CreateIsMapped(Table, s, body, now);
    UnconstrainedCreateSucceeds(Table, s, body, now);
    CreateOtherColumns(Table, s, body, now, {"dealership_id"});
  }

  /** `dealership_id` is no create field and has no column default. */
  lemma NullDealershipFacts(now: int)
    ensures "dealership_id" !in Table.create && ColumnDefault(Table, now, "dealership_id") == None
    ensures Table.enums == map[]
  {
    assert Table.create == Create;
  }

  /** ... and is created and updated now. */
  lemma CreateTimestamps(s: TableState, body: Record, now: int)
    ensures var st := CreateStep(Table, s, body, now);
      st.result.Success? ==> Column(st.result.value, "created_at") == DateTime(now) && Column(st.result.value, "updated_at") == DateTime(now)
  {
    CreateFieldsAreColumns();
    CreateIsMapped(Table, s, body, now);
    StampsAreNoFields();
    CreateStampsNow(Table, s, body, now);
  }

  /** A new customer's country is the one sent, or "USA" when the body leaves it out. */
  lemma CreateCountry(s: TableState, body: Record, now: int)
    ensures var st := CreateStep(Table, s, body, now);
      st.result.Success? ==> Column(st.result.value, "country") == (if "country" in body then body["country"] else Str("USA"))
  {
    assert Create["country"] == Defaulted(TStr, Str("USA"));
    CreateFieldsAreColumns();
    CreateIsMapped(Table, s, body, now);
    CreateDefaultedString(Table, s, body, now, "country", "USA");
  }

  /** A created customer keeps the two names sent, and its full name is them joined by a space. */
  lemma CreatedFullName(s: TableState, body: Record, now: int, first: string, last: string)
    requires Column(body, "first_name") == Str(first) && Column(body, "last_name") == Str(last)
    ensures var st := CreateStep(Table, s, body, now);
      st.result.Success? ==>
        && Column(st.result.value, "first_name") == Str(first) && Column(st.result.value, "last_name") == Str(last)
        && FullName(st.result.value) == first + " " + last
  {
    CreateFieldsAreColumns();
    CreateIsMapped(Table, s, body, now);
    NameFields();
    CreateStringField(Table, s, body, now, "first_name", first);
    CreateStringField(Table, s, body, now, "last_name", last);
    var st := CreateStep(Table, s, body, now);
    if st.result.Success? {
      FullNameParts(st.result.value, first, last);
    }
  }

  /** get, update and delete of an unknown id: 404 "Customer not found", nothing changed. */
  lemma UnknownCustomer(s: TableState, customerId: int, body: Record, now: int)
    requires customerId !in s.rows && Validate(Update, body).Success?
    ensures Get(Table, s, customerId) == Failure(HttpError(404, "Customer not found", false))
    ensures UpdateStep(Table, s, customerId, body, now).result == Failure(HttpError(404, "Customer not found", false))
    ensures UpdateStep(Table, s, customerId, body, now).state == s
    ensures DeleteStep(Table, s, customerId).result == Failure(HttpError(404, "Customer not found", false))
    ensures DeleteStep(Table, s, customerId).state == s
  {
    Messages();
    UpdateNotFound(Table, s, customerId, body, now);
  }
}
