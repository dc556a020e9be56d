/**
 * Dealerships: the `dealerships` table, the `Dealership...` request and response
 * models, and the five `/dealerships` endpoints over one `Store.Repository`.
 */
module Dealerships {
  import opened Wrappers
  import opened Values
  import opened Coercion
  import opened Schemas
  import opened Store

  /** `DealershipBase`, which `DealershipCreate` is. */
  const Create: Schema := map[
    "name" := Required(TStr), "legal_name" := Nullable(TStr), "dealer_number" := Required(TStr),
    "phone" := Nullable(TStr), "email" := Nullable(TStr), "website" := Nullable(TStr),
    "address_line_1" := Required(TStr), "address_line_2" := Nullable(TStr), "city" := Required(TStr),
    "state" := Required(TStr), "zip_code" := Required(TStr), "country" := Defaulted(TStr, Str("USA")),
    "tax_id" := Nullable(TStr), "business_license" := Nullable(TStr), "dealer_license" := Nullable(TStr),
    "operating_hours" := Nullable(TStr)]

  /** `DealershipUpdate`: every base field, `Optional[...] = None`. */
  const Update: Schema := Optionalized(Create)

  /** `DealershipResponse`: the base fields plus id, the two flags and the timestamps. */
  const Response: Schema := Create + map[
    "id" := Required(TInt), "is_active" := Required(TBool), "is_verified" := Required(TBool),
    "created_at" := Required(TDateTime), "updated_at" := Required(TDateTime)]

  /** The columns of the `Dealership` model. */
  const Columns: set<string> := {
    "id", "name", "legal_name", "dealer_number", "phone", "email", "website", "address_line_1",
    "address_line_2", "city", "state", "zip_code", "country", "tax_id", "business_license",
    "dealer_license", "operating_hours", "is_active", "is_verified", "created_at", "updated_at"}

  /** The `Dealership` model: column defaults, unique `dealer_number`, no cascaded relationship. */
  const Table: TableSpec := TableSpec(
    notFound := "Dealership not found", deleted := "Dealership deleted successfully",
    create := Create, update := Update, columns := Columns, collections := {"users"},
    defaults := map["country" := Str("USA"), "is_active" := Bool(true), "is_verified" := Bool(false)],
    unique := ["dealer_number"], enums := map[], cascade := None)

  /** Every field of the create model has a column, so create passes the constructor only attributes. */
  lemma CreateFieldsAreColumns()
    ensures Table.create.Keys <= Table.columns
  {
  }

  lemma TableWellFormed()
    ensures WellFormed(Table)
  {
    KeysOfTable();
  }

  /** The keys well-formedness is about: no id or timestamp field, no relationship a column. */
  lemma KeysOfTable()
    ensures "id" !in Table.update && "updated_at" !in Table.update && AllOptional(Table.update)
    ensures Table.enums.Keys == {} && Table.unique == ["dealer_number"]
    ensures Table.columns !! Table.collections
  {
    assert "id" !in Create && "updated_at" !in Create;
    assert "users" !in Columns;
  }

  /** The endpoints' messages. */
  lemma Messages()
    ensures NotFound(Table) == HttpError(404, "Dealership not found", false)
    ensures Table.deleted == "Dealership deleted successfully"
  {
  }

  // ---------------------------------------------------------------- endpoints

  /** `get_dealerships`: the page [skip, skip + limit) of the table. */
  function GetDealerships(db: Repository, skip: int, limit: int): (r: Result<seq<Record>, Fault>)
    reads db
    requires db.spec == Table && db.Valid()
    ensures r.Success? <==> skip >= 0 && limit >= 0
    ensures r.Success? ==> |r.value| == (if skip >= |db.ids| then 0 else if limit < |db.ids| - skip then limit else |db.ids| - skip)
    ensures r.Success? ==> forall i :: 0 <= i < |r.value| ==> skip + i < |db.ids| && r.value[i] == db.rows[db.ids[skip + i]]
  {
    List(db.State(), skip, limit)
  }

  /** `get_dealership` */
  function GetDealership(db: Repository, dealershipId: int): (r: Result<Record, Fault>)
    reads db
    requires db.spec == Table
    ensures r.Success? <==> dealershipId in db.rows
    ensures r.Success? ==> r.value == db.rows[dealershipId]
    ensures r.Failure? ==> r.error == HttpError(404, "Dealership not found", false)
  {
    Messages();
    Get(Table, db.State(), dealershipId)
  }

  /** `create_dealership` */
  method CreateDealership(db: Repository, dealership: Record, now: int) returns (r: Result<Record, Fault>)
    requires db.spec == Table && db.Valid()
    modifies db
    ensures db.Valid()
    ensures Step(db.State(), r) == CreateStep(Table, old(db.State()), dealership, now)
  {
    r := db.Create(dealership, now);
  }

  /** `update_dealership` */
  method UpdateDealership(db: Repository, dealershipId: int, dealership: Record, now: int) returns (r: Result<Record, Fault>)
    requires db.spec == Table && db.Valid()
    modifies db
    ensures db.Valid()
    ensures Step(db.State(), r) == UpdateStep(Table, old(db.State()), dealershipId, dealership, now)
  {
    TableWellFormed();
    r := db.Update(dealershipId, dealership, now);
  }

  /**
   * `delete_dealership`; the table has no cascade, so no other row goes with it. A
   * dealership that vehicles, customers, sales or service appointments still refer to
   * cannot be deleted in the source: their NOT NULL `dealership_id` foreign keys make
   * the commit fail with an IntegrityError. Those references are not part of this
   * model, which deletes the row.
   */
  method DeleteDealership(db: Repository, dealershipId: int) returns (r: Result<string, Fault>)
    requires db.spec == Table && db.Valid()
    modifies db
    ensures db.Valid()
    ensures Step(db.State(), r) == DeleteStep(Table, old(db.State()), dealershipId)
    ensures r.Success? ==> r.value == "Dealership deleted successfully" && db.children == old(db.children)
  {
    r := db.Delete(dealershipId);
    Messages();
  }

  // ---------------------------------------------------------------- properties

  /** Create requires name, dealer_number, address_line_1, city, state and zip_code; every other field has a default. */
  lemma CreateRequires(body: Record)
    ensures Validate(Create, body).Success? <==>
      && "name" in body && "dealer_number" in body && "address_line_1" in body
      && "city" in body && "state" in body && "zip_code" in body
      && forall k :: k in Create && k in body ==> Accepts(Create[k], body[k])
  {
    ValidateRequired(Create, body);
    RequiredCreateFields();
  }

  lemma RequiredCreateFields()
    ensures RequiredFields(Create) == {"name", "dealer_number", "address_line_1", "city", "state", "zip_code"}
  {
  }

  /** Every update field is optional, so the empty update is valid and sets nothing. */
  lemma UpdateAllOptional()
    ensures Update.Keys == Create.Keys
    ensures Validate(Update, map[]).Success? && DumpSet(Update, map[]) == map[]
  {
    TableWellFormed();
    EmptyUpdateSetsNothing(Update);
  }

  /** The response is the base fields plus id, the two flags and the timestamps, read off the row. */
  lemma ResponseFields(row: Record)
    ensures Project(Response, row).Keys == Create.Keys + {"id", "is_active", "is_verified", "created_at", "updated_at"}
    ensures forall k :: k in Project(Response, row) ==> Project(Response, row)[k] == Column(row, k)
  {
  }

  /** The model's column defaults, the timestamps' included. */
  lemma ColumnDefaults(now: int)
    ensures ColumnDefault(Table, now, "country") == Some(Str("USA"))
    ensures ColumnDefault(Table, now, "is_active") == Some(Bool(true))
    ensures ColumnDefault(Table, now, "is_verified") == Some(Bool(false))
    ensures "is_active" !in Table.create && "is_verified" !in Table.create && Table.enums == map[]
    ensures ColumnDefault(Table, now, "created_at") == Some(DateTime(now))
    ensures ColumnDefault(Table, now, "updated_at") == Some(DateTime(now))
  {
  }

  /** A new dealership starts active and unverified. */
  lemma CreateDefaults(s: TableState, body: Record, now: int)
    ensures var st := CreateStep(Table, s, body, now);
      st.result.Success? ==> Column(st.result.value, "is_active") == Bool(true) && Column(st.result.value, "is_verified") == Bool(false)
  {
    ColumnDefaults(now);
    CreateFieldsAreColumns();
    CreateColumnDefault(Table, s, body, now, "is_active", Bool(true));
    CreateColumnDefault(Table, s, body, now, "is_verified", Bool(false));
  }

  /** ... and is created and updated now. */
  lemma CreateTimestamps(s: TableState, body: Record, now: int)
    ensures var st := CreateStep(Table, s, body, now);
      st.result.Success? ==> Column(st.result.value, "created_at") == DateTime(now) && Column(st.result.value, "updated_at") == DateTime(now)
  {
    CreateFieldsAreColumns();
    CreateIsMapped(Table, s, body, now);
    StampsAreNoFields();
    CreateStampsNow(Table, s, body, now);
  }

  /** Neither timestamp is a field of the create model. */
  lemma StampsAreNoFields()
    ensures "created_at" !in Table.create && "updated_at" !in Table.create
  {
    assert Table.create == Create;
  }

  /** A new dealership's country is the one sent, or "USA" when the body leaves it out. */
  lemma CreateCountry(s: TableState, body: Record, now: int)
    ensures var st := CreateStep(Table, s, body, now);
      st.result.Success? ==> Column(st.result.value, "country") == (if "country" in body then body["country"] else Str("USA"))
  {
    assert Create["country"] == Defaulted(TStr, Str("USA"));
    CreateFieldsAreColumns();
    CreateIsMapped(Table, s, body, now);
    CreateDefaultedString(Table, s, body, now, "country", "USA");
  }

  /** No conflict handling: a repeated dealer_number is an uncaught database error and stores nothing. */
  lemma DuplicateDealerNumber(s: TableState, body: Record, now: int, other: int)
    requires other in s.rows && Validate(Create, body).Success?
    requires "dealer_number" in body && body["dealer_number"] == Column(s.rows[other], "dealer_number")
    ensures var st := CreateStep(Table, s, body, now);
      st.result.Failure? && st.result.error.Unhandled? && st.state.rows == s.rows
  {
    assert Create["dealer_number"] == Required(TStr);
    CreateFieldsAreColumns();
    CreateIsMapped(Table, s, body, now);
    CreateDuplicateString(Table, s, body, now, other, 0);
  }

  /** get, update and delete of an unknown id: 404 "Dealership not found", nothing changed. */
  lemma UnknownDealership(s: TableState, dealershipId: int, body: Record, now: int)
    requires dealershipId !in s.rows && Validate(Update, body).Success?
    ensures Get(Table, s, dealershipId) == Failure(HttpError(404, "Dealership not found", false))
    ensures UpdateStep(Table, s, dealershipId, body, now).result == Failure(HttpError(404, "Dealership not found", false))
    ensures UpdateStep(Table, s, dealershipId, body, now).state == s
    ensures DeleteStep(Table, s, dealershipId).result == Failure(HttpError(404, "Dealership not found", false))
    ensures DeleteStep(Table, s, dealershipId).state == s
  {
    Messages();
    UpdateNotFound(Table, s, dealershipId, body, now);
  }
}
