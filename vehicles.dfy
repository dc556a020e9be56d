/**
 * Inventory: the `vehicles` table with its cascaded `vehicle_images`, the
 * `Vehicle...` request and response models, and the five `/inventory` endpoints.
 */
module Vehicles {
  import opened Wrappers
  import opened Values
  import opened Coercion
  import opened Schemas
  import opened Store

  /** `VehicleStatus(str, enum.Enum)`: the member names and their values. */
  datatype VehicleStatus = Available | Sold | Reserved | InTransit | Service | SoldPending {
    /** The member's value, which is also what the member is as a `str`. */
    function Wire(): string {
      match this
      case Available => "available"
      case Sold => "sold"
      case Reserved => "reserved"
      case InTransit => "in_transit"
      case Service => "service"
      case SoldPending => "sold_pending"
    }

    /** The member's name, which is what the `Enum` column stores. */
    function Name(): string {
      match this
      case Available => "AVAILABLE"
      case Sold => "SOLD"
      case Reserved => "RESERVED"
      case InTransit => "IN_TRANSIT"
      case Service => "SERVICE"
      case SoldPending => "SOLD_PENDING"
    }
  }

  const StatusMembers: map<string, string> := map[
    "AVAILABLE" := "available", "SOLD" := "sold", "RESERVED" := "reserved",
    "IN_TRANSIT" := "in_transit", "SERVICE" := "service", "SOLD_PENDING" := "sold_pending"]

  const StatusValues: set<string> := {"available", "sold", "reserved", "in_transit", "service", "sold_pending"}

  /** `VehicleStatus(s)`: the member whose value is s, or None (a ValueError). */
  function ParseStatus(s: string): (r: Option<VehicleStatus>)
    ensures r.Some? ==> r.value.Wire() == s
    ensures r.Some? <==> s in StatusValues
  {
    if s == "available" then Some(Available)
    else if s == "sold" then Some(Sold)
    else if s == "reserved" then Some(Reserved)
    else if s == "in_transit" then Some(InTransit)
    else if s == "service" then Some(Service)
    else if s == "sold_pending" then Some(SoldPending)
    else None
  }

  /** Each member's value parses back to it, and the enum maps its name to that value. */
  lemma StatusRoundTrip(st: VehicleStatus)
    ensures st.Wire() in StatusValues
    ensures ParseStatus(st.Wire()) == Some(st)
    ensures st.Name() in StatusMembers && StatusMembers[st.Name()] == st.Wire()
  {
  }

  /** The values of the name map are the six values, and no name is another member's value. */
  lemma StatusMembersAgree()
    ensures StatusMembers.Values == StatusValues
    ensures MembersWellFormed(StatusMembers)
  {
    assert StatusMembers["AVAILABLE"] == "available" && StatusMembers["SOLD"] == "sold";
    assert StatusMembers["RESERVED"] == "reserved" && StatusMembers["IN_TRANSIT"] == "in_transit";
    assert StatusMembers["SERVICE"] == "service" && StatusMembers["SOLD_PENDING"] == "sold_pending";
  }

  /** `VehicleCreate` (= `VehicleBase`). */
  const Create: Schema := map[
    "vin" := Required(TStr), "year" := Required(TInt), "make" := Required(TStr), "model" := Required(TStr),
    "trim" := Nullable(TStr), "body_style" := Nullable(TStr), "color" := Nullable(TStr), "mileage" := Nullable(TInt),
    "engine" := Nullable(TStr), "transmission" := Nullable(TStr), "fuel_type" := Nullable(TStr),
    "drivetrain" := Nullable(TStr), "price" := Nullable(TDecimal), "cost" := Nullable(TDecimal),
    "condition" := Nullable(TStr), "status" := Defaulted(TStr, Str("available")), "description" := Nullable(TStr),
    "features" := Nullable(TStr), "images" := Nullable(TStr)]

  /** `VehicleUpdate`: the same fields, each `Optional[...] = None`, status included. */
  const Update: Schema := Optionalized(Create)

  /** `VehicleResponse`: the base fields plus id, dealership_id, is_active and the timestamps. */
  const Response: Schema := Create + map[
    "id" := Required(TInt), "dealership_id" := Required(TInt), "is_active" := Required(TBool),
    "created_at" := Required(TDateTime), "updated_at" := Required(TDateTime)]

  /** The columns of the `Vehicle` model. */
  const Columns: set<string> := {
    "id", "vin", "stock_number", "dealership_id", "year", "make", "model", "trim", "body_style",
    "color", "interior_color", "engine", "transmission", "fuel_type", "mileage", "cost_price",
    "sale_price", "msrp", "status", "location", "features", "description", "notes",
    "created_at", "updated_at"}

  /** The request fields the model has no column for; `images` is its relationship to `VehicleImage`. */
  const Unmapped: set<string> := {"drivetrain", "price", "cost", "condition", "images"}

  /** The `VehicleImage` model: `is_primary` defaults to False and `sort_order` to 0. */
  const ImageTable: TableSpec := TableSpec(
    notFound := "", deleted := "", create := map[], update := map[],
    columns := {"id", "vehicle_id", "image_url", "image_type", "is_primary", "sort_order", "created_at"},
    collections := {}, defaults := map["is_primary" := Bool(false), "sort_order" := Int(0)],
    unique := [], enums := map[], cascade := None)

  /** The `Vehicle` model: status enum defaulting to AVAILABLE, unique vin, images cascade. */
  const Table: TableSpec := TableSpec(
    notFound := "Vehicle not found", deleted := "Vehicle deleted successfully",
    create := Create, update := Update, columns := Columns, collections := {"images"},
    defaults := map["status" := Str("available")], unique := ["vin"],
    enums := map["status" := StatusMembers], cascade := Some(Cascade("vehicle_id", ImageTable)))

  /** The status field: a string defaulting to "available", with a column bound to the enum. */
  lemma StatusField()
    ensures Create["status"] == Defaulted(TStr, Str("available")) && "status" in Columns
    ensures Table.enums["status"] == StatusMembers
    ensures Bound(StatusMembers, "available") == "available"
  {
  }

  /** The unmapped fields are request fields with neither a column nor a column default. */
  lemma UnmappedFields()
    ensures forall k :: k in Unmapped ==> k in Create && k !in Columns && k != "id"
    ensures forall k, now :: k in Unmapped ==> ColumnDefault(Table, now, k).None?
    ensures !(Create.Keys <= Columns)
  {
    forall k | k in Unmapped ensures k !in Columns {
      NotColumn(k);
    }
    forall k, now | k in Unmapped ensures ColumnDefault(Table, now, k).None? {
      assert k != "created_at" && k != "updated_at" && k !in Table.defaults;
    }
    assert "drivetrain" in Create;
  }

  lemma NotColumn(k: string)
    requires k in Unmapped
    ensures k !in Columns
  {
  }

  lemma TableWellFormed()
    ensures WellFormed(Table)
  {
    KeysOfTable();
    StatusMembersAgree();
  }

  /** The keys well-formedness is about: no id or timestamp field, images no column. */
  lemma KeysOfTable()
    ensures "id" !in Table.update && "updated_at" !in Table.update && AllOptional(Table.update)
    ensures Table.enums.Keys == {"status"} && Table.unique == ["vin"]
    ensures Table.columns !! Table.collections
  {
    assert "id" !in Create && "updated_at" !in Create;
    assert "images" !in Columns;
  }

  lemma Messages()
    ensures NotFound(Table) == HttpError(404, "Vehicle not found", false)
    ensures Table.deleted == "Vehicle deleted successfully"
  {
  }

  /** The status a stored vehicle has: NULL or one of the six members. */
  lemma StoredStatus(s: TableState, id: int)
    requires Consistent(Table, s) && id in s.rows
    ensures var v := Column(s.rows[id], "status");
      v == Null || (v.Str? && ParseStatus(v.s).Some?)
  {
    assert InDomain(Table.enums, s.rows[id]);
    assert "status" in Table.enums;
    StatusMembersAgree();
  }

  // ---------------------------------------------------------------- endpoints

  /** `get_vehicles`: the page [skip, skip + limit) of the table. */
  function GetVehicles(db: Repository, skip: int, limit: int): (r: Result<seq<Record>, Fault>)
    reads db
    requires db.spec == Table && db.Valid()
    ensures r.Success? <==> skip >= 0 && limit >= 0
    ensures r.Success? ==> |r.value| == (if skip >= |db.ids| then 0 else if limit < |db.ids| - skip then limit else |db.ids| - skip)
    ensures r.Success? ==> forall i :: 0 <= i < |r.value| ==> skip + i < |db.ids| && r.value[i] == db.rows[db.ids[skip + i]]
  {
    List(db.State(), skip, limit)
  }

  /** `get_vehicle` */
  function GetVehicle(db: Repository, vehicleId: int): (r: Result<Record, Fault>)
    reads db
    requires db.spec == Table
    ensures r.Success? <==> vehicleId in db.rows
    ensures r.Success? ==> r.value == db.rows[vehicleId]
    ensures r.Failure? ==> r.error == HttpError(404, "Vehicle not found", false)
  {
    Messages();
    Get(Table, db.State(), vehicleId)
  }

  /** `create_vehicle`: as written, a TypeError for every valid body. */
  method CreateVehicle(db: Repository, vehicle: Record, now: int) returns (r: Result<Record, Fault>)
    requires db.spec == Table && db.Valid()
    modifies db
    ensures db.Valid()
    ensures Step(db.State(), r) == CreateStep(Table, old(db.State()), vehicle, now)
    ensures Validate(Create, vehicle).Success? ==> r == Failure(Unhandled("TypeError")) && db.State() == old(db.State())
  {
    r := db.Create(vehicle, now);
    if Validate(Create, vehicle).Success? {
      CreateRaisesTypeError(old(db.State()), vehicle, now);
    }
  }

  /** `update_vehicle` */
  method UpdateVehicle(db: Repository, vehicleId: int, vehicle: Record, now: int) returns (r: Result<Record, Fault>)
    requires db.spec == Table && db.Valid()
    modifies db
    ensures db.Valid()
    ensures Step(db.State(), r) == UpdateStep(Table, old(db.State()), vehicleId, vehicle, now)
  {
    TableWellFormed();
    r := db.Update(vehicleId, vehicle, now);
  }

  /** `delete_vehicle`: the vehicle's images go with it. */
  method DeleteVehicle(db: Repository, vehicleId: int) returns (r: Result<string, Fault>)
    requires db.spec == Table && db.Valid()
    modifies db
    ensures db.Valid()
    ensures Step(db.State(), r) == DeleteStep(Table, old(db.State()), vehicleId)
    ensures r.Success? ==> r.value == "Vehicle deleted successfully"
    ensures r.Success? ==> forall k :: k in db.children <==> k in old(db.children) && Column(old(db.children)[k], "vehicle_id") != Int(vehicleId)
  {
    r := db.Delete(vehicleId);
    Messages();
  }

  // ---------------------------------------------------------------- properties

  /** Create requires vin, year, make and model; every other field has a default. */
  lemma CreateRequires(body: Record)
    ensures Validate(Create, body).Success? <==>
      && "vin" in body && "year" in body && "make" in body && "model" in body
      && forall k :: k in Create && k in body ==> Accepts(Create[k], body[k])
  {
    ValidateRequired(Create, body);
    RequiredCreateFields();
  }

  lemma RequiredCreateFields()
    ensures RequiredFields(Create) == {"vin", "year", "make", "model"}
  {
  }

  /**
   * As written, `Vehicle(**vehicle.model_dump())` passes `drivetrain`, `price`, `cost`
   * and `condition`, which are no attributes of the model, and `images`, which is a
   * collection: every valid body fails with a TypeError and nothing is stored.
   */
  lemma CreateRaisesTypeError(s: TableState, body: Record, now: int)
    requires Validate(Create, body).Success?
    ensures CreateStep(Table, s, body, now) == Step(s, Failure(Unhandled("TypeError")))
  {
    UnmappedFields();
    CreateTypeError(Table, s, body, now);
  }

  /** Leaving the unmapped fields out, none of them is stored. */
  lemma CreateDropsUnmapped(s: TableState, body: Record, now: int)
    requires WellFormed(Table) && Consistent(Table, s)
    ensures var st := MappedCreateStep(Table, s, body, now);
      st.result.Success? ==> forall k :: k in Unmapped ==> k !in st.result.value
  {
    UnmappedFields();
    CreateThenGet(Table, s, body, now);
  }

  /**
   * A new vehicle's status is the member the string sent names (by name or by value),
   * read back as its value; a string naming no member is kept; "available" when the
   * body leaves it out.
   */
  lemma CreateStatus(s: TableState, body: Record, now: int)
    ensures var st := MappedCreateStep(Table, s, body, now);
      st.result.Success? ==>
        if "status" in body then
          body["status"].Str? && Column(st.result.value, "status") == Str(Bound(StatusMembers, body["status"].s))
        else Column(st.result.value, "status") == Str("available")
  {
    StatusField();
    CreateDefaultedField(Table, s, body, now, "status");
    if "status" in body && MappedCreateStep(Table, s, body, now).result.Success? {
      ValidatedField(Create, body, "status");
      StringFieldsTakeStrings(TStr, body["status"]);
    }
  }

  /** The member name "SOLD" is accepted and the vehicle reads back as "sold". */
  lemma CreateStatusByName(s: TableState, body: Record, now: int)
    requires "status" in body && body["status"] == Str("SOLD")
    ensures var st := MappedCreateStep(Table, s, body, now);
      st.result.Success? ==> Column(st.result.value, "status") == Str("sold")
  {
    CreateStatus(s, body, now);
    assert Bound(StatusMembers, "SOLD") == "sold";
  }

  /** ... and it is created and updated now. */
  lemma CreateTimestamps(s: TableState, body: Record, now: int)
    ensures var st := MappedCreateStep(Table, s, body, now);
      st.result.Success? ==> Column(st.result.value, "created_at") == DateTime(now) && Column(st.result.value, "updated_at") == DateTime(now)
  {
    StampsAreNoFields();
    CreateStampsNow(Table, s, body, now);
  }

  /** Neither timestamp is a field of the create model. */
  lemma StampsAreNoFields()
    ensures "created_at" !in Table.create && "updated_at" !in Table.create
  {
    assert Table.create == Create;
  }

  /**
   * The status is a free string in the request model: a string that is neither a
   * member name nor a value passes validation, and PostgreSQL refuses it for the enum
   * type when the row is written; nothing is stored.
   */
  lemma CreateBadStatus(s: TableState, body: Record, now: int)
    requires Validate(Create, body).Success?
    requires "status" in body && body["status"].Str? && body["status"].s !in Labels(StatusMembers)
    ensures MappedCreateStep(Table, s, body, now).result == Failure(Unhandled("DataError"))
    ensures MappedCreateStep(Table, s, body, now).state.rows == s.rows
  {
    StatusField();
    DumpFields(Create, body);
    StringFieldsTakeStrings(TStr, body["status"]);
    CreateUnbindable(Table, s, body, now, "status");
  }

  /** There are no transition rules: an update may set any status on any vehicle. */
  lemma AnyStatusTransition(s: TableState, vehicleId: int, target: VehicleStatus, now: int)
    requires Consistent(Table, s) && vehicleId in s.rows
    ensures var st := UpdateStep(Table, s, vehicleId, map["status" := Str(target.Wire())], now);
      st.result.Success? && Column(st.result.value, "status") == Str(target.Wire())
  {
    TableWellFormed();
    StatusUpdateFacts(target);
    UpdateOneColumn(Table, s, vehicleId, "status", Str(target.Wire()), now);
  }

  /** The status as an update sets it: a field with a column, no relationship, no unique key, and each member value a label that binds to itself. */
  lemma StatusUpdateFacts(target: VehicleStatus)
    ensures "status" in Table.update && "status" in Table.columns && "status" !in Table.collections
    ensures forall j :: 0 <= j < |Table.unique| ==> Table.unique[j] != "status"
    ensures Parse(Table.update["status"], Str(target.Wire())) == Some(Str(target.Wire()))
    ensures "status" in Table.enums && target.Wire() in Labels(Table.enums["status"])
    ensures BindValue(Table.enums, "status", Str(target.Wire())) == Str(target.Wire())
  {
    StatusField();
    StatusRoundTrip(target);
    StatusMembersAgree();
    StringFieldsTakeStrings(TStr, Str(target.Wire()));
  }

  /**
   * Setting the status by its name stores the member, reads back its value, and moves
   * `updated_at`: the name compares unequal to the loaded value, so an UPDATE is sent.
   */
  lemma UpdateStatusByName(s: TableState, vehicleId: int, target: VehicleStatus, now: int)
    requires Consistent(Table, s) && vehicleId in s.rows
    ensures var st := UpdateStep(Table, s, vehicleId, map["status" := Str(target.Name())], now);
      && st.result.Success?
      && Column(st.result.value, "status") == Str(target.Wire())
      && Column(st.result.value, "updated_at") == DateTime(now)
  {
    TableWellFormed();
    StatusRoundTrip(target);
    UpdateByNameRestamps(Table, s, vehicleId, "status", target.Name(), now);
  }

  /** Setting `images`, even to null, assigns a non-list to the relationship: a TypeError, nothing written. */
  lemma UpdateImagesFails(s: TableState, vehicleId: int, body: Record, now: int)
    requires vehicleId in s.rows && Validate(Update, body).Success? && "images" in body
    ensures UpdateStep(Table, s, vehicleId, body, now) == Step(s, Failure(Unhandled("TypeError")))
  {
    UpdateCollectionFails(Table, s, vehicleId, body, now, "images");
  }

  /**
   * A body setting only `drivetrain`, `price`, `cost` or `condition` writes nothing:
   * the row and its `updated_at` stay, and only the response shows the values sent.
   */
  lemma UpdateUnmappedOnly(s: TableState, vehicleId: int, body: Record, now: int)
    requires Consistent(Table, s) && vehicleId in s.rows && Validate(Update, body).Success?
    requires body.Keys <= Unmapped - {"images"}
    ensures UpdateStep(Table, s, vehicleId, body, now) == Step(s, Success(s.rows[vehicleId] + DumpSet(Update, body)))
  {
    TableWellFormed();
    UnmappedFields();
    UpdateWithin(Table, s, vehicleId, body, now, Unmapped - {"images"});
  }

  /** No conflict handling: a repeated VIN is an uncaught database error and stores nothing. */
  lemma DuplicateVin(s: TableState, body: Record, now: int, other: int)
    requires other in s.rows && Validate(Create, body).Success?
    requires "vin" in body && body["vin"] == Column(s.rows[other], "vin")
    ensures var st := MappedCreateStep(Table, s, body, now);
      st.result.Failure? && st.result.error.Unhandled? && st.state.rows == s.rows
  {
    assert Create["vin"] == Required(TStr);
    CreateDuplicateString(Table, s, body, now, other, 0);
  }

  /** get, update and delete of an unknown id: 404 "Vehicle not found", nothing changed. */
  lemma UnknownVehicle(s: TableState, vehicleId: int, body: Record, now: int)
    requires vehicleId !in s.rows && Validate(Update, body).Success?
    ensures Get(Table, s, vehicleId) == Failure(HttpError(404, "Vehicle not found", false))
    ensures UpdateStep(Table, s, vehicleId, body, now).result == Failure(HttpError(404, "Vehicle not found", false))
    ensures UpdateStep(Table, s, vehicleId, body, now).state == s
    ensures DeleteStep(Table, s, vehicleId).result == Failure(HttpError(404, "Vehicle not found", false))
    ensures DeleteStep(Table, s, vehicleId).state == s
  {
    Messages();
    UpdateNotFound(Table, s, vehicleId, body, now);
  }

  /** A new image row is not primary and sorts first unless the caller says otherwise. */
  lemma NewImageDefaults(given: Record, id: int, now: int)
    ensures var r := InsertRecord(ImageTable, given, id, now);
      && r["is_primary"] == (if Column(given, "is_primary") == Null then Bool(false) else given["is_primary"])
      && r["sort_order"] == (if Column(given, "sort_order") == Null then Int(0) else given["sort_order"])
  {
    assert ColumnDefault(ImageTable, now, "is_primary") == Some(Bool(false));
    assert ColumnDefault(ImageTable, now, "sort_order") == Some(Int(0));
  }
}
