/**
 * Service: the `service_appointments` table with its cascaded
 * `service_work_orders`, the `ServiceAppointment...` request and response models,
 * and the five `/service` endpoints over one `Store.Repository`.
 */
module Services {
  import opened Wrappers
  import opened Values
  import opened Text
  import opened Coercion
  import opened Schemas
  import opened Store

  /** `AppointmentStatus(str, enum.Enum)`: the member names and their values. */
  datatype AppointmentStatus = Scheduled | InProgress | Completed | Cancelled | NoShow {
    /** The member's value, which is also what the member is as a `str`. */
    function Wire(): string {
      match this
      case Scheduled => "scheduled"
      case InProgress => "in_progress"
      case Completed => "completed"
      case Cancelled => "cancelled"
      case NoShow => "no_show"
    }

    /** The member's name, which is what the `Enum` column stores. */
    function Name(): string {
      match this
      case Scheduled => "SCHEDULED"
      case InProgress => "IN_PROGRESS"
      case Completed => "COMPLETED"
      case Cancelled => "CANCELLED"
      case NoShow => "NO_SHOW"
    }
  }

  const StatusMembers: map<string, string> := map[
    "SCHEDULED" := "scheduled", "IN_PROGRESS" := "in_progress", "COMPLETED" := "completed",
    "CANCELLED" := "cancelled", "NO_SHOW" := "no_show"]

  const StatusValues: set<string> := {"scheduled", "in_progress", "completed", "cancelled", "no_show"}

  /** `AppointmentStatus(s)`: the member whose value is s, or None (a ValueError). */
  function ParseStatus(s: string): (r: Option<AppointmentStatus>)
    ensures r.Some? ==> r.value.Wire() == s
    ensures r.Some? <==> s in StatusValues
  {
    if s == "scheduled" then Some(Scheduled)
    else if s == "in_progress" then Some(InProgress)
    else if s == "completed" then Some(Completed)
    else if s == "cancelled" then Some(Cancelled)
    else if s == "no_show" then Some(NoShow)
    else None
  }

  /** Each member's value parses back to it, and the enum maps its name to that value. */
  lemma StatusRoundTrip(st: AppointmentStatus)
    ensures st.Wire() in StatusValues
    ensures ParseStatus(st.Wire()) == Some(st)
    ensures st.Name() in StatusMembers && StatusMembers[st.Name()] == st.Wire()
  {
  }

  /** The values of the name map are the five values, and no name is another member's value. */
  lemma StatusMembersAgree()
    ensures StatusMembers.Values == StatusValues
    ensures MembersWellFormed(StatusMembers)
  {
    assert StatusMembers["SCHEDULED"] == "scheduled" && StatusMembers["IN_PROGRESS"] == "in_progress";
    assert StatusMembers["COMPLETED"] == "completed" && StatusMembers["CANCELLED"] == "cancelled";
    assert StatusMembers["NO_SHOW"] == "no_show";
  }

  /** `WorkOrderStatus(str, enum.Enum)`. */
  datatype WorkOrderStatus = WorkPending | WorkInProgress | WorkCompleted | WorkCancelled | OnHold {
    function Wire(): string {
      match this
      case WorkPending => "pending"
      case WorkInProgress => "in_progress"
      case WorkCompleted => "completed"
      case WorkCancelled => "cancelled"
      case OnHold => "on_hold"
    }
  }

  const WorkOrderMembers: map<string, string> := map[
    "PENDING" := "pending", "IN_PROGRESS" := "in_progress", "COMPLETED" := "completed",
    "CANCELLED" := "cancelled", "ON_HOLD" := "on_hold"]

  const WorkOrderValues: set<string> := {"pending", "in_progress", "completed", "cancelled", "on_hold"}

  /** `WorkOrderStatus(s)`: the member whose value is s, or None (a ValueError). */
  function ParseWorkOrderStatus(s: string): (r: Option<WorkOrderStatus>)
    ensures r.Some? ==> r.value.Wire() == s
    ensures r.Some? <==> s in WorkOrderValues
  {
    if s == "pending" then Some(WorkPending)
    else if s == "in_progress" then Some(WorkInProgress)
    else if s == "completed" then Some(WorkCompleted)
    else if s == "cancelled" then Some(WorkCancelled)
    else if s == "on_hold" then Some(OnHold)
    else None
  }

  lemma WorkOrderStatusRoundTrip(st: WorkOrderStatus)
    ensures st.Wire() in WorkOrderValues
    ensures ParseWorkOrderStatus(st.Wire()) == Some(st)
  {
  }

  lemma WorkOrderMembersAgree()
    ensures WorkOrderMembers.Values == WorkOrderValues
  {
    assert WorkOrderMembers["PENDING"] == "pending" && WorkOrderMembers["IN_PROGRESS"] == "in_progress";
    assert WorkOrderMembers["COMPLETED"] == "completed" && WorkOrderMembers["CANCELLED"] == "cancelled";
    assert WorkOrderMembers["ON_HOLD"] == "on_hold";
  }

  /** `ServiceAppointmentCreate` (= `ServiceAppointmentBase`). */
  const Create: Schema := map[
    "customer_id" := Required(TInt), "vehicle_id" := Required(TInt), "service_advisor_id" := Required(TInt),
    "appointment_date" := Required(TDateTime), "service_type" := Required(TStr), "description" := Nullable(TStr),
    "estimated_cost" := Nullable(TDecimal), "estimated_duration" := Nullable(TInt),
    "priority" := Defaulted(TStr, Str("normal")), "status" := Defaulted(TStr, Str("scheduled")), "notes" := Nullable(TStr)]

  /** `ServiceAppointmentUpdate`: every base field, `Optional[...] = None`. */
  const Update: Schema := Optionalized(Create)

  /** `ServiceAppointmentResponse`: the base fields plus id, dealership_id, the actuals and the timestamps. */
  const Response: Schema := Create + map[
    "id" := Required(TInt), "dealership_id" := Required(TInt), "actual_cost" := Nullable(TDecimal),
    "actual_duration" := Nullable(TInt), "completed_at" := Nullable(TDateTime),
    "created_at" := Required(TDateTime), "updated_at" := Required(TDateTime)]

  /** The columns of the `ServiceAppointment` model. */
  const Columns: set<string> := {
    "id", "appointment_number", "dealership_id", "customer_id", "vehicle_id", "service_advisor_id",
    "appointment_date", "estimated_duration", "status", "service_type", "description",
    "customer_concerns", "notes", "reminder_sent", "created_at", "updated_at"}

  /** The request fields the model has no column for. */
  const Unmapped: set<string> := {"estimated_cost", "priority"}

  /** The `ServiceWorkOrder` model: unique work_order_number, status enum defaulting to PENDING. */
  const WorkOrderTable: TableSpec := TableSpec(
    notFound := "", deleted := "", create := map[], update := map[],
    columns := {
      "id", "work_order_number", "appointment_id", "technician_id", "status", "estimated_hours",
      "actual_hours", "labor_rate", "labor_cost", "parts_cost", "total_cost", "work_description",
      "work_performed", "recommendations", "created_at", "updated_at", "started_at", "completed_at"},
    collections := {}, defaults := map["status" := Str("pending")], unique := ["work_order_number"],
    enums := map["status" := WorkOrderMembers], cascade := None)

  /** The `ServiceAppointment` model: status enum, reminder flag, unique appointment_number, work orders cascade. */
  const Table: TableSpec := TableSpec(
    notFound := "Service appointment not found", deleted := "Service appointment deleted successfully",
    create := Create, update := Update, columns := Columns, collections := {"work_orders"},
    defaults := map["status" := Str("scheduled"), "reminder_sent" := Bool(false)],
    unique := ["appointment_number"], enums := map["status" := StatusMembers],
    cascade := Some(Cascade("appointment_id", WorkOrderTable)))

  /** The unmapped fields are request fields with neither a column nor a column default. */
  lemma UnmappedFields()
    ensures forall k :: k in Unmapped ==> k in Create && k !in Columns && k != "id"
    ensures forall k, now :: k in Unmapped ==> ColumnDefault(Table, now, k).None?
    ensures !(Create.Keys <= Columns)
    ensures Unmapped !! Table.columns && Unmapped !! Table.collections
  {
    assert "priority" in Create;
  }

  /** The status field: a string defaulting to "scheduled", with a column bound to the enum. */
  lemma StatusField()
    ensures Create["status"] == Defaulted(TStr, Str("scheduled")) && "status" in Columns
    ensures Table.enums["status"] == StatusMembers && Table.enums.Keys == {"status"}
    ensures Bound(StatusMembers, "scheduled") == "scheduled"
  {
  }

  lemma TableWellFormed()
    ensures WellFormed(Table)
  {
    KeysOfTable();
    StatusMembersAgree();
  }

  /** The keys well-formedness is about: no id or timestamp field, no relationship a column. */
  lemma KeysOfTable()
    ensures "id" !in Table.update && "updated_at" !in Table.update && AllOptional(Table.update)
    ensures Table.enums.Keys == {"status"} && Table.unique == ["appointment_number"]
    ensures Table.columns !! Table.collections
  {
    assert "id" !in Create && "updated_at" !in Create;
    assert "work_orders" !in Columns;
  }

  lemma Messages()
    ensures NotFound(Table) == HttpError(404, "Service appointment not found", false)
    ensures Table.deleted == "Service appointment deleted successfully"
  {
  }

  /** The status a stored appointment has: NULL or one of the five members. */
  lemma StoredStatus(s: TableState, id: int)
    requires Consistent(Table, s) && id in s.rows
    ensures var v := Column(s.rows[id], "status");
      v == Null || (v.Str? && ParseStatus(v.s).Some?)
  {
    assert InDomain(Table.enums, s.rows[id]);
    assert "status" in Table.enums;
    StatusMembersAgree();
  }

  /** No two appointments share an appointment_number. */
  lemma AppointmentNumbersUnique(s: TableState, x: int, y: int)
    requires Consistent(Table, s) && x in s.rows && y in s.rows && x != y
    ensures Column(s.rows[x], "appointment_number") == Null || Column(s.rows[x], "appointment_number") != Column(s.rows[y], "appointment_number")
  {
    assert !Clash(Table.unique[0], s.rows[x], s.rows[y]);
  }

  /** Every work order belongs to a stored appointment, no two share a work_order_number, and each status is a member. */
  lemma WorkOrdersConsistent(s: TableState, x: int, y: int)
    requires Consistent(Table, s) && x in s.children && y in s.children && x != y
    ensures Column(s.children[x], "appointment_id").Int? && Column(s.children[x], "appointment_id").i in s.rows
    ensures Column(s.children[x], "work_order_number") == Null
      || Column(s.children[x], "work_order_number") != Column(s.children[y], "work_order_number")
    ensures var v := Column(s.children[x], "status");
      v == Null || (v.Str? && ParseWorkOrderStatus(v.s).Some?)
  {
    assert ChildrenConsistent(Table, s);
    assert !Clash(WorkOrderTable.unique[0], s.children[x], s.children[y]);
    assert InDomain(WorkOrderTable.enums, s.children[x]);
    assert "status" in WorkOrderTable.enums;
    WorkOrderMembersAgree();
  }

  // ---------------------------------------------------------------- endpoints

  /** `get_service_appointments`: the page [skip, skip + limit) of the table. */
  function GetServiceAppointments(db: Repository, skip: int, limit: int): (r: Result<seq<Record>, Fault>)
    reads db
    requires db.spec == Table && db.Valid()
    ensures r.Success? <==> skip >= 0 && limit >= 0
    ensures r.Success? ==> |r.value| == (if skip >= |db.ids| then 0 else if limit < |db.ids| - skip then limit else |db.ids| - skip)
    ensures r.Success? ==> forall i :: 0 <= i < |r.value| ==> skip + i < |db.ids| && r.value[i] == db.rows[db.ids[skip + i]]
  {
    List(db.State(), skip, limit)
  }

  /** `get_service_appointment` */
  function GetServiceAppointment(db: Repository, appointmentId: int): (r: Result<Record, Fault>)
    reads db
    requires db.spec == Table
    ensures r.Success? <==> appointmentId in db.rows
    ensures r.Success? ==> r.value == db.rows[appointmentId]
    ensures r.Failure? ==> r.error == HttpError(404, "Service appointment not found", false)
  {
    Messages();
    Get(Table, db.State(), appointmentId)
  }

  /** `create_service_appointment`: as written, a TypeError for every valid body. */
  method CreateServiceAppointment(db: Repository, appointment: Record, now: int) returns (r: Result<Record, Fault>)
    requires db.spec == Table && db.Valid()
    modifies db
    ensures db.Valid()
    ensures Step(db.State(), r) == CreateStep(Table, old(db.State()), appointment, now)
    ensures Validate(Create, appointment).Success? ==> r == Failure(Unhandled("TypeError")) && db.State() == old(db.State())
  {
    r := db.Create(appointment, now);
    if Validate(Create, appointment).Success? {
      CreateRaisesTypeError(old(db.State()), appointment, now);
    }
  }

  /** `update_service_appointment` */
  method UpdateServiceAppointment(db: Repository, appointmentId: int, appointment: Record, now: int) returns (r: Result<Record, Fault>)
    requires db.spec == Table && db.Valid()
    modifies db
    ensures db.Valid()
    ensures Step(db.State(), r) == UpdateStep(Table, old(db.State()), appointmentId, appointment, now)
  {
    TableWellFormed();
    r := db.Update(appointmentId, appointment, now);
  }

  /** `delete_service_appointment`: all of the appointment's work orders go with it. */
  method DeleteServiceAppointment(db: Repository, appointmentId: int) returns (r: Result<string, Fault>)
    requires db.spec == Table && db.Valid()
    modifies db
    ensures db.Valid()
    ensures Step(db.State(), r) == DeleteStep(Table, old(db.State()), appointmentId)
    ensures r.Success? ==> r.value == "Service appointment deleted successfully"
    ensures r.Success? ==> forall k :: k in db.children <==> k in old(db.children) && Column(old(db.children)[k], "appointment_id") != Int(appointmentId)
  {
    r := db.Delete(appointmentId);
    Messages();
  }

  // ---------------------------------------------------------------- properties

  /** Create requires customer_id, vehicle_id, service_advisor_id, appointment_date and service_type. */
  lemma CreateRequires(body: Record)
    ensures Validate(Create, body).Success? <==>
      && "customer_id" in body && "vehicle_id" in body && "service_advisor_id" in body
      && "appointment_date" in body && "service_type" in body
      && forall k :: k in Create && k in body ==> Accepts(Create[k], body[k])
  {
    ValidateRequired(Create, body);
    RequiredCreateFields();
  }

  lemma RequiredCreateFields()
    ensures RequiredFields(Create) == {"customer_id", "vehicle_id", "service_advisor_id", "appointment_date", "service_type"}
  {
  }

  /** Every update field is optional, so the empty update is valid and sets nothing. */
  lemma UpdateAllOptional()
    ensures Update.Keys == Create.Keys
    ensures Validate(Update, map[]).Success? && DumpSet(Update, map[]) == map[]
  {
    EmptyUpdateSetsNothing(Update);
  }

  /** The response is the base fields plus id, dealership_id, the actuals and the timestamps. */
  lemma ResponseFields(row: Record)
    ensures Project(Response, row).Keys == Create.Keys + {"id", "dealership_id", "actual_cost", "actual_duration", "completed_at", "created_at", "updated_at"}
    ensures forall k :: k in Project(Response, row) ==> Project(Response, row)[k] == Column(row, k)
  {
  }

  /**
   * As written, `ServiceAppointment(**appointment.model_dump())` passes `priority` and
   * `estimated_cost`, which are no attributes of the model: every valid body fails
   * with a TypeError and nothing is stored.
   */
  lemma CreateRaisesTypeError(s: TableState, body: Record, now: int)
    requires Validate(Create, body).Success?
    ensures CreateStep(Table, s, body, now) == Step(s, Failure(Unhandled("TypeError")))
  {
    UnmappedFields();
    CreateTypeError(Table, s, body, now);
  }

  /** Leaving the unmapped fields out, neither the priority nor the estimated cost is stored. */
  lemma CreateDropsUnmapped(s: TableState, body: Record, now: int)
    requires Consistent(Table, s)
    ensures var st := MappedCreateStep(Table, s, body, now);
      st.result.Success? ==> "priority" !in st.result.value && "estimated_cost" !in st.result.value
  {
    TableWellFormed();
    UnmappedFields();
    CreateThenGet(Table, s, body, now);
  }

  /** The validated priority is the one sent, or "normal". */
  lemma PriorityDefault(body: Record)
    requires Validate(Create, body).Success?
    ensures Validate(Create, body).value["priority"] == (if "priority" in body then body["priority"] else Str("normal"))
  {
    assert Create["priority"] == Defaulted(TStr, Str("normal"));
    DumpFields(Create, body);
    if "priority" in body {
      ValidatedField(Create, body, "priority");
      StringFieldsTakeStrings(TStr, body["priority"]);
    }
  }

  /**
   * The appointment date takes an ISO 8601 date or date-time string, or Unix time as a
   * numeric string; an ISO string is stored as the instant it names.
   */
  lemma AppointmentDateAccepts(t: string)
    ensures Accepts(Create["appointment_date"], Str(t)) <==> ParseIso(t).Some? || ParseInt(t).Some?
    ensures ParseIso(t).Some? ==> Parse(Create["appointment_date"], Str(t)) == Some(DateTime(ParseIso(t).value))
  {
    assert Create["appointment_date"] == Required(TDateTime);
  }

  /** For instance "1970-01-01" is accepted and is the epoch. */
  lemma EpochAppointment()
    ensures Parse(Create["appointment_date"], Str("1970-01-01")) == Some(DateTime(0))
  {
    Epoch();
    AppointmentDateAccepts("1970-01-01");
  }

  /**
   * A new appointment's status is the member the string sent names (by name or by
   * value), read back as its value; "scheduled" when the body leaves it out.
   */
  lemma CreateStatus(s: TableState, body: Record, now: int)
    ensures var st := MappedCreateStep(Table, s, body, now);
      st.result.Success? ==>
        if "status" in body then
          body["status"].Str? && Column(st.result.value, "status") == Str(Bound(StatusMembers, body["status"].s))
        else Column(st.result.value, "status") == Str("scheduled")
  {
    StatusField();
    CreateDefaultedField(Table, s, body, now, "status");
    if "status" in body && MappedCreateStep(Table, s, body, now).result.Success? {
      ValidatedField(Create, body, "status");
      StringFieldsTakeStrings(TStr, body["status"]);
    }
  }

  /** No reminder has been sent for a new appointment. */
  lemma CreateNoReminder(s: TableState, body: Record, now: int)
    ensures var st := MappedCreateStep(Table, s, body, now);
      st.result.Success? ==> Column(st.result.value, "reminder_sent") == Bool(false)
  {
    assert ColumnDefault(Table, now, "reminder_sent") == Some(Bool(false));
    CreateOtherColumns(Table, s, body, now, {"reminder_sent"});
  }

  /** ... and it is created and updated now. */
  lemma CreateTimestamps(s: TableState, body: Record, now: int)
    ensures var st := MappedCreateStep(Table, s, body, now);
      st.result.Success? ==> Column(st.result.value, "created_at") == DateTime(now) && Column(st.result.value, "updated_at") == DateTime(now)
  {
    StampsAreNoFields();
    CreateStampsNow(Table, s, body, now);
  }

  /** Neither timestamp is a field of the create model. */
  lemma StampsAreNoFields()
    ensures "created_at" !in Table.create && "updated_at" !in Table.create
  {
    assert Table.create == Create;
  }

  /**
   * A status that is neither a member name nor a value passes validation, and
   * PostgreSQL refuses it for the enum type when the row is written.
   */
  lemma CreateBadStatus(s: TableState, body: Record, now: int)
    requires Validate(Create, body).Success?
    requires "status" in body && body["status"].Str? && body["status"].s !in Labels(StatusMembers)
    ensures MappedCreateStep(Table, s, body, now).result == Failure(Unhandled("DataError"))
    ensures MappedCreateStep(Table, s, body, now).state.rows == s.rows
  {
    StatusField();
    DumpFields(Create, body);
    StringFieldsTakeStrings(TStr, body["status"]);
    CreateUnbindable(Table, s, body, now, "status");
  }

  /** There are no transition rules: an update may set any status on any appointment. */
  lemma AnyStatusTransition(s: TableState, appointmentId: int, target: AppointmentStatus, now: int)
    requires Consistent(Table, s) && appointmentId in s.rows
    ensures var st := UpdateStep(Table, s, appointmentId, map["status" := Str(target.Wire())], now);
      st.result.Success? && Column(st.result.value, "status") == Str(target.Wire())
  {
    TableWellFormed();
    StatusUpdateFacts(target);
    UpdateOneColumn(Table, s, appointmentId, "status", Str(target.Wire()), now);
  }

  /** The status as an update sets it: a field with a column, no relationship, no unique key, and each member value a label that binds to itself. */
  lemma StatusUpdateFacts(target: AppointmentStatus)
    ensures "status" in Table.update && "status" in Table.columns && "status" !in Table.collections
    ensures forall j :: 0 <= j < |Table.unique| ==> Table.unique[j] != "status"
    ensures Parse(Table.update["status"], Str(target.Wire())) == Some(Str(target.Wire()))
    ensures "status" in Table.enums && target.Wire() in Labels(Table.enums["status"])
    ensures BindValue(Table.enums, "status", Str(target.Wire())) == Str(target.Wire())
  {
    StatusField();
    StatusRoundTrip(target);
    StatusMembersAgree();
    StringFieldsTakeStrings(TStr, Str(target.Wire()));
  }

  /**
   * An update setting only `priority` or `estimated_cost` writes nothing: the row and
   * its `updated_at` stay, and only the response shows the values sent.
   */
  lemma UpdateUnmappedOnly(s: TableState, appointmentId: int, body: Record, now: int)
    requires Consistent(Table, s) && appointmentId in s.rows && Validate(Update, body).Success?
    requires body.Keys <= Unmapped
    ensures UpdateStep(Table, s, appointmentId, body, now) == Step(s, Success(s.rows[appointmentId] + DumpSet(Update, body)))
  {
    TableWellFormed();
    UnmappedFields();
    UpdateWithin(Table, s, appointmentId, body, now, Unmapped);
  }

  /** get, update and delete of an unknown id: 404 "Service appointment not found", nothing changed. */
  lemma UnknownAppointment(s: TableState, appointmentId: int, body: Record, now: int)
    requires appointmentId !in s.rows && Validate(Update, body).Success?
    ensures Get(Table, s, appointmentId) == Failure(HttpError(404, "Service appointment not found", false))
    ensures UpdateStep(Table, s, appointmentId, body, now).result == Failure(HttpError(404, "Service appointment not found", false))
    ensures UpdateStep(Table, s, appointmentId, body, now).state == s
    ensures DeleteStep(Table, s, appointmentId).result == Failure(HttpError(404, "Service appointment not found", false))
    ensures DeleteStep(Table, s, appointmentId).state == s
  {
    Messages();
    UpdateNotFound(Table, s, appointmentId, body, now);
  }

  /** A new work order is pending unless the caller gives a status. */
  lemma NewWorkOrderDefaults(given: Record, id: int, now: int)
    ensures var r := InsertRecord(WorkOrderTable, given, id, now);
      r["status"] == (if Column(given, "status") == Null then Str("pending") else given["status"])
  {
    assert ColumnDefault(WorkOrderTable, now, "status") == Some(Str("pending"));
  }
}
