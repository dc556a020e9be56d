/**
 * Sales: the `sales` table with its cascaded `sale_items`, the `Sale...` request
 * and response models, and the five `/sales` endpoints over one `Store.Repository`.
 */
module Sales {
  import opened Wrappers
  import opened Values
  import opened Coercion
  import opened Schemas
  import opened Store

  /** `SaleStatus(str, enum.Enum)`: the member names and their values. */
  datatype SaleStatus = Pending | Approved | Completed | Cancelled | Delivered {
    /** The member's value, which is also what the member is as a `str`. */
    function Wire(): string {
      match this
      case Pending => "pending"
      case Approved => "approved"
      case Completed => "completed"
      case Cancelled => "cancelled"
      case Delivered => "delivered"
    }

    /** The member's name, which is what the `Enum` column stores. */
    function Name(): string {
      match this
      case Pending => "PENDING"
      case Approved => "APPROVED"
      case Completed => "COMPLETED"
      case Cancelled => "CANCELLED"
      case Delivered => "DELIVERED"
    }
  }

  const StatusMembers: map<string, string> := map[
    "PENDING" := "pending", "APPROVED" := "approved", "COMPLETED" := "completed",
    "CANCELLED" := "cancelled", "DELIVERED" := "delivered"]

  const StatusValues: set<string> := {"pending", "approved", "completed", "cancelled", "delivered"}

  /** `SaleStatus(s)`: the member whose value is s, or None (a ValueError). */
  function ParseStatus(s: string): (r: Option<SaleStatus>)
    ensures r.Some? ==> r.value.Wire() == s
    ensures r.Some? <==> s in StatusValues
  {
    if s == "pending" then Some(Pending)
    else if s == "approved" then Some(Approved)
    else if s == "completed" then Some(Completed)
    else if s == "cancelled" then Some(Cancelled)
    else if s == "delivered" then Some(Delivered)
    else None
  }

  /** Each member's value parses back to it, and the enum maps its name to that value. */
  lemma StatusRoundTrip(st: SaleStatus)
    ensures st.Wire() in StatusValues
    ensures ParseStatus(st.Wire()) == Some(st)
    ensures st.Name() in StatusMembers && StatusMembers[st.Name()] == st.Wire()
  {
  }

  /** The values of the name map are the five values, and no name is another member's value. */
  lemma StatusMembersAgree()
    ensures StatusMembers.Values == StatusValues
    ensures MembersWellFormed(StatusMembers)
  {
    assert StatusMembers["PENDING"] == "pending" && StatusMembers["APPROVED"] == "approved";
    assert StatusMembers["COMPLETED"] == "completed" && StatusMembers["CANCELLED"] == "cancelled";
    assert StatusMembers["DELIVERED"] == "delivered";
  }

  /** `SaleCreate` (= `SaleBase`). */
  const Create: Schema := map[
    "vehicle_id" := Required(TInt), "customer_id" := Required(TInt), "salesperson_id" := Required(TInt),
    "sale_price" := Required(TDecimal), "down_payment" := Nullable(TDecimal), "trade_in_value" := Nullable(TDecimal),
    "trade_in_vehicle" := Nullable(TStr), "financing_amount" := Nullable(TDecimal), "interest_rate" := Nullable(TDecimal),
    "loan_term" := Nullable(TInt), "monthly_payment" := Nullable(TDecimal), "sale_type" := Defaulted(TStr, Str("retail")),
    "payment_method" := Nullable(TStr), "notes" := Nullable(TStr)]

  /** `SaleUpdate`: every base field, `Optional[...] = None`; the status is not among them. */
  const Update: Schema := Optionalized(Create)

  /** `SaleResponse`: the base fields plus id, dealership_id, sale_date, status and the timestamps. */
  const Response: Schema := Create + map[
    "id" := Required(TInt), "dealership_id" := Required(TInt), "sale_date" := Required(TDateTime),
    "status" := Required(TStr), "created_at" := Required(TDateTime), "updated_at" := Required(TDateTime)]

  /** The columns of the `Sale` model. */
  const Columns: set<string> := {
    "id", "sale_number", "dealership_id", "customer_id", "sales_person_id", "vehicle_id",
    "sale_date", "status", "vehicle_price", "trade_in_value", "down_payment", "finance_amount",
    "total_amount", "finance_company", "interest_rate", "term_months", "monthly_payment",
    "notes", "documents", "created_at", "updated_at"}

  /** The request fields the model has no column for. */
  const Unmapped: set<string> := {
    "salesperson_id", "sale_price", "trade_in_vehicle", "financing_amount", "loan_term", "sale_type", "payment_method"}

  /** The `SaleItem` model: `quantity` defaults to 1. */
  const ItemTable: TableSpec := TableSpec(
    notFound := "", deleted := "", create := map[], update := map[],
    columns := {"id", "sale_id", "name", "description", "quantity", "unit_price", "total_price", "item_type", "created_at"},
    collections := {}, defaults := map["quantity" := Int(1)], unique := [], enums := map[], cascade := None)

  /** The `Sale` model: status enum defaulting to PENDING, unique sale_number, items cascade. */
  const Table: TableSpec := TableSpec(
    notFound := "Sale not found", deleted := "Sale deleted successfully",
    create := Create, update := Update, columns := Columns, collections := {"items"},
    defaults := map["status" := Str("pending")], unique := ["sale_number"],
    enums := map["status" := StatusMembers], cascade := Some(Cascade("sale_id", ItemTable)))

  lemma NotColumn(k: string)
    requires k in Unmapped
    ensures k !in Columns
  {
  }

  /** The unmapped fields are request fields with neither a column nor a column default. */
  lemma UnmappedFields()
    ensures forall k :: k in Unmapped ==> k in Create && k !in Columns && k != "id"
    ensures forall k, now :: k in Unmapped ==> ColumnDefault(Table, now, k).None?
    ensures !(Create.Keys <= Columns)
    ensures Unmapped !! Table.columns && Unmapped !! Table.collections
  {
    UnmappedAreFields();
    forall k | k in Unmapped ensures k !in Columns {
      NotColumn(k);
    }
    forall k, now | k in Unmapped ensures ColumnDefault(Table, now, k).None? {
      NoDefault(k);
    }
    assert "sale_price" in Create && "sale_price" !in Columns;
    assert Table.columns == Columns && Table.collections == {"items"};
  }

  lemma UnmappedAreFields()
    ensures forall k :: k in Unmapped ==> k in Create && k != "id"
  {
  }

  lemma NoDefault(k: string)
    requires k in Unmapped
    ensures k != "created_at" && k != "updated_at" && k !in Table.defaults
  {
    assert Table.defaults.Keys == {"status"};
  }

  lemma TableWellFormed()
    ensures WellFormed(Table)
  {
    KeysOfTable();
    StatusMembersAgree();
  }

  /** The keys well-formedness is about: no id or timestamp field, no relationship a column. */
  lemma KeysOfTable()
    ensures "id" !in Table.update && "updated_at" !in Table.update && AllOptional(Table.update)
    ensures Table.enums.Keys == {"status"} && Table.unique == ["sale_number"]
    ensures Table.columns !! Table.collections
  {
    assert "id" !in Create && "updated_at" !in Create;
    assert "items" !in Columns;
  }

  lemma Messages()
    ensures NotFound(Table) == HttpError(404, "Sale not found", false)
    ensures Table.deleted == "Sale deleted successfully"
  {
  }

  /** The status a stored sale has: NULL or one of the five members. */
  lemma StoredStatus(s: TableState, id: int)
    requires Consistent(Table, s) && id in s.rows
    ensures var v := Column(s.rows[id], "status");
      v == Null || (v.Str? && ParseStatus(v.s).Some?)
  {
    assert InDomain(Table.enums, s.rows[id]);
    assert "status" in Table.enums;
    StatusMembersAgree();
  }

  /** No two stored sales share a sale_number. */
  lemma SaleNumbersUnique(s: TableState, x: int, y: int)
    requires Consistent(Table, s) && x in s.rows && y in s.rows && x != y
    ensures Column(s.rows[x], "sale_number") == Null || Column(s.rows[x], "sale_number") != Column(s.rows[y], "sale_number")
  {
    assert !Clash(Table.unique[0], s.rows[x], s.rows[y]);
  }

  // ---------------------------------------------------------------- endpoints

  /** `get_sales`: the page [skip, skip + limit) of the table. */
  function GetSales(db: Repository, skip: int, limit: int): (r: Result<seq<Record>, Fault>)
    reads db
    requires db.spec == Table && db.Valid()
    ensures r.Success? <==> skip >= 0 && limit >= 0
    ensures r.Success? ==> |r.value| == (if skip >= |db.ids| then 0 else if limit < |db.ids| - skip then limit else |db.ids| - skip)
    ensures r.Success? ==> forall i :: 0 <= i < |r.value| ==> skip + i < |db.ids| && r.value[i] == db.rows[db.ids[skip + i]]
  {
    List(db.State(), skip, limit)
  }

  /** `get_sale` */
  function GetSale(db: Repository, saleId: int): (r: Result<Record, Fault>)
    reads db
    requires db.spec == Table
    ensures r.Success? <==> saleId in db.rows
    ensures r.Success? ==> r.value == db.rows[saleId]
    ensures r.Failure? ==> r.error == HttpError(404, "Sale not found", false)
  {
    Messages();
    Get(Table, db.State(), saleId)
  }

  /** `create_sale`: as written, a TypeError for every valid body. */
  method CreateSale(db: Repository, sale: Record, now: int) returns (r: Result<Record, Fault>)
    requires db.spec == Table && db.Valid()
    modifies db
    ensures db.Valid()
    ensures Step(db.State(), r) == CreateStep(Table, old(db.State()), sale, now)
    ensures Validate(Create, sale).Success? ==> r == Failure(Unhandled("TypeError")) && db.State() == old(db.State())
  {
    r := db.Create(sale, now);
    if Validate(Create, sale).Success? {
      CreateRaisesTypeError(old(db.State()), sale, now);
    }
  }

  /** `update_sale` */
  method UpdateSale(db: Repository, saleId: int, sale: Record, now: int) returns (r: Result<Record, Fault>)
    requires db.spec == Table && db.Valid()
    modifies db
    ensures db.Valid()
    ensures Step(db.State(), r) == UpdateStep(Table, old(db.State()), saleId, sale, now)
  {
    TableWellFormed();
    r := db.Update(saleId, sale, now);
  }

  /** `delete_sale`: the sale's items go with it. */
  method DeleteSale(db: Repository, saleId: int) returns (r: Result<string, Fault>)
    requires db.spec == Table && db.Valid()
    modifies db
    ensures db.Valid()
    ensures Step(db.State(), r) == DeleteStep(Table, old(db.State()), saleId)
    ensures r.Success? ==> r.value == "Sale deleted successfully"
    ensures r.Success? ==> forall k :: k in db.children <==> k in old(db.children) && Column(old(db.children)[k], "sale_id") != Int(saleId)
  {
    r := db.Delete(saleId);
    Messages();
  }

  // ---------------------------------------------------------------- properties

  /** Create requires vehicle_id, customer_id, salesperson_id and sale_price. */
  lemma CreateRequires(body: Record)
    ensures Validate(Create, body).Success? <==>
      && "vehicle_id" in body && "customer_id" in body && "salesperson_id" in body && "sale_price" in body
      && forall k :: k in Create && k in body ==> Accepts(Create[k], body[k])
  {
    ValidateRequired(Create, body);
    RequiredCreateFields();
  }

  lemma RequiredCreateFields()
    ensures RequiredFields(Create) == {"vehicle_id", "customer_id", "salesperson_id", "sale_price"}
  {
  }

  /** Every update field is optional, so the empty update is valid and sets nothing. */
  lemma UpdateAllOptional()
    ensures Update.Keys == Create.Keys
    ensures Validate(Update, map[]).Success? && DumpSet(Update, map[]) == map[]
  {
    EmptyUpdateSetsNothing(Update);
  }

  /** The response is the base fields plus id, dealership_id, sale_date, status and the timestamps. */
  lemma ResponseFields(row: Record)
    ensures Project(Response, row).Keys == Create.Keys + {"id", "dealership_id", "sale_date", "status", "created_at", "updated_at"}
    ensures forall k :: k in Project(Response, row) ==> Project(Response, row)[k] == Column(row, k)
  {
  }

  /**
   * As written, `Sale(**sale.model_dump())` passes `salesperson_id`, `sale_price`,
   * `trade_in_vehicle`, `financing_amount`, `loan_term`, `sale_type` and
   * `payment_method`, none of them an attribute of the model: every valid body fails
   * with a TypeError and nothing is stored.
   */
  lemma CreateRaisesTypeError(s: TableState, body: Record, now: int)
    requires Validate(Create, body).Success?
    ensures CreateStep(Table, s, body, now) == Step(s, Failure(Unhandled("TypeError")))
  {
    UnmappedFields();
    CreateTypeError(Table, s, body, now);
  }

  /** Leaving the unmapped fields out, none of them is stored: not the price, not the sale type. */
  lemma CreateDropsUnmapped(s: TableState, body: Record, now: int)
    requires Consistent(Table, s)
    ensures var st := MappedCreateStep(Table, s, body, now);
      st.result.Success? ==> forall k :: k in Unmapped ==> k !in st.result.value
  {
    TableWellFormed();
    UnmappedFields();
    CreateThenGet(Table, s, body, now);
  }

  /** The validated sale_type is the one sent, or "retail" when the body leaves it out. */
  lemma SaleTypeDefault(body: Record)
    requires Validate(Create, body).Success?
    ensures Validate(Create, body).value["sale_type"] == (if "sale_type" in body then body["sale_type"] else Str("retail"))
  {
    assert Create["sale_type"] == Defaulted(TStr, Str("retail"));
    DumpFields(Create, body);
    if "sale_type" in body {
      ValidatedField(Create, body, "sale_type");
      StringFieldsTakeStrings(TStr, body["sale_type"]);
    }
  }

  /** A whole-number price is accepted for the Decimal field, as the number in lowest terms. */
  lemma IntegerPrice(body: Record)
    requires "sale_price" in body && body["sale_price"] == Int(25000)
    requires Validate(Create, body).Success?
    ensures Validate(Create, body).value["sale_price"] == Decimal(25, 3)
  {
    assert Create["sale_price"] == Required(TDecimal);
    DumpFields(Create, body);
    assert Coerce(TDecimal, Int(25000)) == Some(Reduce(25000, 0));
    assert Reduce(25000, 0) == Reduce(2500, 1) == Reduce(250, 2) == Reduce(25, 3) == Decimal(25, 3);
  }

  /**
   * A new sale is pending, and nothing is computed: the total is not a field of the
   * create model and has no default.
   */
  lemma CreatePendingNoTotal(s: TableState, body: Record, now: int)
    ensures var st := MappedCreateStep(Table, s, body, now);
      st.result.Success? ==>
        && Column(st.result.value, "status") == Str("pending")
        && Column(st.result.value, "total_amount") == Null
  {
    NewSaleFacts(now);
    CreateColumnDefault(Table, s, body, now, "status", Str("pending"));
    CreateOtherColumns(Table, s, body, now, {"total_amount"});
  }

  /** Neither the status nor the total is a create field; the status defaults to the value "pending", the total to nothing. */
  lemma NewSaleFacts(now: int)
    ensures "status" !in Table.create && ColumnDefault(Table, now, "status") == Some(Str("pending"))
    ensures BindValue(Table.enums, "status", Str("pending")) == Str("pending")
    ensures forall k :: k in {"total_amount"} ==> k != "id" && k !in Table.create
    ensures BindValue(Table.enums, "total_amount", ColumnDefault(Table, now, "total_amount").GetOr(Null)) == Null
  {
    assert "status" !in Create && "total_amount" !in Create;
    assert Bound(StatusMembers, "pending") == "pending";
  }

  /** ... and it is created and updated now. */
  lemma CreateTimestamps(s: TableState, body: Record, now: int)
    ensures var st := MappedCreateStep(Table, s, body, now);
      st.result.Success? ==> Column(st.result.value, "created_at") == DateTime(now) && Column(st.result.value, "updated_at") == DateTime(now)
  {
    StampsAreNoFields();
    CreateStampsNow(Table, s, body, now);
  }

  /** Neither timestamp is a field of the create model. */
  lemma StampsAreNoFields()
    ensures "created_at" !in Table.create && "updated_at" !in Table.create
  {
    assert Table.create == Create;
  }

  /**
   * An update setting only fields without a column (`salesperson_id`, `sale_price`,
   * ...) writes nothing: the row and its `updated_at` stay, and only the response
   * shows the values sent.
   */
  lemma UpdateUnmappedOnly(s: TableState, saleId: int, body: Record, now: int)
    requires Consistent(Table, s) && saleId in s.rows && Validate(Update, body).Success?
    requires body.Keys <= Unmapped
    ensures UpdateStep(Table, s, saleId, body, now) == Step(s, Success(s.rows[saleId] + DumpSet(Update, body)))
  {
    TableWellFormed();
    UnmappedFields();
    UpdateWithin(Table, s, saleId, body, now, Unmapped);
  }

  /** An update never changes the status: it is not a field of the update model. */
  lemma UpdateKeepsStatus(s: TableState, saleId: int, body: Record, now: int)
    requires Consistent(Table, s)
    ensures var st := UpdateStep(Table, s, saleId, body, now);
      st.result.Success? ==> Column(st.result.value, "status") == Column(s.rows[saleId], "status")
  {
    TableWellFormed();
    assert "status" !in Update;
    UpdateKeepsColumn(Table, s, saleId, body, now, "status");
  }

  /** get, update and delete of an unknown id: 404 "Sale not found", nothing changed. */
  lemma UnknownSale(s: TableState, saleId: int, body: Record, now: int)
    requires saleId !in s.rows && Validate(Update, body).Success?
    ensures Get(Table, s, saleId) == Failure(HttpError(404, "Sale not found", false))
    ensures UpdateStep(Table, s, saleId, body, now).result == Failure(HttpError(404, "Sale not found", false))
    ensures UpdateStep(Table, s, saleId, body, now).state == s
    ensures DeleteStep(Table, s, saleId).result == Failure(HttpError(404, "Sale not found", false))
    ensures DeleteStep(Table, s, saleId).state == s
  {
    Messages();
    UpdateNotFound(Table, s, saleId, body, now);
  }

  /** A new sale item has quantity 1 unless the caller gives one. */
  lemma NewItemDefaults(given: Record, id: int, now: int)
    ensures var r := InsertRecord(ItemTable, given, id, now);
      r["quantity"] == (if Column(given, "quantity") == Null then Int(1) else given["quantity"])
  {
    assert ColumnDefault(ItemTable, now, "quantity") == Some(Int(1));
  }
}
