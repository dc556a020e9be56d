/**
 * One database table behind a CRUD endpoint module. The six endpoint modules share
 * one shape: list a page of the table, get one row by id, insert a row built from
 * the validated body, assign the fields the client set, and delete a row together
 * with the child rows its `cascade="all, delete-orphan"` relationship owns.
 *
 * The pure `...Step` functions say what each request does to a `TableState`; the
 * `Repository` class holds the table and its methods are proved against them.
 */
module Store {
  import opened Wrappers
  import opened Values
  import opened Schemas
  import opened Coercion

  /** A cascaded child table, described like its parent; its rows point at their parent through `foreignKey`. */
  datatype Cascade = Cascade(foreignKey: string, child: TableSpec)

  /** What the ORM model and the pydantic schemas declare about one table. */
  datatype TableSpec = TableSpec(
    notFound: string,            // the 404 detail, "<Entity> not found"
    deleted: string,             // the delete endpoint's message, "<Entity> deleted successfully"
    create: Schema,              // the `...Create` request model
    update: Schema,              // the `...Update` request model
    columns: set<string>,        // the mapped column attributes, `id` and the timestamps included
    collections: set<string>,    // the one-to-many relationship attributes
    defaults: Record,            // Python-side column defaults, timestamps aside
    unique: seq<string>,         // `unique=True` columns
    enums: map<string, map<string, string>>,  // `Enum(...)` columns: member name to member value
    cascade: Option<Cascade>)

  /**
   * The table: row ids in insertion order, the rows, the rows of the cascaded child
   * table, and the next value of the id sequence.
   */
  datatype TableState = TableState(ids: seq<int>, rows: map<int, Record>, children: map<int, Record>, nextId: int)

  /** The table after a request, and what the request returned. */
  datatype Step<T> = Step(state: TableState, result: Result<T, Fault>)

  /** `list` endpoint query defaults. */
  const DefaultSkip: int := 0
  const DefaultLimit: int := 100

  function NotFound(spec: TableSpec): Fault {
    HttpError(404, spec.notFound, false)
  }

  /**
   * A string-valued enum in which a member name that is also a value is that
   * member's own value, so that the lookup of a stored value finds its own member.
   */
  predicate MembersWellFormed(members: map<string, string>) {
    forall n :: n in members && members[n] in members ==> members[members[n]] == members[n]
  }

  /**
   * The update model may not name the primary key or the `onupdate` timestamp;
   * neither of them is an enum, nor is a unique column, and `updated_at` is not
   * unique; relationships are not columns.
   */
  predicate WellFormed(spec: TableSpec) {
    && AllOptional(spec.update)
    && "id" !in spec.update
    && "updated_at" !in spec.update
    && spec.columns !! spec.collections
    && "id" !in spec.enums
    && "updated_at" !in spec.enums
    && (forall k :: 0 <= k < |spec.unique| ==> spec.unique[k] !in spec.enums && spec.unique[k] != "updated_at")
    && (forall c :: c in spec.enums ==> MembersWellFormed(spec.enums[c]))
  }

  // ---------------------------------------------------------------- enum columns

  /**
   * The strings SQLAlchemy's `Enum` type looks up for a `(str, enum.Enum)` class: the
   * member names and, through the `str` mixin, the member values.
   */
  function Labels(members: map<string, string>): set<string> {
    members.Keys + members.Values
  }

  /** The value of the member a label names: a name wins, otherwise the label is a value already. */
  function Bound(members: map<string, string>, text: string): string {
    if text in members then members[text] else text
  }

  /**
   * A column value as the row holds it after the commit and `refresh`: an enum
   * column reads back as its member, which as a `str` is the member's value.
   */
  function BindValue(enums: map<string, map<string, string>>, column: string, v: Value): Value {
    if column in enums && v.Str? then Str(Bound(enums[column], v.s)) else v
  }

  function BindEnums(enums: map<string, map<string, string>>, r: Record): (b: Record)
    ensures b.Keys == r.Keys
    ensures forall k :: k in b ==> b[k] == BindValue(enums, k, r[k])
  {
    map k | k in r :: BindValue(enums, k, r[k])
  }

  /** Every enum column of the row is NULL or a string the enum can bind. */
  predicate Bindable(enums: map<string, map<string, string>>, r: Record) {
    forall c :: c in enums && Column(r, c) != Null ==> Column(r, c).Str? && Column(r, c).s in Labels(enums[c])
  }

  // ---------------------------------------------------------------- table invariants

  predicate Increasing(ids: seq<int>) {
    forall i, j :: 0 <= i < j < |ids| ==> ids[i] < ids[j]
  }

  /** Two rows collide on a unique column; NULLs never collide, as in SQL. */
  predicate Clash(column: string, a: Record, b: Record) {
    Column(a, column) != Null && Column(a, column) == Column(b, column)
  }

  predicate Unique(columns: seq<string>, rows: map<int, Record>) {
    forall x, y, k :: x in rows && y in rows && x != y && 0 <= k < |columns| ==> !Clash(columns[k], rows[x], rows[y])
  }

  /** Every enum column of a stored row is NULL or a member's value. */
  predicate InDomain(enums: map<string, map<string, string>>, r: Record) {
    forall c :: c in enums && Column(r, c) != Null ==> Column(r, c).Str? && Column(r, c).s in enums[c].Values
  }

  predicate Owned(child: Record, foreignKey: string, parent: int) {
    Column(child, foreignKey) == Int(parent)
  }

  /** Every child row points at an existing parent, and the child table's unique columns hold. */
  predicate ChildrenConsistent(spec: TableSpec, s: TableState) {
    match spec.cascade
    case None => s.children == map[]
    case Some(c) =>
      && (forall k :: k in s.children ==>
            Column(s.children[k], c.foreignKey).Int? && Column(s.children[k], c.foreignKey).i in s.rows)
      && Unique(c.child.unique, s.children)
      && (forall k :: k in s.children ==> InDomain(c.child.enums, s.children[k]))
  }

  /** What the database guarantees about the table between requests. */
  predicate Consistent(spec: TableSpec, s: TableState) {
    && s.nextId >= 1
    && Increasing(s.ids)
    && (forall i :: 0 <= i < |s.ids| ==> s.ids[i] in s.rows)
    && (forall id :: id in s.rows ==> id in s.ids)
    && (forall id :: id in s.rows ==> 0 < id < s.nextId && Column(s.rows[id], "id") == Int(id))
    && Unique(spec.unique, s.rows)
    && (forall id :: id in s.rows ==> InDomain(spec.enums, s.rows[id]))
    && ChildrenConsistent(spec, s)
  }

  // ---------------------------------------------------------------- reading

  /** `.filter(Model.id == id).first()`, with the endpoint's 404 when there is none. */
  function Get(spec: TableSpec, s: TableState, id: int): (r: Result<Record, Fault>)
    ensures r.Success? <==> id in s.rows
    ensures r.Success? ==> r.value == s.rows[id]
    ensures r.Failure? ==> r.error == NotFound(spec)
  {
    if id in s.rows then Success(s.rows[id]) else Failure(NotFound(spec))
  }

  /**
   * `.offset(skip).limit(limit).all()`: the rows at positions [skip, skip + limit) in
   * insertion order, no upper clamp; PostgreSQL rejects a negative OFFSET or LIMIT.
   */
  function List(s: TableState, skip: int, limit: int): (r: Result<seq<Record>, Fault>)
    requires forall i :: 0 <= i < |s.ids| ==> s.ids[i] in s.rows
    ensures r.Success? <==> skip >= 0 && limit >= 0
    ensures r.Failure? ==> r.error.Unhandled?
    ensures r.Success? ==> |r.value| == (if skip >= |s.ids| then 0 else if limit < |s.ids| - skip then limit else |s.ids| - skip)
    ensures r.Success? ==> forall i :: 0 <= i < |r.value| ==> r.value[i] == s.rows[s.ids[skip + i]]
  {
    if skip < 0 || limit < 0 then Failure(Unhandled("DataError"))
    else
      var from := if skip < |s.ids| then skip else |s.ids|;
      var to := if skip + limit < |s.ids| then skip + limit else |s.ids|;
      Success(seq(to - from, i requires 0 <= i < to - from => s.rows[s.ids[from + i]]))
  }

  // ---------------------------------------------------------------- writing

  /**
   * The row an INSERT stores for the constructor arguments `given`: a NULL argument
   * for a column with a Python-side default is left out of the INSERT (the default
   * applies); `created_at` and `updated_at` default to `now`; the id is the sequence's.
   */
  function InsertRecord(spec: TableSpec, given: Record, id: int, now: int): (r: Record)
    ensures "id" in r && r["id"] == Int(id)
    ensures forall k :: k in r <==> k == "id" || k in given || k in spec.defaults || k == "created_at" || k == "updated_at"
    ensures forall k :: k in given && k != "id" && (given[k] != Null || ColumnDefault(spec, now, k).None?) ==> r[k] == given[k]
    ensures forall k :: k != "id" && Column(given, k) == Null && ColumnDefault(spec, now, k).Some? ==> r[k] == ColumnDefault(spec, now, k).value
  {
    var defaults := spec.defaults["created_at" := DateTime(now)]["updated_at" := DateTime(now)];
    var keys := given.Keys + defaults.Keys;
    (map k | k in keys :: if k in given && (given[k] != Null || k !in defaults) then given[k] else defaults[k])["id" := Int(id)]
  }

  function ColumnDefault(spec: TableSpec, now: int, column: string): Option<Value> {
    if column == "created_at" || column == "updated_at" then Some(DateTime(now))
    else if column in spec.defaults then Some(spec.defaults[column])
    else None
  }

  /**
   * Why the commit of a row fails, if it does: an enum column given a non-string
   * fails while SQLAlchemy binds the parameters; a string that names no member is
   * passed through and PostgreSQL refuses it for the enum type; a duplicate in a
   * unique column fails in the database. None of them is caught by the endpoints.
   */
  function Violation(spec: TableSpec, others: map<int, Record>, r: Record): (e: Option<string>)
    ensures e.None? <==>
      Bindable(spec.enums, r) && forall x, k :: x in others && 0 <= k < |spec.unique| ==> !Clash(spec.unique[k], r, others[x])
    ensures e == Some("StatementError") <==> exists c :: c in spec.enums && Column(r, c) != Null && !Column(r, c).Str?
  {
    if exists c :: c in spec.enums && Column(r, c) != Null && !Column(r, c).Str? then Some("StatementError")
    else if !Bindable(spec.enums, r) then Some("DataError")
    else if exists x, k :: x in others && 0 <= k < |spec.unique| && Clash(spec.unique[k], r, others[x]) then Some("IntegrityError")
    else None
  }

  /**
   * `db.add(Model(**given)); db.commit(); db.refresh(...)`: the row is stored and
   * returned with its enum columns read back. The id sequence advances when the
   * database evaluates the INSERT's id default: on success and on a unique violation,
   * which is detected after that. A bind error is raised before the statement is sent,
   * and PostgreSQL refuses an unknown enum label while it analyses the statement, so
   * neither of them consumes an id.
   */
  function InsertStep(spec: TableSpec, s: TableState, given: Record, now: int): Step<Record> {
    var id := s.nextId;
    var raw := InsertRecord(spec, given, id, now);
    var consumed := s.(nextId := id + 1);
    match Violation(spec, s.rows, raw)
    case Some(e) => Step(if e == "IntegrityError" then consumed else s, Failure(Unhandled(e)))
    case None =>
      var r := BindEnums(spec.enums, raw);
      Step(consumed.(ids := s.ids + [id], rows := s.rows[id := r]), Success(r))
  }

  /** The entries of r whose keys are in `keys`. */
  function Restrict(r: Record, keys: set<string>): (m: Record)
    ensures m.Keys == r.Keys * keys
    ensures forall k :: k in m ==> m[k] == r[k]
  {
    map k | k in r && k in keys :: r[k]
  }

  /**
   * The `create_...` endpoint: validate the body against the create model, then
   * `Model(**model_dump())`. The declarative constructor raises a TypeError for a
   * keyword the class has no attribute for, and assigning a non-list to a collection
   * relationship raises one too; either happens before anything is added.
   */
  function CreateStep(spec: TableSpec, s: TableState, body: Record, now: int): Step<Record> {
    match Validate(spec.create, body)
    case Failure(errors) => Step(s, Failure(Unprocessable(errors)))
    case Success(given) =>
      if exists k :: k in given && k !in spec.columns then Step(s, Failure(Unhandled("TypeError")))
      else InsertStep(spec, s, given, now)
  }

  /**
   * The create as evidently intended: only the dumped fields the table has a column
   * for are passed to the constructor, the others are dropped.
   */
  function MappedCreateStep(spec: TableSpec, s: TableState, body: Record, now: int): Step<Record> {
    match Validate(spec.create, body)
    case Failure(errors) => Step(s, Failure(Unprocessable(errors)))
    case Success(given) => InsertStep(spec, s, Restrict(given, spec.columns), now)
  }

  /** Some assignment changes a column's value (setting a NULL column to None changes nothing). */
  predicate Changes(r: Record, patch: Record) {
    exists k :: k in patch && Column(r, k) != patch[k]
  }

  /**
   * The row after the column assignments and the commit: the assignments override,
   * and `onupdate` stamps `updated_at` when an UPDATE is actually emitted.
   */
  function Patched(r: Record, patch: Record, now: int): Record {
    if Changes(r, patch) then (r + patch)["updated_at" := DateTime(now)] else r
  }

  /**
   * The `update_...` endpoint: validate, 404 on an unknown id, then `setattr` each set
   * field and commit. Assigning a non-list to a collection relationship is a
   * TypeError. A field that is no column becomes a plain attribute of the instance:
   * it is not written, not expired by the commit, and shows in the response.
   */
  function UpdateStep(spec: TableSpec, s: TableState, id: int, body: Record, now: int): Step<Record> {
    match Validate(spec.update, body)
    case Failure(errors) => Step(s, Failure(Unprocessable(errors)))
    case Success(_) =>
      if id !in s.rows then Step(s, Failure(NotFound(spec)))
      else
        var patch := DumpSet(spec.update, body);
        if exists k :: k in patch && k in spec.collections then Step(s, Failure(Unhandled("TypeError")))
        else
          var raw := Patched(s.rows[id], Restrict(patch, spec.columns), now);
          match Violation(spec, s.rows - {id}, raw)
          case Some(e) => Step(s, Failure(Unhandled(e)))
          case None =>
            var r := BindEnums(spec.enums, raw);
            Step(s.(rows := s.rows[id := r]), Success(r + (patch - spec.columns)))
  }

  function Without(ids: seq<int>, id: int): (r: seq<int>)
    ensures forall x :: x in r <==> x in ids && x != id
  {
    if ids == [] then [] else (if ids[0] == id then [] else [ids[0]]) + Without(ids[1..], id)
  }

  /** The child rows left after deleting `parent`: the cascade removes exactly the ones it owns. */
  function Surviving(spec: TableSpec, children: map<int, Record>, parent: int): map<int, Record> {
    match spec.cascade
    case None => children
    case Some(c) => map k | k in children && !Owned(children[k], c.foreignKey, parent) :: children[k]
  }

  /** The `delete_...` endpoint: 404 on an unknown id, otherwise `db.delete` with the cascade. */
  function DeleteStep(spec: TableSpec, s: TableState, id: int): Step<string> {
    if id !in s.rows then Step(s, Failure(NotFound(spec)))
    else
      Step(TableState(Without(s.ids, id), s.rows - {id}, Surviving(spec, s.children, id), s.nextId),
           Success(spec.deleted))
  }

  // ---------------------------------------------------------------- enum binding

  /** Every stored row holds NULL or a member value in each enum column. */
  lemma StoredInDomain(spec: TableSpec, s: TableState, id: int)
    requires Consistent(spec, s) && id in s.rows
    ensures InDomain(spec.enums, s.rows[id])
  {
  }

  /** A label the enum binds reads back as a member's value. */
  lemma BindInDomain(enums: map<string, map<string, string>>, r: Record)
    requires Bindable(enums, r)
    ensures InDomain(enums, BindEnums(enums, r))
  {
    var b := BindEnums(enums, r);
    forall c | c in enums && Column(b, c) != Null
      ensures Column(b, c).Str? && Column(b, c).s in enums[c].Values
    {
      var text := r[c].s;
      if text in enums[c] {
        assert enums[c][text] in enums[c].Values;
      }
    }
  }

  /** A stored row reads back as it is: its enum columns already hold member values. */
  lemma BindStored(enums: map<string, map<string, string>>, r: Record)
    requires InDomain(enums, r)
    requires forall c :: c in enums ==> MembersWellFormed(enums[c])
    ensures BindEnums(enums, r) == r
  {
    forall c | c in r && c in enums && r[c].Str?
      ensures Bound(enums[c], r[c].s) == r[c].s
    {
      var v := r[c].s;
      if v in enums[c] {
        var n :| n in enums[c] && enums[c][n] == v;
      }
    }
  }

  /** Binding leaves the columns outside the enums alone, the unique ones in particular. */
  lemma BindKeepsUnique(spec: TableSpec, r: Record, others: map<int, Record>)
    requires WellFormed(spec)
    requires NoClash(spec.unique, others, r)
    ensures NoClash(spec.unique, others, BindEnums(spec.enums, r))
  {
    var b := BindEnums(spec.enums, r);
    forall x, k | x in others && 0 <= k < |spec.unique|
      ensures !Clash(spec.unique[k], b, others[x])
    {
      assert Column(b, spec.unique[k]) == Column(r, spec.unique[k]);
    }
  }

  predicate NoClash(columns: seq<string>, others: map<int, Record>, r: Record) {
    forall x, k :: x in others && 0 <= k < |columns| ==> !Clash(columns[k], r, others[x])
  }

  // ---------------------------------------------------------------- invariants are kept

  lemma InsertPreserves(spec: TableSpec, s: TableState, given: Record, now: int)
    requires WellFormed(spec) && Consistent(spec, s)
    ensures Consistent(spec, InsertStep(spec, s, given, now).state)
  {
    var raw := InsertRecord(spec, given, s.nextId, now);
    InsertStepCases(spec, s, given, now);
    if Violation(spec, s.rows, raw).None? {
      BindInDomain(spec.enums, raw);
      BindKeepsUnique(spec, raw, s.rows);
      AppendPreserves(spec, s, BindEnums(spec.enums, raw));
    } else if Violation(spec, s.rows, raw) == Some("IntegrityError") {
      ConsumePreserves(spec, s);
    }
  }

  /** Consuming an id from the sequence keeps the table consistent. */
  lemma ConsumePreserves(spec: TableSpec, s: TableState)
    requires Consistent(spec, s)
    ensures Consistent(spec, s.(nextId := s.nextId + 1))
  {
  }

  /** Storing a row under the next id, when its enums are members and it clashes with no row, keeps the table consistent. */
  lemma AppendPreserves(spec: TableSpec, s: TableState, r: Record)
    requires Consistent(spec, s)
    requires Column(r, "id") == Int(s.nextId) && InDomain(spec.enums, r) && NoClash(spec.unique, s.rows, r)
    ensures Consistent(spec, s.(nextId := s.nextId + 1, ids := s.ids + [s.nextId], rows := s.rows[s.nextId := r]))
  {
    var id := s.nextId;
    var t := s.(nextId := s.nextId + 1, ids := s.ids + [s.nextId], rows := s.rows[s.nextId := r]);
    assert id !in s.rows;
    forall x, y, k | x in t.rows && y in t.rows && x != y && 0 <= k < |spec.unique|
      ensures !Clash(spec.unique[k], t.rows[x], t.rows[y])
    {
      if x == id {
        assert !Clash(spec.unique[k], r, s.rows[y]);
      } else if y == id {
        assert !Clash(spec.unique[k], r, s.rows[x]);
      }
    }
    match spec.cascade {
      case None =>
      case Some(c) =>
        assert t.children == s.children;
    }
  }

  lemma CreatePreserves(spec: TableSpec, s: TableState, body: Record, now: int)
    requires WellFormed(spec) && Consistent(spec, s)
    ensures Consistent(spec, CreateStep(spec, s, body, now).state)
    ensures Consistent(spec, MappedCreateStep(spec, s, body, now).state)
  {
    var v := Validate(spec.create, body);
    if v.Success? {
      InsertPreserves(spec, s, v.value, now);
      InsertPreserves(spec, s, Restrict(v.value, spec.columns), now);
    }
  }

  lemma UpdatePreserves(spec: TableSpec, s: TableState, id: int, body: Record, now: int)
    requires WellFormed(spec) && Consistent(spec, s)
    ensures Consistent(spec, UpdateStep(spec, s, id, body, now).state)
  {
    var st := UpdateStep(spec, s, id, body, now);
    if st.result.Success? {
      var patch := DumpSet(spec.update, body);
      var raw := Patched(s.rows[id], Restrict(patch, spec.columns), now);
      var r := BindEnums(spec.enums, raw);
      assert st.state == s.(rows := s.rows[id := r]);
      assert "id" !in patch;
      assert Column(r, "id") == Int(id);
      BindInDomain(spec.enums, raw);
      BindKeepsUnique(spec, raw, s.rows - {id});
      ReplacePreserves(spec, s, id, r);
    }
  }

  /** Replacing a row by one with the same id, enum columns in range and no clash keeps the table consistent. */
  lemma ReplacePreserves(spec: TableSpec, s: TableState, id: int, r: Record)
    requires Consistent(spec, s) && id in s.rows
    requires Column(r, "id") == Int(id) && InDomain(spec.enums, r) && NoClash(spec.unique, s.rows - {id}, r)
    ensures Consistent(spec, s.(rows := s.rows[id := r]))
  {
    ReplaceKeepsUnique(spec.unique, s.rows, id, r);
  }

  /** Replacing one row by a row that clashes with none of the others keeps the unique columns unique. */
  lemma ReplaceKeepsUnique(columns: seq<string>, rows: map<int, Record>, id: int, r: Record)
    requires Unique(columns, rows) && id in rows
    requires NoClash(columns, rows - {id}, r)
    ensures Unique(columns, rows[id := r])
  {
    var t := rows[id := r];
    forall x, y, k | x in t && y in t && x != y && 0 <= k < |columns|
      ensures !Clash(columns[k], t[x], t[y])
    {
      if x == id {
        assert !Clash(columns[k], r, (rows - {id})[y]);
      } else if y == id {
        assert !Clash(columns[k], r, (rows - {id})[x]);
      }
    }
  }

  lemma {:induction false} WithoutIncreasing(ids: seq<int>, id: int)
    requires Increasing(ids)
    ensures Increasing(Without(ids, id))
  {
    if ids != [] {
      WithoutIncreasing(ids[1..], id);
      var rest := Without(ids[1..], id);
      forall k | 0 <= k < |rest| ensures ids[0] < rest[k] {
        assert rest[k] in ids[1..];
      }
    }
  }

  lemma DeletePreserves(spec: TableSpec, s: TableState, id: int)
    requires Consistent(spec, s)
    ensures Consistent(spec, DeleteStep(spec, s, id).state)
  {
    if id in s.rows {
      var t := DeleteStep(spec, s, id).state;
      WithoutIncreasing(s.ids, id);
      forall i | 0 <= i < |t.ids| ensures t.ids[i] in t.rows {
        assert t.ids[i] in Without(s.ids, id);
      }
      match spec.cascade {
        case None =>
        case Some(c) =>
          forall k | k in t.children
            ensures Column(t.children[k], c.foreignKey).Int? && Column(t.children[k], c.foreignKey).i in t.rows
          {
            assert k in s.children && !Owned(s.children[k], c.foreignKey, id);
          }
      }
    }
  }

  // ---------------------------------------------------------------- what create does

  /**
   * The stored value of a create-model field with a column: the dumped value (sent and
   * converted, or the schema default), the column default when that is NULL, and an
   * enum label read back as its member's value.
   */
  function Stored(spec: TableSpec, now: int, k: string, body: Record): Value
    requires k in spec.create
  {
    var sent := Dump(spec.create, body)[k];
    var d := ColumnDefault(spec, now, k);
    BindValue(spec.enums, k, if sent == Null && d.Some? then d.value else sent)
  }

  /** When every create field has a column, the create as written is the mapped create. */
  lemma CreateIsMapped(spec: TableSpec, s: TableState, body: Record, now: int)
    requires spec.create.Keys <= spec.columns
    ensures CreateStep(spec, s, body, now) == MappedCreateStep(spec, s, body, now)
  {
    if Validate(spec.create, body).Success? {
      var given := Validate(spec.create, body).value;
      DumpFields(spec.create, body);
      assert Restrict(given, spec.columns) == given;
    }
  }

  /**
   * As written, a valid body fails with a TypeError, storing nothing and consuming no
   * id, exactly when the create model has a field the table has no column for.
   */
  lemma CreateTypeError(spec: TableSpec, s: TableState, body: Record, now: int)
    ensures var st := CreateStep(spec, s, body, now);
      st.result == Failure(Unhandled("TypeError")) <==>
        Validate(spec.create, body).Success? && !(spec.create.Keys <= spec.columns)
    ensures var st := CreateStep(spec, s, body, now);
      st.result == Failure(Unhandled("TypeError")) ==> st.state == s
  {
    if Validate(spec.create, body).Success? {
      DumpFields(spec.create, body);
    }
  }

  /**
   * A successful create stores one new row under a fresh id, visible to `get`, and
   * leaves every other row alone; each field of the create model that has a column
   * holds its `Stored` value, and a field without one is not stored.
   */
  lemma CreateThenGet(spec: TableSpec, s: TableState, body: Record, now: int)
    requires WellFormed(spec) && Consistent(spec, s)
    ensures var st := MappedCreateStep(spec, s, body, now);
      st.result.Success? ==>
        && s.nextId !in s.rows
        && Get(spec, st.state, s.nextId) == st.result
        && (forall x :: x in s.rows ==> Get(spec, st.state, x) == Get(spec, s, x))
        && st.state.ids == s.ids + [s.nextId]
        && (forall k :: k in spec.create && k in spec.columns && k != "id" ==> Column(st.result.value, k) == Stored(spec, now, k, body))
        && (forall k :: k in spec.create && k !in spec.columns && k != "id" && ColumnDefault(spec, now, k).None? ==> k !in st.result.value)
  {
    var st := MappedCreateStep(spec, s, body, now);
    if st.result.Success? {
      var given := Restrict(Dump(spec.create, body), spec.columns);
      MappedCreateInserts(spec, s, body, now);
      InsertThenGet(spec, s, given, now);
      forall k | k in spec.create && k in spec.columns && k != "id"
        ensures Column(st.result.value, k) == Stored(spec, now, k, body)
      {
        InsertColumn(spec, s, given, now, k);
      }
    }
  }

  /** A valid body is inserted with its dump restricted to the columns; an invalid one changes nothing. */
  lemma MappedCreateInserts(spec: TableSpec, s: TableState, body: Record, now: int)
    ensures Validate(spec.create, body).Success? ==>
      MappedCreateStep(spec, s, body, now) == InsertStep(spec, s, Restrict(Dump(spec.create, body), spec.columns), now)
    ensures Validate(spec.create, body).Failure? ==>
      MappedCreateStep(spec, s, body, now) == Step(s, Failure(Unprocessable(Validate(spec.create, body).error)))
  {
  }

  /** A successful insert appends a fresh id and stores the bound row under it, leaving the other rows. */
  lemma InsertThenGet(spec: TableSpec, s: TableState, given: Record, now: int)
    requires Consistent(spec, s)
    ensures var st := InsertStep(spec, s, given, now);
      st.result.Success? ==>
        && s.nextId !in s.rows
        && st.state.ids == s.ids + [s.nextId]
        && st.state.rows == s.rows[s.nextId := st.result.value]
        && st.result.value == BindEnums(spec.enums, InsertRecord(spec, given, s.nextId, now))
  {
  }

  /** One field of the create model, as `CreateThenGet` states it for all of them. */
  lemma CreateFieldColumn(spec: TableSpec, s: TableState, body: Record, now: int, k: string)
    requires k in spec.create && k in spec.columns && k != "id"
    ensures var st := MappedCreateStep(spec, s, body, now);
      st.result.Success? ==> Column(st.result.value, k) == Stored(spec, now, k, body)
  {
    MappedCreateInserts(spec, s, body, now);
    if Validate(spec.create, body).Success? {
      InsertColumn(spec, s, Restrict(Dump(spec.create, body), spec.columns), now, k);
    }
  }

  /** A required string field without an enum holds the string sent. */
  lemma CreateStringField(spec: TableSpec, s: TableState, body: Record, now: int, k: string, x: string)
    requires k in spec.create && k in spec.columns && k != "id" && k !in spec.enums
    requires spec.create[k] == Required(TStr) && Column(body, k) == Str(x)
    ensures var st := MappedCreateStep(spec, s, body, now);
      st.result.Success? ==> Column(st.result.value, k) == Str(x)
  {
    CreateFieldColumn(spec, s, body, now, k);
    if MappedCreateStep(spec, s, body, now).result.Success? {
      DumpFields(spec.create, body);
      StringFieldsTakeStrings(TStr, body[k]);
    }
  }

  /**
   * An Optional enum field whose choices are member values holds the value sent, or
   * the column default, a member value too, when none (or null) is sent.
   */
  lemma CreateChoiceField(spec: TableSpec, s: TableState, body: Record, now: int, k: string, choices: set<string>, d: string)
    requires k in spec.create && k in spec.columns && k != "id" && k in spec.enums
    requires spec.create[k] == Nullable(TChoice(choices)) && choices !! spec.enums[k].Keys
    requires ColumnDefault(spec, now, k) == Some(Str(d)) && d !in spec.enums[k]
    ensures var st := MappedCreateStep(spec, s, body, now);
      st.result.Success? ==> Column(st.result.value, k) == (if Column(body, k) != Null then body[k] else Str(d))
  {
    CreateFieldColumn(spec, s, body, now, k);
    if MappedCreateStep(spec, s, body, now).result.Success? {
      DumpFields(spec.create, body);
      if Column(body, k) != Null {
        StringFieldsTakeStrings(TChoice(choices), body[k]);
      }
    }
  }

  /** A non-Optional create field with a default holds the converted value sent, else that default. */
  lemma CreateDefaultedField(spec: TableSpec, s: TableState, body: Record, now: int, k: string)
    requires k in spec.create && k in spec.columns && k != "id"
    requires !spec.create[k].optional && spec.create[k].default.Some? && spec.create[k].default.value != Null
    ensures var st := MappedCreateStep(spec, s, body, now);
      st.result.Success? ==>
        Column(st.result.value, k) ==
          BindValue(spec.enums, k, if k in body then Parse(spec.create[k], body[k]).GetOr(Null) else spec.create[k].default.value)
  {
    CreateFieldColumn(spec, s, body, now, k);
    if k in body && Validate(spec.create, body).Success? {
      DumpFields(spec.create, body);
      ParsedNotNull(spec.create[k], body[k]);
    }
  }

  /** Columns outside the create model get their column defaults on create (NULL when they have none). */
  lemma CreateOtherColumns(spec: TableSpec, s: TableState, body: Record, now: int, columns: set<string>)
    requires forall k :: k in columns ==> k != "id" && k !in spec.create
    ensures var st := MappedCreateStep(spec, s, body, now);
      st.result.Success? ==>
        forall k :: k in columns ==> Column(st.result.value, k) == BindValue(spec.enums, k, ColumnDefault(spec, now, k).GetOr(Null))
  {
    MappedCreateInserts(spec, s, body, now);
    if Validate(spec.create, body).Success? {
      var given := Restrict(Dump(spec.create, body), spec.columns);
      DumpFields(spec.create, body);
      forall k | k in columns
        ensures Column(given, k) == Null
      {
      }
      forall k | k in columns
        ensures var st := InsertStep(spec, s, given, now);
          st.result.Success? ==> Column(st.result.value, k) == BindValue(spec.enums, k, ColumnDefault(spec, now, k).GetOr(Null))
      {
        InsertColumn(spec, s, given, now, k);
      }
    }
  }

  /** A column outside the create model gets its default on create, read back as a member value for an enum. */
  lemma CreateColumnDefault(spec: TableSpec, s: TableState, body: Record, now: int, k: string, v: Value)
    requires k != "id" && k !in spec.create && ColumnDefault(spec, now, k) == Some(v)
    ensures var st := MappedCreateStep(spec, s, body, now);
      st.result.Success? ==> Column(st.result.value, k) == BindValue(spec.enums, k, v)
    ensures spec.create.Keys <= spec.columns ==>
      var st := CreateStep(spec, s, body, now);
      st.result.Success? ==> Column(st.result.value, k) == BindValue(spec.enums, k, v)
  {
    if spec.create.Keys <= spec.columns {
      CreateIsMapped(spec, s, body, now);
    }
    MappedCreateInserts(spec, s, body, now);
    if Validate(spec.create, body).Success? {
      var given := Restrict(Dump(spec.create, body), spec.columns);
      DumpFields(spec.create, body);
      assert k !in given;
      InsertColumn(spec, s, given, now, k);
    }
  }

  /** A string field with a default and no enum holds the string sent, or that default when the body leaves it out. */
  lemma CreateDefaultedString(spec: TableSpec, s: TableState, body: Record, now: int, k: string, d: string)
    requires k in spec.create && k in spec.columns && k != "id" && k !in spec.enums
    requires spec.create[k] == Defaulted(TStr, Str(d))
    ensures var st := MappedCreateStep(spec, s, body, now);
      st.result.Success? ==> Column(st.result.value, k) == (if k in body then body[k] else Str(d))
  {
    CreateDefaultedField(spec, s, body, now, k);
    if k in body && Validate(spec.create, body).Success? {
      ValidatedField(spec.create, body, k);
      StringFieldsTakeStrings(TStr, body[k]);
    }
  }

  /** Neither timestamp is a field of the create model, so a new row is created and updated `now`. */
  lemma CreateStampsNow(spec: TableSpec, s: TableState, body: Record, now: int)
    requires "created_at" !in spec.create && "updated_at" !in spec.create
    ensures var st := MappedCreateStep(spec, s, body, now);
      st.result.Success? ==> Column(st.result.value, "created_at") == DateTime(now) && Column(st.result.value, "updated_at") == DateTime(now)
  {
    MappedCreateInserts(spec, s, body, now);
    if Validate(spec.create, body).Success? {
      var given := Restrict(Dump(spec.create, body), spec.columns);
      DumpFields(spec.create, body);
      assert "created_at" !in given && "updated_at" !in given;
      InsertColumn(spec, s, given, now, "created_at");
      InsertColumn(spec, s, given, now, "updated_at");
    }
  }

  /** A column of an inserted row holds the argument given, unless that is NULL and the column has a default; enums read back as values. */
  lemma InsertColumn(spec: TableSpec, s: TableState, given: Record, now: int, k: string)
    requires k != "id"
    ensures var st := InsertStep(spec, s, given, now);
      st.result.Success? ==>
        Column(st.result.value, k) ==
          BindValue(spec.enums, k,
            if Column(given, k) == Null && ColumnDefault(spec, now, k).Some? then ColumnDefault(spec, now, k).value else Column(given, k))
  {
  }

  /** An inserted row has no column that is neither given, defaulted, a timestamp nor the id. */
  lemma InsertNoOtherColumn(spec: TableSpec, s: TableState, given: Record, now: int, k: string)
    requires k != "id" && k !in given && ColumnDefault(spec, now, k).None?
    ensures var st := InsertStep(spec, s, given, now);
      st.result.Success? ==> k !in st.result.value
  {
  }

  /** A table with no unique and no enum column refuses no row: every insert commits. */
  lemma UnconstrainedInsertSucceeds(spec: TableSpec, s: TableState, given: Record, now: int)
    requires spec.unique == [] && spec.enums == map[]
    ensures InsertStep(spec, s, given, now).result.Success?
  {
    assert Violation(spec, s.rows, InsertRecord(spec, given, s.nextId, now)).None?;
  }

  /** So on such a table every valid body is created. */
  lemma UnconstrainedCreateSucceeds(spec: TableSpec, s: TableState, body: Record, now: int)
    requires spec.unique == [] && spec.enums == map[] && Validate(spec.create, body).Success?
    ensures MappedCreateStep(spec, s, body, now).result.Success?
  {
    MappedCreateInserts(spec, s, body, now);
    UnconstrainedInsertSucceeds(spec, s, Restrict(Dump(spec.create, body), spec.columns), now);
  }

  /** Creating never fails with a 404, and fails validation exactly when the body is invalid. */
  lemma CreateOutcomes(spec: TableSpec, s: TableState, body: Record, now: int)
    ensures var st := CreateStep(spec, s, body, now);
      && (st.result.Failure? && st.result.error.Unprocessable? <==> Validate(spec.create, body).Failure?)
      && (st.result.Failure? ==> !st.result.error.HttpError?)
      && (st.result.Failure? && st.result.error.Unprocessable? ==> st.state == s)
      && (st.result.Failure? ==> st.state.rows == s.rows && st.state.ids == s.ids)
    ensures var st := MappedCreateStep(spec, s, body, now);
      && (st.result.Failure? && st.result.error.Unprocessable? <==> Validate(spec.create, body).Failure?)
      && (st.result.Failure? ==> !st.result.error.HttpError?)
      && (st.result.Failure? ==> st.state.rows == s.rows && st.state.ids == s.ids)
  {
    MappedCreateInserts(spec, s, body, now);
    if Validate(spec.create, body).Success? {
      InsertFails(spec, s, Dump(spec.create, body), now);
      InsertFails(spec, s, Restrict(Dump(spec.create, body), spec.columns), now);
    }
  }

  /** The two outcomes of an insert, as `Repository.Insert` computes them. */
  lemma InsertStepCases(spec: TableSpec, s: TableState, given: Record, now: int)
    ensures var raw := InsertRecord(spec, given, s.nextId, now);
      var v := Violation(spec, s.rows, raw);
      var stored := BindEnums(spec.enums, raw);
      InsertStep(spec, s, given, now) ==
        if v.Some? then Step(if v.value == "IntegrityError" then s.(nextId := s.nextId + 1) else s, Failure(Unhandled(v.value)))
        else Step(s.(nextId := s.nextId + 1, ids := s.ids + [s.nextId], rows := s.rows[s.nextId := stored]), Success(stored))
  {
  }

  /**
   * A failed insert fails with an uncaught database error and stores nothing; only a
   * unique violation, raised after the id default was evaluated, consumes an id.
   */
  lemma InsertFails(spec: TableSpec, s: TableState, given: Record, now: int)
    ensures var st := InsertStep(spec, s, given, now);
      st.result.Failure? ==> st.result.error.Unhandled? && st.state.rows == s.rows && st.state.ids == s.ids
    ensures var st := InsertStep(spec, s, given, now);
      st.result.Failure? ==>
        st.state.nextId == (if st.result.error.exception == "IntegrityError" then s.nextId + 1 else s.nextId)
  {
  }

  /**
   * There is no conflict handling: creating a row whose unique column repeats another
   * row's value fails with an uncaught database error and stores nothing.
   */
  lemma CreateDuplicateFails(spec: TableSpec, s: TableState, body: Record, now: int, other: int, k: nat)
    requires k < |spec.unique| && other in s.rows
    requires Validate(spec.create, body).Success?
    requires spec.unique[k] in spec.create && spec.unique[k] in spec.columns && spec.unique[k] != "id"
    requires Dump(spec.create, body)[spec.unique[k]] != Null
    requires Dump(spec.create, body)[spec.unique[k]] == Column(s.rows[other], spec.unique[k])
    ensures var st := MappedCreateStep(spec, s, body, now);
      && st.result.Failure? && st.result.error.Unhandled?
      && st.state.rows == s.rows && st.state.ids == s.ids
  {
    var column := spec.unique[k];
    var given := Restrict(Validate(spec.create, body).value, spec.columns);
    var r := InsertRecord(spec, given, s.nextId, now);
    assert r[column] == Dump(spec.create, body)[column];
    assert Clash(column, r, s.rows[other]);
  }

  /** A required string unique column sent with another row's value: the create fails with a database error. */
  lemma CreateDuplicateString(spec: TableSpec, s: TableState, body: Record, now: int, other: int, k: nat)
    requires k < |spec.unique| && other in s.rows
    requires Validate(spec.create, body).Success?
    requires spec.unique[k] in spec.create && spec.unique[k] in spec.columns && spec.unique[k] != "id"
    requires spec.create[spec.unique[k]] == Required(TStr)
    requires spec.unique[k] in body && body[spec.unique[k]] == Column(s.rows[other], spec.unique[k])
    ensures var st := MappedCreateStep(spec, s, body, now);
      && st.result.Failure? && st.result.error.Unhandled?
      && st.state.rows == s.rows && st.state.ids == s.ids
  {
    var c := spec.unique[k];
    ValidatedField(spec.create, body, c);
    StringFieldsTakeStrings(TStr, body[c]);
    DumpFields(spec.create, body);
    CreateDuplicateFails(spec, s, body, now, other, k);
  }

  /**
   * In a table with one enum column, a create whose dumped value for it is a string
   * that is neither a member name nor a value fails with PostgreSQL's DataError and
   * stores nothing.
   */
  lemma CreateUnbindable(spec: TableSpec, s: TableState, body: Record, now: int, c: string)
    requires Validate(spec.create, body).Success?
    requires c in spec.create && c in spec.columns && c != "id" && spec.enums.Keys == {c}
    requires Dump(spec.create, body)[c].Str? && Dump(spec.create, body)[c].s !in Labels(spec.enums[c])
    ensures MappedCreateStep(spec, s, body, now).result == Failure(Unhandled("DataError"))
    ensures MappedCreateStep(spec, s, body, now).state.rows == s.rows
  {
    var given := Restrict(Validate(spec.create, body).value, spec.columns);
    var r := InsertRecord(spec, given, s.nextId, now);
    assert r[c] == Dump(spec.create, body)[c];
    assert !Bindable(spec.enums, r);
  }

  /**
   * In a table with one enum column, inserting a string for it that is neither a member
   * name nor a value fails with PostgreSQL's DataError and stores nothing.
   */
  lemma InsertUnbindable(spec: TableSpec, s: TableState, given: Record, now: int, c: string)
    requires c != "id" && spec.enums.Keys == {c}
    requires Column(given, c).Str? && Column(given, c).s !in Labels(spec.enums[c])
    ensures InsertStep(spec, s, given, now).result == Failure(Unhandled("DataError"))
    ensures InsertStep(spec, s, given, now).state.rows == s.rows
  {
    var r := InsertRecord(spec, given, s.nextId, now);
    assert r[c] == given[c];
    assert !Bindable(spec.enums, r);
  }

  /** A created row is listed last: the table is listed in insertion order. */
  lemma CreateAppends(spec: TableSpec, s: TableState, body: Record, now: int)
    requires WellFormed(spec) && Consistent(spec, s)
    ensures var st := MappedCreateStep(spec, s, body, now);
      st.result.Success? ==> List(st.state, 0, |s.ids| + 1).value == List(s, 0, |s.ids|).value + [st.result.value]
  {
    var st := MappedCreateStep(spec, s, body, now);
    if st.result.Success? {
      CreatePreserves(spec, s, body, now);
      CreateThenGet(spec, s, body, now);
      ListAppended(s, st.state, s.nextId, st.result.value);
    }
  }

  /** A table whose id list gains one id, holding a new row, and whose other rows stay, lists that row last. */
  lemma ListAppended(s: TableState, t: TableState, id: int, r: Record)
    requires forall i :: 0 <= i < |s.ids| ==> s.ids[i] in s.rows
    requires forall i :: 0 <= i < |t.ids| ==> t.ids[i] in t.rows
    requires t.ids == s.ids + [id] && id in t.rows && t.rows[id] == r
    requires forall x :: x in s.rows ==> x in t.rows && t.rows[x] == s.rows[x]
    ensures List(t, 0, |s.ids| + 1).value == List(s, 0, |s.ids|).value + [r]
  {
    var before, after := List(s, 0, |s.ids|).value, List(t, 0, |s.ids| + 1).value;
    assert |after| == |before + [r]|;
    forall i | 0 <= i < |after| ensures after[i] == (before + [r])[i] {
      if i < |before| {
        assert t.ids[i] == s.ids[i];
      }
    }
  }

  // ---------------------------------------------------------------- what update does

  /**
   * The stored row after the assignments of `patch` to the columns in `columns`:
   * those columns hold the values assigned (enum labels read back as member values),
   * `updated_at` is stamped exactly when one of them changed, and nothing else moves.
   */
  lemma PatchedColumns(enums: map<string, map<string, string>>, before: Record, patch: Record, columns: set<string>, now: int)
    requires InDomain(enums, before) && forall c :: c in enums ==> MembersWellFormed(enums[c])
    requires "updated_at" !in patch && "updated_at" !in enums
    ensures var after := BindEnums(enums, Patched(before, Restrict(patch, columns), now));
      && (forall k :: k in patch && k in columns ==> Column(after, k) == BindValue(enums, k, patch[k]))
      && (forall k :: k != "updated_at" && !(k in patch && k in columns) ==> Column(after, k) == Column(before, k))
      && Column(after, "updated_at") ==
           (if exists k :: k in patch && k in columns && Column(before, k) != patch[k]
            then DateTime(now) else Column(before, "updated_at"))
  {
    var mapped := Restrict(patch, columns);
    var raw := Patched(before, mapped, now);
    var after := BindEnums(enums, raw);
    BindStored(enums, before);
    assert Changes(before, mapped) <==> exists k :: k in patch && k in columns && Column(before, k) != patch[k];
    forall k | k in patch && k in columns
      ensures Column(after, k) == BindValue(enums, k, patch[k])
    {
      if !Changes(before, mapped) {
        assert Column(before, k) == mapped[k];
        assert Column(BindEnums(enums, before), k) == Column(before, k);
      }
    }
    forall k | k != "updated_at" && !(k in patch && k in columns)
      ensures Column(after, k) == Column(before, k)
    {
      assert Column(raw, k) == Column(before, k);
      assert Column(BindEnums(enums, before), k) == Column(before, k);
    }
    if !Changes(before, mapped) {
      assert Column(BindEnums(enums, before), "updated_at") == Column(before, "updated_at");
    }
  }

  /**
   * Update assigns exactly the set fields that have columns (enum labels read back as
   * member values), leaves every other column and every other row alone, stamps
   * `updated_at` exactly when some column value changed, and answers the stored row
   * with the set fields that have no column on top.
   */
  lemma UpdateAssignsSentFields(spec: TableSpec, s: TableState, id: int, body: Record, now: int)
    requires WellFormed(spec) && Consistent(spec, s)
    ensures var st := UpdateStep(spec, s, id, body, now);
      st.result.Success? ==>
        var patch := DumpSet(spec.update, body);
        var before := s.rows[id];
        var after := st.state.rows[id];
        && st.state == s.(rows := s.rows[id := after])
        && (forall k :: k in patch ==> k !in spec.collections)
        && (forall k :: k in patch && k in spec.columns ==> Column(after, k) == BindValue(spec.enums, k, patch[k]))
        && (forall k :: k != "updated_at" && !(k in patch && k in spec.columns) ==> Column(after, k) == Column(before, k))
        && Column(after, "updated_at") ==
             (if exists k :: k in patch && k in spec.columns && Column(before, k) != patch[k]
              then DateTime(now) else Column(before, "updated_at"))
        && st.result.value == after + (patch - spec.columns)
  {
    var st := UpdateStep(spec, s, id, body, now);
    if st.result.Success? {
      var patch := DumpSet(spec.update, body);
      DumpSetFields(spec.update, body);
      assert "updated_at" !in patch;
      assert st.state.rows[id] == BindEnums(spec.enums, Patched(s.rows[id], Restrict(patch, spec.columns), now));
      PatchedColumns(spec.enums, s.rows[id], patch, spec.columns, now);
    }
  }

  /** A column that is no field of the update model keeps its value through an update. */
  lemma UpdateKeepsColumn(spec: TableSpec, s: TableState, id: int, body: Record, now: int, k: string)
    requires WellFormed(spec) && Consistent(spec, s)
    requires k !in spec.update && k != "updated_at"
    ensures var st := UpdateStep(spec, s, id, body, now);
      st.result.Success? ==> Column(st.result.value, k) == Column(s.rows[id], k)
  {
    UpdateAssignsSentFields(spec, s, id, body, now);
    if UpdateStep(spec, s, id, body, now).result.Success? {
      DumpSetFields(spec.update, body);
    }
  }

  /**
   * An update of an existing row succeeds when the body is valid, sets no unique
   * column and no collection, and sends each enum column NULL or a label of its enum.
   */
  lemma UpdateSucceeds(spec: TableSpec, s: TableState, id: int, body: Record, now: int)
    requires WellFormed(spec) && Consistent(spec, s) && id in s.rows
    requires Validate(spec.update, body).Success?
    requires forall j :: 0 <= j < |spec.unique| ==> spec.unique[j] !in body
    requires DumpSet(spec.update, body).Keys !! spec.collections
    requires Bindable(spec.enums, DumpSet(spec.update, body))
    ensures UpdateStep(spec, s, id, body, now).result.Success?
  {
    var patch := DumpSet(spec.update, body);
    var mapped := Restrict(patch, spec.columns);
    DumpSetFields(spec.update, body);
    assert Bindable(spec.enums, mapped) by {
      forall c | c in spec.enums && Column(mapped, c) != Null
        ensures Column(mapped, c) == Column(patch, c)
      {
      }
    }
    StoredInDomain(spec, s, id);
    StoredNoClash(spec, s, id);
    PatchCommits(spec, s.rows - {id}, s.rows[id], mapped, now);
    UpdateStepSucceeds(spec, s, id, body, now);
  }

  /** A stored row clashes with no other stored row. */
  lemma StoredNoClash(spec: TableSpec, s: TableState, id: int)
    requires Consistent(spec, s) && id in s.rows
    ensures NoClash(spec.unique, s.rows - {id}, s.rows[id])
  {
    forall x, j | x in s.rows - {id} && 0 <= j < |spec.unique|
      ensures !Clash(spec.unique[j], s.rows[id], (s.rows - {id})[x])
    {
      assert !Clash(spec.unique[j], s.rows[id], s.rows[x]);
    }
  }

  /**
   * A stored row patched with bindable values for columns other than the unique ones
   * still commits: its enums bind, and it clashes with no row it did not clash with.
   */
  lemma PatchCommits(spec: TableSpec, others: map<int, Record>, before: Record, mapped: Record, now: int)
    requires WellFormed(spec)
    requires InDomain(spec.enums, before) && Bindable(spec.enums, mapped)
    requires forall j :: 0 <= j < |spec.unique| ==> spec.unique[j] !in mapped
    requires NoClash(spec.unique, others, before)
    ensures Violation(spec, others, Patched(before, mapped, now)).None?
  {
    var r := Patched(before, mapped, now);
    forall c | c in spec.enums && Column(r, c) != Null
      ensures Column(r, c).Str? && Column(r, c).s in Labels(spec.enums[c])
    {
      if c !in mapped {
        assert Column(r, c) == Column(before, c);
      }
    }
    forall x, j | x in others && 0 <= j < |spec.unique|
      ensures !Clash(spec.unique[j], r, others[x])
    {
      assert Column(r, spec.unique[j]) == Column(before, spec.unique[j]);
    }
  }

  /**
   * An update setting one column, to a value its field keeps as it is and its enum (if
   * any) binds, succeeds on any stored row and leaves the column holding that value,
   * read back as a member value.
   */
  lemma UpdateOneColumn(spec: TableSpec, s: TableState, id: int, c: string, v: Value, now: int)
    requires WellFormed(spec) && Consistent(spec, s) && id in s.rows
    requires c in spec.update && c in spec.columns && c !in spec.collections
    requires forall j :: 0 <= j < |spec.unique| ==> spec.unique[j] != c
    requires Parse(spec.update[c], v) == Some(v)
    requires c in spec.enums && v != Null ==> v.Str? && v.s in Labels(spec.enums[c])
    ensures var st := UpdateStep(spec, s, id, map[c := v], now);
      st.result.Success? && Column(st.result.value, c) == BindValue(spec.enums, c, v)
  {
    var body := map[c := v];
    ValidateOne(spec.update, c, v);
    DumpSetFields(spec.update, body);
    assert DumpSet(spec.update, body) == body;
    UpdateSucceeds(spec, s, id, body, now);
    UpdateAssignsSentFields(spec, s, id, body, now);
  }

  /** Setting a collection relationship is a TypeError after the 404 check, and changes nothing. */
  lemma UpdateCollectionFails(spec: TableSpec, s: TableState, id: int, body: Record, now: int, k: string)
    requires Validate(spec.update, body).Success? && id in s.rows
    requires k in body && k in spec.update && k in spec.collections
    ensures UpdateStep(spec, s, id, body, now) == Step(s, Failure(Unhandled("TypeError")))
  {
    assert k in DumpSet(spec.update, body);
  }

  /**
   * An update that sets only fields without a column writes nothing: no UPDATE is
   * emitted, `updated_at` stays, and only the response shows the values sent.
   */
  lemma UpdateUnmappedOnly(spec: TableSpec, s: TableState, id: int, body: Record, now: int)
    requires WellFormed(spec) && Consistent(spec, s) && id in s.rows
    requires Validate(spec.update, body).Success?
    requires DumpSet(spec.update, body).Keys !! spec.columns
    requires DumpSet(spec.update, body).Keys !! spec.collections
    ensures UpdateStep(spec, s, id, body, now) == Step(s, Success(s.rows[id] + DumpSet(spec.update, body)))
  {
    var before := s.rows[id];
    var patch := DumpSet(spec.update, body);
    assert Restrict(patch, spec.columns) == map[];
    assert !Changes(before, map[]);
    assert patch - spec.columns == patch;
    BindStored(spec.enums, before);
    forall x, j | x in s.rows - {id} && 0 <= j < |spec.unique|
      ensures !Clash(spec.unique[j], before, (s.rows - {id})[x])
    {
      assert !Clash(spec.unique[j], s.rows[id], s.rows[x]);
    }
    assert Patched(before, Restrict(patch, spec.columns), now) == before;
    UpdateStepSucceeds(spec, s, id, body, now);
    assert s.(rows := s.rows[id := before]) == s;
  }

  /** The same, for a body whose keys all lie in a set of fields with neither a column nor a relationship. */
  lemma UpdateWithin(spec: TableSpec, s: TableState, id: int, body: Record, now: int, fields: set<string>)
    requires WellFormed(spec) && Consistent(spec, s) && id in s.rows
    requires Validate(spec.update, body).Success?
    requires body.Keys <= fields && fields !! spec.columns && fields !! spec.collections
    ensures UpdateStep(spec, s, id, body, now) == Step(s, Success(s.rows[id] + DumpSet(spec.update, body)))
  {
    DumpSetFields(spec.update, body);
    UpdateUnmappedOnly(spec, s, id, body, now);
  }

  /** A 404 comes exactly from a valid body naming an unknown id, and changes nothing. */
  lemma UpdateNotFound(spec: TableSpec, s: TableState, id: int, body: Record, now: int)
    ensures var st := UpdateStep(spec, s, id, body, now);
      && (st.result == Failure(NotFound(spec)) <==> Validate(spec.update, body).Success? && id !in s.rows)
      && (st.result.Failure? ==> st.state == s)
  {
  }

  /** The enum labels of a patch are member values (or name no member), so they read back unchanged. */
  predicate SendsValues(spec: TableSpec, patch: Record) {
    forall c :: c in spec.enums && c in patch && patch[c].Str? ==> Bound(spec.enums[c], patch[c].s) == patch[c].s
  }

  /**
   * Sending the same update again returns the same response and changes nothing,
   * whatever the time, provided its enum labels are member values.
   */
  lemma UpdateIdempotent(spec: TableSpec, s: TableState, id: int, body: Record, now: int, later: int)
    requires WellFormed(spec)
    requires SendsValues(spec, DumpSet(spec.update, body))
    ensures var st := UpdateStep(spec, s, id, body, now);
      st.result.Success? ==> UpdateStep(spec, st.state, id, body, later) == st
  {
    var st := UpdateStep(spec, s, id, body, now);
    if st.result.Success? {
      UpdateStepSucceeded(spec, s, id, body, now);
      var patch := DumpSet(spec.update, body);
      var mapped := Restrict(patch, spec.columns);
      var raw := Patched(s.rows[id], mapped, now);
      var r := BindEnums(spec.enums, raw);
      DumpSetFields(spec.update, body);
      RepatchKeeps(spec.enums, s.rows[id], mapped, now, later);
      BoundCommits(spec, s.rows - {id}, raw);
      assert st.state.rows - {id} == s.rows - {id};
      UpdateStepSucceeds(spec, st.state, id, body, later);
      assert st.state.rows[id := r] == st.state.rows;
    }
  }

  /** Patching a row again with the member values it was just patched with changes nothing, not even `updated_at`. */
  lemma RepatchKeeps(enums: map<string, map<string, string>>, row: Record, mapped: Record, now: int, later: int)
    requires "updated_at" !in mapped
    requires forall c :: c in enums && c in mapped && mapped[c].Str? ==> Bound(enums[c], mapped[c].s) == mapped[c].s
    ensures var r := BindEnums(enums, Patched(row, mapped, now));
      Patched(r, mapped, later) == r
  {
    var raw := Patched(row, mapped, now);
    var r := BindEnums(enums, raw);
    forall k | k in mapped ensures Column(r, k) == mapped[k] {
      assert Column(raw, k) == mapped[k];
    }
    assert !Changes(r, mapped);
  }

  /** A row that commits still commits with its enums read back, and reads back as itself. */
  lemma BoundCommits(spec: TableSpec, others: map<int, Record>, raw: Record)
    requires WellFormed(spec) && Violation(spec, others, raw).None?
    ensures var r := BindEnums(spec.enums, raw);
      Violation(spec, others, r).None? && BindEnums(spec.enums, r) == r
  {
    BindInDomain(spec.enums, raw);
    BindKeepsUnique(spec, raw, others);
    BindStored(spec.enums, BindEnums(spec.enums, raw));
  }

  /** What a successful update found and did. */
  lemma UpdateStepSucceeded(spec: TableSpec, s: TableState, id: int, body: Record, now: int)
    ensures var st := UpdateStep(spec, s, id, body, now);
      st.result.Success? ==>
        var patch := DumpSet(spec.update, body);
        var raw := Patched(s.rows[id], Restrict(patch, spec.columns), now);
        && Validate(spec.update, body).Success? && id in s.rows
        && (forall k :: k in patch ==> k !in spec.collections)
        && Violation(spec, s.rows - {id}, raw).None?
        && st == Step(s.(rows := s.rows[id := BindEnums(spec.enums, raw)]), Success(BindEnums(spec.enums, raw) + (patch - spec.columns)))
  {
  }

  /** An update whose body is valid, whose row exists, which sets no collection and whose row commits, succeeds. */
  lemma UpdateStepSucceeds(spec: TableSpec, s: TableState, id: int, body: Record, now: int)
    requires Validate(spec.update, body).Success? && id in s.rows
    requires forall k :: k in DumpSet(spec.update, body) ==> k !in spec.collections
    requires Violation(spec, s.rows - {id}, Patched(s.rows[id], Restrict(DumpSet(spec.update, body), spec.columns), now)).None?
    ensures var patch := DumpSet(spec.update, body);
      var raw := Patched(s.rows[id], Restrict(patch, spec.columns), now);
      UpdateStep(spec, s, id, body, now) ==
        Step(s.(rows := s.rows[id := BindEnums(spec.enums, raw)]), Success(BindEnums(spec.enums, raw) + (patch - spec.columns)))
  {
  }

  /**
   * A member NAME sent for an enum column is stored as the member but compares unequal
   * to the value read back, so repeating it emits an UPDATE and moves `updated_at`.
   */
  lemma UpdateByNameRestamps(spec: TableSpec, s: TableState, id: int, c: string, name: string, now: int)
    requires WellFormed(spec) && Consistent(spec, s) && id in s.rows
    requires c in spec.enums && name in spec.enums[c] && spec.enums[c][name] != name
    requires c in spec.update && spec.update[c].ty == TStr && c in spec.columns && c !in spec.collections
    ensures var st := UpdateStep(spec, s, id, map[c := Str(name)], now);
      && st.result.Success?
      && Column(st.result.value, c) == Str(spec.enums[c][name])
      && Column(st.result.value, "updated_at") == DateTime(now)
  {
    var body := map[c := Str(name)];
    ValidateOne(spec.update, c, Str(name));
    var patch := DumpSet(spec.update, body);
    assert patch == body;
    var before := s.rows[id];
    if Column(before, c) == Str(name) {
      assert false;
    }
    assert Changes(before, Restrict(patch, spec.columns));
    assert Bindable(spec.enums, patch);
    UpdateSucceeds(spec, s, id, body, now);
    UpdateStepSucceeded(spec, s, id, body, now);
    StoredInDomain(spec, s, id);
    PatchedColumns(spec.enums, before, patch, spec.columns, now);
  }

  /** An empty update on an existing row is a `get`: no field changes and `updated_at` stays. */
  lemma EmptyUpdateIsGet(spec: TableSpec, s: TableState, id: int, now: int)
    requires WellFormed(spec) && Consistent(spec, s) && id in s.rows
    ensures UpdateStep(spec, s, id, map[], now) == Step(s, Get(spec, s, id))
  {
    EmptyUpdateSetsNothing(spec.update);
    UpdateUnmappedOnly(spec, s, id, map[], now);
    assert s.rows[id] + map[] == s.rows[id];
  }

  /** Likewise, an update that copies another row's unique value fails and changes nothing. */
  lemma UpdateDuplicateFails(spec: TableSpec, s: TableState, id: int, body: Record, now: int, other: int, k: nat)
    requires WellFormed(spec) && k < |spec.unique| && id in s.rows && other in s.rows && other != id
    requires Validate(spec.update, body).Success?
    requires spec.unique[k] in spec.update && spec.unique[k] in spec.columns && spec.unique[k] in body
    requires DumpSet(spec.update, body).Keys !! spec.collections
    requires DumpSet(spec.update, body)[spec.unique[k]] != Null
    requires DumpSet(spec.update, body)[spec.unique[k]] == Column(s.rows[other], spec.unique[k])
    ensures UpdateStep(spec, s, id, body, now).state == s
    ensures UpdateStep(spec, s, id, body, now).result.Failure?
    ensures UpdateStep(spec, s, id, body, now).result.error.Unhandled?
  {
    var column := spec.unique[k];
    var patch := DumpSet(spec.update, body);
    var mapped := Restrict(patch, spec.columns);
    assert mapped[column] == patch[column];
    var r := Patched(s.rows[id], mapped, now);
    if Changes(s.rows[id], mapped) {
      assert r[column] == patch[column];
    } else {
      assert Column(s.rows[id], column) == patch[column];
    }
    assert Clash(column, r, (s.rows - {id})[other]);
  }

  // ---------------------------------------------------------------- delete and list

  /**
   * After a delete the row is gone for `get`, every other row is untouched, and the
   * cascade removed exactly the child rows that pointed at it.
   */
  lemma DeleteThenGet(spec: TableSpec, s: TableState, id: int)
    ensures var st := DeleteStep(spec, s, id);
      && (st.result.Failure? <==> id !in s.rows)
      && (st.result.Failure? ==> st.result.error == NotFound(spec) && st.state == s)
      && Get(spec, st.state, id) == Failure(NotFound(spec))
      && (forall x :: x != id ==> Get(spec, st.state, x) == Get(spec, s, x))
      && (forall k :: k in st.state.children <==>
            k in s.children && (spec.cascade.None? || id !in s.rows || !Owned(s.children[k], spec.cascade.value.foreignKey, id)))
  {
  }

  /** Consecutive pages tile the table: page [0, a) followed by page [a, a + b) is page [0, a + b). */
  lemma ListPagesTile(s: TableState, a: nat, b: nat)
    requires forall i :: 0 <= i < |s.ids| ==> s.ids[i] in s.rows
    ensures List(s, 0, a).value + List(s, a, b).value == List(s, 0, a + b).value
  {
    var p, q, all := List(s, 0, a).value, List(s, a, b).value, List(s, 0, a + b).value;
    assert |p + q| == |all|;
    forall i | 0 <= i < |all| ensures (p + q)[i] == all[i] {
      if i >= |p| {
        assert (p + q)[i] == q[i - |p|];
      }
    }
  }

  // ---------------------------------------------------------------- the table object

  /**
   * `for field, value in update_data.items(): setattr(row, field, value)`, one field
   * at a time: a column is written, a collection relationship refuses the value with
   * a TypeError that ends the loop, and any other field becomes a plain attribute.
   */
  method SetAttributes(row: Record, patch: Record, columns: set<string>, collections: set<string>)
    returns (record: Record, attributes: Record, failed: bool)
    ensures failed <==> exists k :: k in patch && k in collections
    ensures !failed ==> record == row + Restrict(patch, columns) && attributes == patch - columns
  {
    record, attributes, failed := row, map[], false;
    var pending := patch.Keys;
    while pending != {}
      invariant pending <= patch.Keys
      invariant forall k :: k in patch && k !in pending ==> k !in collections
      invariant forall k :: k in record <==> k in row || (k in patch && k in columns && k !in pending)
      invariant forall k :: k in record ==> record[k] == if k in patch && k in columns && k !in pending then patch[k] else row[k]
      invariant forall k :: k in attributes <==> k in patch && k !in columns && k !in pending
      invariant forall k :: k in attributes ==> attributes[k] == patch[k]
      decreases pending
    {
      var field :| field in pending;
      if field in collections {
        return row, map[], true;
      }
      if field in columns {
        record := record[field := patch[field]];
      } else {
        attributes := attributes[field := patch[field]];
      }
      pending := pending - {field};
    }
  }

  /** A table as the endpoints see it through the session: mutated in place by each request. */
  class Repository {
    const spec: TableSpec
    var ids: seq<int>
    var rows: map<int, Record>
    var children: map<int, Record>
    var nextId: int

    function State(): TableState
      reads this
    {
      TableState(ids, rows, children, nextId)
    }

    predicate Valid()
      reads this
    {
      WellFormed(spec) && Consistent(spec, State())
    }

    /** The table as the database holds it when the application starts. */
    constructor (spec: TableSpec, initial: TableState)
      requires WellFormed(spec) && Consistent(spec, initial)
      ensures this.spec == spec && State() == initial && Valid()
    {
      this.spec := spec;
      ids := initial.ids;
      rows := initial.rows;
      children := initial.children;
      nextId := initial.nextId;
    }

    method Insert(given: Record, now: int) returns (r: Result<Record, Fault>)
      requires Valid()
      modifies this
      ensures Valid()
      ensures Step(State(), r) == InsertStep(spec, old(State()), given, now)
    {
      ghost var before := State();
      ghost var step := InsertStep(spec, before, given, now);
      InsertPreserves(spec, before, given, now);
      InsertStepCases(spec, before, given, now);
      var id := nextId;
      var record := InsertRecord(spec, given, id, now);
      var violation := Violation(spec, rows, record);
      if violation == Some("IntegrityError") {
        nextId := nextId + 1;
        r := Failure(Unhandled(violation.value));
      } else if violation.Some? {
        r := Failure(Unhandled(violation.value));
      } else {
        var stored := BindEnums(spec.enums, record);
        nextId := nextId + 1;
        ids := ids + [id];
        rows := rows[id := stored];
        r := Success(stored);
      }
      assert State() == step.state && r == step.result;
    }

    method Create(body: Record, now: int) returns (r: Result<Record, Fault>)
      requires Valid()
      modifies this
      ensures Valid()
      ensures Step(State(), r) == CreateStep(spec, old(State()), body, now)
    {
      var v := Validate(spec.create, body);
      if v.Failure? {
        return Failure(Unprocessable(v.error));
      }
      if exists k :: k in v.value && k !in spec.columns {
        return Failure(Unhandled("TypeError"));
      }
      r := Insert(v.value, now);
    }

    method Update(id: int, body: Record, now: int) returns (r: Result<Record, Fault>)
      requires Valid()
      modifies this
      ensures Valid()
      ensures Step(State(), r) == UpdateStep(spec, old(State()), id, body, now)
    {
      UpdatePreserves(spec, State(), id, body, now);
      var v := Validate(spec.update, body);
      if v.Failure? {
        return Failure(Unprocessable(v.error));
      }
      if id !in rows {
        return Failure(NotFound(spec));
      }
      var patch := DumpSet(spec.update, body);
      var current := rows[id];
      var written, attributes, failed := SetAttributes(current, patch, spec.columns, spec.collections);
      if failed {
        return Failure(Unhandled("TypeError"));
      }
      var record := current;
      if Changes(current, Restrict(patch, spec.columns)) {
        record := written["updated_at" := DateTime(now)];
      }
      // otherwise no UPDATE is emitted, and `db.refresh` reloads the row as stored
      var violation := Violation(spec, rows - {id}, record);
      if violation.Some? {
        return Failure(Unhandled(violation.value));
      }
      var stored := BindEnums(spec.enums, record);
      rows := rows[id := stored];
      r := Success(stored + attributes);
    }

    method Delete(id: int) returns (r: Result<string, Fault>)
      requires Valid()
      modifies this
      ensures Valid()
      ensures Step(State(), r) == DeleteStep(spec, old(State()), id)
    {
      DeletePreserves(spec, State(), id);
      if id !in rows {
        return Failure(NotFound(spec));
      }
      ids := Without(ids, id);
      rows := rows - {id};
      children := Surviving(spec, children, id);
      r := Success(spec.deleted);
    }
  }
}
