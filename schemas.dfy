/**
 * Pydantic request models as maps from field name to declaration: validation of a
 * JSON body, `model_dump()` (every field, defaults filled in) and
 * `model_dump(exclude_unset=True)` (only the fields the client sent).
 */
module Schemas {
  import opened Wrappers
  import opened Values
  import opened Coercion

  /**
   * One field declaration. `name: T` is required (no default); `name: T = d` has a
   * default; `name: Optional[T] = None` is optional with default Null.
   */
  datatype Field = Field(ty: FieldType, optional: bool, default: Option<Value>)

  /** A model's fields by name (field names of a pydantic model are distinct). */
  type Schema = map<string, Field>

  function Required(ty: FieldType): Field {
    Field(ty, false, None)
  }

  function Defaulted(ty: FieldType, default: Value): Field {
    Field(ty, false, Some(default))
  }

  /** `name: Optional[T] = None` */
  function Nullable(ty: FieldType): Field {
    Field(ty, true, Some(Null))
  }

  /** Every field is `Optional[...] = None`: the shape of all the `...Update` models. */
  predicate AllOptional(schema: Schema) {
    forall k :: k in schema ==> schema[k].optional && schema[k].default == Some(Null)
  }

  /** An `...Update` model written as the base model's fields, each `Optional[...] = None`. */
  function Optionalized(schema: Schema): (u: Schema)
    ensures u.Keys == schema.Keys && AllOptional(u)
    ensures forall k :: k in u ==> u[k].ty == schema[k].ty
  {
    map k | k in schema :: Nullable(schema[k].ty)
  }

  /**
   * The value the field holds after validating the JSON value v: null only for an
   * Optional field, anything else through pydantic's lax conversion; None is a
   * validation error.
   */
  function Parse(f: Field, v: Value): Option<Value> {
    if v == Null then (if f.optional then Some(Null) else None) else Coerce(f.ty, v)
  }

  /** A value pydantic accepts for the field. */
  predicate Accepts(f: Field, v: Value) {
    Parse(f, v).Some?
  }

  /** All validation errors of a body; keys the model does not declare are ignored. */
  function Errors(schema: Schema, body: Record): set<ValidationError> {
    (set k | k in schema && k in body && !Accepts(schema[k], body[k]) :: WrongType(k))
    + (set k | k in schema && k !in body && schema[k].default.None? :: Missing(k))
  }

  /** `model_dump()`: every field, the client's value or the default. */
  function Dump(schema: Schema, body: Record): Record {
    map k | k in schema :: if k in body then Parse(schema[k], body[k]).GetOr(Null) else schema[k].default.GetOr(Null)
  }

  /** `model_dump(exclude_unset=True)`: the fields the client sent, an explicit null included. */
  function DumpSet(schema: Schema, body: Record): Record {
    map k | k in schema && k in body :: Parse(schema[k], body[k]).GetOr(Null)
  }

  /** Parsing a body into the model: the dumped fields, or every validation error. */
  function Validate(schema: Schema, body: Record): Result<Record, set<ValidationError>> {
    var errors := Errors(schema, body);
    if errors == {} then Success(Dump(schema, body)) else Failure(errors)
  }

  /**
   * A response model read `from_attributes` off a row: exactly the model's fields,
   * each the row's column (NULL when the row has none); other columns are dropped.
   */
  function Project(schema: Schema, row: Record): (out: Record)
    ensures out.Keys == schema.Keys
    ensures forall k :: k in out ==> out[k] == Column(row, k)
  {
    map k | k in schema :: Column(row, k)
  }

  /** A value a field of a model instance can hold: one of its type, or null when it is Optional. */
  predicate Holds(f: Field, v: Value) {
    Typed(v, f.ty) || (f.optional && v == Null)
  }

  /** A parsed model instance: exactly the declared fields, each holding a value of its field. */
  predicate Conforms(schema: Schema, obj: Record) {
    obj.Keys == schema.Keys && forall k :: k in schema ==> Holds(schema[k], obj[k])
  }

  // ---------------------------------------------------------------- lemmas

  /**
   * A body validates exactly when every field declared without a default is sent,
   * and every sent field has an acceptable value.
   */
  lemma ValidateSucceedsIff(schema: Schema, body: Record)
    ensures Validate(schema, body).Success? <==>
      forall k :: k in schema ==>
        (k in body ==> Accepts(schema[k], body[k])) && (k !in body ==> schema[k].default.Some?)
  {
    if exists k :: k in schema && !((k in body ==> Accepts(schema[k], body[k])) && (k !in body ==> schema[k].default.Some?)) {
      var k :| k in schema && !((k in body ==> Accepts(schema[k], body[k])) && (k !in body ==> schema[k].default.Some?));
      if k in body {
        assert WrongType(k) in Errors(schema, body);
      } else {
        assert Missing(k) in Errors(schema, body);
      }
    }
  }

  /** The fields declared without a default. */
  function RequiredFields(schema: Schema): set<string> {
    set k | k in schema && schema[k].default.None?
  }

  /** The same, with the required fields named as a set. */
  lemma ValidateRequired(schema: Schema, body: Record)
    ensures Validate(schema, body).Success? <==>
      RequiredFields(schema) <= body.Keys && forall k :: k in schema && k in body ==> Accepts(schema[k], body[k])
  {
    ValidateSucceedsIff(schema, body);
  }

  /** Every field a valid body sends has an acceptable value. */
  lemma ValidatedField(schema: Schema, body: Record, k: string)
    requires Validate(schema, body).Success? && k in schema && k in body
    ensures Accepts(schema[k], body[k])
  {
    ValidateSucceedsIff(schema, body);
  }

  /** A body that sends one field of an all-optional model validates exactly when the model accepts its value. */
  lemma ValidateOne(schema: Schema, k: string, v: Value)
    requires AllOptional(schema) && k in schema
    ensures Validate(schema, map[k := v]).Success? <==> Accepts(schema[k], v)
  {
    ValidateSucceedsIff(schema, map[k := v]);
  }

  /** A missing required field makes validation fail and names that field; a bad value is named too. */
  lemma ErrorsNameFields(schema: Schema, body: Record, k: string)
    requires k in schema
    ensures k !in body && schema[k].default.None? ==>
      Validate(schema, body).Failure? && Missing(k) in Validate(schema, body).error
    ensures k in body && !Accepts(schema[k], body[k]) ==>
      Validate(schema, body).Failure? && WrongType(k) in Validate(schema, body).error
  {
    if k !in body && schema[k].default.None? {
      assert Missing(k) in Errors(schema, body);
    }
    if k in body && !Accepts(schema[k], body[k]) {
      assert WrongType(k) in Errors(schema, body);
    }
  }

  /**
   * `model_dump()` of a valid body: exactly the declared fields, each holding the
   * converted value of what the client sent, and the declared default otherwise.
   */
  lemma DumpFields(schema: Schema, body: Record)
    requires Validate(schema, body).Success?
    ensures Validate(schema, body).value.Keys == schema.Keys
    ensures forall k :: k in schema && k in body ==>
      Parse(schema[k], body[k]).Some? && Validate(schema, body).value[k] == Parse(schema[k], body[k]).value
    ensures forall k :: k in schema && k !in body ==> Validate(schema, body).value[k] == schema[k].default.GetOr(Null)
  {
    ValidateSucceedsIff(schema, body);
  }

  /** A valid body's string field holds the value sent, null included where allowed, or the default. */
  lemma StringFieldKeeps(schema: Schema, body: Record, k: string)
    requires Validate(schema, body).Success? && k in schema && schema[k].ty == TStr
    ensures Validate(schema, body).value[k] == if k in body then body[k] else schema[k].default.GetOr(Null)
  {
    DumpFields(schema, body);
    if k in body && body[k] != Null {
      StringFieldsTakeStrings(TStr, body[k]);
    }
  }

  /** A field that is not Optional never holds null once parsed. */
  lemma ParsedNotNull(f: Field, v: Value)
    requires !f.optional && Parse(f, v).Some?
    ensures Parse(f, v).value != Null
  {
    if v != Null {
      CoerceTyped(f.ty, v);
    }
  }

  /** The dump of a valid body is a model instance: defaults are accepted values, so it conforms. */
  lemma ValidatedConforms(schema: Schema, body: Record)
    requires Validate(schema, body).Success?
    requires forall k :: k in schema && k !in body ==> Holds(schema[k], schema[k].default.GetOr(Null))
    ensures Conforms(schema, Validate(schema, body).value)
  {
    DumpFields(schema, body);
    forall k | k in schema && k in body
      ensures Holds(schema[k], Validate(schema, body).value[k])
    {
      ParseIdempotent(schema[k], body[k]);
    }
  }

  /**
   * `exclude_unset` on a valid body: the update dict holds exactly the declared
   * fields the client sent, each with the converted value sent (an explicit null
   * included), and nothing else.
   */
  lemma DumpSetFields(schema: Schema, body: Record)
    requires Validate(schema, body).Success?
    ensures DumpSet(schema, body).Keys == schema.Keys * body.Keys
    ensures forall k :: k in DumpSet(schema, body) ==>
      Parse(schema[k], body[k]).Some? && DumpSet(schema, body)[k] == Parse(schema[k], body[k]).value
  {
    ValidateSucceedsIff(schema, body);
  }

  /** A value already of the field's type is accepted and kept as it is; so is null for an Optional field. */
  lemma ParseKeepsTyped(f: Field, v: Value)
    requires Holds(f, v)
    ensures Parse(f, v) == Some(v)
  {
    if v != Null {
      CoerceKeepsTyped(f.ty, v);
    }
  }

  /** What a field holds after validation is null (Optional fields only) or of its type, and validates to itself. */
  lemma ParseIdempotent(f: Field, v: Value)
    requires Parse(f, v).Some?
    ensures Holds(f, Parse(f, v).value)
    ensures Parse(f, Parse(f, v).value) == Parse(f, v)
  {
    if v != Null {
      CoerceTyped(f.ty, v);
      CoerceKeepsTyped(f.ty, Coerce(f.ty, v).value);
    }
  }

  /** An all-optional (update) model accepts the empty body, and then sets nothing. */
  lemma EmptyUpdateSetsNothing(schema: Schema)
    requires AllOptional(schema)
    ensures Validate(schema, map[]).Success?
    ensures DumpSet(schema, map[]) == map[]
  {
    ValidateSucceedsIff(schema, map[]);
  }
}
