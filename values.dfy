/**
 * Field values of the stored rows and the request bodies, and the error outcomes
 * the endpoints produce. Rows are keyed by field name, as both SQLAlchemy
 * attributes and pydantic fields are.
 */
module Values {
  import opened Text

  /**
   * A JSON / column value. Decimal and Float columns are opaque (no arithmetic is
   * modelled): a Decimal carries only its digits and exponent, a DateTime only a
   * timestamp in seconds.
   */
  datatype Value =
    | Null
    | Str(s: string)
    | Int(i: int)
    | Bool(b: bool)
    | Decimal(digits: int, exponent: int)
    | DateTime(seconds: int)

  /**
   * The declared type of a pydantic field; `EmailStr` is `TStr` (its syntax check is a
   * library's). `TChoice` is a string enum such as `UserRole`: one of its wire values.
   */
  datatype FieldType = TStr | TInt | TBool | TDecimal | TDateTime | TChoice(choices: set<string>)

  type Record = map<string, Value>

  predicate HasType(v: Value, t: FieldType) {
    match t
    case TStr => v.Str?
    case TInt => v.Int?
    case TBool => v.Bool?
    case TDecimal => v.Decimal?
    case TDateTime => v.DateTime?
    case TChoice(choices) => v.Str? && v.s in choices
  }

  /** Python truthiness of a value (`not x`); a datetime object is always truthy. */
  predicate Truthy(v: Value) {
    match v
    case Null => false
    case Str(s) => s != []
    case Int(i) => i != 0
    case Bool(b) => b
    case Decimal(d, _) => d != 0
    case DateTime(_) => true
  }

  /** A column read the way SQLAlchemy does: an absent attribute is NULL. */
  function Column(r: Record, name: string): Value {
    if name in r then r[name] else Null
  }

  /** Python's `str(v)` (and `f"{v}"`) for the values it can be written out for. */
  function Display(v: Value): string
    requires !v.Decimal? && !v.DateTime?
  {
    match v
    case Null => "None"
    case Str(s) => s
    case Int(i) => IntToString(i)
    case Bool(b) => if b then "True" else "False"
  }

  /** `f"{first_name} {last_name}"`, the `full_name` property of customers and users. */
  function FullName(r: Record): string
    requires !Column(r, "first_name").Decimal? && !Column(r, "first_name").DateTime?
    requires !Column(r, "last_name").Decimal? && !Column(r, "last_name").DateTime?
  {
    Display(Column(r, "first_name")) + " " + Display(Column(r, "last_name"))
  }

  /** The full name is the two names around one space; names free of spaces split back off it. */
  lemma FullNameParts(r: Record, first: string, last: string)
    requires Column(r, "first_name") == Str(first) && Column(r, "last_name") == Str(last)
    ensures FullName(r) == first + " " + last
    ensures ' ' !in first && ' ' !in last ==> Split(FullName(r), ' ') == [first, last]
  {
    if ' ' !in first && ' ' !in last {
      var parts := [first, last];
      assert Join(parts[1..], ' ') == last;
      assert Join(parts, ' ') == first + " " + last;
      SplitJoin(parts, ' ');
    }
  }

  /** A validation error reported by pydantic for one field (HTTP 422). */
  datatype ValidationError = Missing(field: string) | WrongType(field: string)

  /** How a request ends when it does not return its normal result. */
  datatype Fault =
    /** an HTTPException the code raises; `challenge` is the `WWW-Authenticate: Bearer` header */
    | HttpError(status: int, detail: string, challenge: bool)
    /** request-body validation by FastAPI/pydantic before the endpoint runs (HTTP 422) */
    | Unprocessable(errors: set<ValidationError>)
    /** an exception the code does not catch (HTTP 500), named by its Python class */
    | Unhandled(exception: string)
}
