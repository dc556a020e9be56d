# OpenDMS core in Dafny

A Dafny model of the behavioural core of OpenDMS, a dealer-management back end written
with FastAPI, SQLAlchemy, python-jose and passlib, in three sibling packages (`opendms`,
`mdmsga`, `xdms`). The model covers four parts:

- **Authentication.** Token issue and verification, password authentication, the
  current-user dependencies, the `xdms` login / refresh / register / me endpoints, and the
  HTML login form that writes the `"Bearer "` cookie. JWT signing and bcrypt are parameters
  (`Crypto.JwtCodec`, `Crypto.PasswordContext`). What the proofs assume of them is stated as
  predicates (`JwtSound`, `HashSound`) that the lemmas take as hypotheses. Time is a
  parameter `now`, in whole seconds.
- **The entity store.** The six CRUD endpoint modules run over one generic table class,
  `Store.Repository`. It holds the rows as a map from id to record, with a record a map from
  column name to `Values.Value`. Each entity module supplies a `TableSpec`: the pydantic
  create and update models, the ORM column defaults, the unique and `Enum` columns, and the
  cascaded child table. Each endpoint is a `method` on the repository. It is proved equal to
  a pure step function (`CreateStep`, `UpdateStep`, `DeleteStep`), and the properties are
  lemmas about those functions: patch semantics, 404s, defaults, uniqueness, cascade,
  paging.
- **Settings.** Both `config.py` files: CORS origin splitting, the Postgres and Valkey URLs,
  and the Celery fallbacks. Both loadings run the validators on unset fields too, so an
  unset URL is assembled: opendms through `pydantic_settings` validating defaults, `xdms`
  through pydantic v1 `BaseSettings`, which validates every field and runs `pre=True`
  validators before the None check.
- **The service worker** (`sw.js`). Request classification is a pure function. The caching
  strategies are pure steps over a `CacheState` (cache names in creation order plus their
  entries). The `caches` object is a class whose `Match`, `Put`, `Delete` and `Activate`
  methods are proved against those steps. The background-sync loop is a method on a queue
  class, proved to leave exactly the requests whose replay failed. Network outcomes are
  inputs.

Files, one module each, in dependency order:

- `wrappers.dfy`, `text.dfy`: Option/Result, and Python's `strip`, `split`, `str(int)` and `int(str)`.
- `values.dfy`: column values, and `full_name`.
- `coercion.dfy`: pydantic's lax conversion of JSON values to `int`, `Decimal`, `bool` and `datetime` fields.
- `schemas.dfy`: pydantic validation, `model_dump()` and `model_dump(exclude_unset=True)`.
- `store.dfy`: the table model.
- The six entity modules: `dealerships`, `vehicles`, `customers`, `sales`, `services`, `users`.
- `crypto.dfy`, `auth_schemas.dfy`, `user_crud.dfy`, `security.dfy`, `mdmsga_security.dfy`: authentication.
- `xdms_auth.dfy`: the `xdms` auth endpoints.
- `login_form.dfy`: the login form.
- `settings.dfy`, `xdms_settings.dfy`: settings.
- `service_worker.dfy`: the service worker.

Where the source's docstrings and its code disagree, the model follows the code.
Some constants are declared and never used: `MAX_PAGE_SIZE` (opendms/core/config.py:112),
for example, clamps nothing. No refresh-token `type` check, conflict handling, status
transition rule or computed total exists in the code, and none is added here.

## Model

| member | source | states |
|---|---|---|
| Text.LStripSuffix | opendms/core/config.py:36 | `lstrip` leaves a suffix of the input preceded only by whitespace |
| Text.RStripPrefix | opendms/core/config.py:36 | `rstrip` leaves a prefix of the input followed only by whitespace |
| Text.StripCore | opendms/core/config.py:36 | `strip` leaves a contiguous piece with only whitespace outside it, and the piece neither starts nor ends with whitespace |
| Text.StripIdempotent | opendms/core/config.py:36 | stripping twice is stripping once |
| Text.Split | opendms/core/config.py:36 | `split(",")` never returns an empty list, and no part contains the separator |
| Text.JoinSplit | opendms/core/config.py:36 | joining the parts of a split with the separator gives back the original string |
| Text.SplitJoin | opendms/core/config.py:36 | splitting a join of separator-free parts gives back the parts |
| Text.NatToString | opendms/core/security.py:44 | `str(n)` of a non-negative int: non-empty, decimal digits only, no leading zero |
| Text.IntToString | opendms/core/security.py:44 | `str(n)` of any int, with "-" exactly for negatives |
| Text.ParseIntToString | opendms/core/security.py:184 | `int(str(n)) == n` for every int |
| Values.FullNameParts | xdms/models/user.py:52-55 | the full name is first name, one space, last name; names free of spaces split back off it |
| Schemas.Optionalized | opendms/schemas/dealership.py:38-56 | the update model has the base model's field names and types, each `Optional[...] = None` |
| Schemas.Project | opendms/schemas/dealership.py:59-69 | a response read off a row has exactly the model's fields, each the row's column (NULL when absent) |
| Schemas.ValidateSucceedsIff | opendms/api/v1/endpoints/dealership.py:32-38 | a body validates iff every field without a default is sent and every sent field's value is accepted, under pydantic's lax conversion of JSON values |
| Schemas.ValidateRequired | opendms/api/v1/endpoints/dealership.py:32-38 | the same, with the required fields as a set included in the body's keys |
| Schemas.ValidatedField | opendms/api/v1/endpoints/dealership.py:32-38 | every field a valid body sends has a value pydantic accepts (after conversion) |
| Schemas.ValidateOne | opendms/api/v1/endpoints/dealership.py:59-72 | a one-field body for an all-optional model validates iff pydantic accepts that value |
| Schemas.ErrorsNameFields | opendms/api/v1/endpoints/dealership.py:32-38 | a missing required field fails validation with `Missing(k)`, a value pydantic cannot convert with `WrongType(k)` |
| Schemas.DumpFields | opendms/api/v1/endpoints/dealership.py:38 | `model_dump()` of a valid body has exactly the declared fields: the converted value sent, else the default |
| Schemas.ValidatedConforms | opendms/api/v1/endpoints/dealership.py:38 | the dump of a valid body is an instance of the model when its defaults are accepted values |
| Schemas.DumpSetFields | opendms/api/v1/endpoints/dealership.py:72 | `exclude_unset` keeps exactly the declared fields that were sent, with the converted values sent, an explicit null included |
| Schemas.EmptyUpdateSetsNothing | opendms/api/v1/endpoints/dealership.py:72-74 | an all-optional model accepts `{}` and then sets nothing |
| Schemas.StringFieldKeeps | opendms/schemas/dealership.py:20-30 | a valid body's string field holds the string sent, else the field's default (NULL without one) |
| Schemas.ParseKeepsTyped | opendms/schemas/service.py:15-25 | a value already of the field's type, or null for an Optional field, is accepted and kept as it is |
| Schemas.ParseIdempotent | opendms/schemas/service.py:15-25 | what a field holds after validation is of its type, and validates to itself |
| Coercion.CoerceTyped | opendms/schemas/service.py:15-25 | the conversion of a JSON value yields a value of the field's type, a Decimal in lowest terms |
| Coercion.CoerceKeepsTyped | opendms/schemas/service.py:15-25 | a value already of the field's type passes through the conversion unchanged |
| Coercion.CoerceIdempotent | opendms/schemas/service.py:15-25 | converting a converted value changes nothing |
| Coercion.StringFieldsTakeStrings | opendms/schemas/inventory.py:15-18 | a `str` field accepts exactly strings (no number or boolean becomes text), and keeps them as sent |
| Coercion.ZeroFractionInts | opendms/schemas/inventory.py:16 | an int's text followed by '.' and zeros only ("2020.", "2020.00") fills an `int` field with that int; a non-zero digit after the point is refused |
| Coercion.IntStrings | opendms/schemas/sale.py:15-18 | the decimal text of an int fills an `int` field with that int, and a `Decimal` field with the same number as the int does |
| Coercion.IntegralDecimals | opendms/schemas/sale.py:24 | an integral Decimal fills an `int` field with its number; a fractional one is refused |
| Coercion.ReduceSameNumber | opendms/schemas/sale.py:18 | a Decimal in lowest terms is the same number: the digits lose k trailing zeros and the exponent gains k |
| Coercion.ReduceReduced | opendms/schemas/sale.py:18 | a Decimal already in lowest terms is left as it is |
| Coercion.ReduceZero | opendms/schemas/sale.py:18 | zero in any exponent is the one zero |
| Coercion.BoolWords | opendms/schemas/dealership.py:63-64 | a `bool` field reads "True", "no" and "OFF" case-insensitively, and refuses "maybe" and the int 2 |
| Coercion.NextDay | opendms/schemas/service.py:18 | consecutive days of a month are consecutive day numbers |
| Coercion.DateWithTime | opendms/schemas/service.py:18 | a date followed by any of the four separators and a time of zero seconds after midnight UTC is the instant of the date alone |
| Coercion.MidnightIsTheDate | opendms/schemas/service.py:18 | a date alone, the same date at "T00:00:00Z" and at " 00:00", "t00:00" and "_00:00" (pydantic's four date-time separators) name the same instant |
| Coercion.ZeroTime | opendms/schemas/service.py:18 | "00:00:00Z" and "00:00" are midnight UTC |
| Coercion.ZoneShift | opendms/schemas/service.py:18 | a zone offset moves the instant back by that much: 02:00+02:00 is midnight UTC, 23:30-0030 the next midnight |
| Coercion.Epoch | opendms/schemas/service.py:18 | "1970-01-01" is Unix time 0 |
| Coercion.LeapDay | opendms/schemas/service.py:18 | February 29th parses in a leap year only |
| Store.Get | opendms/api/v1/endpoints/dealership.py:51-56 | success iff the id is stored, with that row; otherwise the table's 404 |
| Store.List | opendms/api/v1/endpoints/dealership.py:21-29 | success iff skip and limit are non-negative; then exactly the rows at positions [skip, skip+limit) in table order, with no clamp |
| Store.InsertRecord | opendms/api/v1/endpoints/dealership.py:38-41 | the inserted row: the id, each given value unless it is NULL for a column with a default (then the default), both timestamps `now`, and no other column |
| Store.Violation | mdmsga/models/inventory.py:42-69 | a row is refused iff an enum column holds a non-NULL value that is neither a member name nor a member value, or a unique column repeats another row's value; a non-string in an enum column is the StatementError |
| Store.InsertPreserves | mdmsga/models/dealership.py:31 | an insert keeps the table consistent: ids increasing and listed, unique columns unique, enum columns in range, children attached |
| Store.BindInDomain | mdmsga/models/inventory.py:67-69 | a row whose enum columns hold member names or values reads back with member values only |
| Store.BindStored | mdmsga/models/inventory.py:67-69 | a row whose enum columns already hold member values reads back unchanged |
| Store.BindKeepsUnique | mdmsga/models/inventory.py:42 | reading enum columns back never introduces a clash on a unique column |
| Store.CreatePreserves | opendms/api/v1/endpoints/dealership.py:32-42 | create keeps the table consistent, as written and when restricted to the columns |
| Store.UpdatePreserves | opendms/api/v1/endpoints/dealership.py:59-78 | update keeps the table consistent |
| Store.ReplaceKeepsUnique | mdmsga/models/dealership.py:31 | replacing a row by one clashing with no other row keeps the unique columns unique |
| Store.DeletePreserves | opendms/api/v1/endpoints/dealership.py:81-95 | delete with its cascade keeps the table consistent |
| Store.WithoutIncreasing | opendms/api/v1/endpoints/dealership.py:93-94 | removing an id from an increasing id list leaves it increasing, without that id and with every other |
| Store.CreateThenGet | opendms/api/v1/endpoints/dealership.py:32-42 | a successful create restricted to the columns stores one row under a fresh id, appended to the id list and visible to `get`; other rows are unchanged; each create field with a column holds the converted value sent, else its default, a NULL falling back to the column default and an enum label read back as its member's value; a field without a column is not stored |
| Store.CreateIsMapped | opendms/api/v1/endpoints/dealership.py:38 | when every create field has a column, the create as written is the create restricted to the columns |
| Store.CreateTypeError | opendms/api/v1/endpoints/inventory.py:34 | as written, create fails with a TypeError iff the body is valid and the create model has a field with no column; the table is then unchanged |
| Store.CreateFieldColumn | opendms/api/v1/endpoints/dealership.py:38 | one create field's stored value, as above |
| Store.CreateStringField | opendms/api/v1/endpoints/customer.py:34 | a required string field with no enum holds the string sent |
| Store.CreateChoiceField | xdms/models/user.py:38 | an Optional enum field whose choices are member values holds the value sent, else the column default |
| Store.CreateDefaultedField | opendms/schemas/dealership.py:25 | a non-optional field with a default holds the converted value sent, else that default |
| Store.CreateOtherColumns | mdmsga/models/dealership.py:55-56 | columns outside the create model get their column defaults, or NULL when they have none |
| Store.CreateStampsNow | mdmsga/models/dealership.py:59-62 | a new row is created and updated at `now` |
| Store.InsertColumn | opendms/api/v1/endpoints/dealership.py:38-39 | an inserted column holds the argument, unless that is NULL and the column has a default |
| Store.InsertNoOtherColumn | opendms/api/v1/endpoints/dealership.py:38-39 | an inserted row has no column that is neither given, defaulted, a timestamp nor the id |
| Store.UnconstrainedInsertSucceeds | mdmsga/models/dealership.py:31 | a table with no unique and no enum column refuses no insert |
| Store.UnconstrainedCreateSucceeds | opendms/api/v1/endpoints/customer.py:34-37 | so on such a table every valid body is created |
| Store.CreateOutcomes | opendms/api/v1/endpoints/dealership.py:32-42 | create, as written and restricted to the columns, fails with 422 iff the body is invalid, and never with a 404 or other HTTP error; a failed create stores no row |
| Store.UpdateAssignsSentFields | opendms/api/v1/endpoints/dealership.py:72-78 | a successful update assigns exactly the sent fields that have columns (an explicit null included), leaves every other column and every other row alone, and answers the row with the sent fields that have no column on top; `updated_at` becomes `now` iff some column value changed (values compared exactly; the Decimal-into-Float sale columns are not, see "## Left out") |
| Store.UpdateSucceeds | opendms/api/v1/endpoints/dealership.py:59-78 | an update of a stored row succeeds when the body is valid, sends no unique column and no collection, and gives each enum column NULL or a member name or value |
| Store.PatchedColumns | opendms/api/v1/endpoints/dealership.py:72-76 | after the assignments the columns hold the values assigned (enum labels read back as member values), `updated_at` is stamped iff one changed, and nothing else moves; a Decimal is stored exactly, not rounded to a Float column's double (see "## Left out") |
| Store.UpdateOneColumn | opendms/api/v1/endpoints/dealership.py:72-76 | setting one non-unique column to a value its field keeps and its enum binds succeeds on any stored row, which then holds that value read back |
| Store.UpdateCollectionFails | opendms/api/v1/endpoints/inventory.py:68-70 | setting a collection relationship is a TypeError after the 404 check, and changes nothing |
| Store.UpdateUnmappedOnly | opendms/api/v1/endpoints/service.py:82-88 | an update setting only fields without a column writes nothing: no UPDATE, `updated_at` stays, and only the response shows the values sent |
| Store.UpdateWithin | opendms/api/v1/endpoints/service.py:82-88 | the same, for any body whose keys lie in a set of fields with neither a column nor a relationship |
| Store.UpdateNotFound | opendms/api/v1/endpoints/dealership.py:66-70 | the result is the 404 iff the body is valid and the id unknown; every failure changes nothing |
| Store.UpdateIdempotent | opendms/api/v1/endpoints/dealership.py:72-78 | repeating an update, at any later time, returns the same row and changes nothing, for tables whose columns store the values sent exactly; not for a non-binary Decimal sent to a Float sale column (see "## Left out") |
| Store.UpdateByNameRestamps | opendms/api/v1/endpoints/inventory.py:68-72 | a member name sent for an enum column is stored as the member, yet compares unequal to the value read back, so sending it again moves `updated_at` again |
| Store.EmptyUpdateIsGet | opendms/api/v1/endpoints/dealership.py:72-78 | an empty update of a stored row is a `get` and leaves the table as it was |
| Store.DeleteThenGet | opendms/api/v1/endpoints/dealership.py:81-95 | delete fails iff the id is unknown (the 404, nothing changed); afterwards `get` on it is 404, other rows are untouched, and exactly the children pointing at it are gone |
| Store.ListPagesTile | opendms/api/v1/endpoints/dealership.py:28 | page [0, a) followed by page [a, a+b) is page [0, a+b) |
| Store.CreateDuplicateFails | mdmsga/models/dealership.py:31 | creating a row that repeats another row's unique value fails with an uncaught database error and stores nothing |
| Store.CreateUnbindable | mdmsga/models/inventory.py:67-69 | a dumped enum string that is neither a member name nor a value fails with PostgreSQL's DataError and stores nothing |
| Store.UpdateDuplicateFails | mdmsga/models/dealership.py:31 | an update copying another row's unique value fails, uncaught, and changes nothing |
| Store.InsertThenGet | opendms/api/v1/endpoints/dealership.py:38-41 | a successful insert stores the inserted row, enum columns read back as member values, under the next id, which was free, and appends that id to the list |
| Store.InsertFails | opendms/api/v1/endpoints/dealership.py:38-41 | a failed insert is an uncaught database error and leaves rows and ids as they were; the id sequence advances on a unique violation only, not on a bind error or an unknown enum label |
| Store.CreateColumnDefault | mdmsga/models/dealership.py:55-56 | a column outside the create model that has a column default holds that default (as its enum reads it back), as written and restricted |
| Store.CreateDefaultedString | mdmsga/models/dealership.py:44 | a string field with a default and no enum holds the string sent, else the default |
| Store.CreateDuplicateString | mdmsga/models/dealership.py:31 | a required unique string sent equal to another row's value makes create fail, uncaught, with rows and ids unchanged |
| Store.InsertUnbindable | mdmsga/models/inventory.py:67-69 | an enum column given a string that is neither a member name nor a value makes the insert fail with DataError and stores nothing |
| Store.UpdateKeepsColumn | opendms/api/v1/endpoints/dealership.py:72-76 | an update never changes a column the update model has no field for, other than `updated_at` |
| Store.UpdateStepSucceeded | opendms/api/v1/endpoints/dealership.py:59-78 | a successful update had a valid body, a stored id, no collection sent and no clash, and stored the patched row |
| Store.UpdateStepSucceeds | opendms/api/v1/endpoints/dealership.py:59-78 | conversely, under those conditions the update succeeds and stores the patched row |
| Store.CreateAppends | opendms/api/v1/endpoints/dealership.py:32-42 | a created row is listed last |
| Store.SetAttributes | opendms/api/v1/endpoints/dealership.py:73-74 | the `setattr` loop leaves the row overridden by the patch |
| Store.Repository.constructor | opendms/api/v1/endpoints/dealership.py:25 | the repository starts from a consistent table state |
| Store.Repository.Insert | opendms/api/v1/endpoints/dealership.py:38-41 | `db.add` plus commit: the new state and result are `InsertStep`'s (the id sequence advances on success and on a unique violation, and stays on a bind error or an unknown enum label), and consistency is kept |
| Store.Repository.Create | opendms/api/v1/endpoints/dealership.py:32-42 | the new state and result are `CreateStep`'s |
| Store.Repository.Update | opendms/api/v1/endpoints/dealership.py:59-78 | the new state and result are `UpdateStep`'s |
| Store.Repository.Delete | opendms/api/v1/endpoints/dealership.py:81-95 | the new state and result are `DeleteStep`'s |
| Dealerships.Messages | opendms/api/v1/endpoints/dealership.py:87-95 | the 404 detail is "Dealership not found"; a delete answers "Dealership deleted successfully" |
| Dealerships.GetDealerships | opendms/api/v1/endpoints/dealership.py:21-29 | success iff skip, limit >= 0; exactly min(limit, max(0, n - skip)) rows for n stored, the i-th being the row at position skip+i |
| Dealerships.GetDealership | opendms/api/v1/endpoints/dealership.py:45-56 | success iff the id is stored, with its row; otherwise 404 "Dealership not found" |
| Dealerships.CreateDealership | opendms/api/v1/endpoints/dealership.py:32-42 | the table changes as `CreateStep` says, and stays consistent; every create field is a column |
| Dealerships.UpdateDealership | opendms/api/v1/endpoints/dealership.py:59-78 | the table changes as `UpdateStep` says, and stays consistent |
| Dealerships.DeleteDealership | opendms/api/v1/endpoints/dealership.py:81-95 | the table changes as `DeleteStep` says; no child rows go with a dealership |
| Dealerships.CreateRequires | opendms/schemas/dealership.py:11-29 | a create body is valid iff it sends name, dealer_number, address_line_1, city, state and zip_code, and all sent values are accepted |
| Dealerships.RequiredCreateFields | opendms/schemas/dealership.py:14-24 | exactly those six fields lack a default |
| Dealerships.UpdateAllOptional | opendms/schemas/dealership.py:38-56 | the update model has the base fields, all optional, so `{}` is valid and sets nothing |
| Dealerships.ResponseFields | opendms/schemas/dealership.py:59-66 | the response is the base fields plus id, is_active, is_verified, created_at and updated_at, read off the row |
| Dealerships.ColumnDefaults | mdmsga/models/dealership.py:44-62 | the column defaults: country "USA", active, unverified, timestamps `now` |
| Dealerships.CreateDefaults | mdmsga/models/dealership.py:55-56 | a new dealership is active and unverified |
| Dealerships.CreateTimestamps | mdmsga/models/dealership.py:59-62 | and is created and updated at `now` |
| Dealerships.CreateCountry | opendms/schemas/dealership.py:25 | a new dealership's country is the one sent, else "USA" |
| Dealerships.DuplicateDealerNumber | mdmsga/models/dealership.py:31 | a repeated dealer_number fails with an uncaught error and stores nothing |
| Dealerships.UnknownDealership | opendms/api/v1/endpoints/dealership.py:45-95 | get, update and delete of an unknown id give 404 "Dealership not found" and change nothing |
| Vehicles.ParseStatus | mdmsga/models/inventory.py:25-33 | `VehicleStatus(s)` finds the member whose value is `s`, or fails |
| Vehicles.StatusRoundTrip | mdmsga/models/inventory.py:25-33 | the six values are distinct and each parses back to its member |
| Vehicles.StatusMembersAgree | mdmsga/models/inventory.py:25-33 | the enum maps each member name to its value, and no name is another member's value |
| Vehicles.Messages | opendms/api/v1/endpoints/inventory.py:77-91 | the 404 detail is "Vehicle not found"; a delete answers "Vehicle deleted successfully" |
| Vehicles.StoredStatus | mdmsga/models/inventory.py:67-69 | a stored vehicle's status is NULL or one of the six members |
| Vehicles.GetVehicles | opendms/api/v1/endpoints/inventory.py:17-25 | success iff skip, limit >= 0; exactly min(limit, max(0, n - skip)) rows for n stored, the i-th being the row at position skip+i |
| Vehicles.GetVehicle | opendms/api/v1/endpoints/inventory.py:41-52 | success iff the id is stored, with its row; otherwise 404 "Vehicle not found" |
| Vehicles.CreateVehicle | opendms/api/v1/endpoints/inventory.py:28-38 | the table changes as `CreateStep` says, and stays consistent: every valid body fails with a TypeError and changes nothing |
| Vehicles.UpdateVehicle | opendms/api/v1/endpoints/inventory.py:55-74 | the table changes as `UpdateStep` says, and stays consistent |
| Vehicles.DeleteVehicle | opendms/api/v1/endpoints/inventory.py:77-91 | the table changes as `DeleteStep` says; the vehicle's images are deleted with it |
| Vehicles.CreateRequires | opendms/schemas/inventory.py:12-33 | a create body is valid iff it sends vin, year, make and model, and pydantic accepts every sent value ("2020" for `year`, an int for `price`) |
| Vehicles.RequiredCreateFields | opendms/schemas/inventory.py:15-18 | exactly those four fields lack a default |
| Vehicles.CreateStatus | opendms/schemas/inventory.py:30 | with the columns only, a new vehicle's status is the member the string sent names, by name or by value, read back as its value; else "available" |
| Vehicles.CreateTimestamps | mdmsga/models/inventory.py:78-81 | a new vehicle is created and updated at `now` |
| Vehicles.CreateRaisesTypeError | opendms/api/v1/endpoints/inventory.py:34 | as written, every valid create body fails with a TypeError (drivetrain, price, cost and condition are no attributes, images is a collection), and the table is unchanged |
| Vehicles.CreateDropsUnmapped | mdmsga/models/inventory.py:36-90 | with the columns only, none of those fields is stored |
| Vehicles.CreateStatusByName | mdmsga/models/inventory.py:67-69 | a status sent as the member name "SOLD" is stored and read back as "sold" |
| Vehicles.CreateBadStatus | mdmsga/models/inventory.py:67-69 | a status string that is neither a member name nor a value passes request validation, then fails with a DataError when the row is written, storing nothing |
| Vehicles.AnyStatusTransition | opendms/api/v1/endpoints/inventory.py:68-70 | any stored vehicle can be updated to any member status: there are no transition rules |
| Vehicles.UpdateStatusByName | opendms/api/v1/endpoints/inventory.py:68-72 | an update sending any member's name succeeds, reads back as the member's value, and stamps `updated_at` |
| Vehicles.UpdateImagesFails | opendms/api/v1/endpoints/inventory.py:68-70 | an update setting `images` is a TypeError and changes nothing |
| Vehicles.UpdateUnmappedOnly | opendms/api/v1/endpoints/inventory.py:68-74 | an update setting only drivetrain, price, cost or condition writes nothing; only the response shows them |
| Vehicles.DuplicateVin | mdmsga/models/inventory.py:42 | a repeated VIN fails with an uncaught error and stores nothing |
| Vehicles.UnknownVehicle | opendms/api/v1/endpoints/inventory.py:41-91 | get, update and delete of an unknown id give 404 "Vehicle not found" and change nothing |
| Vehicles.NewImageDefaults | mdmsga/models/inventory.py:102-103 | a new image is not primary and has sort order 0, unless given |
| Customers.Messages | opendms/api/v1/endpoints/customer.py:77-91 | the 404 detail is "Customer not found"; a delete answers "Customer deleted successfully" |
| Customers.GetCustomers | opendms/api/v1/endpoints/customer.py:17-25 | success iff skip, limit >= 0; exactly min(limit, max(0, n - skip)) rows for n stored, the i-th being the row at position skip+i |
| Customers.GetCustomer | opendms/api/v1/endpoints/customer.py:41-52 | success iff the id is stored, with its row; otherwise 404 "Customer not found" |
| Customers.CreateCustomer | opendms/api/v1/endpoints/customer.py:28-38 | the table changes as `CreateStep` says, and stays consistent; every create field is a column |
| Customers.UpdateCustomer | opendms/api/v1/endpoints/customer.py:55-74 | the table changes as `UpdateStep` says, and stays consistent |
| Customers.DeleteCustomer | opendms/api/v1/endpoints/customer.py:77-91 | the table changes as `DeleteStep` says; a note survives iff it belonged to another customer |
| Customers.CreateRequires | opendms/schemas/customer.py:11-26 | a create body is valid iff it sends first_name and last_name, and all sent values are accepted |
| Customers.RequiredCreateFields | opendms/schemas/customer.py:14-15 | exactly first_name and last_name lack a default |
| Customers.UpdateAllOptional | opendms/schemas/customer.py:35-50 | the update model has the base fields, all optional, so `{}` is valid and sets nothing |
| Customers.ResponseFields | opendms/schemas/customer.py:53-61 | the response is the base fields plus id, dealership_id, the two flags and the timestamps |
| Customers.ColumnDefaults | opendms/models/customer.py:43-44 | the column defaults: active and unverified |
| Customers.CreateStoresNullDealership | opendms/models/customer.py:20 | every valid create body is stored with the NOT NULL `dealership_id` NULL, since `CustomerCreate` has no such field and the column no default |
| Customers.CreateDefaults | opendms/models/customer.py:43-44 | a new customer is active and unverified |
| Customers.CreateTimestamps | opendms/models/customer.py:47-50 | a new customer is created and updated at `now` |
| Customers.CreateCountry | opendms/schemas/customer.py:23 | a new customer's country is the one sent, else "USA" |
| Customers.CreatedFullName | opendms/models/customer.py:60-63 | a created customer keeps the names sent, and its full name joins them with a space |
| Customers.UnknownCustomer | opendms/api/v1/endpoints/customer.py:41-91 | get, update and delete of an unknown id give 404 "Customer not found" and change nothing |
| Sales.ParseStatus | xdms/models/sale.py:14-20 | `SaleStatus(s)` finds the member whose value is `s`, or fails |
| Sales.StatusRoundTrip | xdms/models/sale.py:14-20 | the five values are distinct and each parses back to its member |
| Sales.StatusMembersAgree | xdms/models/sale.py:14-20 | the enum maps each member name to its value, and no name is another member's value |
| Sales.Messages | opendms/api/v1/endpoints/sale.py:77-91 | the 404 detail is "Sale not found"; a delete answers "Sale deleted successfully" |
| Sales.StoredStatus | xdms/models/sale.py:37 | a stored sale's status is NULL or one of the five members |
| Sales.SaleNumbersUnique | xdms/models/sale.py:29 | no two stored sales share a non-NULL sale_number |
| Sales.GetSales | opendms/api/v1/endpoints/sale.py:17-25 | success iff skip, limit >= 0; exactly min(limit, max(0, n - skip)) rows for n stored, the i-th being the row at position skip+i |
| Sales.GetSale | opendms/api/v1/endpoints/sale.py:41-52 | success iff the id is stored, with its row; otherwise 404 "Sale not found" |
| Sales.CreateSale | opendms/api/v1/endpoints/sale.py:28-38 | the table changes as `CreateStep` says, and stays consistent: every valid body fails with a TypeError and changes nothing |
| Sales.UpdateSale | opendms/api/v1/endpoints/sale.py:55-74 | the table changes as `UpdateStep` says, and stays consistent; the four Decimal fields stored in Float columns are kept exact (see "## Left out") |
| Sales.DeleteSale | opendms/api/v1/endpoints/sale.py:77-91 | the table changes as `DeleteStep` says; the sale's items are deleted with it |
| Sales.CreateRequires | opendms/schemas/sale.py:12-28 | a create body is valid iff it sends vehicle_id, customer_id, salesperson_id and sale_price, and pydantic accepts every sent value (an int or a numeric string for a Decimal) |
| Sales.RequiredCreateFields | opendms/schemas/sale.py:15-18 | exactly those four fields lack a default |
| Sales.UpdateAllOptional | opendms/schemas/sale.py:37-53 | the update model has the base fields, all optional, so `{}` is valid and sets nothing |
| Sales.ResponseFields | opendms/schemas/sale.py:56-64 | the response is the base fields plus id, dealership_id, sale_date, status and the timestamps |
| Sales.SaleTypeDefault | opendms/schemas/sale.py:26 | the validated sale_type is the one sent, else "retail" |
| Sales.CreatePendingNoTotal | xdms/models/sale.py:37-44 | with the columns only, a new sale is pending, and its total_amount is not computed (NULL) |
| Sales.IntegerPrice | opendms/schemas/sale.py:18 | an int sale_price such as 25000 is accepted and converted to the Decimal of the same number |
| Sales.CreateTimestamps | xdms/models/sale.py:57-58 | with the columns only, a new sale is created and updated at `now` |
| Sales.CreateRaisesTypeError | opendms/api/v1/endpoints/sale.py:34 | as written, every valid create body fails with a TypeError (salesperson_id, sale_price and five more fields are no attributes of `Sale`), and the table is unchanged |
| Sales.CreateDropsUnmapped | xdms/models/sale.py:23-65 | with the columns only, none of those fields is stored |
| Sales.UpdateKeepsStatus | opendms/schemas/sale.py:37-53 | an update never changes the status, which is not an update field |
| Sales.UpdateUnmappedOnly | opendms/api/v1/endpoints/sale.py:68-74 | an update setting only fields without a column writes nothing; only the response shows them |
| Sales.UnknownSale | opendms/api/v1/endpoints/sale.py:41-91 | get, update and delete of an unknown id give 404 "Sale not found" and change nothing |
| Sales.NewItemDefaults | xdms/models/sale.py:82 | a new sale item has quantity 1 unless given |
| Services.ParseStatus | opendms/models/service.py:25-32 | `AppointmentStatus(s)` finds the member whose value is `s`, or fails |
| Services.StatusRoundTrip | opendms/models/service.py:25-32 | the five values are distinct and each parses back to its member |
| Services.ParseWorkOrderStatus | opendms/models/service.py:35-42 | `WorkOrderStatus(s)` finds the member whose value is `s`, or fails |
| Services.WorkOrderStatusRoundTrip | opendms/models/service.py:35-42 | the five values are distinct and each parses back to its member |
| Services.StatusMembersAgree | opendms/models/service.py:25-32 | the appointment enum maps each member name to its value, and no name is another member's value |
| Services.WorkOrderMembersAgree | opendms/models/service.py:35-42 | the work-order enum's values are the five values |
| Services.Messages | opendms/api/v1/endpoints/service.py:102-110 | the 404 detail is "Service appointment not found"; a delete answers "Service appointment deleted successfully" |
| Services.StoredStatus | opendms/models/service.py:60-62 | a stored appointment's status is NULL or one of the five members |
| Services.AppointmentNumbersUnique | opendms/models/service.py:51 | no two appointments share a non-NULL appointment_number |
| Services.WorkOrdersConsistent | opendms/models/service.py:94-109 | every work order belongs to a stored appointment, no two share a non-NULL work_order_number, and each status is NULL or a member |
| Services.GetServiceAppointments | opendms/api/v1/endpoints/service.py:21-29 | success iff skip, limit >= 0; exactly min(limit, max(0, n - skip)) rows for n stored, the i-th being the row at position skip+i |
| Services.GetServiceAppointment | opendms/api/v1/endpoints/service.py:45-61 | success iff the id is stored, with its row; otherwise 404 "Service appointment not found" |
| Services.CreateServiceAppointment | opendms/api/v1/endpoints/service.py:32-42 | the table changes as `CreateStep` says, and stays consistent: every valid body fails with a TypeError and changes nothing |
| Services.UpdateServiceAppointment | opendms/api/v1/endpoints/service.py:64-88 | the table changes as `UpdateStep` says, and stays consistent |
| Services.DeleteServiceAppointment | opendms/api/v1/endpoints/service.py:91-110 | the table changes as `DeleteStep` says; a work order survives iff it belonged to another appointment |
| Services.CreateRequires | opendms/schemas/service.py:12-25 | a create body is valid iff it sends customer_id, vehicle_id, service_advisor_id, appointment_date and service_type, and pydantic accepts every sent value (an ISO string or Unix time for the date) |
| Services.RequiredCreateFields | opendms/schemas/service.py:15-19 | exactly those five fields lack a default |
| Services.AppointmentDateAccepts | opendms/schemas/service.py:18 | the date field accepts a string iff it is an ISO 8601 date or date-time or an integer, and an ISO string becomes the instant it names |
| Services.EpochAppointment | opendms/schemas/service.py:18 | "1970-01-01" is accepted as the epoch |
| Services.UpdateAllOptional | opendms/schemas/service.py:34-47 | the update model has the base fields, all optional, so `{}` is valid and sets nothing |
| Services.ResponseFields | opendms/schemas/service.py:50-59 | the response is the base fields plus id, dealership_id, the actuals, completed_at and the timestamps |
| Services.PriorityDefault | opendms/schemas/service.py:23 | the validated priority is the one sent, else "normal" |
| Services.CreateStatus | opendms/schemas/service.py:24 | with the columns only, a new appointment's status is the member the string sent names, by name or by value, read back as its value; else "scheduled" |
| Services.CreateNoReminder | opendms/models/service.py:73 | with the columns only, a new appointment has `reminder_sent` false |
| Services.CreateTimestamps | opendms/models/service.py:76-79 | with the columns only, a new appointment is created and updated at `now` |
| Services.CreateBadStatus | opendms/models/service.py:60-62 | a status string that is neither a member name nor a value passes validation, then fails with a DataError when written, and stores no row |
| Services.CreateRaisesTypeError | opendms/api/v1/endpoints/service.py:38 | as written, every valid create body fails with a TypeError (priority and estimated_cost are no attributes), and the table is unchanged |
| Services.CreateDropsUnmapped | opendms/models/service.py:45-86 | with the columns only, neither priority nor estimated_cost is stored |
| Services.AnyStatusTransition | opendms/api/v1/endpoints/service.py:82-84 | any stored appointment can be updated to any member status |
| Services.UpdateUnmappedOnly | opendms/api/v1/endpoints/service.py:82-88 | an update setting only priority or estimated_cost writes nothing: the row and `updated_at` stay, and only the response shows them |
| Services.UnknownAppointment | opendms/api/v1/endpoints/service.py:45-110 | get, update and delete of an unknown id give 404 "Service appointment not found" and change nothing |
| Services.NewWorkOrderDefaults | opendms/models/service.py:107-109 | a new work order is pending unless a status is given |
| Users.ParseRole | xdms/models/user.py:14-25 | `UserRole(s)` finds the member whose value is `s`, or fails |
| Users.RoleRoundTrip | xdms/models/user.py:14-25 | the ten values are distinct, each parses back to its member, and the enum maps the member's name to it |
| Users.RoleMembersAgree | xdms/models/user.py:14-25 | the enum maps each member name to its value, and no name is a member value |
| Users.Messages | opendms/api/v1/endpoints/user.py:77-91 | the 404 detail is "User not found"; a delete answers "User deleted successfully" |
| Users.StoredRole | xdms/models/user.py:38-60 | a stored user's role is NULL or a member, and `is_admin` holds iff it is SUPER_ADMIN or DEALER_ADMIN |
| Users.EmailsUnique | xdms/models/user.py:34 | no two stored users share a non-NULL email |
| Users.GetUsers | opendms/api/v1/endpoints/user.py:17-25 | success iff skip, limit >= 0; exactly min(limit, max(0, n - skip)) rows for n stored, the i-th being the row at position skip+i |
| Users.GetUser | opendms/api/v1/endpoints/user.py:41-52 | success iff the id is stored, with its row; otherwise 404 "User not found" |
| Users.CreateUser | opendms/api/v1/endpoints/user.py:28-38 | the table changes as `CreateStep` says, and stays consistent: every valid body fails with a TypeError (`password` is no attribute of `User`) and changes nothing |
| Users.UpdateUser | opendms/api/v1/endpoints/user.py:55-74 | the table changes as `UpdateStep` says: the set columns are written; a password sent is set on the instance only |
| Users.DeleteUser | opendms/api/v1/endpoints/user.py:77-91 | the table changes as `DeleteStep` says; no child rows |
| Users.CreateRequires | xdms/schemas/user.py:12-27 | a create body is valid iff it sends email, password, first_name and last_name, and pydantic accepts every sent value ("5" for `dealership_id`) |
| Users.RequiredCreateFields | xdms/schemas/user.py:22-27 | exactly those four fields lack a default |
| Users.UpdateFields | xdms/schemas/user.py:30-32 | the update model is the base fields plus password, all optional |
| Users.ResponseFields | xdms/schemas/user.py:35-45 | the response is the base fields plus id, the flags, avatar_url, the timestamps and last_login; never a password or hash |
| Users.CreateRole | xdms/models/user.py:38 | with the columns only, a new user's role is the one sent, else "viewer"; a user created without a role is not an admin |
| Users.CreateDefaults | xdms/models/user.py:39-40 | with the columns only, a new user is active and unverified |
| Users.CreateTimestamps | xdms/models/user.py:45-46 | with the columns only, a new user is created and updated at `now` |
| Users.CreateRaisesTypeError | opendms/api/v1/endpoints/user.py:34 | as written, every valid create body fails with a TypeError, since `password` is no attribute of `User`, and the table is unchanged |
| Users.CreateDropsPassword | xdms/models/user.py:28-50 | with the columns only, no password is stored and `hashed_password` is NULL |
| Users.PasswordSent | xdms/schemas/user.py:25 | a valid create body carries a password string |
| Users.UpdatePasswordOnly | opendms/api/v1/endpoints/user.py:68-74 | an update sending only a password writes nothing: the row and `updated_at` stay; the password is set on the returned instance only, and the `UserResponse` answer drops it |
| Users.AnyRoleChange | opendms/api/v1/endpoints/user.py:68-70 | any stored user can be updated to any member role |
| Users.CreatedFullName | xdms/schemas/user.py:47-50 | with the columns only, a created user keeps the names sent, and its full name joins them with a space |
| Users.DuplicateEmail | xdms/models/user.py:34 | with the columns only, a repeated email fails with an uncaught error and stores nothing |
| Users.UnknownUser | opendms/api/v1/endpoints/user.py:41-91 | get, update and delete of an unknown id give 404 "User not found" and change nothing |
| Crypto.VerifyHashed | opendms/core/security.py:98-122 | under a sound hasher the hash of a password verifies against it; a missing hash verifies against nothing |
| AuthSchemas.TokenRefreshFields | mdmsga/schemas/auth.py:21-24 | a refresh request is valid iff it sends a string refresh_token, and parses to that field alone |
| AuthSchemas.UserLoginRequires | mdmsga/schemas/auth.py:27-31 | a login request is valid iff it sends an email and a password, both strings |
| AuthSchemas.RequiredUserCreateFields | mdmsga/schemas/auth.py:34-40 | email, password, first_name and last_name are the fields without a default |
| AuthSchemas.UserCreateDefaults | mdmsga/schemas/auth.py:41-43 | a role left out is "viewer", a phone or dealership left out is None, a dealership sent is its converted value, and the parse conforms to `UserCreate` |
| UserCrud.GetUser | opendms/crud/user.py:14-16 | the row with that id, or None |
| UserCrud.FirstByEmail | opendms/crud/user.py:19-21 | a found id is listed and its row has exactly that email |
| UserCrud.FirstByEmailFinds | opendms/crud/user.py:19-21 | the search finds an id iff some listed row has the email, and then the first: every earlier row has another email |
| UserCrud.GetUserByEmail | opendms/crud/user.py:19-21 | a result is a stored row whose email equals the query exactly (case-sensitive) |
| UserCrud.GetUserByEmailIsTheRow | opendms/crud/user.py:19-21 | in a consistent table the query answers the one row with that email, and None iff no row has it |
| UserCrud.ConformingIsReadable | opendms/crud/user.py:24-34 | every `UserCreate` instance has the attributes `create_user` reads |
| UserCrud.ValidatedIsReadable | opendms/crud/user.py:24-34 | a valid registration body parses to such an instance, carrying the email and password sent |
| UserCrud.CreateUser | opendms/crud/user.py:24-38 | the table changes as the hashing create step says, and stays consistent |
| UserCrud.UserRecordColumns | opendms/crud/user.py:26-34 | the constructor arguments: the hash of the password, the six copied fields, and no plain password |
| UserCrud.CreateStoresHash | opendms/crud/user.py:28 | the stored user holds the password's hash and never the password; under a sound hasher the password verifies against it |
| UserCrud.CreateCopiesField | opendms/crud/user.py:26-34 | email, both names, phone and dealership_id are stored as given |
| UserCrud.CreateRole | opendms/crud/user.py:31 | a null role falls back to "viewer"; a role string sent is stored as the value of the member it names, by name or by value |
| UserCrud.CreateRoleByName | opendms/crud/user.py:31 | a role sent as a member name (e.g. "VIEWER") is stored as that member's value |
| UserCrud.CreateBadRole | opendms/crud/user.py:31 | a role that is neither a member name nor a value fails with a DataError when the row is written; no row is stored |
| UserCrud.CreateThenGetUser | opendms/crud/user.py:35-38 | after a successful create the table holds the user under the next id, and `get_user` returns it |
| Security.AuthenticateUser | opendms/core/security.py:125-145 | a result is a stored row with exactly that email whose hash the password verifies against |
| Security.AccessClaimsShape | opendms/core/security.py:37-44 | the claims are exactly `exp` and `sub = str(subject)`; exp is now + delta for a truthy delta, else now + 30 minutes |
| Security.RefreshClaimsShape | opendms/core/security.py:64-69 | the same two claims (7 days by default) plus `type = "refresh"` |
| Security.AccessTokenVerifies | opendms/core/security.py:37-48 | under a sound codec an access token verifies to `str(subject)` until its expiry, and to None after |
| Security.RefreshTokenVerifies | opendms/core/security.py:86-93 | a refresh token verifies exactly as an access token with the same subject and expiry: `type` is not inspected |
| Security.VerifyTokenFailures | opendms/core/security.py:86-95 | a token that does not decode, or has no `sub` claim, verifies to None, and a result is always the token's `sub`; nothing raises |
| Security.AuthenticateUserIff | opendms/core/security.py:140-145 | in a consistent table, authentication answers user `id` iff that user has the email and the password verifies against their hash |
| Security.AuthenticateFailsAlike | opendms/core/security.py:140-145 | an unknown email and a wrong password both give None |
| Security.CreatedUserAuthenticates | opendms/core/security.py:140-145 | a user made by the hashing `create_user` authenticates with the password they registered |
| Security.StripBearerPrefix | opendms/core/security.py:177-178 | "Bearer " + t strips to t; a value not starting with "Bearer " is unchanged |
| Security.GetCurrentUserCases | opendms/core/security.py:165-188 | a missing or empty cookie, a token that does not verify, and a subject naming no user all give the same 401; a non-integer subject is a ValueError; otherwise the subject's user |
| Security.ActiveUserIff | opendms/core/security.py:205-208 | the active check adds only a 400 "Inactive user", for a found user whose `is_active` is present and falsy |
| Security.BearerCookieResolves | opendms/core/security.py:171-188 | a cookie of "Bearer " and an unexpired token issued for a stored user's id resolves to that user |
| MdmsgaSecurity.CookieVersionStrips | mdmsga/core/security.py:165-173 | the cookie version answers, for a non-empty cookie, what this one answers for the cookie less any "Bearer " prefix |
| MdmsgaSecurity.GetCurrentUserCases | mdmsga/core/security.py:159-173 | an invalid token and an unknown user give the same 401; a non-integer subject is a ValueError; otherwise the subject's user |
| MdmsgaSecurity.ActiveUserIff | mdmsga/core/security.py:190-193 | for a row with the column, 400 iff `is_active` is falsy, as the cookie version decides |
| MdmsgaSecurity.IssuedTokenResolves | mdmsga/core/security.py:165-173 | an unexpired token issued for a stored user's id resolves to that user |
| XdmsAuth.Register | xdms/api/v1/endpoints/auth.py:104-122 | the new table state and result are the register step's, and the table stays consistent |
| XdmsAuth.LoginFailures | xdms/api/v1/endpoints/auth.py:35-46 | an unknown email and a wrong password give the same 401 "Incorrect email or password"; an authenticated inactive user gets 400 "Inactive user" |
| XdmsAuth.LoginTokens | xdms/api/v1/endpoints/auth.py:48-60 | a successful login answers "bearer", the user as a `UserResponse`, and an access and a refresh token that verify to the user's id for 30 minutes and 7 days |
| XdmsAuth.RefreshFailures | xdms/api/v1/endpoints/auth.py:75-87 | a token that does not verify, an empty subject, a missing user and an inactive one all give 401 "Invalid refresh token" |
| XdmsAuth.RefreshAcceptsAccessToken | xdms/api/v1/endpoints/auth.py:75-80 | a login's access token is accepted by refresh while unexpired, for an active user |
| XdmsAuth.RefreshOfUserId | xdms/api/v1/endpoints/auth.py:75-101 | any token verifying to an active user's decimal id is refreshed to that user's tokens |
| XdmsAuth.RegisterTakenEmail | xdms/api/v1/endpoints/auth.py:114-119 | a taken email gives 400 "User with this email already exists" and changes nothing |
| XdmsAuth.RegisterIsCreate | xdms/api/v1/endpoints/auth.py:114-122 | a successful registration is the hashing `create_user` of the parsed body, for an email no user has |
| XdmsAuth.RegisterCreatesOne | xdms/api/v1/endpoints/auth.py:121-122 | it adds exactly one user under the next id, keeps the table consistent, answers a `UserResponse`, and the user can then authenticate with the password sent |
| XdmsAuth.MeIsActiveUser | xdms/api/v1/endpoints/auth.py:125-132 | `/me` answers the active current user as a `UserResponse`, and fails exactly as the mdmsga dependency `get_current_active_user(db, token)` does |
| Web.LoginForm | opendms/main.py:271-314 | the answer is a redirect iff authentication succeeds and the user is active |
| Web.UserHasId | opendms/main.py:302 | a stored user row carries its own integer id |
| Web.LoginFormFailures | opendms/main.py:284-297 | a failed authentication gives the login page, 401, "Invalid email or password"; an inactive user gets 401 "Account is inactive" |
| Web.LoginCookieResolves | opendms/main.py:299-313 | a success is a 302 to "/dashboard" setting the http-only, lax `access_token` cookie with max-age 1800; sent back, it resolves to the user until then and gives 401 after |
| Web.LoginCookieIsActive | opendms/main.py:306-313 | while it lives, the cookie also passes the active-user dependency |
| Settings.TokenDefaults | opendms/core/config.py:25-27 | HS256, 30 minutes (1800 s), 7 days (604800 s) |
| Settings.CorsSplit | opendms/core/config.py:35-36 | a string not starting with "[" becomes one origin per comma-separated part, each stripped and comma-free |
| Settings.CorsRoundTrip | opendms/core/config.py:35-36 | the validator, given stripped, comma-free origins joined with ",", returns those origins in order |
| Settings.CorsPassThrough | opendms/core/config.py:37-39 | a list, or a string starting with "[", passes unchanged; any other value is a ValueError, and the only failure |
| Settings.DbUriCredentials | opendms/core/config.py:63-66 | a built URL starts "postgresql://"; before the "@" come "user:password", or "user" alone, or nothing without a user, and the credentials split back into user and password |
| Settings.ValkeyDefaults | opendms/core/config.py:69-85 | the defaults give "redis://localhost:6379/0" |
| Settings.ValkeyPasswordIff | opendms/core/config.py:82-85 | a built Valkey URL carries credentials iff a non-empty password is set, and they are ":" + password |
| Settings.UnsetUrlsAssembled | opendms/core/config.py:49-135 | with none of the four URLs set and the Valkey defaults, `Settings()` builds the postgresql URL from its parts and "redis://localhost:6379/0" for Valkey and both Celery URLs |
| Settings.LoadAssembles | opendms/core/config.py:123-135 | after loading, the database and Valkey URLs are assembled and both Celery URLs fall back to the Valkey URL |
| XdmsSettings.DbPath | xdms/core/config.py:53 | the `path` argument is "/" followed by the database name |
| XdmsSettings.DbConnectionCases | xdms/core/config.py:44-54 | an explicit URI is kept whatever the settings and builder; otherwise the builder is asked for a postgresql URL with the configured credentials, host and port, and "/" + db as path |
| XdmsSettings.LoadAssembles | xdms/core/config.py:41-119 | every URL validator runs on unset fields: an unset database URL is the builder's postgresql URL, the Valkey URL is assembled, and unset Celery URLs fall back to it |
| XdmsSettings.UnsetUrlsAssembled | xdms/core/config.py:41-119 | with none of the four URLs set and the Valkey defaults, the database URL is built from the POSTGRES_* values and all three others are `redis://localhost:6379/0` |
| ServiceWorker.ClassifyIff | opendms/static/sw.js:66-94 | each route is taken iff its test is the first to pass: non-GET, "/api/", "/static/" or a CDN origin, a missing Accept, "text/html", else default |
| ServiceWorker.ApiBeforeStatic | opendms/static/sw.js:72-82 | a GET under "/api/" is an API request, even when the path goes on with "/static/", whatever the query |
| ServiceWorker.MatchIn | opendms/static/sw.js:123 | a match is a listed cache's entry for the URL, query string included; no match means no listed cache holds that URL |
| ServiceWorker.RemoveKeepsValid | opendms/static/sw.js:49 | deleting a cache keeps the storage valid: names distinct and a cache for exactly the listed names |
| ServiceWorker.PutStores | opendms/static/sw.js:117-118 | a put keeps the storage valid, stores the response under the full URL (query string included), and changes no other entry |
| ServiceWorker.MatchOnly | opendms/static/sw.js:123 | a URL, query string included, held by exactly one cache is matched to that cache's response |
| ServiceWorker.PartialStep | opendms/static/sw.js:46-50 | one step of activation: a kept name changes nothing, any other is deleted |
| ServiceWorker.ActivateTurn | opendms/static/sw.js:46-50 | each loop turn starts from a valid storage; the static and dynamic names are kept, any other removed |
| ServiceWorker.PrunedKeeps | opendms/static/sw.js:45-52 | activation leaves a valid storage with exactly the kept names, their contents unchanged; activating again changes nothing |
| ServiceWorker.NetworkStoresOnly200 | opendms/static/sw.js:114-120 | a fetched response is answered as is; only a 200 is stored, in the named cache under the request's full URL |
| ServiceWorker.ApiOffline | opendms/static/sw.js:121-139 | offline, the API handler changes nothing and answers the cached response, else the 503 "Service Unavailable" JSON body with `offline: true` |
| ServiceWorker.ApiOfflineReplay | opendms/static/sw.js:112-126 | a 200 fetched online is what the handler answers offline for the same URL and query, when no cache held it before |
| ServiceWorker.ApiOtherQueryOffline | opendms/static/sw.js:121-139 | a response fetched online for one query string is not answered offline for another: that gets the 503 offline JSON |
| ServiceWorker.StaticCacheFirst | opendms/static/sw.js:145-148 | a cache hit is answered without the network, whatever the fetch would do |
| ServiceWorker.StaticMiss | opendms/static/sw.js:150-161 | on a miss a fetched response is answered (a 200 stored in the static cache); a network failure answers 404 "Not found" |
| ServiceWorker.HtmlOffline | opendms/static/sw.js:174-183 | offline, a page is the cached page, else the cached "/offline.html"; nothing is stored |
| ServiceWorker.NetworkFirstAgree | opendms/static/sw.js:94-108 | online, the HTML and default branches answer and store what the API handler does |
| ServiceWorker.FetchStepCases | opendms/static/sw.js:62-109 | requests left to the browser change nothing; every strategy leaves the caches alone when the network fails; API and static requests are always answered |
| ServiceWorker.CacheStorage.constructor | opendms/static/sw.js:42-43 | the storage starts valid and empty |
| ServiceWorker.CacheStorage.Match | opendms/static/sw.js:123 | searching the caches one by one in creation order answers `MatchAll` |
| ServiceWorker.CacheStorage.Put | opendms/static/sw.js:117-118 | the storage becomes `PutIn` of the old one, keyed on the full URL, and stays valid |
| ServiceWorker.CacheStorage.Delete | opendms/static/sw.js:49 | the name leaves the list and its cache is gone; the result says whether it existed |
| ServiceWorker.CacheStorage.Activate | opendms/static/sw.js:39-59 | the loop over the names leaves `Pruned` of the old storage, and keeps it valid |
| ServiceWorker.HandleApiRequest | opendms/static/sw.js:112-141 | caches and answer are `ApiStep`'s |
| ServiceWorker.HandleStaticRequest | opendms/static/sw.js:144-162 | caches and answer are `StaticStep`'s |
| ServiceWorker.HandleHtmlRequest | opendms/static/sw.js:165-184 | caches and answer are `HtmlStep`'s |
| ServiceWorker.OnFetch | opendms/static/sw.js:62-109 | caches and outcome are `FetchStep`'s |
| ServiceWorker.UndeliveredIff | opendms/static/sw.js:198-210 | a request stays queued iff it was queued and its replay failed |
| ServiceWorker.SyncStep | opendms/static/sw.js:198-210 | one replay removes a delivered request by its id and keeps a failed one |
| ServiceWorker.SyncQueue.constructor | opendms/static/sw.js:196 | the queue holds the pending requests given |
| ServiceWorker.SyncQueue.RemovePendingRequest | opendms/static/sw.js:207 | the queue loses the requests with that id |
| ServiceWorker.SyncQueue.DoBackgroundSync | opendms/static/sw.js:193-215 | after the loop the queue is exactly the requests whose replay failed, in their order |

## Left out

- Real JWT signing and decoding, and bcrypt hashing, are foreign calls. They are parameters, and their properties are hypotheses (`JwtSound`, `HashSound`). This leaves out bcrypt's random salt and its 72-byte truncation.
- `datetime.utcnow()` is the parameter `now`, in whole seconds. Sub-second times are not modelled.
- The database, session, commit and refresh are an in-memory table. Row order is insertion order; PostgreSQL promises no order without ORDER BY.
- NOT NULL constraints are not enforced. A create restricted to the columns that omits a NOT NULL column with no default (`vehicles.stock_number`, `sales.sale_number`, `users.hashed_password`, `service_appointments.appointment_number`, `customers.dealership_id`) succeeds in `MappedCreateStep`; the database would refuse it. For the first four tables the create as written fails earlier, with the TypeError.
- Customers.CreateCustomer: `CustomerCreate` has no `dealership_id` and the column is NOT NULL with no default, so every valid create is refused by PostgreSQL with an IntegrityError and answers 500. The model stores the row, with that column NULL (`Customers.CreateStoresNullDealership`).
- `VARCHAR(n)` lengths are not enforced. A string longer than its column, such as a `state` of "Texas" for `String(2)` or an 18-character VIN for `String(17)`, is stored in the model; PostgreSQL would refuse it with a DataError.
- Foreign-key effects across tables are not modelled. Parents and children of other tables are not checked, and only the declared `delete-orphan` cascade is applied. In the source a parent that still has rows of another table cannot be deleted: for a customer with sales or service appointments, whose relationships have no cascade, SQLAlchemy sets their NOT NULL `customer_id` to NULL, and a dealership still named by a NOT NULL `dealership_id` is refused by its foreign key; either way the commit fails with an IntegrityError and answers 500. `Customers.DeleteCustomer` and `Dealerships.DeleteDealership` delete such a row.
- A relationship given a list on create or update (a list of `VehicleImage` for `images`) is not modelled: `Value` has no lists, so every value sent for a collection is the TypeError.
- Coercion.Coerce covers pydantic's usual JSON conversions only. It leaves out exponent forms, NaN and infinities, surrounding whitespace and underscores in numeric strings (an int field's zero fraction, "2020.00", is modelled), float values (a `Value` has no floats, so neither float timestamps nor float-to-Decimal rounding), date-time fractions beyond six digits, and the difference between naive and aware date-times: every instant is taken as UTC. So an aware date-time resent to a naive `DateTime` column, such as `appointment_date` "2024-05-01T09:00:00Z" (opendms/schemas/service.py:18), is read back naive; an aware and a naive datetime never compare equal in Python, so the source stamps `updated_at` again where the model changes nothing.
- Store.UpdateIdempotent and Sales.UpdateSale: `down_payment`, `trade_in_value`, `interest_rate` and `monthly_payment` are Decimals in `SaleUpdate` (opendms/schemas/sale.py:44-50) but Float columns of the sale stand-in (xdms/models/sale.py:41-50). The model stores the Decimal exactly and compares it exactly. The source rounds it to a double, reads a float back, and compares the Decimal sent with that float. So resending a value with no exact binary form, such as "199.99", compares unequal and stamps `updated_at` again in the source, where the model changes nothing. A second resend stamps `updated_at` again in the source and not in the model: an aware date-time sent to a naive `DateTime` column, such as `appointment_date` "2024-05-01T09:00:00Z" (opendms/schemas/service.py:18), is read back naive, and an aware and a naive datetime never compare equal. `Store.PatchedColumns` and `Store.UpdateAssignsSentFields` share both: their "iff a value changed" is over exact values.
- Sales.UpdateSale: for the same four columns, the stored value is the Decimal sent, not the double PostgreSQL keeps and the float read back.
- `int(subject)` accepts an optional sign and ASCII digits only. Python also allows surrounding whitespace, underscores between digits and non-ASCII Unicode decimal digits such as "١٢". Tokens the application issues carry `str(user.id)`, which uses none of these.
- Response-model validation of the answers is not modelled: `from_attributes` is a projection of the row. This includes `VehicleResponse.is_active`, which names no `Vehicle` column.
- `EmailStr` and `AnyHttpUrl` validation are not modelled. Emails are plain strings, and CORS origins are not checked as URLs.
- `PostgresDsn.build` is the parameter `XdmsSettings.DsnBuilder`. Its URL format is the library's.
- The CORS validator is modelled on the value it receives. The settings source's JSON decoding of an environment or `.env` value for the complex field `BACKEND_CORS_ORIGINS` happens before the validator runs, in both settings classes, and is not modelled. That decoding makes a comma-separated environment value a `SettingsError`, so the split branch is reached only by a string given to the constructor. A string starting with "[" that the validator returns is then refused by the `List[AnyHttpUrl]` list validation, not decoded; the model stops at the validator's answer.
- Environment-variable reading is not modelled. A URL setting is either supplied or unset. `ALGORITHM`, `ACCESS_TOKEN_EXPIRE_MINUTES` and `REFRESH_TOKEN_EXPIRE_DAYS`, which both config.py files also read from the environment, are fixed at their defaults (`Settings.Algorithm`, `Settings.AccessTokenExpireMinutes`, `Settings.RefreshTokenExpireDays`).
- The page routes, middleware and app setup are not modelled; only `login_form` is.
- MeIsActiveUser: `/me` is modelled over the mdmsga `get_current_active_user(db, token)` that xdms/api/v1/endpoints/auth.py:127 names. FastAPI would fill its unannotated `db` and `token` from the query string, where `get_user` on a string crashes; that request wiring, and the cookie dependency xdms/main.py passes elsewhere, are not modelled.
- The service worker's install, push, notificationclick and message listeners, and the IndexedDB stubs `getPendingRequests` and `removePendingRequest`, are not modelled. The queue is a sequence field.
- ServiceWorker.CacheStorage.Activate: `self.clients.claim()` after the deletes (opendms/static/sw.js:56) is not modelled; it changes which pages the worker controls, not the caches.
- ServiceWorker.CacheStorage.Activate: the deletes run one after another. The source starts them together under `Promise.all`. This makes no difference to the final state, but interleavings with other events are not modelled.
- ServiceWorker.OnFetch: an asynchronous `cache.put` is modelled as done before the response is answered. The source does not await it in the default branch, and awaits only the `caches.open` in the handlers.
- ServiceWorker.Classify: a GET with no Accept header is left to the browser. The source's `headers.get("accept").includes` throws there before `respondWith`.
- `response.clone()` and the body streams are not modelled. A response is a value. A URL's fragment is not part of `Url`; the Cache API ignores it.
- Several modules the endpoints import are not part of this model, and each is modelled by a stand-in of the same name from a sibling application: `opendms.models.user` by xdms/models/user.py, `opendms.models.inventory` by mdmsga/models/inventory.py, `opendms.models.sale` by xdms/models/sale.py, `opendms.models.dealership` by mdmsga/models/dealership.py, and `opendms.schemas.user` by xdms/schemas/user.py. Where a stand-in's columns or fields differ from the absent module's, so does the model; the TypeError of the users, vehicles and sales creates rests on the stand-ins' columns.
- xdms/core/security.py and xdms/crud/user.py are not part of this model. The model assumes they provide what opendms/core/security.py and opendms/crud/user.py provide (`verify_token`, `create_user`), with the active-user check of mdmsga/core/security.py.
- The `UserCreate` of the xdms register endpoint, and `opendms.schemas.auth.UserCreate`, which opendms/crud/user.py:11 imports and which is not part of this model, are both modelled by mdmsga/schemas/auth.py.
- `mdmsga.core.config`, whose `settings` mdmsga/core/security.py:12 reads, is not part of this model. `MdmsgaSecurity` assumes it holds the secret key, algorithm and token lifetimes of opendms/core/config.py (`Settings`).
- XdmsSettings.DbConnectionCases: the URI the validator returns, explicit or built, is then validated as a `PostgresDsn` by pydantic, which refuses a string that is not a PostgreSQL URL. That check is not modelled: an explicit URI is kept unchecked.

## Findings

| source | as written | input that shows it | evidently intended | confidence | as-written member | corrected member |
|---|---|---|---|---|---|---|
| opendms/api/v1/endpoints/user.py:34 | `User(**user.model_dump())` passes `password`, which is no attribute of `User`, so the constructor raises a TypeError: every valid body answers 500 and stores nothing, and no password is ever hashed | any valid create body, e.g. email "a@example.com", password "pw", both names | hash the password into `hashed_password` as opendms/crud/user.py:26-34 does, so the new user can log in | not executed; assumes the absent `opendms.models.user` declares the columns of its stand-in xdms/models/user.py | Users.CreateRaisesTypeError | UserCrud.CreateStoresHash |
| opendms/api/v1/endpoints/inventory.py:34 | `Vehicle(**vehicle.model_dump())` passes `drivetrain`, `price`, `cost` and `condition`, which are no attributes of `Vehicle`, and `images` (None), which is a collection: a TypeError for every valid body | any valid body, e.g. vin, year 2020, make and model | pass the fields the model has columns for | not executed; assumes the absent `opendms.models.inventory` declares the columns of its stand-in mdmsga/models/inventory.py | Vehicles.CreateRaisesTypeError | Vehicles.CreateDropsUnmapped |
| opendms/api/v1/endpoints/sale.py:34 | `Sale(**sale.model_dump())` passes `salesperson_id` (the column is `sales_person_id`), `sale_price`, `trade_in_vehicle`, `financing_amount`, `loan_term`, `sale_type` and `payment_method`: a TypeError for every valid body | any valid body, e.g. the three ids and sale_price 25000 | pass the fields the model has columns for | not executed; assumes the absent `opendms.models.sale` declares the columns of its stand-in xdms/models/sale.py | Sales.CreateRaisesTypeError | Sales.CreateDropsUnmapped |
| opendms/api/v1/endpoints/service.py:38 | `ServiceAppointment(**appointment.model_dump())` passes `priority` and `estimated_cost`, which are no attributes of the model: a TypeError for every valid body | any valid body, e.g. the three ids, appointment_date "1970-01-01" and a service_type | pass the fields the model has columns for | not executed | Services.CreateRaisesTypeError | Services.CreateDropsUnmapped |

In the four findings, `CreateStep` is the create as written, and each entity's create method is proved equal to it. `MappedCreateStep` is the create that passes only the fields with columns. The create-side lemmas of those four entities (defaults, timestamps, enum binding, duplicates) are stated about it. For users, the hashing `UserCrud.CreateUser` is the one the register endpoint and the login proofs use, through `Security.CreatedUserAuthenticates`. The opendms settings class is a `pydantic_settings.BaseSettings`, which validates defaults, so its `mode="before"` validators run on unset fields: `Settings.Load` is how it loads, and `Settings.UnsetUrlsAssembled` shows the assembled URLs.
