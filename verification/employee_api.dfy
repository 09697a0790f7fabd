/**
  The request handlers of the employee API over an in-memory picture of its two
  tables: `employee` (a map from id to row) and `admin` (a map from username to
  password, usernames being unique). Every handler body runs inside
  `try … except Exception`: whatever raises, including `get_or_404` on a missing id
  and a commit the database refuses, ends in a rollback and `500 Server error`.
 */
module EmployeeApi {
  import opened Wrappers
  import opened Numerals

  // ---------------------------------------------------------------------------
  // Values

  /** A calendar date, the value of the `hire_date` column. */
  datatype Date = Date(year: int, month: int, day: int)

  predicate IsLeapYear(y: int) {
    y % 4 == 0 && (y % 100 != 0 || y % 400 == 0)
  }

  function DaysInMonth(y: int, m: int): int {
    if m == 2 then (if IsLeapYear(y) then 29 else 28)
    else if m == 4 || m == 6 || m == 9 || m == 11 then 30
    else 31
  }

  /** The dates a MySQL `DATE` column holds: 1000-01-01 to 9999-12-31. */
  predicate ValidDate(d: Date) {
    1000 <= d.year <= 9999 && 1 <= d.month <= 12 && 1 <= d.day <= DaysInMonth(d.year, d.month)
  }

  /** A field of a JSON request body, as far as the handlers tell values apart. */
  datatype Value = Null | Text(s: string) | Day(d: Date)

  /** What `request.get_json()` yields: a JSON object, or anything else. */
  datatype Body = JsonObject(fields: map<string, Value>) | NotAnObject

  /** `data.get(key)`: None when the key is absent. */
  function Get(fields: map<string, Value>, key: string): Value {
    if key in fields then fields[key] else Null
  }

  /** A row of the `employee` table (its id is the key of the table map). */
  datatype Employee = Employee(
    name: string, email: string, position: string, department: string,
    phone: Option<string>, hireDate: Option<Date>)

  type Table = map<int, Employee>

  const NameColumn: string := "name"
  const EmailColumn: string := "email"
  const PositionColumn: string := "position"
  const DepartmentColumn: string := "department"
  const PhoneColumn: string := "phone"
  const HireDateColumn: string := "hire_date"
  const Columns: set<string> := {NameColumn, EmailColumn, PositionColumn, DepartmentColumn, PhoneColumn, HireDateColumn}

  // The declared widths of the string columns (`db.String(n)`).
  const NameWidth: nat := 100
  const EmailWidth: nat := 120
  const PositionWidth: nat := 100
  const DepartmentWidth: nat := 100
  const PhoneWidth: nat := 20

  /** A row the database accepts: every string fits its column and the date is a `DATE`. */
  predicate Storable(e: Employee) {
    && |e.name| <= NameWidth && |e.email| <= EmailWidth
    && |e.position| <= PositionWidth && |e.department| <= DepartmentWidth
    && (e.phone.Some? ==> |e.phone.value| <= PhoneWidth)
    && (e.hireDate.Some? ==> ValidDate(e.hireDate.value))
  }

  /** The column values of a row, as the ORM object holds them. */
  function ColumnValues(e: Employee): (m: map<string, Value>)
    ensures m.Keys == Columns
  {
    map[
      NameColumn := Text(e.name), EmailColumn := Text(e.email),
      PositionColumn := Text(e.position), DepartmentColumn := Text(e.department),
      PhoneColumn := if e.phone.Some? then Text(e.phone.value) else Null,
      HireDateColumn := if e.hireDate.Some? then Day(e.hireDate.value) else Null]
  }

  /** A NOT NULL string column: the value must be text that fits. */
  function RequiredText(v: Value, width: nat): Option<string> {
    if v.Text? && |v.s| <= width then Some(v.s) else None
  }

  /** A nullable string column. */
  function OptionalText(v: Value, width: nat): Option<Option<string>> {
    match v
    case Null => Some(None)
    case Text(s) => if |s| <= width then Some(Some(s)) else None
    case Day(_) => None
  }

  /** The nullable date column. */
  function OptionalDate(v: Value): Option<Option<Date>> {
    match v
    case Null => Some(None)
    case Day(d) => if ValidDate(d) then Some(Some(d)) else None
    case Text(_) => None
  }

  /**
    The row that a commit writes from the object's column values, or None when the
    database refuses it (a NULL in a NOT NULL column, a value of the wrong type,
    a string longer than its column).
   */
  function RowOf(values: map<string, Value>): (row: Option<Employee>)
    requires Columns <= values.Keys
    ensures row.Some? ==> Storable(row.value) && ColumnValues(row.value) == values - (values.Keys - Columns)
    ensures row.None? ==> forall e :: ColumnValues(e) != values - (values.Keys - Columns) || !Storable(e)
  {
    var name := RequiredText(values[NameColumn], NameWidth);
    var email := RequiredText(values[EmailColumn], EmailWidth);
    var position := RequiredText(values[PositionColumn], PositionWidth);
    var department := RequiredText(values[DepartmentColumn], DepartmentWidth);
    var phone := OptionalText(values[PhoneColumn], PhoneWidth);
    var hireDate := OptionalDate(values[HireDateColumn]);
    if name.Some? && email.Some? && position.Some? && department.Some? && phone.Some? && hireDate.Some? then
      var row := Employee(name.value, email.value, position.value, department.value, phone.value, hireDate.value);
      assert ColumnValues(row) == values - (values.Keys - Columns);
      Some(row)
    else
      None
  }

  /** Writing a storable row and reading it back gives the same row. */
  lemma RowOfColumnValues(e: Employee)
    requires Storable(e)
    ensures RowOf(ColumnValues(e)) == Some(e)
  {
  }

  /** No two rows share an email (the UNIQUE constraint on `email`). */
  ghost predicate UniqueEmails(table: Table) {
    forall i, j :: i in table && j in table && i != j ==> table[i].email != table[j].email
  }

  /** No row other than `self` has this email. */
  predicate EmailFree(table: Table, email: string, self: int) {
    forall id :: id in table && id != self ==> table[id].email != email
  }

  // ---------------------------------------------------------------------------
  // Responses

  /** The JSON of one employee in the listing. */
  datatype EmployeeJson = EmployeeJson(
    id: int, name: string, email: string, position: string, department: string,
    phone: Option<string>, hireDate: Option<string>)

  /** A response body: a token (issued for an identity; tokens are opaque), a message or a listing. */
  datatype Payload = TokenFor(identity: string) | Message(text: string) | Listing(employees: seq<EmployeeJson>)

  datatype Response = Response(status: int, payload: Payload)

  const ServerError: Response := Response(500, Message("Server error"))
  const InvalidCredentials: Response := Response(401, Message("Invalid credentials"))

  // ---------------------------------------------------------------------------
  // Login

  const DefaultAdminName: string := "admin"
  const DefaultAdminPassword: string := "admin123"

  /**
    `login`: 200 with a token for the username exactly when an admin with that username
    exists and its stored password equals the given one; 401 otherwise. A body that is
    not a JSON object makes `data.get` raise, giving 500.
   */
  function Login(admins: map<string, string>, body: Body): (r: Response)
    ensures body.NotAnObject? ==> r == ServerError
    ensures body.JsonObject? ==> (r.status == 200 <==>
      && Get(body.fields, "username").Text?
      && Get(body.fields, "username").s in admins
      && Get(body.fields, "password") == Text(admins[Get(body.fields, "username").s]))
    ensures r.status == 200 ==> r.payload == TokenFor(Get(body.fields, "username").s)
    ensures body.JsonObject? && r.status != 200 ==> r == InvalidCredentials
  {
    match body
    case NotAnObject => ServerError
    case JsonObject(fields) =>
      var username := Get(fields, "username");
      var password := Get(fields, "password");
      // filter_by(username=None) matches no row: the column is NOT NULL.
      var admin := if username.Text? && username.s in admins then Some(admins[username.s]) else None;
      if admin.Some? && password.Text? && admin.value == password.s then
        Response(200, TokenFor(username.s))
      else
        InvalidCredentials
  }

  /** The admin table after the startup seeding: `admin`/`admin123` is added only if absent. */
  function SeededAdmins(admins: map<string, string>): (r: map<string, string>)
    ensures DefaultAdminName in r
    ensures DefaultAdminName in admins ==> r == admins
    ensures DefaultAdminName !in admins ==> r == admins[DefaultAdminName := DefaultAdminPassword]
  {
    if DefaultAdminName in admins then admins else admins[DefaultAdminName := DefaultAdminPassword]
  }

  /** Seeding twice is seeding once. */
  lemma SeedingIdempotent(admins: map<string, string>)
    ensures SeededAdmins(SeededAdmins(admins)) == SeededAdmins(admins)
  {
  }

  /** On a fresh admin table, the seeded account can log in with its default password. */
  lemma SeededAdminCanLogIn(admins: map<string, string>)
    requires DefaultAdminName !in admins
    ensures Login(SeededAdmins(admins), JsonObject(map["username" := Text(DefaultAdminName), "password" := Text(DefaultAdminPassword)]))
      == Response(200, TokenFor(DefaultAdminName))
  {
  }

  // ---------------------------------------------------------------------------
  // Listing

  /** `text` is `YYYY-MM-DD` with the numerals of `d`. */
  predicate ShowsDate(text: string, d: Date) {
    && |text| == 10 && text[4] == '-' && text[7] == '-'
    && AllDigits(text[..4]) && AllDigits(text[5..7]) && AllDigits(text[8..])
    && DecimalValue(text[..4]) == d.year && DecimalValue(text[5..7]) == d.month && DecimalValue(text[8..]) == d.day
  }

  /** `hire_date.strftime('%Y-%m-%d')`: the date reads back from the text. */
  function FormatDate(d: Date): (text: string)
    requires ValidDate(d)
    ensures ShowsDate(text, d)
  {
    var text := PaddedDigits(d.year, 4) + "-" + PaddedDigits(d.month, 2) + "-" + PaddedDigits(d.day, 2);
    assert text[..4] == PaddedDigits(d.year, 4);
    assert text[5..7] == PaddedDigits(d.month, 2);
    assert text[8..] == PaddedDigits(d.day, 2);
    PaddedDigitsValue(d.year, 4);
    PaddedDigitsValue(d.month, 2);
    PaddedDigitsValue(d.day, 2);
    text
  }

  /** The JSON entry of row `id`: the same fields, the date as `YYYY-MM-DD` or None. */
  function EmployeeEntry(id: int, e: Employee): (j: EmployeeJson)
    requires e.hireDate.Some? ==> ValidDate(e.hireDate.value)
    ensures j.id == id && Describes(j, e)
  {
    EmployeeJson(id, e.name, e.email, e.position, e.department, e.phone,
      if e.hireDate.Some? then Some(FormatDate(e.hireDate.value)) else None)
  }

  /** What an entry of the listing says about a row. */
  predicate Describes(j: EmployeeJson, e: Employee) {
    && j.name == e.name && j.email == e.email && j.position == e.position
    && j.department == e.department && j.phone == e.phone
    && (j.hireDate.None? <==> e.hireDate.None?)
    && (j.hireDate.Some? ==> ShowsDate(j.hireDate.value, e.hireDate.value))
  }

  /** An entry describes at most one row: the listing loses nothing of a row. */
  lemma DescribesOneRow(j: EmployeeJson, e1: Employee, e2: Employee)
    requires Describes(j, e1) && Describes(j, e2)
    ensures e1 == e2
  {
    if j.hireDate.Some? {
      assert e1.hireDate.value == e2.hireDate.value;
    }
  }

  predicate DatesValid(table: Table) {
    forall id :: id in table && table[id].hireDate.Some? ==> ValidDate(table[id].hireDate.value)
  }

  /** `m` is the smallest of the ids. */
  predicate IsLeast(m: int, ids: set<int>) {
    m in ids && forall k :: k in ids ==> m <= k
  }

  /** A non-empty set of ids has a least element. */
  lemma {:induction false} LeastExists(ids: set<int>)
    requires ids != {}
    ensures exists m :: IsLeast(m, ids)
    decreases |ids|
  {
    if forall y :: y !in ids {
      assert false;
    }
    var x :| x in ids;
    var rest := ids - {x};
    assert x in ids;
    if rest == {} {
      assert ids == {x};
      assert IsLeast(x, ids);
    } else {
      LeastExists(rest);
      var m :| IsLeast(m, rest);
      var least := if x < m then x else m;
      forall k | k in ids
        ensures least <= k
      {
        if k != x {
          assert k in rest;
        }
      }
      assert IsLeast(least, ids);
    }
  }

  /** The smallest element of a non-empty set of ids. */
  function LeastId(ids: set<int>): (m: int)
    requires ids != {}
    ensures IsLeast(m, ids)
  {
    LeastExists(ids);
    var m :| IsLeast(m, ids);
    m
  }

  predicate StrictlyIncreasing(r: seq<int>) {
    forall i, j :: 0 <= i < j < |r| ==> r[i] < r[j]
  }

  /** The ids in ascending order (the order of a primary-key scan). */
  function AscendingIds(ids: set<int>): (r: seq<int>)
    ensures |r| == |ids|
    ensures forall i :: 0 <= i < |r| ==> r[i] in ids
    ensures forall k :: k in ids ==> k in r
    ensures StrictlyIncreasing(r)
    decreases |ids|
  {
    if ids == {} then []
    else
      var m := LeastId(ids);
      var rest := AscendingIds(ids - {m});
      PrependLeast(m, ids, rest);
      [m] + rest
  }

  /** The least id followed by the others in ascending order lists all of them in ascending order. */
  lemma PrependLeast(m: int, ids: set<int>, rest: seq<int>)
    requires IsLeast(m, ids)
    requires |rest| == |ids - {m}|
    requires forall i :: 0 <= i < |rest| ==> rest[i] in ids - {m}
    requires forall k :: k in ids - {m} ==> k in rest
    requires StrictlyIncreasing(rest)
    ensures |[m] + rest| == |ids|
    ensures forall i :: 0 <= i < |[m] + rest| ==> ([m] + rest)[i] in ids
    ensures forall k :: k in ids ==> k in [m] + rest
    ensures StrictlyIncreasing([m] + rest)
  {
    var r := [m] + rest;
    assert forall i :: 0 <= i < |rest| ==> m < rest[i];
    assert forall i :: 1 <= i < |r| ==> r[i] == rest[i - 1];
    forall k | k in ids
      ensures k in r
    {
      if k != m {
        assert k in ids - {m};
      }
    }
  }

  /** The listing says, entry by entry, which row it shows, and it shows every row once, ascending by id. */
  predicate ListsTable(list: seq<EmployeeJson>, table: Table) {
    && |list| == |table|
    && (forall i :: 0 <= i < |list| ==> list[i].id in table && Describes(list[i], table[list[i].id]))
    && (forall id :: id in table ==> exists i :: 0 <= i < |list| && list[i].id == id)
    && (forall i, j :: 0 <= i < j < |list| ==> list[i].id < list[j].id)
  }

  /** Entries made from the ids in ascending order list the whole table. */
  lemma ListingInIdOrder(list: seq<EmployeeJson>, ids: seq<int>, table: Table)
    requires |ids| == |table.Keys| && StrictlyIncreasing(ids)
    requires forall i :: 0 <= i < |ids| ==> ids[i] in table
    requires forall k :: k in table ==> k in ids
    requires |list| == |ids|
    requires forall i :: 0 <= i < |list| ==> list[i].id == ids[i] && Describes(list[i], table[ids[i]])
    ensures ListsTable(list, table)
  {
    forall id | id in table
      ensures exists i :: 0 <= i < |list| && list[i].id == id
    {
      var i :| 0 <= i < |ids| && ids[i] == id;
      assert list[i].id == id;
    }
    assert |table.Keys| == |table|;
  }

  /** Two tables with the same listing are the same table. */
  lemma ListingDeterminesTable(list: seq<EmployeeJson>, t1: Table, t2: Table)
    requires ListsTable(list, t1) && ListsTable(list, t2)
    ensures t1 == t2
  {
    forall id | id in t1
      ensures id in t2 && t1[id] == t2[id]
    {
      var i :| 0 <= i < |list| && list[i].id == id;
      DescribesOneRow(list[i], t1[id], t2[id]);
    }
    forall id | id in t2
      ensures id in t1
    {
      var i :| 0 <= i < |list| && list[i].id == id;
    }
  }

  /**
    `get_employees`: one entry per row, with the row's id and fields and the hire date
    formatted; ascending by id. It reads the table and changes nothing.
   */
  function GetEmployees(table: Table): (r: Response)
    requires DatesValid(table)
    ensures r.status == 200 && r.payload.Listing?
    ensures ListsTable(r.payload.employees, table)
  {
    var ids := AscendingIds(table.Keys);
    var list := seq(|ids|, i requires 0 <= i < |ids| => EmployeeEntry(ids[i], table[ids[i]]));
    forall i | 0 <= i < |list|
      ensures list[i].id == ids[i] && Describes(list[i], table[ids[i]])
    {
      assert list[i] == EmployeeEntry(ids[i], table[ids[i]]);
    }
    ListingInIdOrder(list, ids, table);
    Response(200, Listing(list))
  }

  // ---------------------------------------------------------------------------
  // Adding and updating

  /** The four keys `add_employee` reads with `data[key]`, which raise when absent. */
  const RequiredKeys: set<string> := {NameColumn, EmailColumn, PositionColumn, DepartmentColumn}

  /**
    The column values of the object `add_employee` builds: each column takes
    `data.get(key)`, so an absent `phone` or `hire_date` is None.
   */
  function BodyColumns(fields: map<string, Value>): (values: map<string, Value>)
    ensures values.Keys == Columns
    ensures forall k :: k in Columns ==> values[k] == Get(fields, k)
  {
    map[
      NameColumn := Get(fields, NameColumn), EmailColumn := Get(fields, EmailColumn),
      PositionColumn := Get(fields, PositionColumn), DepartmentColumn := Get(fields, DepartmentColumn),
      PhoneColumn := Get(fields, PhoneColumn), HireDateColumn := Get(fields, HireDateColumn)]
  }

  /**
    The row `add_employee` commits, or None when it answers `500`: the body is not
    an object, one of the four required keys is missing, or the database refuses
    the row built from the body.
   */
  function NewEmployee(body: Body): (row: Option<Employee>)
    ensures body.NotAnObject? ==> row == None
    ensures body.JsonObject? && !(RequiredKeys <= body.fields.Keys) ==> row == None
    ensures row.Some? ==> body.JsonObject? && RequiredKeys <= body.fields.Keys
    ensures row.Some? ==> Storable(row.value) && ColumnValues(row.value) == BodyColumns(body.fields)
    ensures body.JsonObject? && RequiredKeys <= body.fields.Keys && row.None? ==>
      forall e :: ColumnValues(e) != BodyColumns(body.fields) || !Storable(e)
  {
    match body
    case NotAnObject => None
    case JsonObject(fields) =>
      if RequiredKeys <= fields.Keys then
        var values := BodyColumns(fields);
        assert values - (values.Keys - Columns) == values;
        RowOf(values)
      else
        None
  }

  /**
    A body with the four required keys holding texts that fit their columns, and
    neither `phone` nor `hire_date`, adds exactly that employee with no phone and
    no hire date.
   */
  lemma FittingBodyAdded(fields: map<string, Value>, name: string, email: string, position: string, department: string)
    requires Get(fields, NameColumn) == Text(name) && Get(fields, EmailColumn) == Text(email)
    requires Get(fields, PositionColumn) == Text(position) && Get(fields, DepartmentColumn) == Text(department)
    requires PhoneColumn !in fields && HireDateColumn !in fields
    requires |name| <= NameWidth && |email| <= EmailWidth && |position| <= PositionWidth && |department| <= DepartmentWidth
    ensures NewEmployee(JsonObject(fields)) == Some(Employee(name, email, position, department, None, None))
  {
    var e := Employee(name, email, position, department, None, None);
    assert ColumnValues(e) == BodyColumns(fields);
    assert ColumnValues(NewEmployee(JsonObject(fields)).value) == ColumnValues(e) ==> NewEmployee(JsonObject(fields)).value == e by {
      ColumnValuesInjective(NewEmployee(JsonObject(fields)).value, e);
    }
  }

  /** Two rows with the same column values are the same row. */
  lemma ColumnValuesInjective(e: Employee, f: Employee)
    requires ColumnValues(e) == ColumnValues(f)
    ensures e == f
  {
    assert ColumnValues(e)[NameColumn] == ColumnValues(f)[NameColumn];
    assert ColumnValues(e)[EmailColumn] == ColumnValues(f)[EmailColumn];
    assert ColumnValues(e)[PositionColumn] == ColumnValues(f)[PositionColumn];
    assert ColumnValues(e)[DepartmentColumn] == ColumnValues(f)[DepartmentColumn];
    assert ColumnValues(e)[PhoneColumn] == ColumnValues(f)[PhoneColumn];
    assert ColumnValues(e)[HireDateColumn] == ColumnValues(f)[HireDateColumn];
  }

  /**
    The column values after `update_employee` has assigned each field with
    `data.get(key, old_value)`: the request's value if the key is present, else the
    old one.
   */
  function Merge(e: Employee, fields: map<string, Value>): (values: map<string, Value>)
    ensures values.Keys == Columns
    ensures forall k :: k in Columns ==> values[k] == if k in fields then fields[k] else ColumnValues(e)[k]
  {
    map k | k in Columns :: if k in fields then fields[k] else ColumnValues(e)[k]
  }

  /** The row after the merge, or None when the database refuses it at commit. */
  function UpdatedEmployee(e: Employee, fields: map<string, Value>): (u: Option<Employee>)
    ensures u.Some? ==> Storable(u.value) && ColumnValues(u.value) == Merge(e, fields)
    ensures u.None? ==> forall r :: ColumnValues(r) != Merge(e, fields) || !Storable(r)
  {
    var values := Merge(e, fields);
    assert values - (values.Keys - Columns) == values;
    RowOf(values)
  }

  /** An update replaces a field exactly when its key is present. */
  lemma {:induction false} MergeRule(e: Employee, fields: map<string, Value>)
    requires UpdatedEmployee(e, fields).Some?
    ensures var u := UpdatedEmployee(e, fields).value;
      && (NameColumn in fields ==> fields[NameColumn] == Text(u.name))
      && (NameColumn !in fields ==> u.name == e.name)
      && (EmailColumn in fields ==> fields[EmailColumn] == Text(u.email))
      && (EmailColumn !in fields ==> u.email == e.email)
      && (PositionColumn in fields ==> fields[PositionColumn] == Text(u.position))
      && (PositionColumn !in fields ==> u.position == e.position)
      && (DepartmentColumn in fields ==> fields[DepartmentColumn] == Text(u.department))
      && (DepartmentColumn !in fields ==> u.department == e.department)
      && (PhoneColumn in fields ==> fields[PhoneColumn] == ColumnValues(u)[PhoneColumn])
      && (PhoneColumn !in fields ==> u.phone == e.phone)
      && (HireDateColumn in fields ==> fields[HireDateColumn] == ColumnValues(u)[HireDateColumn])
      && (HireDateColumn !in fields ==> u.hireDate == e.hireDate)
  {
    var u := UpdatedEmployee(e, fields).value;
    var m := Merge(e, fields);
    assert ColumnValues(u) == m;
    assert ColumnValues(u)[NameColumn] == m[NameColumn];
    assert ColumnValues(u)[EmailColumn] == m[EmailColumn];
    assert ColumnValues(u)[PositionColumn] == m[PositionColumn];
    assert ColumnValues(u)[DepartmentColumn] == m[DepartmentColumn];
    assert ColumnValues(u)[PhoneColumn] == m[PhoneColumn];
    assert ColumnValues(u)[HireDateColumn] == m[HireDateColumn];
  }

  /** A body naming none of the columns leaves a storable row as it was. */
  lemma EmptyUpdateKeepsRow(e: Employee, fields: map<string, Value>)
    requires Storable(e) && fields.Keys !! Columns
    ensures UpdatedEmployee(e, fields) == Some(e)
  {
    assert Merge(e, fields) == ColumnValues(e);
    RowOfColumnValues(e);
  }

  // ---------------------------------------------------------------------------
  // The database and the mutating handlers

  class Database {
    var employees: Table
    var admins: map<string, string>
    /** The AUTO_INCREMENT counter of `employee.id`. */
    var nextId: int

    ghost predicate Valid()
      reads this
    {
      && 1 <= nextId
      && (forall id :: id in employees ==> 1 <= id < nextId)
      && (forall id :: id in employees ==> Storable(employees[id]))
      && UniqueEmails(employees)
    }

    /** `db.create_all()` on an empty database. */
    constructor ()
      ensures Valid() && employees == map[] && admins == map[] && nextId == 1
    {
      employees := map[];
      admins := map[];
      nextId := 1;
    }

    /** The startup seeding of the default admin account. */
    method SeedDefaultAdmin()
      requires Valid()
      modifies this
      ensures Valid()
      ensures admins == SeededAdmins(old(admins))
      ensures employees == old(employees) && nextId == old(nextId)
    {
      if DefaultAdminName !in admins {
        admins := admins[DefaultAdminName := DefaultAdminPassword];
      }
    }

    /**
      `add_employee`: 201 and exactly one new row (with the next id) when the body has
      the required fields, the row is storable and its email is not taken; otherwise
      the session is rolled back, nothing changes and the answer is 500.
     */
    method AddEmployee(body: Body) returns (r: Response)
      requires Valid()
      modifies this
      ensures Valid()
      ensures admins == old(admins)
      ensures var row := NewEmployee(body);
        if row.Some? && EmailFree(old(employees), row.value.email, old(nextId)) then
          && r == Response(201, Message("Employee added successfully"))
          && old(nextId) !in old(employees)
          && employees == old(employees)[old(nextId) := row.value]
          && nextId == old(nextId) + 1
        else
          r == ServerError && employees == old(employees) && nextId == old(nextId)
    {
      var row := NewEmployee(body);
      if row.None? || !EmailFree(employees, row.value.email, nextId) {
        // A KeyError, or a commit refused by the database: rollback.
        return ServerError;
      }
      employees := employees[nextId := row.value];
      nextId := nextId + 1;
      r := Response(201, Message("Employee added successfully"));
    }

    /**
      `update_employee`: on an existing id with an object body, every field takes the
      request's value if its key is present and keeps its value otherwise; the commit
      succeeds (200) when the row is storable and its email is not another row's. Only
      that row changes. A missing id (the 404 that `get_or_404` raises is caught), a
      body that is not an object or a refused commit roll back and answer 500.
     */
    method UpdateEmployee(id: nat, body: Body) returns (r: Response)
      requires Valid()
      modifies this
      ensures Valid()
      ensures admins == old(admins) && nextId == old(nextId)
      ensures var ok :=
          && id in old(employees) && body.JsonObject?
          && UpdatedEmployee(old(employees)[id], body.fields).Some?
          && EmailFree(old(employees), UpdatedEmployee(old(employees)[id], body.fields).value.email, id);
        if ok then
          && r == Response(200, Message("Employee updated successfully"))
          && employees == old(employees)[id := UpdatedEmployee(old(employees)[id], body.fields).value]
        else
          r == ServerError && employees == old(employees)
    {
      if id !in employees || body.NotAnObject? {
        return ServerError;
      }
      var updated := UpdatedEmployee(employees[id], body.fields);
      if updated.None? || !EmailFree(employees, updated.value.email, id) {
        return ServerError;
      }
      employees := employees[id := updated.value];
      r := Response(200, Message("Employee updated successfully"));
    }

    /**
      `delete_employee`: removes exactly the row with that id (200); a missing id
      answers 500 and changes nothing.
     */
    method DeleteEmployee(id: nat) returns (r: Response)
      requires Valid()
      modifies this
      ensures Valid()
      ensures admins == old(admins) && nextId == old(nextId)
      ensures id in old(employees) ==>
        r == Response(200, Message("Employee deleted successfully")) && employees == old(employees) - {id}
      ensures id !in old(employees) ==> r == ServerError && employees == old(employees)
    {
      if id !in employees {
        return ServerError;
      }
      employees := employees - {id};
      r := Response(200, Message("Employee deleted successfully"));
    }
  }
}
