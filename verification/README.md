# Employee management: a Dafny model of its core

The repository is a small employee-management system: a Flask/SQLAlchemy backend
(`backend/api/app.py`) with a login route and CRUD routes over an `employee` table, a
React Native client whose session layer (`src/utils/AuthUtils.js`) stores a bearer
token and wraps an HTTP client with two interceptors, and a script that renders the
app icons (`scripts/generate_icons.py`). This project models those three parts and
proves what they promise.

- `auth_utils.dfy` (module `AuthUtils`) models the client's session layer. The token
  helpers read, write and remove the `token` entry of a `Storage` object. The request
  interceptor attaches `Authorization: Bearer <token>` to a `RequestConfig` when the
  token is truthy. The response interceptor handles the first 401 of a request: it
  sets `_retry`, removes the token, sets `sessionExpired` to `"true"` and still
  rejects. `Send` composes the two interceptors around a transport outcome given as
  a parameter.
- `employee_api.dfy` (module `EmployeeApi`) models the backend routes over an
  in-memory `Database`:
  - `employees` maps an id to a row, `admins` maps a username to a password, and
    `nextId` is the AUTO_INCREMENT counter;
  - the invariant `Valid` says ids are below the counter, every row fits its
    columns, and emails are unique;
  - `Login` and `GetEmployees` are pure reads;
  - `AddEmployee`, `UpdateEmployee`, `DeleteEmployee` and `SeedDefaultAdmin` are
    methods that change the database;
  - every failure path — a missing key, a missing id, a body that is not an object,
    a commit the database refuses — answers `500 Server error` and leaves the
    tables as they were.
- `generate_icons.dfy` (module `GenerateIcons`) models the script's non-drawing
  logic:
  - `hex_to_rgb`, with Python's `lstrip` and `int(_, 16)` semantics on 2-character
    slices, plus a formatter `FormatRgb` that it inverts;
  - the icon file-name rule;
  - the loop over the size table. Failures of `create_icon` and `icon.save` are
    parameters, and a failed save skips the rest of its entry.
- `numerals.dfy` (module `Numerals`) holds decimal numerals: the value of a digit
  string and zero-padded formatting, with their round trip. They are shared by the
  size keys of the icon table and by `strftime('%Y-%m-%d')`.
- `wrappers.dfy` (module `Wrappers`) holds `Option`.

Storage failures, the transport's reply and the script's failures are parameters.
A field of a request body is `Null`, `Text(s)` or `Day(d)`. A JSON string is `Text`
in every field but `hire_date`. `Day(d)` occurs only as the value of `hire_date`: it
stands for a string MySQL reads as the `DATE` d. `Text` in `hire_date` stands for a
string MySQL rejects as a `DATE`.

## Model

| member | source | states |
|---|---|---|
| AuthUtils.GetToken | frontend/EmployeeManagement/src/utils/AuthUtils.js:7-14 | returns the stored `token` entry (None if absent); a failed read returns None instead of throwing |
| AuthUtils.SetToken | frontend/EmployeeManagement/src/utils/AuthUtils.js:17-25 | returns true and maps `token` to the value, or returns false and leaves the store unchanged when the write fails |
| AuthUtils.RemoveToken | frontend/EmployeeManagement/src/utils/AuthUtils.js:28-36 | returns true and `token` is absent afterwards, whether or not it was there; on a failed write returns false and changes nothing |
| AuthUtils.RemoveTokenIdempotent | frontend/EmployeeManagement/src/utils/AuthUtils.js:28-36 | removing twice equals removing once, and every other key is untouched |
| AuthUtils.IsAuthenticated | frontend/EmployeeManagement/src/utils/AuthUtils.js:39-42 | true exactly when the read succeeds and a non-empty token is stored (`!!token`) |
| AuthUtils.WithBearer | frontend/EmployeeManagement/src/utils/AuthUtils.js:52-55 | with a truthy token, `Authorization` is `Bearer ` + token and the other headers stay as they were; otherwise the headers are unchanged |
| AuthUtils.BearerHeaderDeterminesToken | frontend/EmployeeManagement/src/utils/AuthUtils.js:54 | different tokens give different header values |
| AuthUtils.InterceptRequest | frontend/EmployeeManagement/src/utils/AuthUtils.js:50-57 | the same config comes back, with headers `WithBearer` of the token read; `_retry` and the store are untouched |
| AuthUtils.RejectRequest | frontend/EmployeeManagement/src/utils/AuthUtils.js:58-60 | the request-error handler rejects with the same error |
| AuthUtils.PassResponse | frontend/EmployeeManagement/src/utils/AuthUtils.js:65-67 | a successful response passes through unchanged |
| AuthUtils.AfterTeardown | frontend/EmployeeManagement/src/utils/AuthUtils.js:77-79 | after the teardown the token is gone and `sessionExpired` is `"true"` (each unless its write fails); no other key changes |
| AuthUtils.InterceptResponseError | frontend/EmployeeManagement/src/utils/AuthUtils.js:68-85 | on the first 401 (`_retry` unset) sets `_retry`, tears the session down and rejects with the original error, or with the storage error if the flag write throws; in every other case it rejects with the error and writes nothing |
| AuthUtils.Send | frontend/EmployeeManagement/src/utils/AuthUtils.js:45-86 | one request through both interceptors: the bearer header is attached; a 2xx resolves with the response and writes nothing; a first 401 tears the session down; any other failure rejects with the error and writes nothing |
| AuthUtils.ExpiredSessionScenario | frontend/EmployeeManagement/src/utils/AuthUtils.js:39-85 | with token `abc123` stored, the request carries `Bearer abc123`; its 401 logs the user out and sets the flag; a repeated 401 on the same config changes nothing more |
| EmployeeApi.ColumnValues | backend/api/app.py:26-33 | a row has exactly the six columns of the `Employee` model |
| EmployeeApi.RowOf | backend/api/app.py:26-33 | a commit writes a row only if every NOT NULL column holds text, every string fits its `String(n)` width and the date is a valid `DATE`; the written row has exactly those column values; otherwise no storable row has them |
| EmployeeApi.RowOfColumnValues | backend/api/app.py:26-33 | writing a storable row and reading it back gives the same row |
| EmployeeApi.Login | backend/api/app.py:36-50 | 200 with a token for the username exactly when that admin exists and its stored password equals the given one; otherwise 401 `Invalid credentials`; a body that is not an object gives 500 |
| EmployeeApi.SeededAdmins | backend/api/app.py:128-132 | after seeding `admin` exists; an existing `admin` is left as it was; otherwise `admin`/`admin123` is added |
| EmployeeApi.SeedingIdempotent | backend/api/app.py:128-132 | seeding twice equals seeding once |
| EmployeeApi.SeededAdminCanLogIn | backend/api/app.py:36-50 | after seeding a fresh database, `admin`/`admin123` logs in with 200 |
| EmployeeApi.Database.SeedDefaultAdmin | backend/api/app.py:125-132 | the admin table becomes `SeededAdmins` of the old one; employees and the counter are untouched; `Valid` is kept |
| EmployeeApi.FormatDate | backend/api/app.py:64 | `strftime('%Y-%m-%d')` is ten characters `YYYY-MM-DD` whose three numerals read back as the year, month and day |
| EmployeeApi.EmployeeEntry | backend/api/app.py:57-65 | an entry carries its row's id and describes the row: the same strings and phone, and the date present exactly when the row has one, shown as `YYYY-MM-DD` |
| EmployeeApi.DescribesOneRow | backend/api/app.py:57-65 | an entry describes at most one row, so the listing keeps every field |
| EmployeeApi.LeastId | backend/api/app.py:56 | the smallest id of a non-empty set |
| EmployeeApi.AscendingIds | backend/api/app.py:56 | the ids of a set, each once, strictly ascending |
| EmployeeApi.PrependLeast | backend/api/app.py:56 | the least id followed by the rest in ascending order lists every id once, ascending |
| EmployeeApi.ListingInIdOrder | backend/api/app.py:56-65 | entries built from the ascending ids list the whole table: one entry per row, each describing its row, ascending by id |
| EmployeeApi.GetEmployees | backend/api/app.py:52-68 | 200 with a listing of every row exactly once, each entry describing its row, ascending by id |
| EmployeeApi.ListingDeterminesTable | backend/api/app.py:52-68 | two tables with the same listing are equal |
| EmployeeApi.BodyColumns | backend/api/app.py:74-82 | each of the six columns takes `data.get(key)`: the body's value, or None when the key is absent |
| EmployeeApi.NewEmployee | backend/api/app.py:74-82 | a body that is not an object, or that lacks `name`, `email`, `position` or `department`, gives no row; a row built is storable and holds exactly the body's values, a present `phone`/`hire_date` as given and an absent one None; with the four keys present, no row exactly when no storable row has those values |
| EmployeeApi.FittingBodyAdded | backend/api/app.py:74-82 | four texts that fit their columns, with no `phone` and no `hire_date`, build exactly that employee with neither |
| EmployeeApi.ColumnValuesInjective | backend/api/app.py:26-33 | two rows with the same column values are the same row |
| EmployeeApi.Database.AddEmployee | backend/api/app.py:70-89 | 201 and exactly one new row, at the next id, when the body builds a storable row whose email is free; otherwise 500 and nothing changes; `Valid` (unique emails) is kept |
| EmployeeApi.Merge | backend/api/app.py:98-103 | each column takes the request's value if its key is present, else the old value |
| EmployeeApi.UpdatedEmployee | backend/api/app.py:98-105 | the committed row is storable and holds exactly the merged values; no row exactly when no storable row holds them |
| EmployeeApi.MergeRule | backend/api/app.py:98-105 | in a committed update, a present key sets its column to the request's value and an absent key keeps the old field, for each of the six columns |
| EmployeeApi.EmptyUpdateKeepsRow | backend/api/app.py:98-105 | a body naming no column leaves the row as it was |
| EmployeeApi.Database.UpdateEmployee | backend/api/app.py:91-110 | on an existing id with an object body whose merge is storable and keeps emails unique: 200 and only that row changes, to the merged row; otherwise (missing id, non-object body, refused commit) 500 and nothing changes |
| EmployeeApi.Database.DeleteEmployee | backend/api/app.py:112-123 | removes exactly that id with 200; a missing id gives 500 and changes nothing |
| EmployeeApi.Database.constructor | backend/api/app.py:127 | an empty database satisfies `Valid` |
| GenerateIcons.LStrip | frontend/EmployeeManagement/scripts/generate_icons.py:23 | the result is a suffix after a prefix made only of the stripped character, and does not start with it |
| GenerateIcons.Slice | frontend/EmployeeManagement/scripts/generate_icons.py:24 | Python slicing, clamped at the end of the string |
| GenerateIcons.ParseHex | frontend/EmployeeManagement/scripts/generate_icons.py:24 | `int(_, 16)` on a slice: hex digits give their value; the empty slice fails; a value is within -15..255 |
| GenerateIcons.SeparatorsNotStripped | frontend/EmployeeManagement/scripts/generate_icons.py:24 | `int()` does not strip U+001C to U+001F, so a slice holding one fails |
| GenerateIcons.OtherScriptDigitsAccepted | frontend/EmployeeManagement/scripts/generate_icons.py:22-24 | `#` and six Arabic-Indic zeros give (0, 0, 0): non-ASCII decimal digits count as digits |
| GenerateIcons.ArabicIndicZeroPair | frontend/EmployeeManagement/scripts/generate_icons.py:24 | two Arabic-Indic zeros parse to 0 |
| GenerateIcons.HexToRgb | frontend/EmployeeManagement/scripts/generate_icons.py:22-24 | fewer than five characters after the `#`s is an error (the slice `[4:6]` is empty) |
| GenerateIcons.LeadingHashesIgnored | frontend/EmployeeManagement/scripts/generate_icons.py:23 | any number of leading `#` is ignored |
| GenerateIcons.HashesStripped | frontend/EmployeeManagement/scripts/generate_icons.py:23 | `lstrip('#')` removes any number of leading `#` |
| GenerateIcons.SixHexDigits | frontend/EmployeeManagement/scripts/generate_icons.py:22-24 | `#` plus six hex digits gives the three digit-pair values, each in 0..255 |
| GenerateIcons.ForeignCharacterFails | frontend/EmployeeManagement/scripts/generate_icons.py:24 | a character among the first six that is not a hex digit, a Unicode decimal digit, whitespace `int()` strips, or a sign makes the conversion fail |
| GenerateIcons.SignedSlicesAccepted | frontend/EmployeeManagement/scripts/generate_icons.py:22-24 | `#-1+2 3` parses to (-1, 2, 3): signs and whitespace inside a slice are accepted |
| GenerateIcons.SignedSlicesParse | frontend/EmployeeManagement/scripts/generate_icons.py:24 | `int("-1", 16)` is -1, `int("+2", 16)` is 2 and `int(" 3", 16)` is 3 |
| GenerateIcons.ForeignSliceFails | frontend/EmployeeManagement/scripts/generate_icons.py:24 | a slice holding a character that is not a hex digit, a Unicode decimal digit, whitespace `int()` strips, or a sign does not parse |
| GenerateIcons.PairsRead | frontend/EmployeeManagement/scripts/generate_icons.py:22-24 | after one `#`, a six-character string gives the colour of its three pairs, or an error if one pair fails |
| GenerateIcons.PairParses | frontend/EmployeeManagement/scripts/generate_icons.py:24 | two hex digits parse to their value, which is at most 255 |
| GenerateIcons.HashThenDigits | frontend/EmployeeManagement/scripts/generate_icons.py:23 | one `#` before a string that does not start with `#` is stripped, and nothing else is |
| GenerateIcons.HexByte | frontend/EmployeeManagement/scripts/generate_icons.py:24 | two hex digits whose value is the byte |
| GenerateIcons.FormatRgb | frontend/EmployeeManagement/scripts/generate_icons.py:5-9 | `#` followed by six hex digits |
| GenerateIcons.RoundTrip | frontend/EmployeeManagement/scripts/generate_icons.py:22-24 | parsing a formatted colour, in either case, gives back the colour |
| GenerateIcons.GradientTopColour | frontend/EmployeeManagement/scripts/generate_icons.py:8 | `#00a19a` is (0, 161, 154) |
| GenerateIcons.GradientBottomColour | frontend/EmployeeManagement/scripts/generate_icons.py:9 | `#006d68` is (0, 109, 104) |
| GenerateIcons.ReplaceAtSign | frontend/EmployeeManagement/scripts/generate_icons.py:147 | every `@` becomes `_`, and nothing else changes |
| GenerateIcons.IconFileName | frontend/EmployeeManagement/scripts/generate_icons.py:147 | the file name is nine characters longer than the name, starts with `icon_` and ends with `.png` |
| GenerateIcons.IconFileNameShape | frontend/EmployeeManagement/scripts/generate_icons.py:147 | the file name is `icon_`, then the name with each `@` replaced by `_` and every other character kept, then `.png`; it contains no `@` |
| GenerateIcons.IconFileNameOfScale | frontend/EmployeeManagement/scripts/generate_icons.py:147 | a name `base@scale` gives `icon_base_scale.png` |
| GenerateIcons.NameList | frontend/EmployeeManagement/scripts/generate_icons.py:140-141 | a single name becomes a one-element list; a list is kept |
| GenerateIcons.SavedForEntry | frontend/EmployeeManagement/scripts/generate_icons.py:143-152 | the files saved for one entry are, in order, the entry's names up to the first failing save, none of them a failing one |
| GenerateIcons.SaveIcons | frontend/EmployeeManagement/scripts/generate_icons.py:146-150 | the inner loop saves exactly `SavedForEntry` |
| GenerateIcons.SavedAppend | frontend/EmployeeManagement/scripts/generate_icons.py:146-150 | while no save has failed, the files of a concatenation of names are the files of its parts |
| GenerateIcons.SavedGrowsAt | frontend/EmployeeManagement/scripts/generate_icons.py:146-150 | a successful save appends its own file |
| GenerateIcons.SavedStopsAt | frontend/EmployeeManagement/scripts/generate_icons.py:143-152 | a failing save leaves the `try` block: no later name of the entry is saved |
| GenerateIcons.SavedFirst | frontend/EmployeeManagement/scripts/generate_icons.py:146-150 | without failures, the first name of an entry yields the first file |
| GenerateIcons.EntryOutput | frontend/EmployeeManagement/scripts/generate_icons.py:143-152 | an entry whose icon cannot be created saves nothing; otherwise the files saved are a prefix of its names, each at the entry's size under its file name, none of a failing size or a failing save |
| GenerateIcons.Output | frontend/EmployeeManagement/scripts/generate_icons.py:138-152 | the script saves at most one file per name, none of a failing size or a failing save |
| GenerateIcons.GenerateAllIcons | frontend/EmployeeManagement/scripts/generate_icons.py:138-152 | the loop saves exactly `Output`: the entries in table order, each size parsed from its key |
| GenerateIcons.NoFailuresSaveEveryName | frontend/EmployeeManagement/scripts/generate_icons.py:146-150 | without failures, every name of an entry yields a file |
| GenerateIcons.NoAtSignInOutput | frontend/EmployeeManagement/scripts/generate_icons.py:147 | no saved file name contains `@` |
| GenerateIcons.OutputAppend | frontend/EmployeeManagement/scripts/generate_icons.py:138 | one more entry appends exactly its own files |
| GenerateIcons.OutputLength | frontend/EmployeeManagement/scripts/generate_icons.py:138-150 | without failures, one file per name of every entry |
| GenerateIcons.ScriptTableKeys | frontend/EmployeeManagement/scripts/generate_icons.py:122-131 | every key of the script's table is a decimal numeral |
| GenerateIcons.ScriptTableNameCount | frontend/EmployeeManagement/scripts/generate_icons.py:122-131 | the table names nine icons |
| GenerateIcons.ScriptTableOutput | frontend/EmployeeManagement/scripts/generate_icons.py:122-152 | without failures, the script saves nine files |
| GenerateIcons.EntryOf120 | frontend/EmployeeManagement/scripts/generate_icons.py:122-150 | key `120` yields the files of `40x40@3x` and of `60x60@2x`, in that order, both at size 120 |
| GenerateIcons.KeyOf120 | frontend/EmployeeManagement/scripts/generate_icons.py:139 | `int("120")` is 120 |
| Numerals.DecimalValue | frontend/EmployeeManagement/scripts/generate_icons.py:139 | the value of a decimal numeral (`int(size)`) is below 10 to the power of its length |
| Numerals.PaddedDigits | backend/api/app.py:64 | a zero-padded numeral of the given width |
| Numerals.PaddedDigitsValue | backend/api/app.py:64 | a zero-padded numeral reads back as its number |

## Left out

- Drawing the icons (`create_gradient`, `get_system_font`, `create_icon`, the PIL calls), making the output directory, and the `print` calls. These are I/O. `create_icon` and `icon.save` are modelled only as able to fail, through the `iconFails` and `saveFails` parameters.
- `int(size)` is modelled only on keys made of ASCII decimal digits. Python also accepts signs, whitespace, underscores and other Unicode digits; the script's own keys are all ASCII digits.
- JWT: `create_access_token` is a token naming the identity, and `@jwt_required` is not modelled. Tokens are opaque here, so expiry and signatures are left out.
- CORS, the Flask app object, the SQLAlchemy engine and `app.run` are framework configuration.
- MySQL's case-insensitive collation is left out. Usernames and emails compare exactly, so two emails that differ only in case count as distinct here.
- A failed insert does not consume an AUTO_INCREMENT value in this model. InnoDB may skip that id, so later ids can differ by gaps; ids stay unique and increasing either way.
- MySQL's string-to-date conversion is not modelled. A `hire_date` string is either `Day(d)`, the date MySQL reads from it, or `Text`, a string it rejects; which strings MySQL reads as which dates is left out.
- The `String(n)` width check follows MySQL's strict SQL mode (`STRICT_TRANS_TABLES`, the default since MySQL 5.7), where a string whose non-space characters run past the column width is refused. In non-strict mode MySQL truncates such a string with a warning instead; that mode is not modelled.
- EmployeeApi.RowOf: its commit rule is stricter than MySQL at two edges, and `NewEmployee`, `UpdatedEmployee`, `Database.AddEmployee` and `Database.UpdateEmployee` inherit both. First, MySQL cuts the excess trailing spaces of a `VARCHAR` value in every SQL mode, with only a warning: a name of `A` and 100 spaces is stored as `A` and 99 spaces, but the model refuses any string longer than its width. Second, `ValidDate` bounds the year below by 1000, MySQL's documented supported range, but MySQL also stores earlier dates; the model refuses them. For such a year, `strftime('%Y')` would not give four digits either, so the listing of such a date is not modelled.
- JSON numbers, booleans, arrays and nested objects as field values are not modelled. Fields are null, text or a date.
- The order of `Employee.query.all()`: SQL does not guarantee it. The model returns rows in ascending id order, which is the order of a primary-key scan on InnoDB.
- A failed storage write is modelled as leaving the store unchanged. A partial write by the storage engine is not modelled.
- `console.error` logging, the async scheduling of promises, and concurrent requests are not modelled. Each call is modelled as running to completion on its own.
- Which screen reads `sessionExpired`, and navigation. These live in the screens, which are not part of this model.
- The screens, theme and styles of the client, and `server/server.js`, are not part of this model.
- GenerateIcons.ParseHex: its contract covers only the hex-digit, empty-slice and range cases. Failure on a foreign character is stated by `ForeignSliceFails`; the treatment of U+001C to U+001F and of non-ASCII digits by `SeparatorsNotStripped` and `OtherScriptDigitsAccepted`. Non-ASCII decimal digits are those of Unicode 15.0 (Python 3.12). A Python built on a later Unicode version may accept more. Python 3.11 and earlier use Unicode 14.0 or older and accept fewer: they reject the Kawi digits (from U+11F50) and the Nag Mundari digits (from U+1E4F0) that `OtherDecimalZeros` accepts.
- GenerateIcons.HexToRgb: its own contract states only the short-input error. The full behaviour is stated by the lemmas beside it: `LeadingHashesIgnored`, `SixHexDigits`, `ForeignCharacterFails`, `SignedSlicesAccepted` and `RoundTrip`.
