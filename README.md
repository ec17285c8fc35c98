# Employee directory: registration, login and company profile

This project models the server-side core of a small employee directory. It
covers the two Express route modules and what they do to the `employees`
table:

- `POST /api/auth/register` validates a sign-up payload. It rejects a
  username or email that is already taken, hashes the password and inserts
  one row.
- `POST /api/auth/login` looks a user up by username and checks the password
  against the stored digest.
- `GET /api/users/:id` reads a row through a view that fills blank fields
  from other columns.
- `PUT /api/users/:id` overwrites the eleven company/address columns of a
  row.

The table is a class, `Store.EmployeeTable`. It holds a map from id to row,
the next value of the id sequence, and a ghost log of the statements issued.
Each SQL statement is one method of that class. Its invariant `Valid()` is
the table's unique constraints: no two rows share a username or an email.
The four handlers are methods over the table. Their postconditions give the
response and the new table for every path: validation error, conflict,
not found, success, and store failure. A store failure is an input:
`Store.Fault` names which statement of the request raises an error and
with which PostgreSQL code. The check-then-insert race shows up this way,
as a `23505` raised by the insert.

JavaScript semantics are spelled out where the handlers depend on them:

- truthiness, where `""` is falsy but a whitespace-only string is truthy;
- `String.prototype.trim`, with ECMAScript's whitespace set;
- `String.prototype.length`, in UTF-16 code units;
- `Number.parseInt(s, 10)`, which reads a decimal prefix, so `"12abc"` reads
  as 12.

bcrypt is a symbolic digest with `Verify(p, Hash(q, salt))` exactly when
`p == q`.

Files: `wrappers.dfy` (Option), `js_strings.dfy`, `js_numbers.dfy`,
`employees.dfy` (row, digest, uniqueness), `store.dfy` (the table),
`http.dfy` (responses), `auth.dfy`, `users.dfy`, `scenarios.dfy`
(properties spanning several requests).

Behaviours of the code worth noting:

- Required registration fields are not trimmed on the server. A
  whitespace-only username passes validation and is stored as given. Only
  the browser form trims.
- The registration response echoes the `RETURNING` row, so its keys are
  `first_name`/`last_name`, not `firstName`/`lastName` (`Http.KeyStyle`).
- Registration writes `address1`, `address2`, `city`, `state` and
  `postal_code`, and none of the other ten company columns.
- After an update, the profile read returns each submitted value trimmed,
  not exactly as submitted. A blank company name, sub-district or district
  reads back from the name, city or state instead.
  `Users.UpdateThenViewExact` gives the exact round trip for submissions
  that are already trimmed and non-empty.

## Model

| member | source | states |
|---|---|---|
| `JsStrings.TrimStartShape` | src/routes/users.js:27 | trimStart leaves the suffix of the input after a run of leading whitespace, and that suffix does not start with whitespace |
| `JsStrings.TrimEndShape` | src/routes/users.js:27 | trimEnd leaves the prefix of the input before a run of trailing whitespace, and that prefix does not end with whitespace |
| `JsStrings.Trim` | src/routes/users.js:27 | the trimmed string neither starts nor ends with whitespace, and is empty exactly when the input is blank |
| `JsStrings.TrimOfBlank` | src/routes/users.js:27-28 | trimming gives "" if and only if every character is JavaScript whitespace |
| `JsStrings.TrimSlices` | src/routes/users.js:27 | the trimmed string is a slice of the input with only whitespace before and after it |
| `JsStrings.TrimOfPadded` | src/routes/users.js:27 | trim is determined by its shape: trimming whitespace + t + whitespace, for a trimmed t, gives t |
| `JsStrings.TrimOfTrimmed` | src/routes/users.js:27 | a string without surrounding whitespace is its own trim |
| `JsStrings.TrimIdempotent` | src/routes/users.js:27 | trimming twice is trimming once |
| `JsStrings.Utf16Length` | src/routes/auth.js:16 | `.length` counts one or two UTF-16 units per character, and equals the character count exactly when no character is outside the Basic Multilingual Plane |
| `JsNumbers.DigitPrefixShape` | src/routes/users.js:32 | parseInt reads the longest prefix of decimal digits: the digits are a prefix of the input and the next character, if any, is not a digit |
| `JsNumbers.ParseIntOfDecimal` | src/routes/users.js:32-35 | round trip: parsing the decimal text of any integer, followed by anything that is not a digit, gives that integer (so "12abc" reads as 12) |
| `JsNumbers.ParseIntSkipsWhitespace` | src/routes/users.js:32 | leading whitespace never changes what parseInt reads |
| `JsNumbers.ParseIntNaN` | src/routes/users.js:32-35 | parseInt gives NaN exactly when no digit follows the leading whitespace and an optional sign |
| `Employees.Hash` | src/routes/auth.js:55 | a digest made at registration carries cost 10 and verifies exactly the password it was made from |
| `Employees.VerifyIffHashed` | src/routes/auth.js:111 | compare accepts a password exactly when hashing that password with some salt produced the digest |
| `Employees.InsertKeepsUnique` | src/routes/auth.js:57-79 | inserting a row whose username and email are unused keeps usernames and emails unique |
| `Employees.ReplaceKeepsUnique` | src/routes/users.js:78-93 | rewriting a row without changing its account keeps usernames and emails unique |
| `Store.EmployeeTable.SelectTaken` | src/routes/auth.js:46-51 | the lookup reports whether any row has the username or the email, or raises; the rows do not change |
| `Store.EmployeeTable.Insert` | src/routes/auth.js:57-79 | the insert adds exactly one row under a fresh id when nothing raises and neither the username nor the email is taken. A taken one raises 23505 and nothing changes. Uniqueness is kept |
| `Store.EmployeeTable.SelectUser` | src/routes/auth.js:101-110 | the lookup returns a row with that username and its id, or none when no row has it |
| `Store.EmployeeTable.SelectRow` | src/routes/users.js:38-48 | the lookup returns the row with that id, if there is one |
| `Store.EmployeeTable.UpdateCompanyColumns` | src/routes/users.js:78-112 | the update replaces the eleven company columns of the row with that id and reports 1, or reports 0 and changes nothing; other rows and columns are unchanged |
| `Auth.MissingFields` | src/routes/auth.js:11 | the filter returns exactly the falsy fields, as a subsequence of the field list (in its order) |
| `Auth.NothingMissingIff` | src/routes/auth.js:11-12 | no required field is missing exactly when all five are truthy |
| `Auth.ValidateRegistration` | src/routes/auth.js:10-21 | no error exactly when all five required fields are truthy and the password has at least 8 UTF-16 units |
| `Auth.MissingFieldsReportedFirst` | src/routes/auth.js:11-17 | a payload missing any required field gets "Missing required fields: " and the falsy fields in `REQUIRED_FIELDS` order, never the password-length error |
| `Auth.MessagesDiffer` | src/routes/auth.js:13-17 | the missing-fields message and the password-length message are never equal |
| `Auth.ShortPasswordRejected` | src/routes/auth.js:16-18 | a complete payload whose password is shorter than 8 units gets the password-length error |
| `Auth.NewEmployeeColumns` | src/routes/auth.js:57-79 | the inserted row stores the username, email and names as given and a digest that verifies the password. Each optional field is stored as given when truthy and as null otherwise. Every company column but postal_code is null |
| `Auth.RegisterError` | src/routes/auth.js:85-91 | a 23505 error gives the same 409 as the pre-check; any other error gives the generic 500 |
| `Auth.Register` | src/routes/auth.js:23-92 | an invalid payload gets 400 with the validation text before any statement runs, and nothing changes. 201 comes exactly when nothing raises and the username and email are free; then exactly one row is added under a fresh id and the echo holds that id, username and names. 409 comes exactly when the lookup finds a row or a statement raises 23505, and every other failure gets the 500 "Registration failed" body; 400 comes only from validation. Only a 201 changes the rows, and uniqueness is kept on every path |
| `Auth.Login` | src/routes/auth.js:94-129 | a falsy username or password gets 400 and no statement is issued. 200 comes exactly when a row with that username verifies the password; the response carries that row's id, username and names and no digest. An unknown username and a wrong password both get the one 401 response. A failing lookup gets 500. The rows never change |
| `Users.ToNullable` | src/routes/users.js:23-29 | the result is null exactly when the value is absent or blank; otherwise it is the trimmed text, never empty and without surrounding whitespace |
| `Users.ToNullableIdempotent` | src/routes/users.js:23-29 | toNullable returns null or a non-empty trimmed string, leaves such values unchanged, and applying it twice is applying it once |
| `Users.NormalizeCompanyIdempotent` | src/routes/users.js:94-105 | every column the update writes is normal, so sending the same update twice leaves the row as sending it once |
| `Users.CompanyViewFields` | src/routes/users.js:6-21 | the id passes through and a non-empty column shows as stored. A blank company name shows the trimmed "first last", a blank sub-district the city, a blank district the state, and any other blank column (tax id, address number, moo, village, soi, road, province, postal code) "" |
| `Users.ReadsBackTrimmed` | src/routes/users.js:27-28 | a value stored by toNullable and read back with `\|\| ""` is the trimmed submission, and is truthy exactly when the submission was not blank |
| `Users.UpdateThenView` | src/routes/users.js:9-19 | round trip: after an update the view returns each submitted value trimmed ("" when omitted or blank). A blank company name instead reads back as the full name, and a blank sub-district or district as the row's city or state |
| `Users.UpdateThenViewExact` | src/routes/users.js:95-105 | when every submitted value is non-empty and already trimmed, the view after the update returns exactly the submitted values |
| `Users.GetUser` | src/routes/users.js:31-55 | an id with no decimal prefix gets 400 before any statement. Otherwise the row with the parsed id is returned through the view; a missing row gets 404 and a failing lookup 500. The store never changes |
| `Users.PutUser` | src/routes/users.js:57-119 | an id with no decimal prefix gets 400 and nothing changes. For an existing id all eleven company columns become toNullable of the submitted values, so omitted ones become null, and nothing else changes. A missing id gets 404 and a failing update 500, and the rows are unchanged in both cases |
| `Scenarios.RegisteredView` | src/routes/auth.js:57-79 | the view of a freshly registered employee shows the trimmed "first last" as company name, the registered city, state and postal code, and "" elsewhere |
| `Scenarios.RegisterThenLogin` | src/routes/auth.js:94-124 | after a successful registration, login with the same password returns the new id, username and names. Any other non-empty password gets the same 401 as an unknown user |
| `Scenarios.RegisterTwice` | src/routes/auth.js:46-53 | registering a second account with the first one's username or email gets 409, and the table keeps only the first |
| `Scenarios.UpdateThenGet` | src/routes/users.js:57-114 | an update followed by a read of the same id returns the updated values through the view's fallbacks |

## Left out

- `public/app.js` is not part of this model. It holds DOM handling, `fetch`, navigation and the browser-side copies of the required-field and length checks.
- `src/server.js` (Express wiring, CORS, static files, the SPA fallback, the health route, shutdown) and `src/db.js` (the `pg` pool) are not part of this model.
- bcrypt is a symbolic digest. The algorithm, the effect of the cost factor, its timing and its 72-byte password limit are not modelled, and neither are errors thrown by `bcrypt.hash`/`bcrypt.compare`.
- `updated_at = NOW()` reads the wall clock and is not modelled. `console.error` logging is left out too.
- Concurrency is not modelled. A concurrent request shows up only through `Store.Fault`, as an error raised by one statement.
- JSON parsing and non-string body values are left out. Fields are optional strings, so `String(value)` on numbers or booleans is not modelled.
- JsNumbers.ParseInt: returns an unbounded integer. JavaScript returns a double, which loses precision past 2^53. An id outside the range of the `id` column makes PostgreSQL raise, which gives a 500; the model instead looks such an id up and finds no row.
- Store.EmployeeTable.Insert: an insert that fails still uses up a sequence value in PostgreSQL. The model does not advance the id on failure; only freshness of new ids is relied on.
- The table schema is not part of the source. The model assumes unique constraints on `username` and `email` (which the 23505 handling implies) and `null` for every column the insert does not list.
- Auth.Login: requires the table invariant. A lookup by username therefore finds at most one row; under the unique constraint no other state is reachable.
