/** `POST /api/auth/register` and `POST /api/auth/login`: payload validation,
    the conflict pre-check, the insert of a new employee, and the credential
    check. */
module Auth {
  import opened Wrappers
  import opened JsStrings
  import opened Employees
  import opened Store
  import opened Http

  /** `REQUIRED_FIELDS`, in the order the error message lists them. */
  const RequiredFields: seq<string> := ["username", "password", "firstName", "lastName", "email"]

  const MinPasswordLength: nat := 8

  const PasswordTooShort: string := "Password must be at least 8 characters long."

  /** The fields of a registration body the handler reads. */
  datatype RegistrationBody = RegistrationBody(
    username: Nullable, password: Nullable, firstName: Nullable, lastName: Nullable,
    email: Nullable, phone: Nullable, department: Nullable, jobTitle: Nullable,
    address1: Nullable, address2: Nullable, city: Nullable, state: Nullable,
    postalCode: Nullable)

  /** `payload[name]`; a name the body does not have reads as `undefined`. */
  function Field(body: RegistrationBody, name: string): Nullable {
    if name == "username" then body.username
    else if name == "password" then body.password
    else if name == "firstName" then body.firstName
    else if name == "lastName" then body.lastName
    else if name == "email" then body.email
    else if name == "phone" then body.phone
    else if name == "department" then body.department
    else if name == "jobTitle" then body.jobTitle
    else if name == "address1" then body.address1
    else if name == "address2" then body.address2
    else if name == "city" then body.city
    else if name == "state" then body.state
    else if name == "postalCode" then body.postalCode
    else None
  }

  /** All five required fields are truthy. */
  predicate RequiredPresent(body: RegistrationBody) {
    && Truthy(body.username) && Truthy(body.password) && Truthy(body.firstName)
    && Truthy(body.lastName) && Truthy(body.email)
  }

  /** `xs` is `ys` with some elements dropped, the rest kept in order. */
  predicate IsSubsequence<T(==)>(xs: seq<T>, ys: seq<T>)
    decreases |ys|
  {
    if xs == [] then true
    else if ys == [] then false
    else (xs[0] == ys[0] && IsSubsequence(xs[1..], ys[1..])) || IsSubsequence(xs, ys[1..])
  }

  /** `names.filter((field) => !payload[field])`: exactly the falsy fields,
      in the order `names` gives them. */
  function MissingFields(body: RegistrationBody, names: seq<string>): (missing: seq<string>)
    ensures forall f :: f in missing <==> f in names && !Truthy(Field(body, f))
    ensures IsSubsequence(missing, names)
  {
    if names == [] then []
    else
      var rest := MissingFields(body, names[1..]);
      if Truthy(Field(body, names[0])) then rest else [names[0]] + rest
  }

  /** No required field is missing exactly when all five are truthy. */
  lemma NothingMissingIff(body: RegistrationBody)
    ensures MissingFields(body, RequiredFields) == [] <==> RequiredPresent(body)
  {
    var missing := MissingFields(body, RequiredFields);
    if missing != [] {
      assert missing[0] in RequiredFields;
    } else {
      assert RequiredFields[0] == "username" && Field(body, "username") == body.username;
      assert RequiredFields[1] == "password" && Field(body, "password") == body.password;
      assert RequiredFields[2] == "firstName" && Field(body, "firstName") == body.firstName;
      assert RequiredFields[3] == "lastName" && Field(body, "lastName") == body.lastName;
      assert RequiredFields[4] == "email" && Field(body, "email") == body.email;
    }
  }

  function MissingMessage(missing: seq<string>): string {
    "Missing required fields: " + Join(missing, ", ")
  }

  /** `validateRegistration`: `None` (`null`) when the payload is acceptable,
      otherwise the error text. Nothing is trimmed, so a whitespace-only
      field passes; the password length counts UTF-16 code units. */
  function ValidateRegistration(body: RegistrationBody): (error: Option<string>)
    ensures error.None? <==>
      RequiredPresent(body) && Utf16Length(body.password.value) >= MinPasswordLength
  {
    var missing := MissingFields(body, RequiredFields);
    NothingMissingIff(body);
    if |missing| > 0 then Some(MissingMessage(missing))
    else if Utf16Length(body.password.value) < MinPasswordLength then Some(PasswordTooShort)
      else None
  }

  /** The missing-field check comes first: a payload lacking any required
      field is told which ones, in `REQUIRED_FIELDS` order, and never about
      its password's length. */
  lemma MissingFieldsReportedFirst(body: RegistrationBody)
    requires !RequiredPresent(body)
    ensures var missing := MissingFields(body, RequiredFields);
      && missing != []
      && ValidateRegistration(body) == Some(MissingMessage(missing))
      && ValidateRegistration(body) != Some(PasswordTooShort)
      && IsSubsequence(missing, RequiredFields)
      && (forall f :: f in missing <==> f in RequiredFields && !Truthy(Field(body, f)))
  {
    NothingMissingIff(body);
    var missing := MissingFields(body, RequiredFields);
    MessagesDiffer(missing);
  }

  /** The two validation errors can never be confused. */
  lemma MessagesDiffer(missing: seq<string>)
    ensures MissingMessage(missing) != PasswordTooShort
  {
    assert MissingMessage(missing)[0] == 'M';
    assert PasswordTooShort[0] == 'P';
  }

  /** A complete payload with a short password gets the length error. */
  lemma ShortPasswordRejected(body: RegistrationBody)
    requires RequiredPresent(body) && Utf16Length(body.password.value) < MinPasswordLength
    ensures ValidateRegistration(body) == Some(PasswordTooShort)
  {
    NothingMissingIff(body);
  }

  /** `value || null`: a falsy optional field is stored as `null`. */
  function OrNull(value: Nullable): Nullable {
    if Truthy(value) then value else None
  }

  /** The row `INSERT INTO employees (…) VALUES (…)` writes for a validated
      payload; the company columns it does not list are `null`. */
  function NewEmployee(body: RegistrationBody, passwordHash: PasswordHash): Employee
    requires RequiredPresent(body)
  {
    Employee(
      Account(body.username.value, passwordHash, body.email.value),
      Person(body.firstName, body.lastName, OrNull(body.phone), OrNull(body.department),
             OrNull(body.jobTitle)),
      LegacyAddress(OrNull(body.address1), OrNull(body.address2), OrNull(body.city),
                    OrNull(body.state)),
      CompanyFields(None, None, None, None, None, None, None, None, None, None,
                    OrNull(body.postalCode)))
  }

  /** An optional column holds the submitted value when that is truthy and
      `null` otherwise: never the empty string. */
  predicate StoredOrNull(column: Nullable, submitted: Nullable) {
    (column.None? <==> !Truthy(submitted)) && (column.Some? ==> column == submitted)
  }

  /** What a registration stores: the required values as submitted, the
      password only as a digest that verifies it, each optional value or
      `null`, and `null` in every company column but `postal_code`. */
  lemma NewEmployeeColumns(body: RegistrationBody, password: string, salt: nat)
    requires RequiredPresent(body) && body.password == Some(password)
    ensures var e := NewEmployee(body, Hash(password, salt));
      && e.account.username == body.username.value && e.account.email == body.email.value
      && Verify(password, e.account.passwordHash)
      && e.person.firstName == body.firstName && e.person.lastName == body.lastName
      && StoredOrNull(e.person.phone, body.phone)
      && StoredOrNull(e.person.department, body.department)
      && StoredOrNull(e.person.jobTitle, body.jobTitle)
      && StoredOrNull(e.legacy.address1, body.address1)
      && StoredOrNull(e.legacy.address2, body.address2)
      && StoredOrNull(e.legacy.city, body.city)
      && StoredOrNull(e.legacy.state, body.state)
      && StoredOrNull(e.company.postalCode, body.postalCode)
      && e.company.(postalCode := None) == CompanyFields(None, None, None, None, None, None, None, None, None, None, None)
  {
  }

  const DuplicateAccount: Response := Response(409, ErrorBody("Username or email already exists."))
  const RegistrationFailed: Response := Response(500, ErrorBody("Registration failed. Please try again later."))
  const CredentialsRequired: Response := Response(400, ErrorBody("Username and password are required."))
  const InvalidCredentials: Response := Response(401, ErrorBody("Invalid username or password."))
  const LoginFailed: Response := Response(500, ErrorBody("Login failed. Please try again later."))

  /** The `catch` of the register handler: a unique-constraint violation is
      the same conflict the pre-check reports; anything else is a 500. */
  function RegisterError(code: string): (resp: Response)
    ensures resp.status == 409 <==> code == UniqueViolation
    ensures resp == DuplicateAccount || resp == RegistrationFailed
  {
    if code == UniqueViolation then DuplicateAccount else RegistrationFailed
  }

  /** `POST /register`. Statement 0 is the conflict lookup, statement 1 the
      insert. */
  method Register(db: EmployeeTable, body: RegistrationBody, salt: nat, fault: Fault)
    returns (resp: Response)
    requires db.Valid()
    modifies db
    ensures db.Valid()
    ensures ValidateRegistration(body).Some? ==>
              resp == Response(400, ErrorBody(ValidateRegistration(body).value)) && unchanged(db)
    ensures resp.status == 400 <==> ValidateRegistration(body).Some?
    ensures resp.status == 201 <==>
              && ValidateRegistration(body).None?
              && fault.Raise(0).None?
              && !TakenBy(old(db.rows), body.username.value, body.email.value)
              && fault.Raise(1).None?
    ensures resp.status == 201 ==>
              var id := old(db.nextId);
              && id !in old(db.rows)
              && db.rows == old(db.rows)[id := NewEmployee(body, Hash(body.password.value, salt))]
              && resp == Response(201, EmployeeBody("Registration complete.",
                   EmployeeJson(SnakeCase, id, body.username.value, body.firstName, body.lastName)))
    ensures resp.status != 201 ==> db.rows == old(db.rows)
    ensures resp.status == 409 <==>
              && ValidateRegistration(body).None?
              && (|| fault.Raise(0) == Some(UniqueViolation)
                  || (&& fault.Raise(0).None?
                      && (|| TakenBy(old(db.rows), body.username.value, body.email.value)
                          || fault.Raise(1) == Some(UniqueViolation))))
    ensures resp.status == 409 ==> resp == DuplicateAccount
    ensures resp.status !in {201, 400, 409} ==> resp == RegistrationFailed
    ensures ValidateRegistration(body).None? ==>
              var lookup := SelectByUsernameOrEmail(body.username.value, body.email.value);
              var insert := InsertEmployee(body.username.value, body.email.value);
              db.log == old(db.log) + [lookup] || db.log == old(db.log) + [lookup, insert]
  {
    var invalid := ValidateRegistration(body);
    if invalid.Some? {
      return Response(400, ErrorBody(invalid.value));
    }
    var username, email := body.username.value, body.email.value;
    var taken := db.SelectTaken(username, email, fault.Raise(0));
    if taken.Raised? {
      return RegisterError(taken.code);
    }
    if taken.value {
      return DuplicateAccount;
    }
    var passwordHash := Hash(body.password.value, salt);
    var row := NewEmployee(body, passwordHash);
    var inserted := db.Insert(row, fault.Raise(1));
    if inserted.Raised? {
      return RegisterError(inserted.code);
    }
    resp := Response(201, EmployeeBody("Registration complete.",
      EmployeeJson(SnakeCase, inserted.value, row.account.username, row.person.firstName,
                   row.person.lastName)));
  }

  /** The fields of a login body the handler reads. */
  datatype LoginBody = LoginBody(username: Nullable, password: Nullable)

  /** The employee object a successful login returns. */
  function Summary(id: int, e: Employee): EmployeeJson {
    EmployeeJson(CamelCase, id, e.account.username, e.person.firstName, e.person.lastName)
  }

  /** `POST /login`. Statement 0 is the lookup by username. An unknown
      username and a wrong password give the same 401 response. */
  method Login(db: EmployeeTable, body: LoginBody, fault: Fault) returns (resp: Response)
    requires db.Valid()
    modifies db`log
    ensures !Truthy(body.username) || !Truthy(body.password) ==>
              resp == CredentialsRequired && db.log == old(db.log)
    ensures Truthy(body.username) && Truthy(body.password) ==>
              db.log == old(db.log) + [SelectByUsername(body.username.value)]
    ensures Truthy(body.username) && Truthy(body.password) && fault.Raise(0).Some? ==>
              resp == LoginFailed
    ensures resp.status == 200 <==>
              && Truthy(body.username) && Truthy(body.password) && fault.Raise(0).None?
              && exists id :: HasUsername(db.rows, id, body.username.value)
                              && Verify(body.password.value, db.rows[id].account.passwordHash)
    ensures resp.status == 200 ==>
              exists id :: HasUsername(db.rows, id, body.username.value)
                           && resp == Response(200, EmployeeBody("Login successful.", Summary(id, db.rows[id])))
    ensures resp.status == 401 <==>
              && Truthy(body.username) && Truthy(body.password) && fault.Raise(0).None?
              && !exists id :: HasUsername(db.rows, id, body.username.value)
                               && Verify(body.password.value, db.rows[id].account.passwordHash)
    ensures resp.status == 401 ==> resp == InvalidCredentials
    ensures resp.status in {200, 400, 401, 500}
  {
    if !Truthy(body.username) || !Truthy(body.password) {
      return CredentialsRequired;
    }
    var username, password := body.username.value, body.password.value;
    var result := db.SelectUser(username, fault.Raise(0));
    if result.Raised? {
      return LoginFailed;
    }
    if result.value.None? {
      return InvalidCredentials;
    }
    var employee := result.value.value;
    if !Verify(password, employee.row.account.passwordHash) {
      return InvalidCredentials;
    }
    resp := Response(200, EmployeeBody("Login successful.", Summary(employee.id, employee.row)));
  }
}
