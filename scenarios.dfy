/** Properties that span more than one request: what a registration makes
    visible to login and to the profile view, a repeated registration, and an
    update read back. */
module Scenarios {
  import opened Wrappers
  import opened JsStrings
  import opened JsNumbers
  import opened Employees
  import opened Store
  import opened Http
  import opened Auth
  import opened Users

  /** The profile view of a freshly registered employee: the company name
      is the trimmed "first last", sub-district and district show the
      registered city and state, the postal code the registered one, and
      every other field is "". */
  lemma RegisteredView(id: int, body: RegistrationBody, h: PasswordHash)
    requires RequiredPresent(body)
    ensures var v := MapEmployeeToCompany(id, NewEmployee(body, h));
      && v.companyName == Trim(body.firstName.value + " " + body.lastName.value)
      && v.subDistrict == OrEmpty(body.city) && v.district == OrEmpty(body.state)
      && v.postalCode == OrEmpty(body.postalCode)
      && v.taxId == "" && v.addressNumber == "" && v.moo == "" && v.village == ""
      && v.soi == "" && v.road == "" && v.province == ""
  {
  }

  /** A successful registration followed by a login: the right password
      logs in as the new employee; any other non-empty password gets the
      same 401 as an unknown username. */
  method RegisterThenLogin(db: EmployeeTable, body: RegistrationBody, salt: nat, attempt: string)
    returns (registered: Response, loggedIn: Response)
    requires db.Valid()
    requires ValidateRegistration(body).None?
    requires !TakenBy(db.rows, body.username.value, body.email.value)
    requires attempt != ""
    modifies db
    ensures db.Valid()
    ensures registered.status == 201
    ensures attempt == body.password.value ==>
              && loggedIn.status == 200
              && registered.body.EmployeeBody? && loggedIn.body.EmployeeBody?
              && loggedIn.body.employee == registered.body.employee.(keys := CamelCase)
    ensures attempt != body.password.value ==> loggedIn == InvalidCredentials
  {
    ghost var id := db.nextId;
    registered := Register(db, body, salt, Healthy);
    ghost var row := NewEmployee(body, Hash(body.password.value, salt));
    assert db.rows[id] == row && HasUsername(db.rows, id, body.username.value);
    loggedIn := Login(db, LoginBody(body.username, Some(attempt)), Healthy);
    if loggedIn.status == 200 {
      var other :| HasUsername(db.rows, other, body.username.value)
        && loggedIn == Response(200, EmployeeBody("Login successful.", Summary(other, db.rows[other])));
      assert other == id;
    }
    if attempt == body.password.value {
      assert Verify(attempt, db.rows[id].account.passwordHash);
    } else {
      forall other | HasUsername(db.rows, other, body.username.value)
        ensures !Verify(attempt, db.rows[other].account.passwordHash)
      {
        assert other == id;
      }
    }
  }

  /** Registering a second account with the username or the email of the
      first is a conflict, and the store keeps only the first. */
  method RegisterTwice(db: EmployeeTable, first: RegistrationBody, second: RegistrationBody,
                       salt1: nat, salt2: nat)
    returns (r1: Response, r2: Response)
    requires db.Valid()
    requires ValidateRegistration(first).None? && ValidateRegistration(second).None?
    requires !TakenBy(db.rows, first.username.value, first.email.value)
    requires second.username == first.username || second.email == first.email
    modifies db
    ensures db.Valid()
    ensures r1.status == 201 && r2 == DuplicateAccount
    ensures db.rows == old(db.rows)[old(db.nextId) := NewEmployee(first, Hash(first.password.value, salt1))]
  {
    ghost var id := db.nextId;
    r1 := Register(db, first, salt1, Healthy);
    assert id in db.rows;
    assert TakenBy(db.rows, second.username.value, second.email.value);
    r2 := Register(db, second, salt2, Healthy);
  }

  /** An update followed by a read of the same id returns what the update
      wrote, through the view's fallbacks. */
  method UpdateThenGet(db: EmployeeTable, idParam: string, form: CompanyFields)
    returns (put: Response, get: Response)
    requires db.Valid()
    requires ParseInt(idParam).Some? && ParseInt(idParam).value in db.rows
    modifies db`rows, db`log
    ensures db.Valid()
    ensures put == UserUpdated
    ensures get.status == 200 && get.body.CompanyBody?
    ensures get.body.view.id == ParseInt(idParam).value
    ensures ShowsUpdate(get.body.view, old(db.rows)[ParseInt(idParam).value], form)
  {
    ghost var id := ParseInt(idParam).value;
    ghost var e := db.rows[id];
    ghost var e' := e.(company := NormalizeCompany(form));
    put := PutUser(db, idParam, form, Healthy);
    assert id in db.rows && db.rows[id] == e';
    get := GetUser(db, idParam, Healthy);
    assert get == Response(200, CompanyBody(MapEmployeeToCompany(id, e')));
    UpdateThenView(id, e, form);
  }
}
