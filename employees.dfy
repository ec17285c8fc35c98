/** One row of the `employees` table, its password digest, and the
    uniqueness of usernames and emails across rows. */
module Employees {
  import opened Wrappers

  /** A nullable text column, or an optional string field of a request body. */
  type Nullable = Option<string>

  /** `SALT_ROUNDS`: the bcrypt work factor used at registration. */
  const SaltRounds: nat := 10

  /** A bcrypt digest, kept symbolic: the algorithm is not modelled, only
      which password a digest verifies. The preimage is the model's stand-in
      for that relation; no response carries a digest. */
  datatype PasswordHash = Bcrypt(cost: nat, salt: nat, preimage: string)

  /** `bcrypt.hash(password, SALT_ROUNDS)`, with the random salt it draws
      given as a parameter. */
  function Hash(password: string, salt: nat): (h: PasswordHash)
    ensures h.cost == SaltRounds
    ensures forall candidate :: Verify(candidate, h) <==> candidate == password
  {
    Bcrypt(SaltRounds, salt, password)
  }

  /** `bcrypt.compare(password, h)`. */
  predicate Verify(password: string, h: PasswordHash) {
    h.preimage == password
  }

  /** A digest made with this work factor verifies a password exactly when
      hashing that password with some salt produces it. */
  lemma VerifyIffHashed(password: string, h: PasswordHash)
    requires h.cost == SaltRounds
    ensures Verify(password, h) <==> exists salt :: Hash(password, salt) == h
  {
    if Verify(password, h) {
      assert Hash(password, h.salt) == h;
    }
  }

  /** `username`, `password_hash`, `email`. */
  datatype Account = Account(username: string, passwordHash: PasswordHash, email: string)

  /** `first_name`, `last_name`, `phone`, `department`, `job_title`. */
  datatype Person = Person(
    firstName: Nullable, lastName: Nullable, phone: Nullable,
    department: Nullable, jobTitle: Nullable)

  /** `address1`, `address2`, `city`, `state`: the free-form address written at
      registration, which the company view falls back to. */
  datatype LegacyAddress = LegacyAddress(
    address1: Nullable, address2: Nullable, city: Nullable, state: Nullable)

  /** The eleven company/address values: the columns `company_name` …
      `postal_code`, and equally the body of a profile update. */
  datatype CompanyFields = CompanyFields(
    companyName: Nullable, taxId: Nullable, addressNumber: Nullable, moo: Nullable,
    village: Nullable, soi: Nullable, road: Nullable, subDistrict: Nullable,
    district: Nullable, province: Nullable, postalCode: Nullable)

  /** A row of `employees`, without its `id` (the key of the table) and
      without `updated_at`. */
  datatype Employee = Employee(
    account: Account, person: Person, legacy: LegacyAddress, company: CompanyFields)

  type Rows = map<int, Employee>

  predicate HasUsername(rows: Rows, id: int, username: string) {
    id in rows && rows[id].account.username == username
  }

  /** `SELECT 1 FROM employees WHERE username = $1 OR email = $2` finds a row. */
  predicate TakenBy(rows: Rows, username: string, email: string) {
    exists id :: id in rows && (rows[id].account.username == username || rows[id].account.email == email)
  }

  /** The table's unique constraints: no two rows share a username or an email. */
  ghost predicate UniqueCredentials(rows: Rows) {
    forall i, j :: i in rows && j in rows && i != j ==>
      rows[i].account.username != rows[j].account.username &&
      rows[i].account.email != rows[j].account.email
  }

  /** Adding a row whose username and email are both unused keeps the
      constraints. */
  lemma InsertKeepsUnique(rows: Rows, id: int, e: Employee)
    requires UniqueCredentials(rows) && id !in rows
    requires !TakenBy(rows, e.account.username, e.account.email)
    ensures UniqueCredentials(rows[id := e])
  {
    var rows' := rows[id := e];
    forall i, j | i in rows' && j in rows' && i != j
      ensures rows'[i].account.username != rows'[j].account.username
      ensures rows'[i].account.email != rows'[j].account.email
    {
      if i == id { assert j in rows; } else if j == id { assert i in rows; }
    }
  }

  /** Rewriting a row without touching its account keeps the constraints. */
  lemma ReplaceKeepsUnique(rows: Rows, id: int, e: Employee)
    requires UniqueCredentials(rows) && id in rows
    requires e.account == rows[id].account
    ensures UniqueCredentials(rows[id := e])
  {
    var rows' := rows[id := e];
    forall i, j | i in rows' && j in rows' && i != j
      ensures rows'[i].account.username != rows'[j].account.username
      ensures rows'[i].account.email != rows'[j].account.email
    {
      assert rows'[i].account == rows[i].account && rows'[j].account == rows[j].account;
    }
  }
}
