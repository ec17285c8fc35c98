/** The `employees` table as the handlers see it: each `query(...)` call is
    one statement against it, which either completes or raises an error
    carrying a PostgreSQL error code. */
module Store {
  import opened Wrappers
  import opened Employees

  /** PostgreSQL's error code for a unique-constraint violation. */
  const UniqueViolation: string := "23505"

  /** The statements the handlers issue, as they reach the store. */
  datatype Statement =
    | SelectByUsernameOrEmail(username: string, email: string)
    | InsertEmployee(username: string, email: string)
    | SelectByUsername(username: string)
    | SelectById(id: int)
    | UpdateCompany(id: int)

  /** A statement's outcome: its result, or the error it raised. */
  datatype Result<+T> = Done(value: T) | Raised(code: string)

  /** Which statement of a request, if any, the store fails (a lost
      connection, or a concurrent request's write), and the error code. The
      statements of one request are numbered from 0. */
  datatype Fault = Healthy | RaisesAt(statement: nat, code: string) {
    function Raise(k: nat): Option<string> {
      if RaisesAt? && statement == k then Some(code) else None
    }
  }

  /** The row `SELECT … WHERE username = $1` returns, with its id. */
  datatype Found = Found(id: int, row: Employee)

  class EmployeeTable {
    var rows: Rows
    /** The next value of the `id` sequence. */
    var nextId: int
    /** The statements issued so far. */
    ghost var log: seq<Statement>

    ghost predicate Valid()
      reads this
    {
      && (forall id :: id in rows ==> id < nextId)
      && UniqueCredentials(rows)
    }

    constructor ()
      ensures Valid() && rows == map[] && nextId == 1 && log == []
    {
      rows := map[];
      nextId := 1;
      log := [];
    }

    /** `SELECT 1 FROM employees WHERE username = $1 OR email = $2`: whether
        any row has the username or the email. */
    method SelectTaken(username: string, email: string, raise: Option<string>)
      returns (r: Result<bool>)
      modifies this`log
      ensures log == old(log) + [SelectByUsernameOrEmail(username, email)]
      ensures raise.Some? ==> r == Raised(raise.value)
      ensures raise.None? ==> r == Done(TakenBy(rows, username, email))
    {
      log := log + [SelectByUsernameOrEmail(username, email)];
      if raise.Some? {
        return Raised(raise.value);
      }
      r := Done(TakenBy(rows, username, email));
    }

    /** `INSERT INTO employees … RETURNING id`: the unique constraints reject
        a row whose username or email is taken; otherwise the row gets the
        next id of the sequence. */
    method Insert(e: Employee, raise: Option<string>) returns (r: Result<int>)
      requires Valid()
      modifies this
      ensures Valid()
      ensures log == old(log) + [InsertEmployee(e.account.username, e.account.email)]
      ensures r.Done? <==> raise.None? && !TakenBy(old(rows), e.account.username, e.account.email)
      ensures r.Done? ==> r.value == old(nextId) && r.value !in old(rows)
                          && rows == old(rows)[r.value := e] && nextId == old(nextId) + 1
      ensures r.Raised? ==> rows == old(rows) && nextId == old(nextId)
                            && r.code == (if raise.Some? then raise.value else UniqueViolation)
    {
      log := log + [InsertEmployee(e.account.username, e.account.email)];
      if raise.Some? {
        return Raised(raise.value);
      }
      if TakenBy(rows, e.account.username, e.account.email) {
        return Raised(UniqueViolation);
      }
      InsertKeepsUnique(rows, nextId, e);
      rows := rows[nextId := e];
      r := Done(nextId);
      nextId := nextId + 1;
    }

    /** `SELECT … FROM employees WHERE username = $1`: the row with this
        username, if there is one. */
    method SelectUser(username: string, raise: Option<string>) returns (r: Result<Option<Found>>)
      modifies this`log
      ensures log == old(log) + [SelectByUsername(username)]
      ensures raise.Some? ==> r == Raised(raise.value)
      ensures raise.None? ==> r.Done?
      ensures r.Done? && r.value.None? ==> forall id :: !HasUsername(rows, id, username)
      ensures r.Done? && r.value.Some? ==>
                HasUsername(rows, r.value.value.id, username) && r.value.value.row == rows[r.value.value.id]
    {
      log := log + [SelectByUsername(username)];
      if raise.Some? {
        return Raised(raise.value);
      }
      if id :| id in rows && rows[id].account.username == username {
        r := Done(Some(Found(id, rows[id])));
      } else {
        r := Done(None);
      }
    }

    /** `SELECT … FROM employees WHERE id = $1`. */
    method SelectRow(id: int, raise: Option<string>) returns (r: Result<Option<Employee>>)
      modifies this`log
      ensures log == old(log) + [SelectById(id)]
      ensures raise.Some? ==> r == Raised(raise.value)
      ensures raise.None? ==> r == Done(if id in rows then Some(rows[id]) else None)
    {
      log := log + [SelectById(id)];
      if raise.Some? {
        return Raised(raise.value);
      }
      r := Done(if id in rows then Some(rows[id]) else None);
    }

    /** `UPDATE employees SET company_name = $1, … WHERE id = $12`: overwrite
        the eleven company/address columns of the row, if any, and report how
        many rows changed. */
    method UpdateCompanyColumns(id: int, columns: CompanyFields, raise: Option<string>)
      returns (r: Result<nat>)
      requires Valid()
      modifies this`rows, this`log
      ensures Valid()
      ensures log == old(log) + [UpdateCompany(id)]
      ensures raise.Some? ==> r == Raised(raise.value) && rows == old(rows)
      ensures raise.None? && id in old(rows) ==>
                r == Done(1) && rows == old(rows)[id := old(rows)[id].(company := columns)]
      ensures raise.None? && id !in old(rows) ==> r == Done(0) && rows == old(rows)
    {
      log := log + [UpdateCompany(id)];
      if raise.Some? {
        return Raised(raise.value);
      }
      if id in rows {
        ReplaceKeepsUnique(rows, id, rows[id].(company := columns));
        rows := rows[id := rows[id].(company := columns)];
        r := Done(1);
      } else {
        r := Done(0);
      }
    }
  }
}
