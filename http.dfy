/** The JSON responses the routes send: a status code and a body. */
module Http {
  import opened Wrappers

  /** The key names of an employee object: `first_name`/`last_name` as the
      `RETURNING` row of an insert has them, or `firstName`/`lastName`. */
  datatype KeyStyle = SnakeCase | CamelCase

  /** `{id, username, first_name|firstName, last_name|lastName}`. It has no
      field for a password or its digest. */
  datatype EmployeeJson = EmployeeJson(
    keys: KeyStyle, id: int, username: string,
    firstName: Option<string>, lastName: Option<string>)

  /** The profile object `GET /api/users/:id` returns; every field but `id`
      is a string, never `null`. */
  datatype CompanyView = CompanyView(
    id: int, companyName: string, taxId: string, addressNumber: string, moo: string,
    village: string, soi: string, road: string, subDistrict: string,
    district: string, province: string, postalCode: string)

  datatype Body =
    | ErrorBody(error: string)
    | MessageBody(message: string)
    | EmployeeBody(message: string, employee: EmployeeJson)
    | CompanyBody(view: CompanyView)

  datatype Response = Response(status: nat, body: Body)
}
