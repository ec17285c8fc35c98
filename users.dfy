/** `GET /api/users/:id` and `PUT /api/users/:id`: the company/address
    profile of one employee, read through a view with fallbacks and
    overwritten as a whole. */
module Users {
  import opened Wrappers
  import opened JsStrings
  import opened JsNumbers
  import opened Employees
  import opened Store
  import opened Http

  /** `toNullable`: absent values and blank strings become `null`, anything
      else is stored trimmed. */
  function ToNullable(value: Nullable): (r: Nullable)
    ensures r.None? <==> value.None? || AllWhitespace(value.value)
    ensures r.Some? ==> r.value != "" && IsTrimmed(r.value) && r.value == Trim(value.value)
  {
    if value.None? then None
    else
      var trimmed := Trim(value.value);
      if trimmed == "" then None else Some(trimmed)
  }

  /** What `toNullable` can return: `null` or a non-empty trimmed string. */
  predicate Normal(v: Nullable) {
    v.None? || (v.value != "" && IsTrimmed(v.value))
  }

  /** `toNullable` changes nothing that is already normal, so applying it
      twice is applying it once. */
  lemma ToNullableIdempotent(value: Nullable)
    ensures Normal(ToNullable(value))
    ensures Normal(value) ==> ToNullable(value) == value
    ensures ToNullable(ToNullable(value)) == ToNullable(value)
  {
    if value.Some? && Normal(value) {
      TrimOfTrimmed(value.value);
    }
    var r := ToNullable(value);
    if r.Some? {
      TrimOfTrimmed(r.value);
    }
  }

  /** The eleven `toNullable(...)` arguments of the `UPDATE`. */
  function NormalizeCompany(form: CompanyFields): CompanyFields {
    CompanyFields(
      ToNullable(form.companyName), ToNullable(form.taxId), ToNullable(form.addressNumber),
      ToNullable(form.moo), ToNullable(form.village), ToNullable(form.soi),
      ToNullable(form.road), ToNullable(form.subDistrict), ToNullable(form.district),
      ToNullable(form.province), ToNullable(form.postalCode))
  }

  /** Every column the update writes is normal. */
  predicate NormalCompany(c: CompanyFields) {
    && Normal(c.companyName) && Normal(c.taxId) && Normal(c.addressNumber)
    && Normal(c.moo) && Normal(c.village) && Normal(c.soi) && Normal(c.road)
    && Normal(c.subDistrict) && Normal(c.district) && Normal(c.province)
    && Normal(c.postalCode)
  }

  /** The update writes only normal columns, and normalising its columns
      again changes nothing: sending the same update twice leaves the row as
      sending it once. */
  lemma NormalizeCompanyIdempotent(form: CompanyFields)
    ensures NormalCompany(NormalizeCompany(form))
    ensures NormalizeCompany(NormalizeCompany(form)) == NormalizeCompany(form)
  {
    ToNullableIdempotent(form.companyName);
    ToNullableIdempotent(form.taxId);
    ToNullableIdempotent(form.addressNumber);
    ToNullableIdempotent(form.moo);
    ToNullableIdempotent(form.village);
    ToNullableIdempotent(form.soi);
    ToNullableIdempotent(form.road);
    ToNullableIdempotent(form.subDistrict);
    ToNullableIdempotent(form.district);
    ToNullableIdempotent(form.province);
    ToNullableIdempotent(form.postalCode);
  }

  /** `${first_name || ""} ${last_name || ""}`.trim() */
  function FullName(e: Employee): string {
    Trim(OrEmpty(e.person.firstName) + " " + OrEmpty(e.person.lastName))
  }

  /** `mapEmployeeToCompany`. */
  function MapEmployeeToCompany(id: int, e: Employee): CompanyView {
    var c := e.company;
    CompanyView(
      id,
      if Truthy(c.companyName) then c.companyName.value else FullName(e),
      OrEmpty(c.taxId), OrEmpty(c.addressNumber), OrEmpty(c.moo), OrEmpty(c.village),
      OrEmpty(c.soi), OrEmpty(c.road),
      OrEmpty(Or(c.subDistrict, e.legacy.city)),
      OrEmpty(Or(c.district, e.legacy.state)),
      OrEmpty(c.province), OrEmpty(c.postalCode))
  }

  /** The view shows every non-empty column as stored and the id unchanged.
      An empty or `null` company name shows the trimmed full name, an empty
      sub-district the city, an empty district the state; any other empty
      field shows as "". No field of the view is ever `null`. */
  lemma CompanyViewFields(id: int, e: Employee)
    ensures var v := MapEmployeeToCompany(id, e); var c := e.company;
      && v.id == id
      && (Truthy(c.companyName) ==> v.companyName == c.companyName.value)
      && (!Truthy(c.companyName) ==> v.companyName == FullName(e) && IsTrimmed(v.companyName))
      && (Truthy(c.taxId) ==> v.taxId == c.taxId.value) && (!Truthy(c.taxId) ==> v.taxId == "")
      && (Truthy(c.addressNumber) ==> v.addressNumber == c.addressNumber.value) && (!Truthy(c.addressNumber) ==> v.addressNumber == "")
      && (Truthy(c.moo) ==> v.moo == c.moo.value) && (!Truthy(c.moo) ==> v.moo == "")
      && (Truthy(c.village) ==> v.village == c.village.value) && (!Truthy(c.village) ==> v.village == "")
      && (Truthy(c.soi) ==> v.soi == c.soi.value) && (!Truthy(c.soi) ==> v.soi == "")
      && (Truthy(c.road) ==> v.road == c.road.value) && (!Truthy(c.road) ==> v.road == "")
      && (Truthy(c.subDistrict) ==> v.subDistrict == c.subDistrict.value)
      && (!Truthy(c.subDistrict) ==> v.subDistrict == OrEmpty(e.legacy.city))
      && (Truthy(c.district) ==> v.district == c.district.value)
      && (!Truthy(c.district) ==> v.district == OrEmpty(e.legacy.state))
      && (Truthy(c.province) ==> v.province == c.province.value)
      && (!Truthy(c.province) ==> v.province == "")
      && (Truthy(c.postalCode) ==> v.postalCode == c.postalCode.value)
      && (!Truthy(c.postalCode) ==> v.postalCode == "")
  {
  }

  /** What a submitted field reads back as: its trimmed text, or "" when it
      was omitted. */
  function ReadBack(submitted: Nullable): string {
    if submitted.None? then "" else Trim(submitted.value)
  }

  predicate Blank(submitted: Nullable) {
    submitted.None? || AllWhitespace(submitted.value)
  }

  /** What the view shows after an update with `form` of the row `e`: every
      submitted value trimmed, and "" for a blank or omitted one, except that
      a blank company name shows the full name and a blank sub-district or
      district the city or state the row already had. */
  predicate ShowsUpdate(v: CompanyView, e: Employee, form: CompanyFields) {
    && v.companyName == (if Blank(form.companyName) then FullName(e) else ReadBack(form.companyName))
    && v.taxId == ReadBack(form.taxId)
    && v.addressNumber == ReadBack(form.addressNumber)
    && v.moo == ReadBack(form.moo)
    && v.village == ReadBack(form.village)
    && v.soi == ReadBack(form.soi)
    && v.road == ReadBack(form.road)
    && v.subDistrict == (if Blank(form.subDistrict) then OrEmpty(e.legacy.city) else ReadBack(form.subDistrict))
    && v.district == (if Blank(form.district) then OrEmpty(e.legacy.state) else ReadBack(form.district))
    && v.province == ReadBack(form.province)
    && v.postalCode == ReadBack(form.postalCode)
  }

  /** Round trip: the view of a row after an update shows the update. */
  lemma UpdateThenView(id: int, e: Employee, form: CompanyFields)
    ensures MapEmployeeToCompany(id, e.(company := NormalizeCompany(form))).id == id
    ensures ShowsUpdate(MapEmployeeToCompany(id, e.(company := NormalizeCompany(form))), e, form)
  {
    ReadsBackTrimmed(form.companyName);
    ReadsBackTrimmed(form.taxId);
    ReadsBackTrimmed(form.addressNumber);
    ReadsBackTrimmed(form.moo);
    ReadsBackTrimmed(form.village);
    ReadsBackTrimmed(form.soi);
    ReadsBackTrimmed(form.road);
    ReadsBackTrimmed(form.subDistrict);
    ReadsBackTrimmed(form.district);
    ReadsBackTrimmed(form.province);
    ReadsBackTrimmed(form.postalCode);
  }

  /** A stored `toNullable` value shows as the trimmed submission; a blank
      submission is stored as `null`, which is falsy. */
  lemma ReadsBackTrimmed(submitted: Nullable)
    ensures OrEmpty(ToNullable(submitted)) == ReadBack(submitted)
    ensures Truthy(ToNullable(submitted)) <==> !Blank(submitted)
  {
  }

  /** When every submitted value is non-empty and already trimmed, the view
      after the update returns exactly the submitted values. */
  lemma UpdateThenViewExact(id: int, e: Employee, form: CompanyFields)
    requires NormalCompany(form)
    requires form.companyName.Some? && form.taxId.Some? && form.addressNumber.Some?
    requires form.moo.Some? && form.village.Some? && form.soi.Some? && form.road.Some?
    requires form.subDistrict.Some? && form.district.Some? && form.province.Some?
    requires form.postalCode.Some?
    ensures MapEmployeeToCompany(id, e.(company := NormalizeCompany(form))) ==
      CompanyView(id, form.companyName.value, form.taxId.value, form.addressNumber.value,
                  form.moo.value, form.village.value, form.soi.value, form.road.value,
                  form.subDistrict.value, form.district.value, form.province.value,
                  form.postalCode.value)
  {
    NormalizeCompanyIdempotent(form);
    ToNullableIdempotent(form.companyName);
    ToNullableIdempotent(form.taxId);
    ToNullableIdempotent(form.addressNumber);
    ToNullableIdempotent(form.moo);
    ToNullableIdempotent(form.village);
    ToNullableIdempotent(form.soi);
    ToNullableIdempotent(form.road);
    ToNullableIdempotent(form.subDistrict);
    ToNullableIdempotent(form.district);
    ToNullableIdempotent(form.province);
    ToNullableIdempotent(form.postalCode);
  }

  const InvalidUserId: Response := Response(400, ErrorBody("Invalid user id."))
  const UserNotFound: Response := Response(404, ErrorBody("User not found."))
  const FetchFailed: Response := Response(500, ErrorBody("Unable to fetch user info."))
  const UpdateFailed: Response := Response(500, ErrorBody("Unable to update user info."))
  const UserUpdated: Response := Response(200, MessageBody("User info updated."))

  /** `GET /:id`. An id with no decimal prefix is rejected before the store
      is touched; statement 0 is the lookup by id. */
  method GetUser(db: EmployeeTable, idParam: string, fault: Fault) returns (resp: Response)
    modifies db`log
    ensures ParseInt(idParam).None? ==> resp == InvalidUserId && db.log == old(db.log)
    ensures ParseInt(idParam).Some? ==> db.log == old(db.log) + [SelectById(ParseInt(idParam).value)]
    ensures ParseInt(idParam).Some? && fault.Raise(0).Some? ==> resp == FetchFailed
    ensures ParseInt(idParam).Some? && fault.Raise(0).None? ==>
              var id := ParseInt(idParam).value;
              resp == if id in db.rows then Response(200, CompanyBody(MapEmployeeToCompany(id, db.rows[id])))
                      else UserNotFound
  {
    var parsed := ParseInt(idParam);
    if parsed.None? {
      return InvalidUserId;
    }
    var id := parsed.value;
    var result := db.SelectRow(id, fault.Raise(0));
    if result.Raised? {
      return FetchFailed;
    }
    if result.value.None? {
      return UserNotFound;
    }
    resp := Response(200, CompanyBody(MapEmployeeToCompany(id, result.value.value)));
  }

  /** `PUT /:id`. An id with no decimal prefix is rejected before the store
      is touched; statement 0 is the update, which overwrites all eleven
      company/address columns, so an omitted field becomes `null`. */
  method PutUser(db: EmployeeTable, idParam: string, form: CompanyFields, fault: Fault)
    returns (resp: Response)
    requires db.Valid()
    modifies db`rows, db`log
    ensures db.Valid()
    ensures ParseInt(idParam).None? ==> resp == InvalidUserId && unchanged(db)
    ensures ParseInt(idParam).Some? ==> db.log == old(db.log) + [UpdateCompany(ParseInt(idParam).value)]
    ensures ParseInt(idParam).Some? && fault.Raise(0).Some? ==>
              resp == UpdateFailed && db.rows == old(db.rows)
    ensures ParseInt(idParam).Some? && fault.Raise(0).None? ==>
              var id := ParseInt(idParam).value;
              && (id in old(db.rows) ==>
                    && resp == UserUpdated
                    && db.rows == old(db.rows)[id := old(db.rows)[id].(company := NormalizeCompany(form))])
              && (id !in old(db.rows) ==> resp == UserNotFound && db.rows == old(db.rows))
  {
    var parsed := ParseInt(idParam);
    if parsed.None? {
      return InvalidUserId;
    }
    var id := parsed.value;
    var updated := db.UpdateCompanyColumns(id, NormalizeCompany(form), fault.Raise(0));
    if updated.Raised? {
      return UpdateFailed;
    }
    if updated.value == 0 {
      return UserNotFound;
    }
    resp := UserUpdated;
  }
}
