/** `POST /api/contact`: the required-field gate, the e-mail shape gate, the row
    written to `contact_requests` and the response chosen from the store's answer.
    The table is a sequence of rows; the store's answer to the insert is a parameter. */
module ContactApi {
  import opened Common
  import opened Http
  import EmailFormat

  const RequiredFields: seq<string> := ["school_id", "request_type", "parent_name", "parent_email", "message"]

  /** No required field is falsy. */
  predicate HasRequired(body: Record) {
    forall i :: 0 <= i < |RequiredFields| ==> Truthy(Field(body, RequiredFields[i]))
  }

  datatype ContactRequest = ContactRequest(
    schoolId: Value, requestType: Value, parentName: Value, parentEmail: Value,
    parentPhone: Value, message: Value, status: string)

  /** The row inserted for `body`. */
  function RowFor(body: Record): (row: ContactRequest)
    ensures Truthy(Field(body, "parent_phone")) ==> row.parentPhone == Field(body, "parent_phone")
    ensures !Truthy(Field(body, "parent_phone")) ==> row.parentPhone == Null
    ensures row.status == "pending"
    ensures row.schoolId == Field(body, "school_id") && row.requestType == Field(body, "request_type")
    ensures row.parentName == Field(body, "parent_name") && row.parentEmail == Field(body, "parent_email")
    ensures row.message == Field(body, "message")
  {
    ContactRequest(
      Field(body, "school_id"), Field(body, "request_type"), Field(body, "parent_name"),
      Field(body, "parent_email"), OrElse(Field(body, "parent_phone"), Null), Field(body, "message"),
      "pending")
  }

  datatype Submitted = Submitted(success: bool, message: string, requestId: Value)

  /** The response and the table after the request. */
  datatype Outcome = Outcome(response: Response<Submitted>, table: seq<ContactRequest>)

  /** `POST`: `body` is `None` when the request body is not valid JSON, and `store`
      is the store's answer to inserting a row. */
  function Post(body: Option<Record>, table: seq<ContactRequest>, store: ContactRequest -> WriteAnswer<Value>): (o: Outcome)
    ensures o.table == table || (body.Some? && o.response.status == 201 && o.table == table + [RowFor(body.value)])
    ensures o.response.status in {201, 400, 500}
    ensures body.None? ==> o == Outcome(Error(500, InternalError), table)
  {
    match body
    case None => Outcome(Error(500, InternalError), table)
    case Some(b) =>
      if !Truthy(Field(b, "school_id")) || !Truthy(Field(b, "request_type")) || !Truthy(Field(b, "parent_name"))
        || !Truthy(Field(b, "parent_email")) || !Truthy(Field(b, "message")) then
        Outcome(Error(400, "Missing required fields"), table)
      else if !EmailFormat.TestValue(Field(b, "parent_email")) then
        Outcome(Error(400, "Invalid email format"), table)
      else
        var row := RowFor(b);
        match store(row)
        case Stored(id) =>
          Outcome(Response(201, Payload(Submitted(true, "Contact request submitted successfully", id))), table + [row])
        case WriteError(_) => Outcome(Error(500, "Failed to create contact request"), table)
        case WriteThrew(_) => Outcome(Error(500, InternalError), table)
  }

  /** A falsy required field answers 400 and writes nothing, whatever the store would do. */
  lemma MissingFieldRejected(b: Record, table: seq<ContactRequest>, store: ContactRequest -> WriteAnswer<Value>)
    requires !HasRequired(b)
    ensures Post(Some(b), table, store) == Outcome(Error(400, "Missing required fields"), table)
  {
    var i :| 0 <= i < |RequiredFields| && !Truthy(Field(b, RequiredFields[i]));
    assert i == 0 || i == 1 || i == 2 || i == 3 || i == 4;
  }

  /** With every required field present, a malformed e-mail answers 400 and writes
      nothing. The field gate comes first: a request failing both reports the
      missing fields. */
  lemma MalformedEmailRejected(b: Record, table: seq<ContactRequest>, store: ContactRequest -> WriteAnswer<Value>)
    requires HasRequired(b)
    requires !EmailFormat.TestValue(Field(b, "parent_email"))
    ensures Post(Some(b), table, store) == Outcome(Error(400, "Invalid email format"), table)
  {
    assert Truthy(Field(b, RequiredFields[0])) && Truthy(Field(b, RequiredFields[1])) && Truthy(Field(b, RequiredFields[2]));
    assert Truthy(Field(b, RequiredFields[3])) && Truthy(Field(b, RequiredFields[4]));
  }

  /** A request is accepted exactly when both gates pass and the store stores the
      row; then the row is appended and the response carries the stored id. The
      accepted value is a string or an array of strings whose text has the stated
      e-mail shape. */
  lemma AcceptedIff(b: Record, table: seq<ContactRequest>, store: ContactRequest -> WriteAnswer<Value>)
    ensures Post(Some(b), table, store).response.status == 201 <==>
      HasRequired(b) && EmailFormat.TestValue(Field(b, "parent_email")) && store(RowFor(b)).Stored?
    ensures Post(Some(b), table, store).response.status == 201 ==>
      && Post(Some(b), table, store).table == table + [RowFor(b)]
      && Post(Some(b), table, store).response.body.data.requestId == store(RowFor(b)).id
      && (Field(b, "parent_email").Str? || Field(b, "parent_email").Arr?)
      && EmailFormat.EmailShape(EmailFormat.TestedText(Field(b, "parent_email")))
  {
    if HasRequired(b) {
      assert Truthy(Field(b, RequiredFields[0])) && Truthy(Field(b, RequiredFields[1])) && Truthy(Field(b, RequiredFields[2]));
      assert Truthy(Field(b, RequiredFields[3])) && Truthy(Field(b, RequiredFields[4]));
    } else {
      MissingFieldRejected(b, table, store);
    }
    if EmailFormat.TestValue(Field(b, "parent_email")) {
      EmailFormat.PatternIffShape(EmailFormat.TestedText(Field(b, "parent_email")));
    }
  }

  /** Past both gates, a store error answers 500 and writes nothing. */
  lemma StoreErrorFails(b: Record, table: seq<ContactRequest>, store: ContactRequest -> WriteAnswer<Value>)
    requires HasRequired(b) && EmailFormat.TestValue(Field(b, "parent_email"))
    requires store(RowFor(b)).WriteError?
    ensures Post(Some(b), table, store) == Outcome(Error(500, "Failed to create contact request"), table)
  {
    assert Truthy(Field(b, RequiredFields[0])) && Truthy(Field(b, RequiredFields[1])) && Truthy(Field(b, RequiredFields[2]));
    assert Truthy(Field(b, RequiredFields[3])) && Truthy(Field(b, RequiredFields[4]));
  }

  /** A parent e-mail sent as a one-element array holding an address passes the
      e-mail gate, and the appended row keeps the array as sent. */
  lemma ArrayAddressSubmits(b: Record, table: seq<ContactRequest>, store: ContactRequest -> WriteAnswer<Value>)
    requires HasRequired(b) && Field(b, "parent_email") == Arr(["ana@colegio.do"])
    requires store(RowFor(b)).Stored?
    ensures Post(Some(b), table, store).response.status == 201
    ensures Post(Some(b), table, store).table == table + [RowFor(b)]
    ensures RowFor(b).parentEmail == Arr(["ana@colegio.do"])
  {
    EmailFormat.AcceptsArrayOfOneAddress();
    AcceptedIff(b, table, store);
  }
}
