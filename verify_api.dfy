/** `POST /api/verify`: the required-field gate, then two writes in sequence: insert
    the verification request, then mark the school's `verification_status` as
    `pending`. Each write's outcome decides whether the handler goes on. The store
    is a class whose two tables the writes change; the store's answers are parameters. */
module VerifyApi {
  import opened Common
  import opened Http

  const RequiredFields: seq<string> :=
    ["school_id", "director_name", "director_phone", "requester_role", "official_contact_email", "email", "email_type"]

  predicate HasRequired(body: Record) {
    forall i :: 0 <= i < |RequiredFields| ==> Truthy(Field(body, RequiredFields[i]))
  }

  /** The gate as the handler writes it, one field after another. */
  predicate GatePasses(b: Record) {
    !(!Truthy(Field(b, "school_id")) || !Truthy(Field(b, "director_name")) || !Truthy(Field(b, "director_phone"))
      || !Truthy(Field(b, "requester_role")) || !Truthy(Field(b, "official_contact_email"))
      || !Truthy(Field(b, "email")) || !Truthy(Field(b, "email_type")))
  }

  /** The chain of tests rejects a body exactly when a required field is falsy. */
  lemma GateIsRequiredFields(b: Record)
    ensures GatePasses(b) <==> HasRequired(b)
  {
    if GatePasses(b) {
      forall i | 0 <= i < |RequiredFields| ensures Truthy(Field(b, RequiredFields[i])) {
        assert i == 0 || i == 1 || i == 2 || i == 3 || i == 4 || i == 5 || i == 6;
      }
    } else {
      assert !HasRequired(b) by {
        assert !Truthy(Field(b, RequiredFields[0])) || !Truthy(Field(b, RequiredFields[1]))
          || !Truthy(Field(b, RequiredFields[2])) || !Truthy(Field(b, RequiredFields[3]))
          || !Truthy(Field(b, RequiredFields[4])) || !Truthy(Field(b, RequiredFields[5]))
          || !Truthy(Field(b, RequiredFields[6]));
      }
    }
  }

  datatype VerificationRequest = VerificationRequest(
    schoolId: Value, directorName: Value, directorPhone: Value, requesterRole: Value,
    officialContactEmail: Value, email: Value, emailType: Value, documents: Value, status: string)

  /** The row inserted for `body`: `documents` falls back to the empty array. */
  function RowFor(b: Record): (row: VerificationRequest)
    ensures row.documents == (if Truthy(Field(b, "documents")) then Field(b, "documents") else Arr([]))
    ensures row.status == "pending"
    ensures row.schoolId == Field(b, "school_id") && row.email == Field(b, "email")
    ensures row.directorName == Field(b, "director_name") && row.directorPhone == Field(b, "director_phone")
    ensures row.requesterRole == Field(b, "requester_role") && row.emailType == Field(b, "email_type")
    ensures row.officialContactEmail == Field(b, "official_contact_email")
  {
    VerificationRequest(
      Field(b, "school_id"), Field(b, "director_name"), Field(b, "director_phone"), Field(b, "requester_role"),
      Field(b, "official_contact_email"), Field(b, "email"), Field(b, "email_type"),
      OrElse(Field(b, "documents"), Arr([])), "pending")
  }

  /** The answer to `update(...).eq('id', id)`. */
  datatype UpdateAnswer = Updated | UpdateError(message: string) | UpdateThrew(message: string)

  datatype Submitted = Submitted(success: bool, message: string, verificationId: Value)

  /** `update({ verification_status: 'pending' }).eq('id', id)`: an unknown id matches
      no row and changes nothing. */
  function MarkedPending(statuses: map<Value, string>, id: Value): (r: map<Value, string>)
    ensures r.Keys == statuses.Keys
    ensures id in statuses ==> r[id] == "pending"
    ensures forall k :: k in statuses && k != id ==> r[k] == statuses[k]
  {
    if id in statuses then statuses[id := "pending"] else statuses
  }

  /** The two tables the route writes. */
  class Store {
    var requests: seq<VerificationRequest>
    /** `schools.verification_status`, by school id. */
    var verificationStatus: map<Value, string>

    constructor(statuses: map<Value, string>)
      ensures requests == [] && verificationStatus == statuses
    {
      requests := [];
      verificationStatus := statuses;
    }

    /** `insert(row).select().single()`: the row is kept only when the store answers
        with its id. */
    method InsertRequest(row: VerificationRequest, answer: WriteAnswer<Value>) returns (result: WriteAnswer<Value>)
      modifies this
      ensures result == answer
      ensures requests == if answer.Stored? then old(requests) + [row] else old(requests)
      ensures verificationStatus == old(verificationStatus)
    {
      if answer.Stored? {
        requests := requests + [row];
      }
      result := answer;
    }

    method MarkPending(id: Value, answer: UpdateAnswer) returns (result: UpdateAnswer)
      modifies this
      ensures result == answer
      ensures requests == old(requests)
      ensures verificationStatus == if answer.Updated? then MarkedPending(old(verificationStatus), id) else old(verificationStatus)
    {
      if answer.Updated? {
        verificationStatus := MarkedPending(verificationStatus, id);
      }
      result := answer;
    }
  }

  /** `POST`; `body` is `None` when the request body is not valid JSON. */
  method Post(body: Option<Record>, db: Store, insertAnswer: WriteAnswer<Value>, updateAnswer: UpdateAnswer)
    returns (r: Response<Submitted>)
    modifies db
    ensures body.None? ==> r == Error(500, InternalError) && unchanged(db)
    ensures body.Some? && !HasRequired(body.value) ==> r == Error(400, "Missing required fields") && unchanged(db)
    ensures body.Some? && HasRequired(body.value) && !insertAnswer.Stored? ==>
      && r == Error(500, if insertAnswer.WriteError? then "Failed to create verification request" else InternalError)
      && db.requests == old(db.requests) && db.verificationStatus == old(db.verificationStatus)
    ensures body.Some? && HasRequired(body.value) && insertAnswer.Stored? ==>
      && db.requests == old(db.requests) + [RowFor(body.value)]
      && (updateAnswer.Updated? ==>
            && r == Response(201, Payload(Submitted(true, "Verification request submitted successfully", insertAnswer.id)))
            && db.verificationStatus == MarkedPending(old(db.verificationStatus), Field(body.value, "school_id")))
      && (!updateAnswer.Updated? ==>
            && r == Error(500, if updateAnswer.UpdateError? then "Failed to update school status" else InternalError)
            && db.verificationStatus == old(db.verificationStatus))
  {
    if body.None? {
      return Error(500, InternalError);
    }
    var b := body.value;
    GateIsRequiredFields(b);
    if !Truthy(Field(b, "school_id")) || !Truthy(Field(b, "director_name")) || !Truthy(Field(b, "director_phone"))
      || !Truthy(Field(b, "requester_role")) || !Truthy(Field(b, "official_contact_email"))
      || !Truthy(Field(b, "email")) || !Truthy(Field(b, "email_type")) {
      return Error(400, "Missing required fields");
    }
    var inserted := db.InsertRequest(RowFor(b), insertAnswer);
    if inserted.WriteThrew? {
      return Error(500, InternalError);
    }
    if inserted.WriteError? {
      return Error(500, "Failed to create verification request");
    }
    var updated := db.MarkPending(Field(b, "school_id"), updateAnswer);
    if updated.UpdateThrew? {
      return Error(500, InternalError);
    }
    if updated.UpdateError? {
      return Error(500, "Failed to update school status");
    }
    r := Response(201, Payload(Submitted(true, "Verification request submitted successfully", inserted.id)));
  }
}
