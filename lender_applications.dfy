/**
 * The lender-facing transitions of an application: starting work on a
 * submitted application, asking the borrower for more information,
 * approving, rejecting (offering other lenders' products), completing
 * with the disbursed amount, and verifying data fields and documents.
 * Each looks the application up by id (404), checks that the user
 * belongs to the application's lender (401) and the status (409).
 */
module LenderApplications {
  import opened Base
  import opened Models
  import opened ApplicationUtils
  import Timeline

  /** Statuses in which a lender may verify data fields and documents. */
  const VerifiableStatuses: seq<ApplicationStatus> := [Started, InformationRequested]

  /** The lender's permission, then the status, in that order. */
  function LenderGuard(a: Application, user: User, statuses: seq<ApplicationStatus>): (r: Outcome)
    ensures r == Pass <==> user.lenderId == a.lenderId && a.status in statuses
    ensures user.lenderId != a.lenderId ==> r == Fail(Http(Unauthorized))
    ensures user.lenderId == a.lenderId && a.status !in statuses ==> r == Fail(Http(Conflict))
  {
    if CheckFiUserPermission(a, user).Fail? then CheckFiUserPermission(a, user)
    else CheckApplicationInStatus(a, statuses)
  }

  // ---------------------------------------------------------------------
  // The changes each transition makes to the application row.

  function StartStep(a: Application, now: Instant): Application
  {
    a.(status := Started, lenderStartedAt := Some(now))
  }

  function EmailSmeStep(a: Application, now: Instant): Application
  {
    a.(status := InformationRequested, informationRequestedAt := Some(now), pendingDocuments := true)
  }

  function ApproveStep(a: Application, data: map<string, Value>, now: Instant): Application
  {
    a.(status := Approved, lenderApprovedData := data, lenderApprovedAt := Some(now))
  }

  function RejectStep(a: Application, data: map<string, Value>, now: Instant): Application
  {
    a.(status := Rejected, lenderRejectedData := data, lenderRejectedAt := Some(now))
  }

  function CompleteStep(a: Application, disbursed: Option<int>, days: int, now: Instant): Application
  {
    a.(status := Completed, disbursedFinalAmount := disbursed, lenderCompletedAt := Some(now),
       completedInDays := Some(days))
  }

  /**
   * The credit products offered to a rejected borrower: those of another
   * lender, for the borrower's size, whose limits bracket the requested
   * amount. With no lender or no requested amount the comparisons are
   * with NULL and nothing is offered.
   */
  function Alternatives(products: map<int, CreditProduct>, size: BorrowerSize, lenderId: Option<int>,
                        amount: Option<int>): (r: set<int>)
    ensures r <= products.Keys
    ensures forall k :: k in r ==>
      && products[k].borrowerSize == size
      && lenderId.Some? && products[k].lenderId != lenderId.value
      && amount.Some? && products[k].lowerLimit <= amount.value <= products[k].upperLimit
    ensures lenderId.None? || amount.None? ==> r == {}
  {
    if lenderId.None? || amount.None? then {}
    else set k | k in products && products[k].borrowerSize == size && products[k].lenderId != lenderId.value
                 && products[k].lowerLimit <= amount.value <= products[k].upperLimit
  }

  /** Every product that fits the borrower and the amount and is not the rejecting lender's is offered. */
  lemma AlternativesComplete(products: map<int, CreditProduct>, size: BorrowerSize, lenderId: int, amount: int, k: int)
    requires k in products && products[k].borrowerSize == size && products[k].lenderId != lenderId
    requires products[k].lowerLimit <= amount <= products[k].upperLimit
    ensures k in Alternatives(products, size, Some(lenderId), Some(amount))
  {
  }

  /** The rejecting lender's own products are never offered. */
  lemma OwnProductsNotOffered(products: map<int, CreditProduct>, size: BorrowerSize, a: Application, k: int)
    requires a.lenderId.Some? && k in products && products[k].lenderId == a.lenderId.value
    ensures k !in Alternatives(products, size, a.lenderId, a.amountRequested)
  {
  }

  // ---------------------------------------------------------------------
  // The endpoints.

  /**
   * Starting work on a submitted application (409 otherwise), only for a
   * user of the application's lender (401): it becomes started and records
   * when. An unknown id is not looked up safely and fails.
   */
  method StartApplication(db: Database, id: int, user: User, now: Instant) returns (r: Outcome)
    requires db.Valid()
    modifies db`applications
    ensures db.Valid()
    ensures id !in old(db.applications) ==> r == Fail(Crash)
    ensures id in old(db.applications) ==>
      var a := old(db.applications)[id];
      && (a.status != Submitted ==> r == Fail(Http(Conflict)))
      && (a.status == Submitted && user.lenderId != a.lenderId ==> r == Fail(Http(Unauthorized)))
      && (r == Pass <==> a.status == Submitted && user.lenderId == a.lenderId)
    ensures r.Fail? ==> unchanged(db)
    ensures r == Pass ==> db.applications == old(db.applications)[id := StartStep(old(db.applications)[id], now)]
  {
    if id !in db.applications {
      return Fail(Crash);
    }
    var a := db.applications[id];
    r := CheckApplicationStatus(a, Submitted);
    if r.Fail? {
      return;
    }
    if user.lenderId != a.lenderId {
      return Fail(Http(Unauthorized));
    }
    SetApplication(db, id, StartStep(a, now));
  }

  /**
   * Asking the borrower for more information on a started application, as
   * written: the row becomes information requested and expects documents
   * again before the e-mail is sent; then the request and its text are
   * recorded. When sending fails (`sendFails`), the error is returned, not
   * raised, so the transaction commits the changed row without the action
   * and the message.
   */
  method EmailSme(db: Database, id: int, user: User, body: string, now: Instant, sendFails: bool)
    returns (r: Outcome)
    requires db.Valid()
    modifies db`applications, db`messages, db`actions
    ensures db.Valid()
    ensures id !in old(db.applications) ==> r == Fail(Http(NotFound)) && unchanged(db)
    ensures id in old(db.applications) && LenderGuard(old(db.applications)[id], user, [Started]).Fail? ==>
      r == LenderGuard(old(db.applications)[id], user, [Started]) && unchanged(db)
    ensures id in old(db.applications) && LenderGuard(old(db.applications)[id], user, [Started]) == Pass ==>
      var a := old(db.applications)[id];
      && db.applications == old(db.applications)[id := EmailSmeStep(a, now)]
      && (sendFails ==> r == Fail(Http(InternalServerError))
                        && db.actions == old(db.actions) && db.messages == old(db.messages))
      && (!sendFails ==>
            && r == Pass
            && db.actions == old(db.actions) + [Action(id, FiRequestInformation, now, map["message" := Text(body)], Staff(user))]
            && db.messages == old(db.messages) + [Message(id, FiMessage, body, a.lenderId)])
  {
    if id !in db.applications {
      return Fail(Http(NotFound));
    }
    var a := db.applications[id];
    r := LenderGuard(a, user, [Started]);
    if r.Fail? {
      return;
    }
    SetApplication(db, id, EmailSmeStep(a, now));
    if sendFails {
      return Fail(Http(InternalServerError));
    }
    db.actions := db.actions + [Action(id, FiRequestInformation, now, map["message" := Text(body)], Staff(user))];
    db.messages := db.messages + [Message(id, FiMessage, body, a.lenderId)];
  }

  /**
   * Asking the borrower for more information, as intended: a failed
   * e-mail is a 500 that rolls the whole request back, so a row is
   * information requested exactly when the request is recorded with it.
   */
  method EmailSmeAtomic(db: Database, id: int, user: User, body: string, now: Instant, sendFails: bool)
    returns (r: Outcome)
    requires db.Valid()
    modifies db`applications, db`messages, db`actions
    ensures db.Valid()
    ensures id !in old(db.applications) ==> r == Fail(Http(NotFound))
    ensures id in old(db.applications) && LenderGuard(old(db.applications)[id], user, [Started]).Fail? ==>
      r == LenderGuard(old(db.applications)[id], user, [Started])
    ensures id in old(db.applications) && LenderGuard(old(db.applications)[id], user, [Started]) == Pass ==>
      (r.Fail? <==> sendFails) && (sendFails ==> r == Fail(Http(InternalServerError)))
    ensures r.Fail? ==> unchanged(db)
    ensures r == Pass ==>
      var a := old(db.applications)[id];
      && db.applications == old(db.applications)[id := EmailSmeStep(a, now)]
      && db.actions == old(db.actions) + [Action(id, FiRequestInformation, now, map["message" := Text(body)], Staff(user))]
      && db.messages == old(db.messages) + [Message(id, FiMessage, body, a.lenderId)]
  {
    if id !in db.applications {
      return Fail(Http(NotFound));
    }
    var a := db.applications[id];
    r := LenderGuard(a, user, [Started]);
    if r.Fail? {
      return;
    }
    if sendFails {
      return Fail(Http(InternalServerError));
    }
    SetApplication(db, id, EmailSmeStep(a, now));
    db.actions := db.actions + [Action(id, FiRequestInformation, now, map["message" := Text(body)], Staff(user))];
    db.messages := db.messages + [Message(id, FiMessage, body, a.lenderId)];
  }

  /** Every borrower data field the lender checks against the source is marked verified. */
  predicate DataVerified(a: Application)
  {
    forall f :: f in a.secopDataVerification ==> a.secopDataVerification[f]
  }

  /** Every document uploaded for the application is verified. */
  predicate DocumentsVerified(documents: map<int, Document>, id: int)
  {
    forall k :: k in documents && documents[k].applicationId == id ==> documents[k].verified
  }

  /**
   * Approving a started application: once every borrower data field and
   * then every document is verified (422 otherwise), it becomes approved
   * with the lender's checks, and the approval is recorded and announced.
   */
  method ApproveApplication(db: Database, id: int, user: User, data: map<string, Value>, now: Instant)
    returns (r: Outcome)
    requires db.Valid()
    modifies db`applications, db`messages, db`actions
    ensures db.Valid()
    ensures id !in old(db.applications) ==> r == Fail(Http(NotFound))
    ensures id in old(db.applications) && LenderGuard(old(db.applications)[id], user, [Started]).Fail? ==>
      r == LenderGuard(old(db.applications)[id], user, [Started])
    ensures id in old(db.applications) && LenderGuard(old(db.applications)[id], user, [Started]) == Pass ==>
      && (!DataVerified(old(db.applications)[id]) ==> r == Fail(Http(Unprocessable)))
      && (DataVerified(old(db.applications)[id]) && !DocumentsVerified(old(db.documents), id) ==>
            r == Fail(Http(Unprocessable)))
    ensures r == Pass <==>
      && id in old(db.applications)
      && LenderGuard(old(db.applications)[id], user, [Started]) == Pass
      && DataVerified(old(db.applications)[id])
      && DocumentsVerified(old(db.documents), id)
    ensures r.Fail? ==> unchanged(db)
    ensures r == Pass ==>
      && db.applications == old(db.applications)[id := ApproveStep(old(db.applications)[id], data, now)]
      && db.actions == old(db.actions) + [Action(id, ApprovedApplication, now, data, Staff(user))]
      && db.messages == old(db.messages) + [Message(id, ApprovedApplicationMessage, "", None)]
  {
    if id !in db.applications {
      return Fail(Http(NotFound));
    }
    var a := db.applications[id];
    r := LenderGuard(a, user, [Started]);
    if r.Fail? {
      return;
    }
    if !DataVerified(a) || !DocumentsVerified(db.documents, id) {
      return Fail(Http(Unprocessable));
    }
    SetApplication(db, id, ApproveStep(a, data, now));
    db.actions := db.actions + [Action(id, ApprovedApplication, now, data, Staff(user))];
    db.messages := db.messages + [Message(id, ApprovedApplicationMessage, "", None)];
  }

  /**
   * Rejecting a started application or one whose contract was uploaded:
   * it becomes rejected with the lender's reasons, the rejection is
   * recorded, and the borrower is told of the other lenders' products
   * that fit, which are returned.
   */
  method RejectApplication(db: Database, id: int, user: User, data: map<string, Value>, now: Instant)
    returns (r: Outcome, options: set<int>)
    requires db.Valid()
    modifies db`applications, db`messages, db`actions
    ensures db.Valid()
    ensures id !in old(db.applications) ==> r == Fail(Http(NotFound))
    ensures id in old(db.applications) ==> r == LenderGuard(old(db.applications)[id], user, [ContractUploaded, Started])
    ensures r.Fail? ==> unchanged(db) && options == {}
    ensures r == Pass ==>
      var a := old(db.applications)[id];
      && db.applications == old(db.applications)[id := RejectStep(a, data, now)]
      && options == Alternatives(old(db.creditProducts), old(db.borrowers)[a.borrowerId].size, a.lenderId, a.amountRequested)
      && db.actions == old(db.actions) + [Action(id, RejectedApplication, now, data, Staff(user))]
      && db.messages == old(db.messages) + [Message(id, RejectedApplicationMessage, "", None)]
  {
    options := {};
    if id !in db.applications {
      return Fail(Http(NotFound)), {};
    }
    var a := db.applications[id];
    r := LenderGuard(a, user, [ContractUploaded, Started]);
    if r.Fail? {
      return;
    }
    SetApplication(db, id, RejectStep(a, data, now));
    db.actions := db.actions + [Action(id, RejectedApplication, now, data, Staff(user))];
    options := Alternatives(db.creditProducts, db.borrowers[a.borrowerId].size, a.lenderId, a.amountRequested);
    db.messages := db.messages + [Message(id, RejectedApplicationMessage, "", None)];
  }

  /**
   * Completing an application whose contract was uploaded: it becomes
   * completed with the disbursed amount, and the days it spent waiting on
   * the lender are stored; the completion is recorded and announced.
   */
  method CompleteApplication(db: Database, id: int, user: User, disbursed: Option<int>, now: Instant)
    returns (r: Outcome)
    requires db.Valid()
    modifies db`applications, db`messages, db`actions
    ensures db.Valid()
    ensures id !in old(db.applications) ==> r == Fail(Http(NotFound))
    ensures id in old(db.applications) ==> r == LenderGuard(old(db.applications)[id], user, [ContractUploaded])
    ensures r.Fail? ==> unchanged(db)
    ensures r == Pass ==>
      var a := old(db.applications)[id];
      var days := Timeline.DaysPassed(a.lenderStartedAt.value, ActionTimes(old(db.actions), id, FiRequestInformation),
                                      ActionTimes(old(db.actions), id, MsmeUploadAdditionalDocumentCompleted), now);
      && db.applications == old(db.applications)[id := CompleteStep(a, disbursed, days, now)]
      && db.actions == old(db.actions) + [Action(id, FiCompleteApplication, now,
           map["disbursed_final_amount" := if disbursed.Some? then Number(disbursed.value) else Null], Staff(user))]
      && db.messages == old(db.messages) + [Message(id, CreditDisbursed, "", None)]
  {
    if id !in db.applications {
      return Fail(Http(NotFound));
    }
    var a := db.applications[id];
    r := LenderGuard(a, user, [ContractUploaded]);
    if r.Fail? {
      return;
    }
    var days := Timeline.GetApplicationDaysPassed(a.lenderStartedAt.value, ActionTimes(db.actions, id, FiRequestInformation),
                                                  ActionTimes(db.actions, id, MsmeUploadAdditionalDocumentCompleted), now);
    SetApplication(db, id, CompleteStep(a, disbursed, days, now));
    db.actions := db.actions + [Action(id, FiCompleteApplication, now,
      map["disbursed_final_amount" := if disbursed.Some? then Number(disbursed.value) else Null], Staff(user))];
    db.messages := db.messages + [Message(id, CreditDisbursed, "", None)];
  }

  /**
   * The data-validation endpoint as the source calls it, while the
   * application is started or information requested (409), by a user of
   * its lender (401), the status checked before the permission. The request
   * payload itself is handed to `update_data_field` as the field, so every
   * request that passes both guards is refused with 422 and nothing changes.
   */
  method VerifyDataField(db: Database, id: int, user: User, payload: map<string, Value>)
    returns (r: Outcome)
    requires db.Valid()
    ensures id !in db.applications ==> r == Fail(Http(NotFound))
    ensures id in db.applications ==>
      var a := db.applications[id];
      && (a.status !in VerifiableStatuses ==> r == Fail(Http(Conflict)))
      && (a.status in VerifiableStatuses && user.lenderId != a.lenderId ==> r == Fail(Http(Unauthorized)))
      && (a.status in VerifiableStatuses && user.lenderId == a.lenderId ==> r == Fail(Http(Unprocessable)))
    ensures r.Fail?
  {
    if id !in db.applications {
      return Fail(Http(NotFound));
    }
    var a := db.applications[id];
    r := CheckApplicationInStatus(a, VerifiableStatuses);
    if r.Fail? {
      return;
    }
    r := CheckFiUserPermission(a, user);
    if r.Fail? {
      return;
    }
    var u := UpdateDataField(a.secopDataVerification, PayloadObject(payload));
    r := if u.Err? then Fail(u.error) else Pass;
  }

  /**
   * The data-validation endpoint as evidently intended, with the name of
   * the field to toggle: the same guards, then 422 for an unknown field, a
   * key error for a field with no flag yet, and otherwise exactly that flag
   * flips and the update is recorded.
   */
  method VerifyDataFieldByName(db: Database, id: int, user: User, field: string, payload: map<string, Value>,
                               now: Instant)
    returns (r: Outcome)
    requires db.Valid()
    modifies db`applications, db`actions
    ensures db.Valid()
    ensures id !in old(db.applications) ==> r == Fail(Http(NotFound))
    ensures id in old(db.applications) ==>
      var a := old(db.applications)[id];
      && (a.status !in VerifiableStatuses ==> r == Fail(Http(Conflict)))
      && (a.status in VerifiableStatuses && user.lenderId != a.lenderId ==> r == Fail(Http(Unauthorized)))
      && (a.status in VerifiableStatuses && user.lenderId == a.lenderId ==>
            var u := UpdateDataField(a.secopDataVerification, FieldName(field));
            && (u.Err? ==> r == Fail(u.error))
            && (u.Ok? ==> r == Pass && db.applications == old(db.applications)[id := a.(secopDataVerification := u.value)]))
    ensures r.Fail? ==> unchanged(db)
    ensures r == Pass ==> db.actions == old(db.actions) + [Action(id, DataValidationUpdate, now, payload, Staff(user))]
  {
    if id !in db.applications {
      return Fail(Http(NotFound));
    }
    var a := db.applications[id];
    r := CheckApplicationInStatus(a, VerifiableStatuses);
    if r.Fail? {
      return;
    }
    r := CheckFiUserPermission(a, user);
    if r.Fail? {
      return;
    }
    var u := UpdateDataField(a.secopDataVerification, FieldName(field));
    if u.Err? {
      return Fail(u.error);
    }
    SetApplication(db, id, a.(secopDataVerification := u.value));
    db.actions := db.actions + [Action(id, DataValidationUpdate, now, payload, Staff(user))];
  }

  /**
   * Marking a document verified or not, by a user of its application's
   * lender (401) while the application is started or information
   * requested (409); the permission is checked before the status.
   */
  method VerifyDocument(db: Database, docId: int, user: User, verified: bool, now: Instant) returns (r: Outcome)
    requires db.Valid()
    modifies db`documents, db`actions
    ensures db.Valid()
    ensures docId !in old(db.documents) ==> r == Fail(Http(NotFound))
    ensures docId in old(db.documents) && old(db.documents)[docId].applicationId !in old(db.applications) ==>
      r == Fail(Crash)
    ensures docId in old(db.documents) && old(db.documents)[docId].applicationId in old(db.applications) ==>
      r == LenderGuard(old(db.applications)[old(db.documents)[docId].applicationId], user, VerifiableStatuses)
    ensures r.Fail? ==> unchanged(db)
    ensures r == Pass ==>
      var d := old(db.documents)[docId];
      && db.documents == old(db.documents)[docId := d.(verified := verified)]
      && db.actions == old(db.actions) + [Action(d.applicationId, BorrowerDocumentUpdate, now,
                                                 map["verified" := Flag(verified)], Staff(user))]
  {
    if docId !in db.documents {
      return Fail(Http(NotFound));
    }
    var d := db.documents[docId];
    if d.applicationId !in db.applications {
      return Fail(Crash);
    }
    r := LenderGuard(db.applications[d.applicationId], user, VerifiableStatuses);
    if r.Fail? {
      return;
    }
    db.documents := db.documents[docId := d.(verified := verified)];
    db.actions := db.actions + [Action(d.applicationId, BorrowerDocumentUpdate, now,
                                       map["verified" := Flag(verified)], Staff(user))];
  }

  /**
   * A lender's walk through a submitted application: start, approve and,
   * once the contract is uploaded, complete. Every step is allowed for a
   * user of the application's lender, and the result is completed with
   * its start time kept.
   */
  lemma LenderPath(a: Application, user: User, data: map<string, Value>, disbursed: Option<int>, days: int,
                   t1: Instant, t2: Instant, t3: Instant)
    requires a.status == Submitted && user.lenderId == a.lenderId
    ensures LenderGuard(a, user, [Submitted]) == Pass
    ensures LenderGuard(StartStep(a, t1), user, [Started]) == Pass
    ensures var approved := ApproveStep(StartStep(a, t1), data, t2);
      && approved.status == Approved
      && LenderGuard(approved.(status := ContractUploaded), user, [ContractUploaded]) == Pass
      && CompleteStep(approved.(status := ContractUploaded), disbursed, days, t3).status == Completed
      && CompleteStep(approved.(status := ContractUploaded), disbursed, days, t3).lenderStartedAt == Some(t1)
  {
  }

  /** Once rejected, an application can be neither approved, rejected again nor completed. */
  lemma RejectedIsFinal(a: Application, user: User)
    requires a.status == Rejected
    ensures LenderGuard(a, user, [Started]).Fail?
    ensures LenderGuard(a, user, [ContractUploaded, Started]).Fail?
    ensures LenderGuard(a, user, [ContractUploaded]).Fail?
  {
  }
}
