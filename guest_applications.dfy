/**
 * The borrower-facing transitions of an application. Each endpoint first
 * looks the application up by its uuid (404 unknown, 409 lapsed) and runs
 * the guard for its scopes and statuses; then it changes the application,
 * possibly its borrower, and records actions and messages.
 */
module GuestApplications {
  import opened Base
  import opened Models
  import opened Dependencies
  import Util

  /** The payload flag by which a borrower declines every future opportunity. */
  const DeclineAll: string := "decline_all"

  // ---------------------------------------------------------------------
  // The changes each transition makes to one row.

  function DeclineStep(a: Application, payload: map<string, bool>, now: Instant): Application
  {
    a.(borrowerDeclinedData := payload, status := Declined, borrowerDeclinedAt := Some(now))
  }

  function DeclineBorrower(b: Borrower, payload: map<string, bool>, now: Instant): Borrower
  {
    if DeclineAll in payload && payload[DeclineAll] then b.(status := DeclineOpportunities, declinedAt := Some(now))
    else b
  }

  function RollbackDeclineStep(a: Application): Application
  {
    a.(borrowerDeclinedData := map[], status := Pending, borrowerDeclinedAt := None)
  }

  function RollbackDeclineBorrower(b: Borrower): Borrower
  {
    if b.status == DeclineOpportunities then b.(status := Active, declinedAt := None) else b
  }

  /**
   * Declining and rolling back returns a pending application with no
   * decline recorded to exactly what it was, and an active borrower to
   * exactly what it was, whatever the payload.
   */
  lemma DeclineRollbackRoundTrip(a: Application, b: Borrower, payload: map<string, bool>, now: Instant)
    requires a.status == Pending && a.borrowerDeclinedData == map[] && a.borrowerDeclinedAt.None?
    requires b.status == Active && b.declinedAt.None?
    ensures RollbackDeclineStep(DeclineStep(a, payload, now)) == a
    ensures RollbackDeclineBorrower(DeclineBorrower(b, payload, now)) == b
  {
  }

  function SelectStep(a: Application, calculatorData: map<string, int>, creditProductId: int, now: Instant)
    : Application
  {
    a.(calculatorData := calculatorData, creditProductId := Some(creditProductId),
       borrowerCreditProductSelectedAt := Some(now))
  }

  function RollbackSelectStep(a: Application): Application
  {
    a.(creditProductId := None, borrowerCreditProductSelectedAt := None)
  }

  /**
   * The rollback of a selection is allowed only with a product selected
   * and no lender assigned (400 otherwise).
   */
  function RollbackSelectGuard(a: Application): (r: Outcome)
    ensures r == Pass <==> IsSet(a.creditProductId) && !IsSet(a.lenderId)
    ensures r.Fail? ==> r.error == Http(BadRequest)
  {
    if !IsSet(a.creditProductId) then Fail(Http(BadRequest))
    else if IsSet(a.lenderId) then Fail(Http(BadRequest))
    else Pass
  }

  /**
   * Selecting a product on an application with none selected and no lender,
   * then rolling the selection back, is allowed and leaves the product and
   * its selection time as they were.
   */
  lemma SelectRollbackRoundTrip(a: Application, calculatorData: map<string, int>, creditProductId: int, now: Instant)
    requires a.creditProductId.None? && a.borrowerCreditProductSelectedAt.None? && !IsSet(a.lenderId)
    requires creditProductId != 0
    ensures RollbackSelectGuard(SelectStep(a, calculatorData, creditProductId, now)) == Pass
    ensures RollbackSelectStep(SelectStep(a, calculatorData, creditProductId, now)) == a.(calculatorData := calculatorData)
  {
  }

  /** Submitting needs a selected product and an existing lender (400 otherwise). */
  function SubmitGuard(a: Application, lenders: map<int, Lender>): (r: Outcome)
    ensures r == Pass <==> IsSet(a.creditProductId) && a.lenderId.Some? && a.lenderId.value in lenders
    ensures r.Fail? ==> r.error == Http(BadRequest)
  {
    if !IsSet(a.creditProductId) then Fail(Http(BadRequest))
    else if a.lenderId.None? || a.lenderId.value !in lenders then Fail(Http(BadRequest))
    else Pass
  }

  /** Confirming needs a selected product that exists (400 otherwise). */
  function ConfirmGuard(a: Application, products: map<int, CreditProduct>): (r: Outcome)
    ensures r == Pass <==> IsSet(a.creditProductId) && a.creditProductId.value in products
    ensures r.Fail? ==> r.error == Http(BadRequest)
  {
    if !IsSet(a.creditProductId) then Fail(Http(BadRequest))
    else if a.creditProductId.value !in products then Fail(Http(BadRequest))
    else Pass
  }

  // ---------------------------------------------------------------------
  // The endpoints.

  /**
   * Declining an invitation: only a pending, unexpired application; the
   * payload (without the uuid) is kept as the decline data, and the
   * borrower opts out of every future opportunity iff it asks to.
   */
  method Decline(db: Database, uuid: string, payload: map<string, bool>, now: Instant) returns (r: Result<int>)
    requires db.Valid()
    modifies db`applications, db`borrowers
    ensures db.Valid()
    ensures r == GuestLookup(old(db.applications), uuid, {Unexpired}, [Pending], now)
    ensures r.Err? ==> unchanged(db)
    ensures r.Ok? ==>
      var a := old(db.applications)[r.value];
      && db.applications == old(db.applications)[r.value := DeclineStep(a, payload, now)]
      && db.borrowers == old(db.borrowers)[a.borrowerId := DeclineBorrower(old(db.borrowers)[a.borrowerId], payload, now)]
  {
    r := GetScopedApplicationAsGuest(db, uuid, {Unexpired}, [Pending], now);
    if r.Err? {
      return;
    }
    var a := db.applications[r.value];
    SetApplication(db, r.value, DeclineStep(a, payload, now));
    SetBorrower(db, a.borrowerId, DeclineBorrower(db.borrowers[a.borrowerId], payload, now));
  }

  /**
   * Undoing a decline: only a declined, unexpired application goes back to
   * pending with its decline data cleared; an opted-out borrower becomes
   * active again.
   */
  method RollbackDecline(db: Database, uuid: string, now: Instant) returns (r: Result<int>)
    requires db.Valid()
    modifies db`applications, db`borrowers
    ensures db.Valid()
    ensures r == GuestLookup(old(db.applications), uuid, {Unexpired}, [Declined], now)
    ensures r.Err? ==> unchanged(db)
    ensures r.Ok? ==>
      var a := old(db.applications)[r.value];
      && db.applications == old(db.applications)[r.value := RollbackDeclineStep(a)]
      && db.borrowers == old(db.borrowers)[a.borrowerId := RollbackDeclineBorrower(old(db.borrowers)[a.borrowerId])]
  {
    r := GetScopedApplicationAsGuest(db, uuid, {Unexpired}, [Declined], now);
    if r.Err? {
      return;
    }
    var a := db.applications[r.value];
    SetApplication(db, r.value, RollbackDeclineStep(a));
    SetBorrower(db, a.borrowerId, RollbackDeclineBorrower(db.borrowers[a.borrowerId]));
  }

  /** A second rollback of the same decline is refused with 409. */
  method RollbackDeclineTwice(db: Database, uuid: string, now: Instant) returns (first: Result<int>, second: Result<int>)
    requires db.Valid()
    modifies db
    ensures first.Ok? ==> second == Err(Http(Conflict))
  {
    first := RollbackDecline(db, uuid, now);
    if first.Ok? {
      LookupRefusesStatus(db.applications, first.value, {Unexpired}, [Declined], now);
    }
    second := RollbackDecline(db, uuid, now);
  }

  /**
   * Accepting the invitation: only a pending, unexpired application becomes
   * accepted, records the acceptance time and no longer expires. Accepting
   * schedules the fetch of the borrower's previous awards (`fetchFor`, run
   * afterwards as `Util.GetPreviousAwardsFromDataSource`).
   */
  method AccessScheme(db: Database, uuid: string, now: Instant) returns (r: Result<int>, fetchFor: Option<int>)
    requires db.Valid()
    modifies db`applications
    ensures db.Valid()
    ensures r == GuestLookup(old(db.applications), uuid, {Unexpired}, [Pending], now)
    ensures r.Err? ==> unchanged(db) && fetchFor == None
    ensures r.Ok? ==> db.applications == old(db.applications)[r.value :=
      old(db.applications)[r.value].(borrowerAcceptedAt := Some(now), status := Accepted, expiredAt := None)]
    ensures r.Ok? ==> fetchFor == Some(old(db.applications)[r.value].borrowerId) && fetchFor.value in db.borrowers
  {
    r := GetScopedApplicationAsGuest(db, uuid, {Unexpired}, [Pending], now);
    if r.Err? {
      return r, None;
    }
    var a := db.applications[r.value];
    SetApplication(db, r.value, a.(borrowerAcceptedAt := Some(now), status := Accepted, expiredAt := None));
    fetchFor := Some(a.borrowerId);
  }

  /**
   * Choosing a credit product on an accepted, unexpired application: the
   * calculator data and the product are stored with the selection time,
   * the borrower's size and sector are updated, and the calculator update
   * is recorded.
   */
  method SelectCreditProduct(db: Database, uuid: string, calculatorData: map<string, int>, creditProductId: int,
                             size: BorrowerSize, sector: string, payload: map<string, Value>, now: Instant)
    returns (r: Result<int>)
    requires db.Valid()
    modifies db`applications, db`borrowers, db`actions
    ensures db.Valid()
    ensures r == GuestLookup(old(db.applications), uuid, {Unexpired}, [Accepted], now)
    ensures r.Err? ==> unchanged(db)
    ensures r.Ok? ==>
      var a := old(db.applications)[r.value];
      && db.applications == old(db.applications)[r.value := SelectStep(a, calculatorData, creditProductId, now)]
      && db.borrowers == old(db.borrowers)[a.borrowerId := old(db.borrowers)[a.borrowerId].(size := size, sector := sector)]
      && db.actions == old(db.actions) + [Action(r.value, ApplicationCalculatorDataUpdate, now, payload, Guest)]
  {
    r := GetScopedApplicationAsGuest(db, uuid, {Unexpired}, [Accepted], now);
    if r.Err? {
      return;
    }
    var a := db.applications[r.value];
    SetApplication(db, r.value, SelectStep(a, calculatorData, creditProductId, now));
    SetBorrower(db, a.borrowerId, db.borrowers[a.borrowerId].(size := size, sector := sector));
    db.actions := db.actions + [Action(r.value, ApplicationCalculatorDataUpdate, now, payload, Guest)];
  }

  /**
   * Undoing the product choice of an accepted, unexpired application:
   * allowed only with a product selected and no lender yet; the status
   * stays accepted.
   */
  method RollbackSelectCreditProduct(db: Database, uuid: string, now: Instant) returns (r: Result<int>)
    requires db.Valid()
    modifies db`applications
    ensures db.Valid()
    ensures var g := GuestLookup(old(db.applications), uuid, {Unexpired}, [Accepted], now);
      && (g.Err? ==> r == g)
      && (g.Ok? ==> var guard := RollbackSelectGuard(old(db.applications)[g.value]);
            && (guard.Fail? ==> r == Err(guard.error))
            && (guard == Pass ==> r == g))
    ensures r.Err? ==> unchanged(db)
    ensures r.Ok? ==> db.applications == old(db.applications)[r.value := RollbackSelectStep(old(db.applications)[r.value])]
    ensures r.Ok? ==> db.applications[r.value].status == Accepted
  {
    r := GetScopedApplicationAsGuest(db, uuid, {Unexpired}, [Accepted], now);
    if r.Err? {
      return;
    }
    var a := db.applications[r.value];
    var guard := RollbackSelectGuard(a);
    if guard.Fail? {
      return Err(guard.error);
    }
    SetApplication(db, r.value, RollbackSelectStep(a));
  }

  /** The application is a rejected one for this award and borrower. */
  predicate RejectedFor(key: string, a: Application)
  {
    a.status == Rejected && a.awardBorrowerIdentifier == key
  }

  /**
   * `r` names a most recently created rejected application for the key,
   * or there is none.
   */
  ghost predicate IsLatestRejected(apps: map<int, Application>, key: string, r: Option<int>)
  {
    && (r.Some? ==> r.value in apps && RejectedFor(key, apps[r.value]))
    && (r.Some? ==> forall k :: k in apps && RejectedFor(key, apps[k]) ==> apps[k].createdAt <= apps[r.value].createdAt)
    && (r.None? <==> forall k :: k in apps ==> !RejectedFor(key, apps[k]))
  }

  /**
   * The most recently created rejected application with this borrower
   * identifier, if any (any of them on a tie).
   */
  method LatestRejected(apps: map<int, Application>, key: string) returns (r: Option<int>)
    ensures IsLatestRejected(apps, key, r)
  {
    r := None;
    var todo := apps.Keys;
    while todo != {}
      invariant todo <= apps.Keys
      invariant r.Some? ==> r.value in apps && RejectedFor(key, apps[r.value])
      invariant forall k :: k in apps && k !in todo && RejectedFor(key, apps[k]) ==>
        r.Some? && apps[k].createdAt <= apps[r.value].createdAt
      invariant r.None? ==> forall k :: k in apps && k !in todo ==> !RejectedFor(key, apps[k])
      decreases |todo|
    {
      var k := Pick(todo);
      if RejectedFor(key, apps[k]) && (r.None? || apps[k].createdAt > apps[r.value].createdAt) {
        r := Some(k);
      }
      todo := todo - {k};
    }
    assert r.None? ==> forall k :: k in apps ==> !RejectedFor(key, apps[k]);
    assert (forall k :: k in apps ==> !RejectedFor(key, apps[k])) ==> r.None?;
  }

  /** The document is one of `from`'s, of one of the types asked for. */
  predicate CopySource(from: int, kinds: set<DocumentType>, d: Document)
  {
    d.applicationId == from && d.kind in kinds
  }

  /** `c` is the unverified copy of `d` attached to application `to`. */
  predicate CopiedAs(d: Document, to: int, now: Instant, c: Document)
  {
    c == d.(applicationId := to, verified := false, submittedAt := now)
  }

  /**
   * `after` is `before` plus, for each document of `from` of a type in
   * `kinds`, exactly one fresh copy attached to `to`; `copiedFrom` maps
   * each copy to its original.
   */
  ghost predicate DocumentsCopied(before: map<int, Document>, after: map<int, Document>, copiedFrom: map<int, int>,
                                  from: int, to: int, kinds: set<DocumentType>, now: Instant)
  {
    && (forall k :: k in before ==> k in after && after[k] == before[k])
    && (forall n :: n in after <==> n in before || n in copiedFrom)
    && (forall n :: n in copiedFrom ==>
          && n !in before && n in after && copiedFrom[n] in before
          && CopySource(from, kinds, before[copiedFrom[n]])
          && CopiedAs(before[copiedFrom[n]], to, now, after[n]))
    && (forall k :: k in before && CopySource(from, kinds, before[k]) ==> exists n :: n in copiedFrom && copiedFrom[n] == k)
    && (forall n, m :: n in copiedFrom && m in copiedFrom && copiedFrom[n] == copiedFrom[m] ==> n == m)
  }

  /**
   * Copying the documents of application `from` whose type is in `kinds`
   * to application `to`, each copy unverified.
   */
  method CopyDocuments(db: Database, from: int, to: int, kinds: set<DocumentType>, now: Instant)
    returns (ghost copiedFrom: map<int, int>)
    requires db.Valid()
    modifies db`documents, db`nextId
    ensures db.Valid()
    ensures DocumentsCopied(old(db.documents), db.documents, copiedFrom, from, to, kinds, now)
  {
    var out, next;
    out, next, copiedFrom := Copies(db.documents, db.nextId, from, to, kinds, now);
    db.documents := out;
    db.nextId := next;
  }

  /** The copies added to `docs`, numbered from `next` on. */
  method Copies(docs: map<int, Document>, next: int, from: int, to: int, kinds: set<DocumentType>, now: Instant)
    returns (out: map<int, Document>, next': int, ghost copiedFrom: map<int, int>)
    requires KeysIn(docs, next)
    ensures next' >= next && KeysIn(out, next')
    ensures DocumentsCopied(docs, out, copiedFrom, from, to, kinds, now)
  {
    copiedFrom := map[];
    out := docs;
    next' := next;
    var todo := set k | k in docs && CopySource(from, kinds, docs[k]);
    while todo != {}
      invariant todo <= docs.Keys
      invariant next' >= next && KeysIn(out, next')
      invariant forall k :: k in todo ==> CopySource(from, kinds, docs[k])
      invariant forall k :: k in docs ==> k in out && out[k] == docs[k]
      invariant forall n :: n in out <==> n in docs || n in copiedFrom
      invariant forall n :: n in copiedFrom ==>
        && n !in docs && n in out && copiedFrom[n] in docs && copiedFrom[n] !in todo
        && CopySource(from, kinds, docs[copiedFrom[n]])
        && CopiedAs(docs[copiedFrom[n]], to, now, out[n])
      invariant forall k :: k in docs && CopySource(from, kinds, docs[k]) ==>
        k in todo || exists n :: n in copiedFrom && copiedFrom[n] == k
      invariant forall n, m :: n in copiedFrom && m in copiedFrom && copiedFrom[n] == copiedFrom[m] ==> n == m
      decreases |todo|
    {
      var k := Pick(todo);
      assert next' !in out;
      out := out[next' := docs[k].(applicationId := to, verified := false, submittedAt := now)];
      copiedFrom := copiedFrom[next' := k];
      assert copiedFrom[next'] == k;
      next' := next' + 1;
      todo := todo - {k};
    }
  }

  /** The value the calculator data carries under `key`, if any. */
  function CalculatorValue(calculatorData: map<string, int>, key: string): Option<int>
  {
    if key in calculatorData then Some(calculatorData[key]) else None
  }

  /**
   * The application with the loan terms the calculator data carries: the
   * requested amount, the repayment years and months and the payment start
   * date, each absent when the data lacks it.
   */
  function WithLoanTerms(a: Application): (t: Application)
    ensures t.amountRequested.Some? <==> "amount_requested" in a.calculatorData
    ensures t.repaymentYears.Some? <==> "repayment_years" in a.calculatorData
    ensures t.repaymentMonths.Some? <==> "repayment_months" in a.calculatorData
    ensures t.paymentStartDate.Some? <==> "payment_start_date" in a.calculatorData
    ensures t.amountRequested.Some? ==> t.amountRequested.value == a.calculatorData["amount_requested"]
    ensures t.repaymentYears.Some? ==> t.repaymentYears.value == a.calculatorData["repayment_years"]
    ensures t.repaymentMonths.Some? ==> t.repaymentMonths.value == a.calculatorData["repayment_months"]
    ensures t.paymentStartDate.Some? ==> t.paymentStartDate.value == a.calculatorData["payment_start_date"]
    ensures t == a.(amountRequested := t.amountRequested, repaymentYears := t.repaymentYears,
                    repaymentMonths := t.repaymentMonths, paymentStartDate := t.paymentStartDate)
  {
    a.(amountRequested := CalculatorValue(a.calculatorData, "amount_requested"),
       repaymentYears := CalculatorValue(a.calculatorData, "repayment_years"),
       repaymentMonths := CalculatorValue(a.calculatorData, "repayment_months"),
       paymentStartDate := CalculatorValue(a.calculatorData, "payment_start_date"))
  }

  /**
   * Confirming the chosen product of an accepted, unexpired application:
   * the product must be selected and exist (400); the application takes
   * the product's lender and the loan terms from the calculator data,
   * starts expecting documents, receives copies of the required
   * documents of the newest rejected application for the same award and
   * borrower (`source`), and the confirmation is recorded.
   */
  method ConfirmCreditProduct(db: Database, uuid: string, now: Instant)
    returns (r: Result<int>, source: Option<int>, ghost copiedFrom: map<int, int>)
    requires db.Valid()
    modifies db`applications, db`documents, db`actions, db`nextId
    ensures db.Valid()
    ensures var g := GuestLookup(old(db.applications), uuid, {Unexpired}, [Accepted], now);
      && (g.Err? ==> r == g)
      && (g.Ok? ==> var guard := ConfirmGuard(old(db.applications)[g.value], old(db.creditProducts));
            && (guard.Fail? ==> r == Err(guard.error))
            && (guard == Pass ==> r == g))
    ensures r.Err? ==> unchanged(db)
    ensures r.Ok? ==>
      var a := old(db.applications)[r.value];
      var product := old(db.creditProducts)[a.creditProductId.value];
      && db.applications == old(db.applications)[r.value :=
           WithLoanTerms(a).(lenderId := Some(product.lenderId), pendingDocuments := true)]
      && db.actions == old(db.actions) + [Action(r.value, ApplicationConfirmCreditProduct, now, map[], Guest)]
      && IsLatestRejected(old(db.applications), a.awardBorrowerIdentifier, source)
      && (source.Some? ==>
            DocumentsCopied(old(db.documents), db.documents, copiedFrom, source.value, r.value,
                            product.requiredDocumentTypes, now))
      && (source.None? ==> db.documents == old(db.documents))
  {
    copiedFrom := map[];
    source := None;
    r := GetScopedApplicationAsGuest(db, uuid, {Unexpired}, [Accepted], now);
    if r.Err? {
      return;
    }
    var id := r.value;
    var a := db.applications[id];
    var guard := ConfirmGuard(a, db.creditProducts);
    if guard.Fail? {
      r := Err(guard.error);
      return;
    }
    var product := db.creditProducts[a.creditProductId.value];
    source := LatestRejected(db.applications, a.awardBorrowerIdentifier);
    SetApplication(db, id, WithLoanTerms(a).(lenderId := Some(product.lenderId), pendingDocuments := true));
    if source.Some? {
      copiedFrom := CopyDocuments(db, source.value, id, product.requiredDocumentTypes, now);
    }
    db.actions := db.actions + [Action(id, ApplicationConfirmCreditProduct, now, map[], Guest)];
  }

  /**
   * Submitting an accepted, unexpired application: it needs a selected
   * product and a lender (400); it becomes submitted, records the
   * submission time, stops expecting documents, and the submission
   * message is recorded.
   */
  method Submit(db: Database, uuid: string, now: Instant) returns (r: Result<int>)
    requires db.Valid()
    modifies db`applications, db`messages
    ensures db.Valid()
    ensures var g := GuestLookup(old(db.applications), uuid, {Unexpired}, [Accepted], now);
      && (g.Err? ==> r == g)
      && (g.Ok? ==> var guard := SubmitGuard(old(db.applications)[g.value], old(db.lenders));
            && (guard.Fail? ==> r == Err(guard.error))
            && (guard == Pass ==> r == g))
    ensures r.Err? ==> unchanged(db)
    ensures r.Ok? ==>
      && db.applications == old(db.applications)[r.value := old(db.applications)[r.value].(
           status := Submitted, borrowerSubmittedAt := Some(now), pendingDocuments := false)]
      && db.messages == old(db.messages) + [Message(r.value, SubmissionComplete, "", None)]
  {
    r := GetScopedApplicationAsGuest(db, uuid, {Unexpired}, [Accepted], now);
    if r.Err? {
      return;
    }
    var a := db.applications[r.value];
    var guard := SubmitGuard(a, db.lenders);
    if guard.Fail? {
      return Err(guard.error);
    }
    SetApplication(db, r.value, a.(status := Submitted, borrowerSubmittedAt := Some(now),
                                   pendingDocuments := false));
    db.messages := db.messages + [Message(r.value, SubmissionComplete, "", None)];
  }

  /**
   * Uploading a document (any status but lapsed, expired or not): the file
   * must pass validation (422, 413), the application must be expecting
   * documents (400); the document of that type is stored or replaced,
   * unverified, and the upload is recorded with the file name.
   */
  method UploadDocument(db: Database, uuid: string, kind: DocumentType, filename: string, content: seq<bv8>,
                        s: Settings, now: Instant) returns (r: Result<int>)
    requires db.Valid()
    modifies db`documents, db`actions, db`nextId
    ensures db.Valid()
    ensures var g := GuestLookup(old(db.applications), uuid, {}, [], now);
      && (g.Err? ==> r == g)
      && (g.Ok? && Util.ValidateFile(filename, content, s).Err? ==> r == Err(Util.ValidateFile(filename, content, s).error))
      && (g.Ok? && Util.ValidateFile(filename, content, s).Ok? && !old(db.applications)[g.value].pendingDocuments ==>
            r == Err(Http(BadRequest)))
      && (r.Ok? ==> g.Ok? && Util.ValidateFile(filename, content, s).Ok? && old(db.applications)[g.value].pendingDocuments)
    ensures r.Err? ==> unchanged(db)
    ensures r.Ok? ==>
      var id := GuestLookup(old(db.applications), uuid, {}, [], now).value;
      && r.value in db.documents && db.documents[r.value] == Document(id, kind, filename, content, false, now)
      && db.documents == old(db.documents)[r.value := Document(id, kind, filename, content, false, now)]
      && (r.value in old(db.documents) ==> Util.IsDocumentOf(id, kind, old(db.documents)[r.value]))
      && db.actions == old(db.actions) + [Action(id, MsmeUploadDocument, now, map["file_name" := Text(filename)], Guest)]
    ensures Util.DocumentsUnique(old(db.documents)) ==> Util.DocumentsUnique(db.documents)
  {
    var g := GetScopedApplicationAsGuest(db, uuid, {}, [], now);
    if g.Err? {
      return g;
    }
    var checked := Util.ValidateFile(filename, content, s);
    if checked.Err? {
      return Err(checked.error);
    }
    if !db.applications[g.value].pendingDocuments {
      return Err(Http(BadRequest));
    }
    var docId := Util.CreateOrUpdateBorrowerDocument(db, filename, g.value, kind, content, false, now);
    db.actions := db.actions + [Action(g.value, MsmeUploadDocument, now, map["file_name" := Text(filename)], Guest)];
    r := Ok(docId);
  }

  /**
   * Answering the lender's information request: only from information
   * requested (expired or not) back to started, no longer expecting
   * documents; the completion and the notice to the lender are recorded.
   */
  method CompleteInformationRequest(db: Database, uuid: string, payload: map<string, Value>, now: Instant)
    returns (r: Result<int>)
    requires db.Valid()
    modifies db`applications, db`messages, db`actions
    ensures db.Valid()
    ensures r == GuestLookup(old(db.applications), uuid, {}, [InformationRequested], now)
    ensures r.Err? ==> unchanged(db)
    ensures r.Ok? ==>
      && db.applications == old(db.applications)[r.value := old(db.applications)[r.value].(
           status := Started, pendingDocuments := false)]
      && db.actions == old(db.actions) + [Action(r.value, MsmeUploadAdditionalDocumentCompleted, now, payload, Guest)]
      && db.messages == old(db.messages) + [Message(r.value, BorrowerDocumentUpdateMessage, "", None)]
  {
    r := GetScopedApplicationAsGuest(db, uuid, {}, [InformationRequested], now);
    if r.Err? {
      return;
    }
    var a := db.applications[r.value];
    db.actions := db.actions + [Action(r.value, MsmeUploadAdditionalDocumentCompleted, now, payload, Guest)];
    db.messages := db.messages + [Message(r.value, BorrowerDocumentUpdateMessage, "", None)];
    SetApplication(db, r.value, a.(status := Started, pendingDocuments := false));
  }

  /**
   * Confirming the signed contract: only from approved (expired or not)
   * to contract uploaded, with the submitted amount and the upload time;
   * the two notices and the upload are recorded.
   */
  method ConfirmUploadContract(db: Database, uuid: string, amount: Option<int>, now: Instant) returns (r: Result<int>)
    requires db.Valid()
    modifies db`applications, db`messages, db`actions
    ensures db.Valid()
    ensures r == GuestLookup(old(db.applications), uuid, {}, [Approved], now)
    ensures r.Err? ==> unchanged(db)
    ensures r.Ok? ==>
      && db.applications == old(db.applications)[r.value := old(db.applications)[r.value].(
           contractAmountSubmitted := amount, status := ContractUploaded, borrowerUploadedContractAt := Some(now))]
      && db.messages == old(db.messages) + [Message(r.value, ContractUploadConfirmationToFi, "", None),
                                            Message(r.value, ContractUploadConfirmation, "", None)]
      && db.actions == old(db.actions) + [Action(r.value, MsmeUploadContract, now,
           map["contract_amount_submitted" := if amount.Some? then Number(amount.value) else Null], Guest)]
  {
    r := GetScopedApplicationAsGuest(db, uuid, {}, [Approved], now);
    if r.Err? {
      return;
    }
    var a := db.applications[r.value];
    SetApplication(db, r.value, a.(contractAmountSubmitted := amount, status := ContractUploaded,
                                   borrowerUploadedContractAt := Some(now)));
    db.messages := db.messages + [Message(r.value, ContractUploadConfirmationToFi, "", None),
                                  Message(r.value, ContractUploadConfirmation, "", None)];
    db.actions := db.actions + [Action(r.value, MsmeUploadContract, now,
      map["contract_amount_submitted" := if amount.Some? then Number(amount.value) else Null], Guest)];
  }

  /** The copy a rejected application is given to try another lender. */
  function CopyOf(a: Application, generateUuid: string -> string, now: Instant): (c: Application)
    ensures c.status == Accepted && c.uuid == generateUuid(a.uuid)
    ensures c.awardId == a.awardId && c.borrowerId == a.borrowerId
    ensures c.awardBorrowerIdentifier == a.awardBorrowerIdentifier && c.primaryEmail == a.primaryEmail
    ensures c.lenderId.None? && c.creditProductId.None? && c.calculatorData == a.calculatorData
  {
    NewApplication(generateUuid(a.uuid), a.awardId, a.borrowerId, a.awardBorrowerIdentifier, a.primaryEmail,
                   Accepted, now).(calculatorData := a.calculatorData, borrowerAcceptedAt := Some(now))
  }

  /**
   * Trying another lender after a rejection (expired or not): an
   * application already copied is refused with 409, and so is a copy whose
   * uuid is taken; otherwise an accepted copy is added for the same award,
   * borrower and borrower identifier, and the copy is recorded on both.
   */
  method FindAlternativeCreditOption(db: Database, uuid: string, payload: map<string, Value>,
                                     generateUuid: string -> string, now: Instant) returns (r: Result<int>)
    requires db.Valid()
    modifies db`applications, db`messages, db`actions, db`nextId
    ensures db.Valid()
    ensures var g := GuestLookup(old(db.applications), uuid, {}, [Rejected], now);
      && (g.Err? ==> r == g)
      && (g.Ok? && HasAction(old(db.actions), g.value, CopiedApplication) ==> r == Err(Http(Conflict)))
      && (r.Ok? ==> g.Ok? && !HasAction(old(db.actions), g.value, CopiedApplication))
    ensures r.Err? ==> unchanged(db)
    ensures r.Ok? ==>
      var source := GuestLookup(old(db.applications), uuid, {}, [Rejected], now).value;
      var copy := CopyOf(old(db.applications)[source], generateUuid, now);
      && r.value == old(db.nextId) && r.value !in old(db.applications)
      && db.applications == old(db.applications)[r.value := copy]
      && db.messages == old(db.messages) + [Message(r.value, ApplicationCopied, "", None)]
      && db.actions == old(db.actions) + [Action(source, CopiedApplication, now, payload, Guest),
                                          Action(r.value, ApplicationCopiedFrom, now, payload, Guest)]
      && db.nextId == old(db.nextId) + 1
  {
    var g := GetScopedApplicationAsGuest(db, uuid, {}, [Rejected], now);
    if g.Err? {
      return g;
    }
    var source := g.value;
    var copied := FindCopiedAction(db.actions, source);
    if copied {
      return Err(Http(Conflict));
    }
    var a := db.applications[source];
    var copy := CopyOf(a, generateUuid, now);
    var taken := FindByUuid(db, copy.uuid);
    if taken.Some? {
      return Err(Http(Conflict));
    }
    assert ApplicationLinked(copy, db.borrowers, db.awards, db.lenders);
    var id := StoreCopy(db, source, copy, payload, now);
    r := Ok(id);
  }

  /** Storing the copy of application `source` under a fresh id, with its message and the two actions. */
  method StoreCopy(db: Database, source: int, copy: Application, payload: map<string, Value>, now: Instant)
    returns (id: int)
    requires db.Valid() && ApplicationLinked(copy, db.borrowers, db.awards, db.lenders)
    requires forall k :: k in db.applications ==> db.applications[k].uuid != copy.uuid
    modifies db`applications, db`nextId, db`messages, db`actions
    ensures db.Valid()
    ensures id == old(db.nextId) && id !in old(db.applications)
    ensures db.applications == old(db.applications)[id := copy] && db.nextId == old(db.nextId) + 1
    ensures db.messages == old(db.messages) + [Message(id, ApplicationCopied, "", None)]
    ensures db.actions == old(db.actions) + [Action(source, CopiedApplication, now, payload, Guest),
                                             Action(id, ApplicationCopiedFrom, now, payload, Guest)]
  {
    id := db.nextId;
    InsertKeepsUuidsUnique(db.applications, id, copy);
    db.applications := db.applications[id := copy];
    db.nextId := id + 1;
    db.messages := db.messages + [Message(id, ApplicationCopied, "", None)];
    db.actions := db.actions + [Action(source, CopiedApplication, now, payload, Guest),
                                Action(id, ApplicationCopiedFrom, now, payload, Guest)];
  }

  /** Adding an application whose uuid no stored one carries keeps uuids unique. */
  lemma InsertKeepsUuidsUnique(apps: map<int, Application>, id: int, a: Application)
    requires UuidsUnique(apps) && id !in apps
    requires forall k :: k in apps ==> apps[k].uuid != a.uuid
    ensures UuidsUnique(apps[id := a])
  {
  }

  /** Whether the log holds an action of the copied kind for the application. */
  method FindCopiedAction(actions: seq<Action>, id: int) returns (found: bool)
    ensures found <==> HasAction(actions, id, CopiedApplication)
  {
    var i := 0;
    while i < |actions|
      invariant 0 <= i <= |actions|
      invariant forall j :: 0 <= j < i ==> !(actions[j].applicationId == id && actions[j].kind == CopiedApplication)
    {
      if actions[i].applicationId == id && actions[i].kind == CopiedApplication {
        return true;
      }
      i := i + 1;
    }
    return false;
  }

  /** Asking twice for another lender for the same rejected application: the second request is refused. */
  method FindAlternativeTwice(db: Database, uuid: string, payload: map<string, Value>,
                              generateUuid: string -> string, now: Instant) returns (first: Result<int>, second: Result<int>)
    requires db.Valid()
    modifies db
    ensures first.Ok? ==> second == Err(Http(Conflict))
  {
    first := FindAlternativeCreditOption(db, uuid, payload, generateUuid, now);
    ghost var source := GuestLookup(old(db.applications), uuid, {}, [Rejected], now);
    if first.Ok? {
      assert db.actions[|db.actions| - 2] == Action(source.value, CopiedApplication, now, payload, Guest);
      assert HasAction(db.actions, source.value, CopiedApplication);
      assert db.applications[source.value] == old(db.applications)[source.value];
    }
    second := FindAlternativeCreditOption(db, uuid, payload, generateUuid, now);
  }
}
