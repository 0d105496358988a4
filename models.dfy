/**
 * The persistent entities of the credit-application lifecycle, the record
 * mixin that keeps a per-field "missing data" map, the named selections the
 * time-driven sweeps run, and the database session that holds every row.
 */
module Models {
  import opened Base

  datatype ApplicationStatus =
    | Pending
    | Accepted
    | Lapsed
    | Declined
    | Submitted
    | Started
    | Approved
    | ContractUploaded
    | Completed
    | Rejected
    | InformationRequested

  datatype BorrowerStatus = Active | DeclineOpportunities

  datatype BorrowerSize = NotInformed | Micro | Small | Medium

  datatype UserType = Ocp | Fi

  datatype DocumentType =
    | IncorporationDocument
    | SupplierRegistrationDocument
    | BankName
    | BankCertificationDocument
    | FinancialStatement
    | SignedContract
    | ComplianceReport
    | ShareholderComposition
    | ChamberOfCommerce
    | ThreeLastBankStatement

  /**
   * The kinds of outbound e-mail that are recorded as messages.
   * BorrowerDocumentUpdate is the kind the information-request completion
   * records (it borrows the name of an action kind).
   */
  datatype MessageType =
    | BorrowerInvitation
    | BorrowerPendingApplicationReminder
    | BorrowerPendingSubmitReminder
    | SubmissionComplete
    | ContractUploadRequest
    | ContractUploadConfirmation
    | ContractUploadConfirmationToFi
    | NewApplicationOcp
    | NewApplicationFi
    | FiMessage
    | ApprovedApplicationMessage
    | RejectedApplicationMessage
    | OverdueApplication
    | EmailChangeConfirmation
    | ApplicationCopied
    | CreditDisbursed
    | BorrowerDocumentUpdateMessage

  datatype ActionType =
    | AwardUpdate
    | BorrowerUpdate
    | ApplicationCalculatorDataUpdate
    | ApplicationConfirmCreditProduct
    | FiUploadCompliance
    | FiCompleteApplication
    | FiDownloadDocument
    | FiDownloadApplication
    | OcpDownloadApplication
    | FiStartApplication
    | FiRequestInformation
    | OcpDownloadDocument
    | ApprovedApplication
    | RejectedApplication
    | MsmeUploadDocument
    | MsmeUploadContract
    | MsmeChangeEmail
    | MsmeConfirmEmail
    | MsmeUploadAdditionalDocumentCompleted
    | MsmeRetryApplication
    | DataValidationUpdate
    | BorrowerDocumentUpdate
    | BorrowerUploadedContract
    | ApplicationCopiedFrom
    | CopiedApplication

  datatype User = User(id: int, kind: UserType, lenderId: Option<int>, name: string)

  predicate IsOcp(u: User)
  {
    u.kind == Ocp
  }

  /** Who recorded an action: the borrower (no user) or a staff user. */
  datatype Actor = Guest | Staff(user: User)

  /** One application. Amounts are whole cents; instants are seconds. */
  datatype Application = Application(
    uuid: string,
    awardId: int,
    borrowerId: int,
    lenderId: Option<int>,
    creditProductId: Option<int>,
    awardBorrowerIdentifier: string,
    primaryEmail: string,
    status: ApplicationStatus,
    calculatorData: map<string, int>,
    amountRequested: Option<int>,
    repaymentYears: Option<int>,
    repaymentMonths: Option<int>,
    paymentStartDate: Option<Instant>,
    pendingDocuments: bool,
    pendingEmailConfirmation: bool,
    confirmationEmailToken: string,
    borrowerDeclinedData: map<string, bool>,
    secopDataVerification: map<string, bool>,
    lenderRejectedData: map<string, Value>,
    lenderApprovedData: map<string, Value>,
    contractAmountSubmitted: Option<int>,
    disbursedFinalAmount: Option<int>,
    completedInDays: Option<int>,
    createdAt: Instant,
    expiredAt: Option<Instant>,
    archivedAt: Option<Instant>,
    borrowerAcceptedAt: Option<Instant>,
    borrowerDeclinedAt: Option<Instant>,
    borrowerSubmittedAt: Option<Instant>,
    borrowerCreditProductSelectedAt: Option<Instant>,
    lenderStartedAt: Option<Instant>,
    lenderApprovedAt: Option<Instant>,
    lenderRejectedAt: Option<Instant>,
    borrowerUploadedContractAt: Option<Instant>,
    lenderCompletedAt: Option<Instant>,
    informationRequestedAt: Option<Instant>,
    applicationLapsedAt: Option<Instant>,
    overduedAt: Option<Instant>)

  /** A fresh application row with the column defaults. */
  function NewApplication(uuid: string, awardId: int, borrowerId: int, key: string, email: string,
                          status: ApplicationStatus, now: Instant): (a: Application)
    ensures a.uuid == uuid && a.awardId == awardId && a.borrowerId == borrowerId
    ensures a.awardBorrowerIdentifier == key && a.primaryEmail == email && a.status == status
    ensures a.createdAt == now && a.archivedAt.None? && a.lenderId.None? && a.lenderStartedAt.None?
  {
    Application(uuid, awardId, borrowerId, None, None, key, email, status, map[], None, None, None, None, false, false, "",
                map[], map[], map[], map[], None, None, None, now, None, None, None, None, None, None,
                None, None, None, None, None, None, None, None)
  }

  datatype Borrower = Borrower(
    borrowerIdentifier: string,
    legalName: string,
    email: string,
    address: string,
    legalIdentifier: string,
    kind: string,
    sector: string,
    size: BorrowerSize,
    isMsme: bool,
    sourceData: map<string, string>,
    status: BorrowerStatus,
    declinedAt: Option<Instant>)

  datatype Award = Award(
    sourceContractId: string,
    borrowerId: Option<int>,
    previous: bool,
    entityCode: string,
    title: string,
    buyerName: string,
    sourceLastUpdatedAt: Option<Instant>)

  datatype Document = Document(
    applicationId: int,
    kind: DocumentType,
    name: string,
    file: seq<bv8>,
    verified: bool,
    submittedAt: Instant)

  datatype CreditProduct = CreditProduct(
    lenderId: int,
    borrowerSize: BorrowerSize,
    lowerLimit: int,
    upperLimit: int,
    requiredDocumentTypes: set<DocumentType>)

  datatype Lender = Lender(name: string, emailGroup: string, slaDays: int)

  datatype Message = Message(applicationId: int, kind: MessageType, body: string, lenderId: Option<int>)

  datatype Action = Action(applicationId: int, kind: ActionType, createdAt: Instant,
                           data: map<string, Value>, actor: Actor)

  /** The configuration the sweeps and the ingestion read. */
  datatype Settings = Settings(
    reminderDaysBeforeExpiration: int,
    daysToChangeToLapsed: int,
    daysToEraseBorrowerData: int,
    applicationExpirationDays: int,
    maxFileSizeMb: int,
    secopPaginationLimit: int,
    secopDefaultDays: int,
    progressToRemindNumerator: int,
    progressToRemindDenominator: int)

  // ---------------------------------------------------------------------
  // The record mixin: creation, update and the missing-data map.

  /** An attribute value as the mixin sees it. */
  datatype Value = Null | Text(text: string) | Number(number: int) | Flag(flag: bool)

  /** A value counts as missing when it is None or the empty string. */
  predicate IsMissing(v: Value)
  {
    v == Null || v == Text("")
  }

  /** The missing-data map of an attribute dictionary: one flag per key. */
  method GetMissingDataKeys(input: map<string, Value>) returns (r: map<string, bool>)
    ensures r.Keys == input.Keys
    ensures forall k :: k in r ==> (r[k] <==> IsMissing(input[k]))
  {
    r := map[];
    var todo := input.Keys;
    while |todo| > 0
      invariant todo <= input.Keys
      invariant r.Keys == input.Keys - todo
      invariant forall k :: k in r ==> (r[k] <==> IsMissing(input[k]))
      decreases |todo|
    {
      var k := Pick(todo);
      if input[k] == Text("") || input[k] == Null {
        r := r[k := true];
      } else {
        r := r[k := false];
      }
      todo := todo - {k};
    }
  }

  /**
   * A persistent instance seen through the record mixin: its attributes by
   * name and, for the entities that have one, its missing-data map.
   */
  class Record {
    var attrs: map<string, Value>
    const tracksMissing: bool
    var missingData: map<string, bool>

    /**
     * Inserting a new instance: the attributes are the class defaults
     * overridden by the creation data, and the missing-data map describes
     * the creation data only.
     */
    constructor Create(defaults: map<string, Value>, data: map<string, Value>, hasMissingData: bool)
      ensures attrs == defaults + data && tracksMissing == hasMissingData
      ensures hasMissingData ==> missingData.Keys == data.Keys
      ensures hasMissingData ==> forall k :: k in data ==> (missingData[k] <==> IsMissing(data[k]))
      ensures !hasMissingData ==> missingData == map[]
    {
      var m := map[];
      if hasMissingData {
        m := GetMissingDataKeys(data);
      }
      attrs := defaults + data;
      tracksMissing := hasMissingData;
      missingData := m;
    }

    /**
     * Updating an instance: every given attribute is overwritten, and the
     * missing-data map is recomputed over all the attributes afterwards.
     */
    method Update(data: map<string, Value>)
      modifies this
      ensures attrs == old(attrs) + data
      ensures tracksMissing ==> missingData.Keys == attrs.Keys
      ensures tracksMissing ==> forall k :: k in attrs ==> (missingData[k] <==> IsMissing(attrs[k]))
      ensures !tracksMissing ==> missingData == old(missingData)
    {
      var todo := data.Keys;
      while |todo| > 0
        invariant todo <= data.Keys
        invariant attrs.Keys == old(attrs).Keys + (data.Keys - todo)
        invariant forall k :: k in attrs ==> attrs[k] == if k in data && k !in todo then data[k] else old(attrs)[k]
        invariant missingData == old(missingData)
        decreases |todo|
      {
        var k := Pick(todo);
        attrs := attrs[k := data[k]];
        todo := todo - {k};
      }
      if tracksMissing {
        missingData := GetMissingDataKeys(attrs);
      }
    }
  }

  // ---------------------------------------------------------------------
  // Integrity of the stored rows.

  /** Statuses an application only reaches after a lender was chosen. */
  predicate HasLender(s: ApplicationStatus)
  {
    s in {Submitted, Started, InformationRequested, Approved, ContractUploaded, Completed, Rejected}
  }

  /** Statuses an application only reaches after the lender started on it. */
  predicate LenderStarted(s: ApplicationStatus)
  {
    s in {Started, InformationRequested, Approved, ContractUploaded, Completed, Rejected}
  }

  predicate UuidsUnique(apps: map<int, Application>)
  {
    forall i, j :: i in apps && j in apps && apps[i].uuid == apps[j].uuid ==> i == j
  }

  predicate IdentifiersUnique(borrowers: map<int, Borrower>)
  {
    forall i, j ::
      i in borrowers && j in borrowers && borrowers[i].borrowerIdentifier == borrowers[j].borrowerIdentifier
      ==> i == j
  }

  /** Every row an application refers to exists, and its lender matches its stage. */
  predicate ApplicationLinked(a: Application, borrowers: map<int, Borrower>, awards: map<int, Award>,
                              lenders: map<int, Lender>)
  {
    && a.borrowerId in borrowers
    && a.awardId in awards
    && (a.lenderId.Some? ==> a.lenderId.value in lenders)
    && (HasLender(a.status) ==> a.lenderId.Some?)
    && (LenderStarted(a.status) ==> a.lenderStartedAt.Some?)
  }

  predicate KeysIn<T>(m: map<int, T>, next: int)
  {
    forall id :: id in m ==> 0 < id < next
  }

  // ---------------------------------------------------------------------
  // Named selections over the stored rows (SQL NULL never satisfies a
  // comparison, so a missing timestamp never selects a row).

  predicate Unarchived(a: Application)
  {
    a.archivedAt.None?
  }

  /** The invitation expires after now and no later than the reminder horizon. */
  predicate ExpiringSoon(a: Application, now: Instant, s: Settings)
  {
    a.expiredAt.Some? && now < a.expiredAt.value <= now + s.reminderDaysBeforeExpiration * SecondsPerDay
  }

  /** Some message of this kind was already recorded for the application. */
  predicate HasMessage(messages: seq<Message>, id: int, kind: MessageType)
  {
    exists i :: 0 <= i < |messages| && messages[i].applicationId == id && messages[i].kind == kind
  }

  predicate PendingIntroductionReminder(id: int, a: Application, borrowers: map<int, Borrower>,
                                        awards: map<int, Award>, messages: seq<Message>,
                                        now: Instant, s: Settings)
  {
    && ExpiringSoon(a, now, s)
    && a.status == Pending
    && !HasMessage(messages, id, BorrowerPendingApplicationReminder)
    && a.borrowerId in borrowers && borrowers[a.borrowerId].status == Active
    && a.awardId in awards
  }

  predicate PendingSubmissionReminder(id: int, a: Application, messages: seq<Message>, now: Instant, s: Settings)
  {
    && ExpiringSoon(a, now, s)
    && a.status == Accepted
    && !HasMessage(messages, id, BorrowerPendingSubmitReminder)
  }

  /** `t + days` lies strictly before now; a missing timestamp never does. */
  predicate OlderThan(t: Option<Instant>, days: int, now: Instant)
  {
    t.Some? && t.value + days * SecondsPerDay < now
  }

  /** An application left waiting on the borrower for too long. */
  predicate Lapseable(a: Application, now: Instant, s: Settings)
  {
    var d := s.daysToChangeToLapsed;
    && Unarchived(a)
    && (|| (a.status == Pending && a.createdAt + d * SecondsPerDay < now)
        || (a.status == Accepted && OlderThan(a.borrowerAcceptedAt, d, now))
        || (a.status == InformationRequested && OlderThan(a.informationRequestedAt, d, now)))
  }

  /** A closed application whose borrower data is due for erasure. */
  predicate Archivable(a: Application, now: Instant, s: Settings)
  {
    var d := s.daysToEraseBorrowerData;
    && Unarchived(a)
    && (|| (a.status == Declined && OlderThan(a.borrowerDeclinedAt, d, now))
        || (a.status == Rejected && OlderThan(a.lenderRejectedAt, d, now))
        || (a.status == Completed && OlderThan(a.lenderApprovedAt, d, now))
        || (a.status == Lapsed && OlderThan(a.applicationLapsedAt, d, now)))
  }

  /** The instants of the application's actions of one kind, in log order. */
  function ActionTimes(actions: seq<Action>, id: int, kind: ActionType): (r: seq<Instant>)
    ensures |r| <= |actions|
  {
    if actions == [] then []
    else
      var last := actions[|actions| - 1];
      ActionTimes(actions[..|actions| - 1], id, kind)
        + (if last.applicationId == id && last.kind == kind then [last.createdAt] else [])
  }

  /** The application's action of one kind sits at position `i` of the log. */
  predicate ActionAt(actions: seq<Action>, i: int, id: int, kind: ActionType)
  {
    0 <= i < |actions| && actions[i].applicationId == id && actions[i].kind == kind
  }

  /**
   * The positions of the application's actions of one kind: increasing,
   * each holding such an action, and every such action's position present.
   */
  function ActionIndices(actions: seq<Action>, id: int, kind: ActionType): (r: seq<int>)
    ensures forall k :: 0 <= k < |r| ==> ActionAt(actions, r[k], id, kind)
    ensures forall k, l :: 0 <= k < l < |r| ==> r[k] < r[l]
    ensures forall i :: ActionAt(actions, i, id, kind) ==> i in r
  {
    if actions == [] then []
    else
      var n := |actions| - 1;
      var prefix := ActionIndices(actions[..n], id, kind);
      assert forall k :: 0 <= k < |prefix| ==> actions[..n][prefix[k]] == actions[prefix[k]];
      prefix + (if actions[n].applicationId == id && actions[n].kind == kind then [n] else [])
  }

  /** `ActionTimes` lists the creation times of exactly the actions `ActionIndices` finds, in the same order. */
  lemma {:induction false} ActionTimesIndexed(actions: seq<Action>, id: int, kind: ActionType)
    ensures |ActionTimes(actions, id, kind)| == |ActionIndices(actions, id, kind)|
    ensures forall k :: 0 <= k < |ActionTimes(actions, id, kind)| ==>
      ActionTimes(actions, id, kind)[k] == actions[ActionIndices(actions, id, kind)[k]].createdAt
  {
    if actions != [] {
      var n := |actions| - 1;
      ActionTimesIndexed(actions[..n], id, kind);
      var prefix := ActionIndices(actions[..n], id, kind);
      assert forall k :: 0 <= k < |prefix| ==> actions[..n][prefix[k]] == actions[prefix[k]];
    }
  }

  /** Some action of this kind was recorded for the application. */
  predicate HasAction(actions: seq<Action>, id: int, kind: ActionType)
  {
    exists i :: 0 <= i < |actions| && actions[i].applicationId == id && actions[i].kind == kind
  }

  /** No award among `ids` was updated at the source later than `r`. */
  predicate NoneLater(awards: map<int, Award>, ids: set<int>, r: Option<Instant>)
  {
    forall id :: id in ids && id in awards && awards[id].sourceLastUpdatedAt.Some? ==>
      r.Some? && awards[id].sourceLastUpdatedAt.value <= r.value
  }

  /** Some stored award has no source update time. */
  predicate SomeUndated(awards: map<int, Award>)
  {
    exists id :: id in awards && awards[id].sourceLastUpdatedAt.None?
  }

  /**
   * The source update time of the first award in descending order of that
   * time. The database sorts a missing time first in descending order, so
   * one award without a time makes the result None, as does an empty
   * table; otherwise the result is the latest time.
   */
  method LastUpdated(awards: map<int, Award>) returns (r: Option<Instant>)
    ensures r.None? <==> awards.Keys == {} || SomeUndated(awards)
    ensures r.Some? ==> exists id :: id in awards && awards[id].sourceLastUpdatedAt == r
    ensures r.Some? ==> NoneLater(awards, awards.Keys, r)
  {
    r := None;
    var todo := awards.Keys;
    while |todo| > 0
      invariant todo <= awards.Keys
      invariant forall id :: id in awards && id !in todo ==> awards[id].sourceLastUpdatedAt.Some?
      invariant r.None? <==> awards.Keys - todo == {}
      invariant r.Some? ==> exists id :: id in awards && awards[id].sourceLastUpdatedAt == r
      invariant NoneLater(awards, awards.Keys - todo, r)
      decreases |todo|
    {
      var k := Pick(todo);
      var t := awards[k].sourceLastUpdatedAt;
      if t.None? {
        return None;
      }
      if r.None? || t.value > r.value {
        r := t;
      }
      todo := todo - {k};
    }
  }

  // ---------------------------------------------------------------------
  // The database session.

  class Database {
    var applications: map<int, Application>
    var borrowers: map<int, Borrower>
    var awards: map<int, Award>
    var documents: map<int, Document>
    var creditProducts: map<int, CreditProduct>
    var lenders: map<int, Lender>
    var messages: seq<Message>
    var actions: seq<Action>
    /** The next primary key to hand out; every stored key is below it. */
    var nextId: int

    ghost predicate Valid()
      reads this`nextId, this`applications, this`borrowers, this`awards, this`documents, this`creditProducts,
            this`lenders
    {
      && nextId > 0
      && KeysIn(applications, nextId) && KeysIn(borrowers, nextId) && KeysIn(awards, nextId)
      && KeysIn(documents, nextId)
      && UuidsUnique(applications)
      && IdentifiersUnique(borrowers)
      && (forall id :: id in applications ==> ApplicationLinked(applications[id], borrowers, awards, lenders))
      && (forall id :: id in creditProducts ==> creditProducts[id].lenderId in lenders)
    }

    constructor (lenders: map<int, Lender>, creditProducts: map<int, CreditProduct>)
      requires forall id :: id in creditProducts ==> creditProducts[id].lenderId in lenders
      ensures Valid()
      ensures this.lenders == lenders && this.creditProducts == creditProducts
      ensures applications == map[] && borrowers == map[] && awards == map[] && documents == map[]
      ensures messages == [] && actions == []
    {
      this.lenders := lenders;
      this.creditProducts := creditProducts;
      applications := map[];
      borrowers := map[];
      awards := map[];
      documents := map[];
      messages := [];
      actions := [];
      nextId := 1;
    }
  }

  /**
   * Replacing one application by a row with the same uuid whose links hold
   * keeps the store consistent.
   */
  method SetApplication(db: Database, id: int, a: Application)
    requires db.Valid() && id in db.applications
    requires a.uuid == db.applications[id].uuid
    requires ApplicationLinked(a, db.borrowers, db.awards, db.lenders)
    modifies db`applications
    ensures db.Valid()
    ensures db.applications == old(db.applications)[id := a]
  {
    ghost var apps := db.applications;
    db.applications := db.applications[id := a];
    assert forall k :: k in db.applications ==> db.applications[k].uuid == apps[k].uuid;
  }

  /**
   * Replacing one borrower by a row with the same identifier keeps the
   * store consistent.
   */
  method SetBorrower(db: Database, id: int, b: Borrower)
    requires db.Valid() && id in db.borrowers
    requires b.borrowerIdentifier == db.borrowers[id].borrowerIdentifier
    modifies db`borrowers
    ensures db.Valid()
    ensures db.borrowers == old(db.borrowers)[id := b]
  {
    ghost var borrowers := db.borrowers;
    db.borrowers := db.borrowers[id := b];
    assert forall k :: k in db.borrowers ==> db.borrowers[k].borrowerIdentifier == borrowers[k].borrowerIdentifier;
  }
}
