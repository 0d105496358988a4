/**
 * The scheduled commands: ingesting award records from the procurement
 * source into awards, borrowers and invited applications, and the
 * time-driven sweeps (reminders, lapsing, SLA notices, data retention).
 * The source's answers, the clock and the hash and uuid generators are
 * inputs; a sending or storage failure is an input set of application ids.
 */
module Commands {
  import opened Base
  import opened Models
  import Colombia
  import Timeline

  /** What the outside world answers during an ingestion run. */
  datatype Source = Source(
    /** The keyed hash of a value (borrower identifiers and application keys). */
    hash: string -> string,
    /** The application uuid derived from its key. */
    generateUuid: string -> string,
    /** The registry records the source holds for a supplier document and supplier code. */
    registry: (string, string) -> seq<Colombia.Entry>,
    /** The e-mail records the source holds for a supplier document. */
    emailRecords: string -> seq<Colombia.Entry>,
    isValidEmail: string -> bool,
    /** The contract lookup (purchase process, supplier, signed contracts only). */
    contracts: (string, string, bool) -> seq<Colombia.Entry>,
    parseInstant: string -> Instant,
    /** Sending the invitation for the application with this uuid fails. */
    invitationFails: string -> bool)

  // ---------------------------------------------------------------------
  // Ingesting one award record.

  /** A stored borrower carries the supplier's hashed document and has opted out of new opportunities. */
  predicate DeclinedOpportunities(borrowers: map<int, Borrower>, identifier: string)
  {
    exists k :: k in borrowers && borrowers[k].borrowerIdentifier == identifier
                && borrowers[k].status == DeclineOpportunities
  }

  /** The record's supplier is a stored borrower who opted out. */
  predicate SupplierOptedOut(borrowers: map<int, Borrower>, entry: Colombia.Entry, src: Source)
  {
    && Colombia.GetDocumentoProveedor(entry).Ok?
    && DeclinedOpportunities(borrowers, src.hash(Colombia.GetDocumentoProveedor(entry).value))
  }

  /** The registry lookup for a record's supplier: its document and the record's supplier code. */
  function SupplierRegistry(src: Source, entry: Colombia.Entry, doc: string): seq<Colombia.Entry>
  {
    src.registry(doc, Colombia.Get(entry, "codigoproveedor", ""))
  }

  /**
   * The borrower row carries what the source says about the record's
   * supplier: the hashed document, the legal identifier of the supplier's
   * single registry record, and the most frequent of its e-mail records,
   * which the validator accepts.
   */
  ghost predicate BuiltFromSource(b: Borrower, entry: Colombia.Entry, src: Source)
  {
    && Colombia.GetDocumentoProveedor(entry).Ok?
    && var doc := Colombia.GetDocumentoProveedor(entry).value;
    && b.borrowerIdentifier == src.hash(doc)
    && |SupplierRegistry(src, entry, doc)| == 1
    && b.legalIdentifier == Colombia.Get(SupplierRegistry(src, entry, doc)[0], "nit_entidad", "")
    && src.isValidEmail(b.email) && Colombia.IsMostCommon(Colombia.Emails(src.emailRecords(doc)), b.email)
  }

  predicate HasKey(key: string, a: Application)
  {
    a.awardBorrowerIdentifier == key
  }

  predicate HasIdentifier(identifier: string, b: Borrower)
  {
    b.borrowerIdentifier == identifier
  }

  /** No stored application has this key. */
  predicate KeyFree(apps: map<int, Application>, key: string)
  {
    forall k :: k in apps ==> apps[k].awardBorrowerIdentifier != key
  }

  /** A stored borrower refreshed with the source's data; its sector, size and opt-out state are kept. */
  function Refreshed(b: Borrower, data: Borrower): Borrower
  {
    b.(borrowerIdentifier := data.borrowerIdentifier, legalName := data.legalName, email := data.email,
       address := data.address, legalIdentifier := data.legalIdentifier, kind := data.kind,
       sourceData := data.sourceData, isMsme := data.isMsme)
  }

  /**
   * `id` is a new application invited for its award and borrower: pending,
   * keyed by the hash of the borrower's legal identifier and the award's
   * source contract, with a key no earlier application had, the uuid
   * derived from the key, the borrower's e-mail, and an invitation that
   * expires after the configured number of days.
   */
  ghost predicate Invited(before: map<int, Application>, apps: map<int, Application>, borrowers: map<int, Borrower>,
                          awards: map<int, Award>, id: int, src: Source, now: Instant, s: Settings)
  {
    && id !in before && id in apps && apps == before[id := apps[id]]
    && apps[id].borrowerId in borrowers && apps[id].awardId in awards
    && var a := apps[id];
    && var b := borrowers[a.borrowerId];
    && a.status == Pending
    && a.awardBorrowerIdentifier == src.hash(b.legalIdentifier + awards[a.awardId].sourceContractId)
    && KeyFree(before, a.awardBorrowerIdentifier)
    && a.uuid == src.generateUuid(a.awardBorrowerIdentifier)
    && a.primaryEmail == b.email
    && a.expiredAt == Some(now + s.applicationExpirationDays * SecondsPerDay)
    && awards[a.awardId].borrowerId == Some(a.borrowerId)
    && b.status == Active
  }

  /**
   * What an ingestion step keeps, relative to the state before it: stored
   * applications are kept, every new application has an active borrower
   * and a key no other application has, borrowers keep their opt-out
   * state, and an opted-out borrower is not touched.
   */
  ghost predicate IngestionKeeps(apps0: map<int, Application>, borrowers0: map<int, Borrower>,
                                 apps: map<int, Application>, borrowers: map<int, Borrower>)
  {
    && (forall k :: k in apps0 ==> k in apps && apps[k] == apps0[k])
    && (forall k :: k in borrowers0 ==> k in borrowers && borrowers[k].status == borrowers0[k].status)
    && (forall k :: k in borrowers0 && borrowers0[k].status == DeclineOpportunities ==> borrowers[k] == borrowers0[k])
    && (forall k :: k in apps && k !in apps0 ==>
          apps[k].borrowerId in borrowers && borrowers[apps[k].borrowerId].status == Active)
    && (forall k, j :: k in apps && k !in apps0 && j in apps && j != k ==>
          apps[j].awardBorrowerIdentifier != apps[k].awardBorrowerIdentifier)
  }

  lemma {:induction false} IngestionKeepsChains(apps0: map<int, Application>, borrowers0: map<int, Borrower>,
                                                apps1: map<int, Application>, borrowers1: map<int, Borrower>,
                                                apps2: map<int, Application>, borrowers2: map<int, Borrower>)
    requires IngestionKeeps(apps0, borrowers0, apps1, borrowers1)
    requires IngestionKeeps(apps1, borrowers1, apps2, borrowers2)
    ensures IngestionKeeps(apps0, borrowers0, apps2, borrowers2)
  {
    forall k | k in apps2 && k !in apps0
      ensures apps2[k].borrowerId in borrowers2 && borrowers2[apps2[k].borrowerId].status == Active
    {
      if k in apps1 {
        assert apps2[k] == apps1[k];
      }
    }
    forall k, j | k in apps2 && k !in apps0 && j in apps2 && j != k
      ensures apps2[j].awardBorrowerIdentifier != apps2[k].awardBorrowerIdentifier
    {
      if k in apps1 {
        assert apps2[k] == apps1[k];
        if j in apps1 {
          assert apps2[j] == apps1[j];
        }
      }
    }
  }

  lemma IngestionKeepsNothing(apps: map<int, Application>, borrowers: map<int, Borrower>)
    ensures IngestionKeeps(apps, borrowers, apps, borrowers)
  {
  }

  /** Adding one application with a free key for an active borrower keeps what ingestion promises. */
  lemma {:induction false} InsertKeeps(apps: map<int, Application>, borrowers: map<int, Borrower>, id: int,
                                       app: Application, borrower: Borrower)
    requires id !in apps && KeyFree(apps, app.awardBorrowerIdentifier)
    requires borrower.status == Active
    requires app.borrowerId in borrowers ==> borrowers[app.borrowerId].status == Active
    ensures IngestionKeeps(apps, borrowers, apps[id := app], borrowers[app.borrowerId := borrower])
  {
    var apps' := apps[id := app];
    var borrowers' := borrowers[app.borrowerId := borrower];
    forall k, j | k in apps' && k !in apps && j in apps' && j != k
      ensures apps'[j].awardBorrowerIdentifier != apps'[k].awardBorrowerIdentifier
    {
      assert k == id && j in apps;
    }
  }

  /**
   * Writing new applications, borrowers, awards and messages, and the next
   * key, to the session; the rows written keep the integrity of the stored
   * rows.
   */
  method Commit(db: Database, apps: map<int, Application>, borrowers: map<int, Borrower>, awards: map<int, Award>,
                messages: seq<Message>, next: int)
    requires next > 0
    requires KeysIn(apps, next) && KeysIn(borrowers, next) && KeysIn(awards, next) && KeysIn(db.documents, next)
    requires UuidsUnique(apps) && IdentifiersUnique(borrowers)
    requires forall id :: id in apps ==> ApplicationLinked(apps[id], borrowers, awards, db.lenders)
    requires forall id :: id in db.creditProducts ==> db.creditProducts[id].lenderId in db.lenders
    modifies db`applications, db`borrowers, db`awards, db`messages, db`nextId
    ensures db.Valid()
    ensures db.applications == apps && db.borrowers == borrowers && db.awards == awards
    ensures db.messages == messages && db.nextId == next
  {
    db.applications := apps;
    db.borrowers := borrowers;
    db.awards := awards;
    db.messages := messages;
    db.nextId := next;
  }

  /** The rows after an invitation still satisfy the integrity of the stored rows. */
  lemma {:induction false} InviteKeepsRows(apps: map<int, Application>, borrowers: map<int, Borrower>,
                                           awards: map<int, Award>, lenders: map<int, Lender>, next: int,
                                           app: Application, borrower: Borrower, award: Award,
                                           apps': map<int, Application>, borrowers': map<int, Borrower>,
                                           awards': map<int, Award>)
    requires next > 0
    requires KeysIn(apps, next) && KeysIn(borrowers, next) && KeysIn(awards, next)
    requires UuidsUnique(apps) && IdentifiersUnique(borrowers)
    requires forall k :: k in apps ==> ApplicationLinked(apps[k], borrowers, awards, lenders)
    requires app.awardId == next && app.status == Pending && app.lenderId.None?
    requires app.borrowerId in borrowers || app.borrowerId == next + 1
    requires forall k :: k in borrowers && k != app.borrowerId ==>
      borrowers[k].borrowerIdentifier != borrower.borrowerIdentifier
    requires forall k :: k in apps ==> apps[k].uuid != app.uuid
    requires apps' == apps[next + 2 := app] && borrowers' == borrowers[app.borrowerId := borrower]
    requires awards' == awards[next := award]
    ensures KeysIn(apps', next + 3) && KeysIn(borrowers', next + 3) && KeysIn(awards', next + 3)
    ensures UuidsUnique(apps') && IdentifiersUnique(borrowers')
    ensures forall k :: k in apps' ==> ApplicationLinked(apps'[k], borrowers', awards', lenders)
  {
    forall k | k in apps' ensures ApplicationLinked(apps'[k], borrowers', awards', lenders) {
      if k != next + 2 {
        assert ApplicationLinked(apps[k], borrowers, awards, lenders);
      }
    }
  }

  /** The rows an invitation stores: the award, the borrower and the pending application. */
  datatype Invitation = Invitation(award: Award, borrower: Borrower, app: Application)

  /**
   * An invitation that fits the stored rows: the award takes the next key
   * and the borrower its stored key or the one after the award's; the
   * application is pending with no lender, keyed by the hash of the
   * borrower's legal identifier and the award's source contract, with the
   * uuid derived from the key, the borrower's e-mail and the expiry; the key
   * and uuid are free, and no other borrower has the borrower's identifier.
   */
  ghost predicate ReadyToInvite(db: Database, v: Invitation, src: Source, now: Instant, s: Settings)
    reads db
  {
    && v.app.awardId == db.nextId
    && (v.app.borrowerId in db.borrowers || v.app.borrowerId == db.nextId + 1)
    && v.app.status == Pending && v.app.lenderId.None?
    && v.borrower.status == Active
    && (v.app.borrowerId in db.borrowers ==> db.borrowers[v.app.borrowerId].status == Active)
    && v.app.awardBorrowerIdentifier == src.hash(v.borrower.legalIdentifier + v.award.sourceContractId)
    && v.app.uuid == src.generateUuid(v.app.awardBorrowerIdentifier)
    && v.app.primaryEmail == v.borrower.email
    && v.app.expiredAt == Some(now + s.applicationExpirationDays * SecondsPerDay)
    && KeyFree(db.applications, v.app.awardBorrowerIdentifier)
    && (forall k :: k in db.borrowers && k != v.app.borrowerId ==>
          db.borrowers[k].borrowerIdentifier != v.borrower.borrowerIdentifier)
    && (forall k :: k in db.applications ==> db.applications[k].uuid != v.app.uuid)
  }

  /**
   * Storing an invitation: the award linked to the borrower, the borrower
   * (new, or refreshed at its own key), the pending application with its
   * expiry, and the invitation message.
   */
  method Invite(db: Database, award: Award, borrower: Borrower, app: Application, src: Source, now: Instant,
                s: Settings) returns (id: int)
    requires db.Valid()
    requires ReadyToInvite(db, Invitation(award, borrower, app), src, now, s)
    modifies db`applications, db`borrowers, db`awards, db`messages, db`nextId
    ensures db.Valid()
    ensures id == old(db.nextId) + 2 && id !in old(db.applications)
    ensures db.awards == old(db.awards)[app.awardId := award.(borrowerId := Some(app.borrowerId))]
    ensures db.borrowers == old(db.borrowers)[app.borrowerId := borrower]
    ensures db.applications == old(db.applications)[id := app]
    ensures db.messages == old(db.messages) + [Message(id, BorrowerInvitation, "", None)]
    ensures Invited(old(db.applications), db.applications, db.borrowers, db.awards, id, src, now, s)
    ensures IngestionKeeps(old(db.applications), old(db.borrowers), db.applications, db.borrowers)
  {
    id := db.nextId + 2;
    var apps := db.applications[id := app];
    var borrowers := db.borrowers[app.borrowerId := borrower];
    var awards := db.awards[app.awardId := award.(borrowerId := Some(app.borrowerId))];
    assert Invited(db.applications, apps, borrowers, awards, id, src, now, s);
    InsertKeeps(db.applications, db.borrowers, id, app, borrower);
    InviteKeepsRows(db.applications, db.borrowers, db.awards, db.lenders, db.nextId, app, borrower,
                    award.(borrowerId := Some(app.borrowerId)), apps, borrowers, awards);
    assert KeysIn(db.documents, db.nextId + 3);
    Commit(db, apps, borrowers, awards, db.messages + [Message(id, BorrowerInvitation, "", None)], db.nextId + 3);
  }

  /**
   * The award row for a record: the record must build an award, and its
   * source contract must not be stored yet.
   */
  method NewAward(db: Database, entry: Colombia.Entry, src: Source) returns (r: Result<Award>)
    ensures var d := Colombia.GetAward(entry, None, false, src.contracts, src.parseInstant);
      && (d.Err? ==> r == Err(d.error))
      && (d.Ok? && (exists k :: k in db.awards && db.awards[k].sourceContractId == d.value.sourceContractId)
          ==> r == Err(Skipped(AwardExists)))
      && (r.Ok? ==> r == d && forall k :: k in db.awards ==> db.awards[k].sourceContractId != d.value.sourceContractId)
      && (d.Ok? && (forall k :: k in db.awards ==> db.awards[k].sourceContractId != d.value.sourceContractId)
          ==> r == d)
  {
    r := Colombia.GetAward(entry, None, false, src.contracts, src.parseInstant);
    if r.Err? {
      return;
    }
    var contract := r.value.sourceContractId;
    var stored := FindKey(db.awards, (a: Award) => a.sourceContractId == contract);
    if stored.Some? {
      r := Err(Skipped(AwardExists));
    }
  }

  /**
   * Whether an application with this key, or else this uuid, is stored:
   * the key is checked first.
   */
  method ApplicationTaken(db: Database, key: string, uuid: string) returns (r: Outcome)
    ensures r == Pass <==>
      KeyFree(db.applications, key) && forall k :: k in db.applications ==> db.applications[k].uuid != uuid
    ensures !KeyFree(db.applications, key) ==> r == Fail(Skipped(ApplicationExists))
    ensures KeyFree(db.applications, key) && r.Fail? ==> r == Fail(Skipped(UuidTaken))
  {
    var sameKey := FindKey(db.applications, (a: Application) => HasKey(key, a));
    if sameKey.Some? {
      return Fail(Skipped(ApplicationExists));
    }
    var sameUuid := FindKey(db.applications, (a: Application) => a.uuid == uuid);
    if sameUuid.Some? {
      return Fail(Skipped(UuidTaken));
    }
    r := Pass;
  }

  /**
   * The borrower row an award record is ingested for: a stored borrower
   * with the same hashed document is refused when it opted out and
   * refreshed with the source's data otherwise; with no such borrower, the
   * source's data becomes a new borrower under the key after the award's.
   */
  method ResolveBorrower(db: Database, data: Borrower) returns (r: Result<(int, Borrower)>)
    requires db.Valid()
    requires data.status == Active
    ensures r.Err? <==> DeclinedOpportunities(db.borrowers, data.borrowerIdentifier)
    ensures r.Err? ==> r.error == Skipped(OptedOut)
    ensures r.Ok? ==>
      var (id, b) := r.value;
      && b.status == Active
      && b.borrowerIdentifier == data.borrowerIdentifier && b.legalIdentifier == data.legalIdentifier
      && b.email == data.email
      && (id in db.borrowers ==>
            db.borrowers[id].borrowerIdentifier == data.borrowerIdentifier && db.borrowers[id].status == Active
            && b == Refreshed(db.borrowers[id], data))
      && (id !in db.borrowers ==> id == db.nextId + 1 && b == data)
      && (forall k :: k in db.borrowers && k != id ==> db.borrowers[k].borrowerIdentifier != data.borrowerIdentifier)
  {
    var existing := FindKey(db.borrowers, (b: Borrower) => HasIdentifier(data.borrowerIdentifier, b));
    if existing.None? {
      assert forall k :: k in db.borrowers ==> db.borrowers[k].borrowerIdentifier != data.borrowerIdentifier;
      assert db.nextId + 1 !in db.borrowers;
      return Ok((db.nextId + 1, data));
    }
    var id := existing.value;
    if db.borrowers[id].status == DeclineOpportunities {
      return Err(Skipped(OptedOut));
    }
    assert forall k :: k in db.borrowers && db.borrowers[k].borrowerIdentifier == data.borrowerIdentifier ==> k == id;
    r := Ok((id, Refreshed(db.borrowers[id], data)));
  }

  /** The key derived for a record's supplier and award, from the supplier's single registry record. */
  function RecordKey(doc: string, award: Award, entry: Colombia.Entry, src: Source): string
    requires |SupplierRegistry(src, entry, doc)| == 1
  {
    src.hash(Colombia.Get(SupplierRegistry(src, entry, doc)[0], "nit_entidad", "") + award.sourceContractId)
  }

  /**
   * A record whose supplier ingestion takes on: it builds an award whose
   * source contract is not stored, it names a supplier document for which
   * the source gives a borrower, and that supplier has not opted out.
   */
  ghost predicate SupplierEligible(awards: map<int, Award>, borrowers: map<int, Borrower>, entry: Colombia.Entry,
                                   src: Source)
  {
    && var d := Colombia.GetAward(entry, None, false, src.contracts, src.parseInstant);
    && d.Ok? && (forall k :: k in awards ==> awards[k].sourceContractId != d.value.sourceContractId)
    && Colombia.GetDocumentoProveedor(entry).Ok?
    && var doc := Colombia.GetDocumentoProveedor(entry).value;
    && Colombia.BorrowerAvailable(SupplierRegistry(src, entry, doc), src.emailRecords(doc), src.isValidEmail)
    && !DeclinedOpportunities(borrowers, src.hash(doc))
  }

  /**
   * Deciding the award and the borrower of one record, without storing
   * them: the award unless the record is skipped or its source contract is
   * already stored; the borrower built from the registry and e-mail records
   * of the supplier's document, refused when a stored borrower with the
   * same hashed document opted out, refreshed when one is stored, and new
   * (at the id after the award's) otherwise.
   */
  method ResolveSupplier(db: Database, entry: Colombia.Entry, src: Source) returns (r: Result<(Award, int, Borrower)>)
    requires db.Valid()
    ensures r.Ok? <==> SupplierEligible(db.awards, db.borrowers, entry, src)
    ensures Colombia.GetAward(entry, None, false, src.contracts, src.parseInstant).Err? ==>
      r == Err(Colombia.GetAward(entry, None, false, src.contracts, src.parseInstant).error)
    ensures var d := Colombia.GetAward(entry, None, false, src.contracts, src.parseInstant);
      d.Ok? && (exists k :: k in db.awards && db.awards[k].sourceContractId == d.value.sourceContractId)
      ==> r == Err(Skipped(AwardExists))
    ensures SupplierOptedOut(db.borrowers, entry, src) ==> r.Err?
    ensures r.Ok? ==>
      var (award, id, b) := r.value;
      && Colombia.GetAward(entry, None, false, src.contracts, src.parseInstant) == Ok(award)
      && BuiltFromSource(b, entry, src)
      && b.status == Active
      && (id in db.borrowers ==> db.borrowers[id].status == Active)
      && (id !in db.borrowers ==> id == db.nextId + 1)
      && (forall k :: k in db.borrowers && k != id ==> db.borrowers[k].borrowerIdentifier != b.borrowerIdentifier)
  {
    var d := NewAward(db, entry, src);
    if d.Err? {
      return Err(d.error);
    }
    var award := d.value;
    var documento := Colombia.GetDocumentoProveedor(entry);
    if documento.Err? {
      return Err(documento.error);
    }
    var identifier := src.hash(documento.value);
    var data := Colombia.GetBorrower(identifier, SupplierRegistry(src, entry, documento.value),
                                     src.emailRecords(documento.value), src.isValidEmail);
    if data.Err? {
      return Err(data.error);
    }
    var resolved := ResolveBorrower(db, data.value);
    if resolved.Err? {
      return Err(resolved.error);
    }
    var (borrowerId, borrower) := resolved.value;
    r := Ok((award, borrowerId, borrower));
  }

  /**
   * A record that ingestion turns into an invitation: it builds an award
   * whose source contract is not stored, it names a supplier document for
   * which the source gives a borrower, that supplier has not opted out, the
   * key and uuid derived for the pair are free, and the invitation is sent.
   */
  ghost predicate Eligible(awards: map<int, Award>, borrowers: map<int, Borrower>, apps: map<int, Application>,
                           entry: Colombia.Entry, src: Source)
  {
    && SupplierEligible(awards, borrowers, entry, src)
    && var d := Colombia.GetAward(entry, None, false, src.contracts, src.parseInstant);
    && var doc := Colombia.GetDocumentoProveedor(entry).value;
    && var key := RecordKey(doc, d.value, entry, src);
    && KeyFree(apps, key)
    && (forall k :: k in apps ==> apps[k].uuid != src.generateUuid(key))
    && !src.invitationFails(src.generateUuid(key))
  }

  /**
   * Deciding what one award record stores, without storing it: the award
   * unless the record is skipped or its source contract is already stored;
   * the borrower built from the registry and e-mail records of the
   * supplier's document, refused when a stored borrower with the same
   * hashed document opted out and refreshed otherwise; a pending
   * application unless its key or uuid is taken or its invitation fails.
   */
  method PrepareInvitation(db: Database, entry: Colombia.Entry, src: Source, now: Instant, s: Settings)
    returns (r: Result<Invitation>)
    requires db.Valid()
    ensures r.Ok? <==> Eligible(db.awards, db.borrowers, db.applications, entry, src)
    ensures Colombia.GetAward(entry, None, false, src.contracts, src.parseInstant).Err? ==>
      r == Err(Colombia.GetAward(entry, None, false, src.contracts, src.parseInstant).error)
    ensures var d := Colombia.GetAward(entry, None, false, src.contracts, src.parseInstant);
      d.Ok? && (exists k :: k in db.awards && db.awards[k].sourceContractId == d.value.sourceContractId)
      ==> r == Err(Skipped(AwardExists))
    ensures SupplierOptedOut(db.borrowers, entry, src) ==> r.Err?
    ensures r.Ok? ==> ReadyToInvite(db, r.value, src, now, s)
    ensures r.Ok? ==> Colombia.GetAward(entry, None, false, src.contracts, src.parseInstant) == Ok(r.value.award)
    ensures r.Ok? ==> BuiltFromSource(r.value.borrower, entry, src)
  {
    var supplier := ResolveSupplier(db, entry, src);
    if supplier.Err? {
      return Err(supplier.error);
    }
    var (award, borrowerId, borrower) := supplier.value;
    var key := src.hash(borrower.legalIdentifier + award.sourceContractId);
    var uuid := src.generateUuid(key);
    var taken := ApplicationTaken(db, key, uuid);
    if taken.Fail? {
      return Err(taken.error);
    }
    if src.invitationFails(uuid) {
      return Err(Crash);
    }
    var app := NewApplication(uuid, db.nextId, borrowerId, key, borrower.email, Pending, now)
      .(expiredAt := Some(now + s.applicationExpirationDays * SecondsPerDay));
    r := Ok(Invitation(award, borrower, app));
  }

  /**
   * Ingesting one award record, all or nothing: the award is stored unless
   * the record is skipped or its source contract is already stored; the
   * borrower is built from the registry and e-mail records of the
   * supplier's document, and a stored borrower with the same hashed
   * document is skipped when it opted out and refreshed otherwise; an
   * application already holding the key (or the uuid) derived for the pair
   * skips the record; a failing invitation e-mail rolls the record back;
   * otherwise a pending application is invited.
   */
  method CreateCompleteApplication(db: Database, entry: Colombia.Entry, src: Source, now: Instant, s: Settings)
    returns (r: Result<int>)
    requires db.Valid()
    modifies db`applications, db`borrowers, db`awards, db`messages, db`nextId
    ensures db.Valid()
    ensures r.Err? ==> unchanged(db)
    ensures r.Ok? <==> Eligible(old(db.awards), old(db.borrowers), old(db.applications), entry, src)
    ensures Colombia.GetAward(entry, None, false, src.contracts, src.parseInstant).Err? ==>
      r == Err(Colombia.GetAward(entry, None, false, src.contracts, src.parseInstant).error)
    ensures var d := Colombia.GetAward(entry, None, false, src.contracts, src.parseInstant);
      d.Ok? && (exists k :: k in old(db.awards) && old(db.awards)[k].sourceContractId == d.value.sourceContractId)
      ==> r == Err(Skipped(AwardExists))
    ensures SupplierOptedOut(old(db.borrowers), entry, src) ==> r.Err?
    ensures r.Ok? ==> Invited(old(db.applications), db.applications, db.borrowers, db.awards, r.value, src, now, s)
    ensures r.Ok? ==>
      var d := Colombia.GetAward(entry, None, false, src.contracts, src.parseInstant);
      var a := db.applications[r.value];
      && d.Ok? && a.awardId !in old(db.awards)
      && db.awards == old(db.awards)[a.awardId := d.value.(borrowerId := Some(a.borrowerId))]
    ensures r.Ok? ==> BuiltFromSource(db.borrowers[db.applications[r.value].borrowerId], entry, src)
    ensures r.Ok? ==> db.messages == old(db.messages) + [Message(r.value, BorrowerInvitation, "", None)]
    ensures IngestionKeeps(old(db.applications), old(db.borrowers), db.applications, db.borrowers)
  {
    var prepared := PrepareInvitation(db, entry, src, now, s);
    if prepared.Err? {
      IngestionKeepsNothing(db.applications, db.borrowers);
      return Err(prepared.error);
    }
    var v := prepared.value;
    var id := Invite(db, v.award, v.borrower, v.app, src, now, s);
    r := Ok(id);
  }

  /** Ingesting the same record twice: the second run finds the award stored and changes nothing. */
  method IngestTwice(db: Database, entry: Colombia.Entry, src: Source, now: Instant, s: Settings)
    returns (first: Result<int>, second: Result<int>)
    requires db.Valid()
    modifies db`applications, db`borrowers, db`awards, db`messages, db`nextId
    ensures first.Ok? ==> second == Err(Skipped(AwardExists))
    ensures forall k :: k in db.applications && k !in old(db.applications) ==> first == Ok(k) || second == Ok(k)
  {
    first := CreateCompleteApplication(db, entry, src, now, s);
    ghost var afterFirst := db.applications;
    second := CreateCompleteApplication(db, entry, src, now, s);
    if first.Ok? {
      var a := db.applications[first.value];
      assert db.awards[a.awardId].sourceContractId
        == Colombia.GetAward(entry, None, false, src.contracts, src.parseInstant).value.sourceContractId;
    }
  }

  // ---------------------------------------------------------------------
  // Fetching award records from the feed.

  /** A feed record carries the purchase process and the supplier document. */
  predicate WellFormedRecord(e: Colombia.Entry)
  {
    "id_del_portafolio" in e && "nit_del_proveedor_adjudicado" in e
  }

  /** The feed's answer for page `i`; every page past the last is empty. */
  function Page(pages: seq<seq<Colombia.Entry>>, i: nat): seq<Colombia.Entry>
  {
    if i < |pages| then pages[i] else []
  }

  /** The index of the first empty page at or after `i`: the number of pages a run reads. */
  function FirstEmpty(pages: seq<seq<Colombia.Entry>>, i: nat): (n: nat)
    ensures i <= n && Page(pages, n) == []
    ensures forall j :: i <= j < n ==> Page(pages, j) != []
    decreases |pages| - i
  {
    if i >= |pages| || pages[i] == [] then i else FirstEmpty(pages, i + 1)
  }

  /** The number of records in the first `n` pages. */
  function Fetched(pages: seq<seq<Colombia.Entry>>, n: nat): nat
  {
    if n == 0 then 0 else Fetched(pages, n - 1) + |Page(pages, n - 1)|
  }

  /** Every record of the page is well formed. */
  predicate WellFormedPage(page: seq<Colombia.Entry>)
  {
    forall k :: 0 <= k < |page| ==> WellFormedRecord(page[k])
  }

  /** Every record of the first `n` pages is well formed. */
  predicate WellFormedPages(pages: seq<seq<Colombia.Entry>>, n: nat)
  {
    forall j :: 0 <= j < n ==> WellFormedPage(Page(pages, j))
  }

  lemma {:induction false} WellFormedPagesNext(pages: seq<seq<Colombia.Entry>>, n: nat)
    requires WellFormedPages(pages, n) && WellFormedPage(Page(pages, n))
    ensures WellFormedPages(pages, n + 1)
  {
    forall j | 0 <= j < n + 1 ensures WellFormedPage(Page(pages, j)) {
      if j < n {
        assert WellFormedPages(pages, n);
      }
    }
  }

  /**
   * A run that has read `index` pages: none of them was empty, every record
   * in them was well formed, and `total` records were fetched.
   */
  ghost predicate ReadSoFar(pages: seq<seq<Colombia.Entry>>, index: nat, total: nat)
  {
    && total == Fetched(pages, index)
    && WellFormedPages(pages, index)
    && forall j :: 0 <= j < index ==> Page(pages, j) != []
  }

  lemma ReadNext(pages: seq<seq<Colombia.Entry>>, index: nat, total: nat)
    requires ReadSoFar(pages, index, total)
    requires Page(pages, index) != [] && WellFormedPage(Page(pages, index))
    ensures ReadSoFar(pages, index + 1, total + |Page(pages, index)|)
  {
    WellFormedPagesNext(pages, index);
  }

  /** A run that reaches an empty page has read every page before the first empty one. */
  lemma ReadDone(pages: seq<seq<Colombia.Entry>>, index: nat, total: nat)
    requires ReadSoFar(pages, index, total) && Page(pages, index) == []
    ensures index == FirstEmpty(pages, 0)
    ensures WellFormedPages(pages, FirstEmpty(pages, 0)) && total == Fetched(pages, FirstEmpty(pages, 0))
  {
  }

  /** A malformed record on a page before the first empty one makes the whole run malformed. */
  lemma ReadFails(pages: seq<seq<Colombia.Entry>>, index: nat, total: nat)
    requires ReadSoFar(pages, index, total)
    requires Page(pages, index) != [] && !WellFormedPage(Page(pages, index))
    ensures !WellFormedPages(pages, FirstEmpty(pages, 0))
  {
  }

  /** Ingesting one record, whatever its outcome, keeps what ingestion promises since the run began. */
  method IngestRecord(db: Database, entry: Colombia.Entry, src: Source, now: Instant, s: Settings,
                      ghost apps0: map<int, Application>, ghost borrowers0: map<int, Borrower>)
    requires db.Valid()
    requires IngestionKeeps(apps0, borrowers0, db.applications, db.borrowers)
    modifies db`applications, db`borrowers, db`awards, db`messages, db`nextId
    ensures db.Valid()
    ensures IngestionKeeps(apps0, borrowers0, db.applications, db.borrowers)
  {
    ghost var apps := db.applications;
    ghost var borrowers := db.borrowers;
    var _ := CreateCompleteApplication(db, entry, src, now, s);
    IngestionKeepsChains(apps0, borrowers0, apps, borrowers, db.applications, db.borrowers);
  }

  /**
   * Ingesting one page of the feed, record by record, each on its own: a
   * record missing the process or the supplier ends the run with the
   * earlier records kept; a record that is skipped or fails leaves nothing.
   * What ingestion keeps is stated relative to `apps0` and `borrowers0`,
   * the tables as the whole run found them.
   */
  method IngestPage(db: Database, page: seq<Colombia.Entry>, src: Source, now: Instant, s: Settings,
                    ghost apps0: map<int, Application>, ghost borrowers0: map<int, Borrower>)
    returns (r: Outcome)
    requires db.Valid()
    requires IngestionKeeps(apps0, borrowers0, db.applications, db.borrowers)
    modifies db`applications, db`borrowers, db`awards, db`messages, db`nextId
    ensures db.Valid()
    ensures r == Pass <==> WellFormedPage(page)
    ensures r.Fail? ==> r == Fail(SourceFormat)
    ensures IngestionKeeps(apps0, borrowers0, db.applications, db.borrowers)
  {
    var k := 0;
    while k < |page|
      invariant 0 <= k <= |page|
      invariant db.Valid()
      invariant forall j :: 0 <= j < k ==> WellFormedRecord(page[j])
      invariant IngestionKeeps(apps0, borrowers0, db.applications, db.borrowers)
    {
      if !WellFormedRecord(page[k]) {
        return Fail(SourceFormat);
      }
      IngestRecord(db, page[k], src, now, s, apps0, borrowers0);
      k := k + 1;
    }
    r := Pass;
  }

  /**
   * The start of the window a run fetches: the given date, or else the
   * latest source update among the stored awards, which is None when no
   * award is stored or one has no update time.
   */
  ghost predicate WindowStart(awards: map<int, Award>, fromDate: Option<Instant>, from: Option<Instant>)
  {
    if fromDate.Some? then from == fromDate
    else && (from.None? <==> awards.Keys == {} || SomeUndated(awards))
         && (from.Some? ==> NoneLater(awards, awards.Keys, from))
         && (from.Some? ==> exists id :: id in awards && awards[id].sourceLastUpdatedAt == from)
  }

  /** The requests of a run, in order, for the window starting at `from`. */
  ghost predicate RequestsFrom(queries: seq<Colombia.AwardsQuery>, from: Option<Instant>, untilDate: Option<Instant>,
                               now: Instant, s: Settings)
  {
    forall i :: 0 <= i < |queries| ==> queries[i] == Colombia.GetNewAwards(i, from, untilDate, now, s)
  }

  /** The first `n` requests of a run for the window starting at `from`. */
  ghost function Requests(n: nat, from: Option<Instant>, untilDate: Option<Instant>, now: Instant, s: Settings)
    : (queries: seq<Colombia.AwardsQuery>)
    ensures |queries| == n && RequestsFrom(queries, from, untilDate, now, s)
  {
    seq(n, i requires 0 <= i => Colombia.GetNewAwards(i, from, untilDate, now, s))
  }

  /** The two dates are not both set or both unset, or the window starts after it ends. */
  predicate BadDates(fromDate: Option<Instant>, untilDate: Option<Instant>)
  {
    || fromDate.Some? != untilDate.Some?
    || (fromDate.Some? && untilDate.Some? && fromDate.value > untilDate.value)
  }

  /**
   * Reading the feed from the given window start: pages are requested in
   * order until an empty one, every record is ingested on its own, and the
   * run reports how many records it fetched. A malformed record ends the
   * run with the earlier records kept. `pages[i]` is the feed's answer to
   * the run's request for page `i`, and `requested` counts the requests.
   */
  method FetchPages(db: Database, pages: seq<seq<Colombia.Entry>>, src: Source, now: Instant, s: Settings)
    returns (r: Result<nat>, ghost requested: nat)
    requires db.Valid()
    modifies db`applications, db`borrowers, db`awards, db`messages, db`nextId
    ensures db.Valid()
    ensures r.Err? <==> !WellFormedPages(pages, FirstEmpty(pages, 0))
    ensures r.Err? ==> r == Err(SourceFormat)
    ensures r.Ok? ==> r.value == Fetched(pages, FirstEmpty(pages, 0)) && requested == FirstEmpty(pages, 0) + 1
    ensures IngestionKeeps(old(db.applications), old(db.borrowers), db.applications, db.borrowers)
  {
    IngestionKeepsNothing(db.applications, db.borrowers);
    var index: nat := 0;
    var total: nat := 0;
    var page := Page(pages, index);
    while page != []
      invariant page == Page(pages, index)
      invariant ReadSoFar(pages, index, total)
      invariant db.Valid()
      invariant IngestionKeeps(old(db.applications), old(db.borrowers), db.applications, db.borrowers)
      decreases |pages| - index
    {
      var outcome := IngestPage(db, page, src, now, s, old(db.applications), old(db.borrowers));
      if outcome.Fail? {
        ReadFails(pages, index, total);
        return Err(SourceFormat), index + 1;
      }
      ReadNext(pages, index, total);
      total := total + |page|;
      index := index + 1;
      page := Page(pages, index);
    }
    ReadDone(pages, index, total);
    r := Ok(total);
    requested := index + 1;
  }

  /**
   * Fetching new awards: the dates must be both set (in order) or both
   * unset; without them the window starts at the latest source update
   * among the stored awards. Then the feed is read from that start.
   */
  method FetchAwards(db: Database, fromDate: Option<Instant>, untilDate: Option<Instant>,
                     pages: seq<seq<Colombia.Entry>>, src: Source, now: Instant, s: Settings)
    returns (r: Result<nat>, ghost queries: seq<Colombia.AwardsQuery>)
    requires db.Valid()
    modifies db`applications, db`borrowers, db`awards, db`messages, db`nextId
    ensures db.Valid()
    ensures BadDates(fromDate, untilDate) <==> r == Err(Usage)
    ensures r == Err(Usage) ==> unchanged(db)
    ensures !BadDates(fromDate, untilDate) ==>
      (r == Err(SourceFormat) <==> !WellFormedPages(pages, FirstEmpty(pages, 0)))
    ensures r.Ok? ==> r.value == Fetched(pages, FirstEmpty(pages, 0)) && |queries| == FirstEmpty(pages, 0) + 1
    ensures !BadDates(fromDate, untilDate) ==>
      exists from :: WindowStart(old(db.awards), fromDate, from) && RequestsFrom(queries, from, untilDate, now, s)
    ensures IngestionKeeps(old(db.applications), old(db.borrowers), db.applications, db.borrowers)
  {
    queries := [];
    if BadDates(fromDate, untilDate) {
      IngestionKeepsNothing(db.applications, db.borrowers);
      return Err(Usage), queries;
    }
    var from := fromDate;
    if from.None? {
      from := LastUpdated(db.awards);
    }
    assert WindowStart(old(db.awards), fromDate, from);
    ghost var requested;
    r, requested := FetchPages(db, pages, src, now, s);
    queries := Requests(requested, from, untilDate, now, s);
  }

  /**
   * Fetching one award by its id and supplier: an empty answer creates
   * nothing; otherwise the first record is ingested as the feed's records
   * are.
   */
  method FetchAwardByIdAndSupplier(db: Database, response: seq<Colombia.Entry>, src: Source, now: Instant,
                                   s: Settings) returns (r: Option<Result<int>>)
    requires db.Valid()
    modifies db`applications, db`borrowers, db`awards, db`messages, db`nextId
    ensures db.Valid()
    ensures response == [] <==> r.None?
    ensures r.None? || r.value.Err? ==> unchanged(db)
    ensures r.Some? && r.value.Ok? ==>
      Invited(old(db.applications), db.applications, db.borrowers, db.awards, r.value.value, src, now, s)
      && BuiltFromSource(db.borrowers[db.applications[r.value.value].borrowerId], response[0], src)
    ensures response != [] && SupplierOptedOut(old(db.borrowers), response[0], src) ==> r.Some? && r.value.Err?
    ensures IngestionKeeps(old(db.applications), old(db.borrowers), db.applications, db.borrowers)
  {
    if response == [] {
      IngestionKeepsNothing(db.applications, db.borrowers);
      return None;
    }
    var created := CreateCompleteApplication(db, response[0], src, now, s);
    r := Some(created);
  }
}
