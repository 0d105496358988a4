/**
 * Helpers the staff-facing endpoints share: the status and expiry checks,
 * toggling the verification flag of a borrower data field, the guarded
 * updates of an application's borrower and award, and the paginated
 * application listings.
 */
module ApplicationUtils {
  import opened Base
  import opened Models
  import GeneralUtils

  /** Statuses hidden from the application listings. */
  const ExcludedStatuses: set<ApplicationStatus> := {Rejected, Lapsed, Declined}

  /** Statuses in which an OCP user may edit an application's borrower or award. */
  const OcpCanModify: set<ApplicationStatus> := {Accepted, Submitted, InformationRequested}

  /** Borrower data fields whose verification a lender can toggle. */
  const ValidSecopFields: set<string> :=
    {"borrower_identifier", "legal_name", "email", "address", "legal_identifier", "type", "source_data"}

  /** 409 unless the application is in exactly the expected status. */
  function CheckApplicationStatus(app: Application, expected: ApplicationStatus): (r: Outcome)
    ensures r == Pass <==> app.status == expected
    ensures r.Fail? ==> r.error == Http(Conflict)
  {
    if app.status != expected then Fail(Http(Conflict)) else Pass
  }

  /** 409 unless the application is in one of the expected statuses. */
  function CheckApplicationInStatus(app: Application, expected: seq<ApplicationStatus>): (r: Outcome)
    ensures r == Pass <==> app.status in expected
    ensures r.Fail? ==> r.error == Http(Conflict)
  {
    if app.status !in expected then Fail(Http(Conflict)) else Pass
  }

  /** 409 when the invitation has an expiry that is already past. */
  function CheckIsApplicationExpired(app: Application, now: Instant): (r: Outcome)
    ensures r == Pass <==> app.expiredAt.None? || app.expiredAt.value >= now
    ensures r.Fail? ==> r.error == Http(Conflict)
  {
    if app.expiredAt.None? then Pass
    else if app.expiredAt.value < now then Fail(Http(Conflict))
    else Pass
  }

  /** 401 unless the user belongs to the application's lender. */
  function CheckFiUserPermission(app: Application, user: User): (r: Outcome)
    ensures r == Pass <==> user.lenderId == app.lenderId
    ensures r.Fail? ==> r.error == Http(Unauthorized)
  {
    if app.lenderId != user.lenderId then Fail(Http(Unauthorized)) else Pass
  }

  /**
   * What `update_data_field` receives as its field: a field name, or the
   * whole request payload, which is what the data-validation endpoint
   * passes.
   */
  datatype FieldArgument = FieldName(name: string) | PayloadObject(payload: map<string, Value>)

  /** The argument equals one of the known field names; a payload object equals no name. */
  predicate IsSecopField(field: FieldArgument)
  {
    field.FieldName? && field.name in ValidSecopFields
  }

  /**
   * Toggling the verification flag of one borrower data field: an argument
   * that is not one of the known field names is refused with 422, a field
   * with no flag yet fails with a key error, and otherwise only that flag
   * flips.
   */
  function UpdateDataField(verification: map<string, bool>, field: FieldArgument): (r: Result<map<string, bool>>)
    ensures !IsSecopField(field) ==> r == Err(Http(Unprocessable))
    ensures IsSecopField(field) && field.name !in verification ==> r == Err(KeyError)
    ensures r.Ok? <==> IsSecopField(field) && field.name in verification
    ensures r.Ok? ==> r.value.Keys == verification.Keys && r.value[field.name] == !verification[field.name]
    ensures r.Ok? ==> forall k :: k in verification && k != field.name ==> r.value[k] == verification[k]
  {
    if !IsSecopField(field) then Err(Http(Unprocessable))
    else if field.name !in verification then Err(KeyError)
    else Ok(verification[field.name := !verification[field.name]])
  }

  /** Toggling the same field twice restores the flags. */
  lemma UpdateDataFieldTwice(verification: map<string, bool>, field: string)
    requires UpdateDataField(verification, FieldName(field)).Ok?
    ensures UpdateDataField(UpdateDataField(verification, FieldName(field)).value, FieldName(field)) == Ok(verification)
  {
    var once := UpdateDataField(verification, FieldName(field)).value;
    assert once[field := !once[field]] == verification;
  }

  /**
   * Passing the request payload where a field name is expected: whatever
   * the payload and the flags, the call is refused with 422, while the same
   * flags accept a known field name that has a flag.
   */
  lemma PayloadNeverAField(verification: map<string, bool>, payload: map<string, Value>)
    requires "email" in verification
    ensures UpdateDataField(verification, PayloadObject(payload)) == Err(Http(Unprocessable))
    ensures UpdateDataField(verification, FieldName("email")).Ok?
  {
  }

  /**
   * The guard before editing an application's borrower or award: the
   * application and the related row must exist (404), an approved
   * application cannot be edited (409), and an OCP user may edit only in
   * the statuses OcpCanModify lists (409).
   */
  function CheckCanUpdateRelated(app: Option<Application>, relatedExists: bool, user: User): (r: Outcome)
    ensures r == Pass <==>
      app.Some? && relatedExists && app.value.status != Approved && (IsOcp(user) ==> app.value.status in OcpCanModify)
    ensures app.None? || !relatedExists ==> r == Fail(Http(NotFound))
    ensures r.Fail? && app.Some? && relatedExists ==> r == Fail(Http(Conflict))
  {
    if app.None? || !relatedExists then Fail(Http(NotFound))
    else if app.value.status == Approved then Fail(Http(Conflict))
    else if IsOcp(user) && app.value.status !in OcpCanModify then Fail(Http(Conflict))
    else Pass
  }

  /**
   * Editing the borrower of an application: after the guard, every
   * payload field is written onto the borrower instance `borrower`.
   */
  method UpdateApplicationBorrower(db: Database, id: int, payload: seq<(string, Value)>, user: User,
                                   borrower: Record) returns (r: Outcome)
    modifies borrower
    ensures var app := if id in db.applications then Some(db.applications[id]) else None;
      var guard := CheckCanUpdateRelated(app, app.Some? && app.value.borrowerId in db.borrowers, user);
      && r == guard
      && (r == Pass ==> borrower.attrs == old(borrower.attrs) + GeneralUtils.Assigned(payload))
      && (r != Pass ==> borrower.attrs == old(borrower.attrs))
    ensures borrower.missingData == old(borrower.missingData)
  {
    var app := if id in db.applications then Some(db.applications[id]) else None;
    r := CheckCanUpdateRelated(app, app.Some? && app.value.borrowerId in db.borrowers, user);
    if r == Pass {
      GeneralUtils.UpdateModels(payload, borrower);
    }
  }

  /**
   * Editing the award of an application: after the guard, only the fields
   * the award records as missing may be written, in payload order.
   */
  method UpdateApplicationAward(db: Database, id: int, payload: seq<(string, Value)>, user: User,
                                award: Record) returns (r: Outcome)
    modifies award
    ensures var app := if id in db.applications then Some(db.applications[id]) else None;
      var guard := CheckCanUpdateRelated(app, app.Some? && app.value.awardId in db.awards, user);
      var k := GeneralUtils.FirstLocked(payload, old(award.missingData));
      && (guard != Pass ==> r == guard && award.attrs == old(award.attrs))
      && (guard == Pass ==> award.attrs == old(award.attrs) + GeneralUtils.Assigned(payload[..k]))
      && (guard == Pass ==> (r == Pass <==> k == |payload|))
    ensures award.missingData == old(award.missingData)
  {
    var app := if id in db.applications then Some(db.applications[id]) else None;
    r := CheckCanUpdateRelated(app, app.Some? && app.value.awardId in db.awards, user);
    if r == Pass {
      r := GeneralUtils.UpdateModelsWithValidation(payload, award);
    }
  }

  // ---------------------------------------------------------------------
  // Listings.

  /** The application is shown in a listing, optionally restricted to one lender. */
  predicate Listed(a: Application, lender: Option<Option<int>>)
  {
    && a.status !in ExcludedStatuses
    && (lender.Some? ==> a.lenderId == lender.value)
  }

  /**
   * The listed applications in the listing's sort order. `order` is every
   * application id in that order (the sort key itself is not modelled).
   * A lender restriction with no lender matches the applications with no
   * lender, as the query layer turns an equality with None into IS NULL.
   */
  function ListedIds(apps: map<int, Application>, order: seq<int>, lender: Option<Option<int>>): (r: seq<int>)
    ensures |r| <= |order|
    ensures forall id :: id in r <==> id in order && id in apps && Listed(apps[id], lender)
    ensures Distinct(order) ==> Distinct(r)
  {
    if order == [] then []
    else
      var rest := ListedIds(apps, order[1..], lender);
      if order[0] in apps && Listed(apps[order[0]], lender) then [order[0]] + rest else rest
  }

  /** The stored applications a listing shows. */
  ghost function ListedSet(apps: map<int, Application>, lender: Option<Option<int>>): set<int>
  {
    set id | id in apps && Listed(apps[id], lender)
  }

  /** A sequence without repetitions is as long as the set of its elements. */
  lemma {:induction false} DistinctLength(s: seq<int>)
    requires Distinct(s)
    ensures |set x | x in s| == |s|
  {
    if s != [] {
      assert Distinct(s[1..]);
      DistinctLength(s[1..]);
      assert (set x | x in s) == (set x | x in s[1..]) + {s[0]};
      assert s[0] !in s[1..];
    }
  }

  /** When `order` lists every stored application once, the listing holds each shown application once. */
  lemma ListedCount(apps: map<int, Application>, order: seq<int>, lender: Option<Option<int>>)
    requires Enumerates(order, apps.Keys)
    ensures |ListedIds(apps, order, lender)| == |ListedSet(apps, lender)|
  {
    var r := ListedIds(apps, order, lender);
    DistinctLength(r);
    forall x ensures x in (set y | y in r) <==> x in ListedSet(apps, lender) {
      if x in apps {
        assert x in order;
      }
    }
    assert (set x | x in r) == ListedSet(apps, lender);
  }

  datatype ApplicationList = ApplicationList(items: seq<int>, count: nat, page: nat, pageSize: nat)

  /** One page of a listing and the listing's total size. */
  function Paginate(ids: seq<int>, page: nat, pageSize: nat): (r: ApplicationList)
    ensures r.count == |ids| && r.page == page && r.pageSize == pageSize
    ensures |r.items| <= pageSize
    ensures forall i :: 0 <= i < |r.items| ==> page * pageSize + i < |ids| && r.items[i] == ids[page * pageSize + i]
    ensures page * pageSize + pageSize <= |ids| ==> |r.items| == pageSize
    ensures page * pageSize < |ids| ==> |r.items| > 0 || pageSize == 0
    ensures Distinct(ids) ==> Distinct(r.items)
  {
    var offset := page * pageSize;
    var items := if offset >= |ids| then [] else ids[offset..if offset + pageSize <= |ids| then offset + pageSize else |ids|];
    ApplicationList(items, |ids|, page, pageSize)
  }

  /** A page of a listing over an enumeration of the stored applications. */
  lemma ListedPage(apps: map<int, Application>, order: seq<int>, lender: Option<Option<int>>, page: nat, pageSize: nat)
    requires Enumerates(order, apps.Keys)
    ensures var r := Paginate(ListedIds(apps, order, lender), page, pageSize);
      && r.count == |ListedSet(apps, lender)|
      && (forall i :: 0 <= i < |r.items| ==> r.items[i] in apps && Listed(apps[r.items[i]], lender))
      && Distinct(r.items) && |r.items| <= pageSize
  {
    ListedCount(apps, order, lender);
    var ids := ListedIds(apps, order, lender);
    var r := Paginate(ids, page, pageSize);
    forall i | 0 <= i < |r.items| ensures r.items[i] in apps && Listed(apps[r.items[i]], lender) {
      assert r.items[i] in ids;
    }
  }

  /**
   * Every non-excluded application, one page of them, with the total
   * number of non-excluded applications. `order` lists every stored
   * application once, in the listing's sort order.
   */
  function GetAllActiveApplications(apps: map<int, Application>, order: seq<int>, page: nat, pageSize: nat)
    : (r: ApplicationList)
    requires Enumerates(order, apps.Keys)
    ensures r.count == |ListedSet(apps, None)|
    ensures forall i :: 0 <= i < |r.items| ==> r.items[i] in apps && apps[r.items[i]].status !in ExcludedStatuses
    ensures Distinct(r.items) && |r.items| <= pageSize
  {
    ListedPage(apps, order, None, page, pageSize);
    Paginate(ListedIds(apps, order, None), page, pageSize)
  }

  /**
   * The lender's non-excluded applications, one page of them, with the
   * total number of them. `order` lists every stored application once, in
   * the listing's sort order.
   */
  function GetAllFiUserApplications(apps: map<int, Application>, order: seq<int>, page: nat, pageSize: nat,
                                    lenderId: Option<int>): (r: ApplicationList)
    requires Enumerates(order, apps.Keys)
    ensures r.count == |ListedSet(apps, Some(lenderId))|
    ensures forall i :: 0 <= i < |r.items| ==>
      r.items[i] in apps && apps[r.items[i]].status !in ExcludedStatuses && apps[r.items[i]].lenderId == lenderId
    ensures Distinct(r.items) && |r.items| <= pageSize
  {
    ListedPage(apps, order, Some(lenderId), page, pageSize);
    Paginate(ListedIds(apps, order, Some(lenderId)), page, pageSize)
  }
}
