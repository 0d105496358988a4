/**
 * Request guards: who may act on an application, whether its invitation
 * is still open, and whether it is in a status the action accepts.
 */
module Dependencies {
  import opened Base
  import opened Models

  /** A role an endpoint accepts; `OtherRole` is any value that is neither user type. */
  datatype Role = OcpRole | FiRole | OtherRole

  datatype Scope = Unexpired

  /** The user satisfies the role for this application. */
  predicate Grants(role: Role, app: Application, user: User)
  {
    match role
    case OcpRole => IsOcp(user)
    case FiRole => user.lenderId == app.lenderId
    case OtherRole => false
  }

  /**
   * Staff-only endpoints: the caller must be authenticated, known and an
   * OCP user; then the endpoint's own result is returned.
   */
  function OcpOnly<T>(currentUser: string, user: Option<User>, endpoint: Result<T>): (r: Result<T>)
    ensures currentUser != "" && user.Some? && IsOcp(user.value) ==> r == endpoint
    ensures !(currentUser != "" && user.Some? && IsOcp(user.value)) ==> r == Err(Http(Unauthorized))
  {
    if currentUser == "" then Err(Http(Unauthorized))
    else if user.Some? && IsOcp(user.value) then endpoint
    else Err(Http(Unauthorized))
  }

  /**
   * Trying the listed roles in order: the first role the user satisfies
   * lets the request through; a role that is neither user type stops it;
   * running out of roles forbids it. Checking a user-type role needs a user.
   */
  function CheckRoles(app: Application, user: Option<User>, roles: seq<Role>): (r: Outcome)
    ensures r == Pass <==>
      user.Some? && exists i :: 0 <= i < |roles| && Grants(roles[i], app, user.value) && OtherRole !in roles[..i]
    ensures r == Fail(Http(Forbidden)) <==>
      (roles == [] || user.Some?) && OtherRole !in roles &&
      forall i :: 0 <= i < |roles| ==> !Grants(roles[i], app, user.value)
    ensures r in {Pass, Fail(Http(Forbidden)), Fail(NotImplemented), Fail(Crash)}
  {
    if roles == [] then Fail(Http(Forbidden))
    else if roles[0] == OtherRole then Fail(NotImplemented)
    else if user.None? then Fail(Crash)
    else if Grants(roles[0], app, user.value) then Pass
    else
      var rest := CheckRoles(app, user, roles[1..]);
      assert forall i :: 1 <= i <= |roles| ==> roles[1..][..i - 1] == roles[1..i];
      assert forall i :: 0 < i < |roles| ==> roles[..i] == [roles[0]] + roles[1..][..i - 1];
      rest
  }

  /** The invitation has expired: it has an expiry and the expiry is past. */
  predicate Expired(app: Application, now: Instant)
  {
    app.expiredAt.Some? && app.expiredAt.value < now
  }

  /**
   * The authorization guard: roles first (when any are listed), then the
   * invitation's expiry (when that scope is asked for), then the status
   * (when statuses are listed).
   */
  function RaiseIfUnauthorized(app: Application, user: Option<User>, roles: seq<Role>, scopes: set<Scope>,
                               statuses: seq<ApplicationStatus>, now: Instant): (r: Outcome)
    ensures r == Pass <==>
      && (roles == [] || CheckRoles(app, user, roles) == Pass)
      && !(Unexpired in scopes && Expired(app, now))
      && (statuses == [] || app.status in statuses)
    ensures roles != [] && CheckRoles(app, user, roles) != Pass ==> r == CheckRoles(app, user, roles)
    ensures r.Fail? && (roles == [] || CheckRoles(app, user, roles) == Pass) ==> r == Fail(Http(Conflict))
  {
    if roles != [] && CheckRoles(app, user, roles) != Pass then CheckRoles(app, user, roles)
    else if Unexpired in scopes && Expired(app, now) then Fail(Http(Conflict))
    else if statuses != [] && app.status !in statuses then Fail(Http(Conflict))
    else Pass
  }

  /**
   * Looking an application up by its uuid for a borrower: not found is 404,
   * a lapsed application is 409.
   */
  method GetApplicationAsGuestViaUuid(db: Database, uuid: string) returns (r: Result<int>)
    requires db.Valid()
    ensures r.Ok? ==> r.value in db.applications && db.applications[r.value].uuid == uuid
    ensures r.Ok? ==> db.applications[r.value].status != Lapsed
    ensures r == Err(Http(NotFound)) <==> forall id :: id in db.applications ==> db.applications[id].uuid != uuid
    ensures r == Err(Http(Conflict)) <==>
      exists id :: id in db.applications && db.applications[id].uuid == uuid && db.applications[id].status == Lapsed
    ensures r.Ok? || r == Err(Http(NotFound)) || r == Err(Http(Conflict))
  {
    var found := FindByUuid(db, uuid);
    if found.None? {
      return Err(Http(NotFound));
    }
    if db.applications[found.value].status == Lapsed {
      ghost var id := found.value;
      assert id in db.applications && db.applications[id].uuid == uuid && db.applications[id].status == Lapsed;
      return Err(Http(Conflict));
    }
    assert UuidsUnique(db.applications);
    assert forall id :: id in db.applications && db.applications[id].uuid == uuid ==> id == found.value;
    r := Ok(found.value);
  }

  /** The application carrying this uuid, if any (uuids are unique). */
  method FindByUuid(db: Database, uuid: string) returns (r: Option<int>)
    requires db.Valid()
    ensures r.Some? ==> r.value in db.applications && db.applications[r.value].uuid == uuid
    ensures r.None? <==> forall id :: id in db.applications ==> db.applications[id].uuid != uuid
  {
    var apps := db.applications;
    var todo := apps.Keys;
    while |todo| > 0
      invariant todo <= apps.Keys
      invariant forall id :: id in apps && id !in todo ==> apps[id].uuid != uuid
      decreases |todo|
    {
      var id := Pick(todo);
      if apps[id].uuid == uuid {
        return Some(id);
      }
      todo := todo - {id};
    }
    r := None;
  }

  /**
   * What a borrower-facing endpoint's lookup answers: 404 for an unknown
   * uuid, 409 for a lapsed application, then the guard with no roles and
   * the endpoint's scopes and statuses.
   */
  ghost function GuestLookup(apps: map<int, Application>, uuid: string, scopes: set<Scope>,
                             statuses: seq<ApplicationStatus>, now: Instant): Result<int>
  {
    if forall id :: id in apps ==> apps[id].uuid != uuid then Err(Http(NotFound))
    else
      var id :| id in apps && apps[id].uuid == uuid;
      if apps[id].status == Lapsed then Err(Http(Conflict))
      else match RaiseIfUnauthorized(apps[id], None, [], scopes, statuses, now)
        case Pass => Ok(id)
        case Fail(e) => Err(e)
  }

  /**
   * Once the application carrying a uuid is in a status the endpoint does
   * not accept, the lookup refuses it with 409.
   */
  lemma LookupRefusesStatus(apps: map<int, Application>, id: int, scopes: set<Scope>,
                            statuses: seq<ApplicationStatus>, now: Instant)
    requires UuidsUnique(apps) && id in apps
    requires statuses != [] && apps[id].status !in statuses
    ensures GuestLookup(apps, apps[id].uuid, scopes, statuses, now) == Err(Http(Conflict))
  {
    LookupAt(apps, id, scopes, statuses, now);
  }

  /** With unique uuids, the lookup of an application's uuid is about that application. */
  lemma LookupAt(apps: map<int, Application>, id: int, scopes: set<Scope>, statuses: seq<ApplicationStatus>,
                 now: Instant)
    requires UuidsUnique(apps) && id in apps
    ensures GuestLookup(apps, apps[id].uuid, scopes, statuses, now) ==
      if apps[id].status == Lapsed then Err(Http(Conflict))
      else if RaiseIfUnauthorized(apps[id], None, [], scopes, statuses, now) == Pass then Ok(id)
      else Err(RaiseIfUnauthorized(apps[id], None, [], scopes, statuses, now).error)
  {
    var uuid := apps[id].uuid;
    var k :| k in apps && apps[k].uuid == uuid;
    assert k == id;
  }

  /**
   * A borrower-facing endpoint's lookup: the uuid lookup followed by the
   * guard with no roles, the requested scopes and statuses.
   */
  method GetScopedApplicationAsGuest(db: Database, uuid: string, scopes: set<Scope>,
                                     statuses: seq<ApplicationStatus>, now: Instant) returns (r: Result<int>)
    requires db.Valid()
    ensures r.Ok? ==> r.value in db.applications && db.applications[r.value].uuid == uuid
    ensures r.Ok? ==> db.applications[r.value].status != Lapsed
    ensures r.Ok? ==> RaiseIfUnauthorized(db.applications[r.value], None, [], scopes, statuses, now) == Pass
    ensures r.Ok? ==> statuses == [] || db.applications[r.value].status in statuses
    ensures r.Ok? ==> !(Unexpired in scopes && Expired(db.applications[r.value], now))
    ensures (forall id :: id in db.applications ==> db.applications[id].uuid != uuid) ==> r == Err(Http(NotFound))
    ensures r == GuestLookup(db.applications, uuid, scopes, statuses, now)
  {
    r := GetApplicationAsGuestViaUuid(db, uuid);
    if r.Ok? {
      LookupAt(db.applications, r.value, scopes, statuses, now);
    } else if r == Err(Http(Conflict)) {
      ghost var id :| id in db.applications && db.applications[id].uuid == uuid && db.applications[id].status == Lapsed;
      LookupAt(db.applications, id, scopes, statuses, now);
    }
    if r.Ok? {
      var outcome := RaiseIfUnauthorized(db.applications[r.value], None, [], scopes, statuses, now);
      if outcome.Fail? {
        r := Err(outcome.error);
      }
    }
  }
}
