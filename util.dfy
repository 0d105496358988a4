/**
 * Shared helpers: upload validation, the latest change per field of an
 * application's borrower and award, storing awards built from source
 * records, and keeping one document per application and document type.
 */
module Util {
  import opened Base
  import opened Models
  import Text
  import Colombia

  // ---------------------------------------------------------------------
  // Upload validation.

  const AllowedExtensions: set<string> := {".png", ".pdf", ".jpeg", ".jpg", ".zip"}

  /** The position of the last `c` in `s`. */
  function LastIndex(s: string, c: char): (r: Option<nat>)
    ensures r.Some? ==> r.value < |s| && s[r.value] == c && forall i :: r.value < i < |s| ==> s[i] != c
    ensures r.None? ==> forall i :: 0 <= i < |s| ==> s[i] != c
  {
    if s == [] then None
    else if s[|s| - 1] == c then Some(|s| - 1)
    else LastIndex(s[..|s| - 1], c)
  }

  /**
   * The extension of a path, as splitting off a path's extension gives it:
   * from the last dot of the last path component, provided that component
   * has something other than dots before it; otherwise empty.
   */
  function Extension(path: string): (r: string)
    ensures r == [] || (r[0] == '.' && |r| <= |path| && path[|path| - |r|..] == r)
    ensures forall i :: 0 < i < |r| ==> r[i] != '.' && r[i] != '/'
  {
    var dot := LastIndex(path, '.');
    var sep: int := if LastIndex(path, '/').Some? then LastIndex(path, '/').value else -1;
    if dot.Some? && dot.value > sep && exists i :: sep < i < dot.value && path[i] != '.' then path[dot.value..]
    else ""
  }

  /**
   * The extension of a file name made of a stem and a suffix is that
   * suffix, when the stem is a plain name that is not all dots.
   */
  lemma ExtensionOfJoined(stem: string, suffix: string)
    requires forall i :: 0 <= i < |stem| ==> stem[i] != '/'
    requires exists i :: 0 <= i < |stem| && stem[i] != '.'
    requires |suffix| > 0 && suffix[0] == '.'
    requires forall i :: 0 < i < |suffix| ==> suffix[i] != '.' && suffix[i] != '/'
    ensures Extension(stem + suffix) == suffix
  {
    var path := stem + suffix;
    assert path[|stem|] == '.';
    assert LastIndex(path, '.') == Some(|stem|);
    assert LastIndex(path, '/').None?;
    var i :| 0 <= i < |stem| && stem[i] != '.';
    assert path[i] != '.';
    assert path[|stem|..] == suffix;
  }

  /** The upload size limit in bytes. */
  function MaxFileSize(s: Settings): int
  {
    s.maxFileSizeMb * 1024 * 1024
  }

  /**
   * Checking an upload: its lower-cased extension must be an allowed one
   * (422), then its content must be below the size limit (413); a file of
   * exactly the limit is refused.
   */
  function ValidateFile(filename: string, content: seq<bv8>, s: Settings): (r: Result<(seq<bv8>, string)>)
    ensures Text.Lower(Extension(filename)) !in AllowedExtensions ==> r == Err(Http(Unprocessable))
    ensures Text.Lower(Extension(filename)) in AllowedExtensions && |content| >= MaxFileSize(s) ==>
      r == Err(Http(PayloadTooLarge))
    ensures r.Ok? <==> Text.Lower(Extension(filename)) in AllowedExtensions && |content| < MaxFileSize(s)
    ensures r.Ok? ==> r.value == (content, filename)
  {
    if Text.Lower(Extension(filename)) !in AllowedExtensions then Err(Http(Unprocessable))
    else if |content| >= MaxFileSize(s) then Err(Http(PayloadTooLarge))
    else Ok((content, filename))
  }

  // ---------------------------------------------------------------------
  // The latest change per field.

  /** Who last changed a field and when. */
  datatype FieldChange = FieldChange(modifiedAt: Instant, userName: string, userType: UserType)

  /** The action is a data update of this kind for the application, touching `key`. */
  predicate Touches(a: Action, id: int, kind: ActionType, key: string)
  {
    a.applicationId == id && a.kind == kind && key in a.data
  }

  predicate IsDataUpdate(kind: ActionType)
  {
    kind == AwardUpdate || kind == BorrowerUpdate
  }

  /** The application's award and borrower updates were recorded by staff users. */
  predicate RecordedByStaff(actions: seq<Action>, id: int)
  {
    forall i :: 0 <= i < |actions| && actions[i].applicationId == id && IsDataUpdate(actions[i].kind) ==>
      actions[i].actor.Staff?
  }

  function ChangeOf(a: Action): FieldChange
    requires a.actor.Staff?
  {
    FieldChange(a.createdAt, a.actor.user.name, a.actor.user.kind)
  }

  /**
   * The change the scan over the first `n` actions keeps for one field: a
   * later action touching the field replaces the kept one only if it is
   * strictly newer.
   */
  function Best(actions: seq<Action>, n: nat, id: int, kind: ActionType, key: string): Option<FieldChange>
    requires n <= |actions| && RecordedByStaff(actions, id) && IsDataUpdate(kind)
  {
    if n == 0 then None
    else
      var prev := Best(actions, n - 1, id, kind, key);
      var a := actions[n - 1];
      if Touches(a, id, kind, key) && (prev.None? || a.createdAt > prev.value.modifiedAt) then Some(ChangeOf(a))
      else prev
  }

  /**
   * Among the first `n` actions, action `w` touches the field, none
   * touching it is newer, and every earlier one touching it is strictly
   * older.
   */
  ghost predicate LatestAt(actions: seq<Action>, n: nat, id: int, kind: ActionType, key: string, w: int)
    requires n <= |actions|
  {
    && 0 <= w < n && Touches(actions[w], id, kind, key)
    && (forall i :: 0 <= i < n && Touches(actions[i], id, kind, key) ==> actions[i].createdAt <= actions[w].createdAt)
    && (forall i :: 0 <= i < w && Touches(actions[i], id, kind, key) ==> actions[i].createdAt < actions[w].createdAt)
  }

  /** No change is kept for a field exactly when no action touches it. */
  lemma {:induction false} BestNoneIffUntouched(actions: seq<Action>, n: nat, id: int, kind: ActionType, key: string)
    requires n <= |actions| && RecordedByStaff(actions, id) && IsDataUpdate(kind)
    ensures Best(actions, n, id, kind, key).None? <==> forall i :: 0 <= i < n ==> !Touches(actions[i], id, kind, key)
  {
    if n > 0 {
      BestNoneIffUntouched(actions, n - 1, id, kind, key);
    }
  }

  /** The kept change is that of the earliest of the newest actions touching the field. */
  lemma {:induction false} BestIsLatest(actions: seq<Action>, n: nat, id: int, kind: ActionType, key: string)
    requires n <= |actions| && RecordedByStaff(actions, id) && IsDataUpdate(kind)
    requires Best(actions, n, id, kind, key).Some?
    ensures exists w :: LatestAt(actions, n, id, kind, key, w) && Best(actions, n, id, kind, key).value == ChangeOf(actions[w])
  {
    var a := actions[n - 1];
    var prev := Best(actions, n - 1, id, kind, key);
    if prev.None? {
      BestNoneIffUntouched(actions, n - 1, id, kind, key);
      assert LatestAt(actions, n, id, kind, key, n - 1);
    } else {
      BestIsLatest(actions, n - 1, id, kind, key);
      var w :| LatestAt(actions, n - 1, id, kind, key, w) && prev.value == ChangeOf(actions[w]);
      if Touches(a, id, kind, key) && a.createdAt > prev.value.modifiedAt {
        assert LatestAt(actions, n, id, kind, key, n - 1);
      } else {
        assert LatestAt(actions, n, id, kind, key, w);
      }
    }
  }

  /** Folding one action's fields into the kept changes. */
  method MergeChanges(kept: map<string, FieldChange>, a: Action) returns (r: map<string, FieldChange>)
    requires a.actor.Staff?
    ensures forall k :: k in r <==> k in kept || k in a.data
    ensures forall k :: k in r ==>
      r[k] == if k in a.data && (k !in kept || a.createdAt > kept[k].modifiedAt) then ChangeOf(a) else kept[k]
  {
    r := kept;
    var todo := a.data.Keys;
    while |todo| > 0
      invariant todo <= a.data.Keys
      invariant forall k :: k in r <==> k in kept || (k in a.data && k !in todo)
      invariant forall k :: k in r ==>
        r[k] == if k in a.data && k !in todo && (k !in kept || a.createdAt > kept[k].modifiedAt)
                then ChangeOf(a) else kept[k]
      decreases |todo|
    {
      var k := Pick(todo);
      if k !in r || a.createdAt > r[k].modifiedAt {
        r := r[k := ChangeOf(a)];
      }
      todo := todo - {k};
    }
  }

  /** `kept` holds, for every field, the change the scan over the first `n` actions keeps. */
  ghost predicate KeptAfter(kept: map<string, FieldChange>, actions: seq<Action>, n: nat, id: int, kind: ActionType)
    requires n <= |actions| && RecordedByStaff(actions, id) && IsDataUpdate(kind)
  {
    && (forall k :: k in kept <==> Best(actions, n, id, kind, k).Some?)
    && (forall k :: k in kept ==> kept[k] == Best(actions, n, id, kind, k).value)
  }

  /** Scanning action `n`: its fields are folded in when it is an update of this kind for the application. */
  method ScanAction(kept: map<string, FieldChange>, actions: seq<Action>, n: nat, id: int, kind: ActionType)
    returns (r: map<string, FieldChange>)
    requires n < |actions| && RecordedByStaff(actions, id) && IsDataUpdate(kind)
    requires KeptAfter(kept, actions, n, id, kind)
    ensures KeptAfter(r, actions, n + 1, id, kind)
  {
    var a := actions[n];
    if a.applicationId == id && a.kind == kind {
      r := MergeChanges(kept, a);
    } else {
      r := kept;
    }
  }

  /**
   * The latest change of every award field and every borrower field an
   * application's update actions touched, scanning the log in order.
   */
  method GetModifiedDataFields(actions: seq<Action>, id: int)
    returns (awardUpdates: map<string, FieldChange>, borrowerUpdates: map<string, FieldChange>)
    requires RecordedByStaff(actions, id)
    ensures forall k :: k in awardUpdates <==> Best(actions, |actions|, id, AwardUpdate, k).Some?
    ensures forall k :: k in awardUpdates ==> awardUpdates[k] == Best(actions, |actions|, id, AwardUpdate, k).value
    ensures forall k :: k in borrowerUpdates <==> Best(actions, |actions|, id, BorrowerUpdate, k).Some?
    ensures forall k :: k in borrowerUpdates ==>
      borrowerUpdates[k] == Best(actions, |actions|, id, BorrowerUpdate, k).value
  {
    awardUpdates := map[];
    borrowerUpdates := map[];
    var i := 0;
    while i < |actions|
      invariant 0 <= i <= |actions|
      invariant KeptAfter(awardUpdates, actions, i, id, AwardUpdate)
      invariant KeptAfter(borrowerUpdates, actions, i, id, BorrowerUpdate)
    {
      awardUpdates := ScanAction(awardUpdates, actions, i, id, AwardUpdate);
      borrowerUpdates := ScanAction(borrowerUpdates, actions, i, id, BorrowerUpdate);
      i := i + 1;
    }
  }

  // ---------------------------------------------------------------------
  // Awards from the source.

  /** No two awards come from the same source contract. */
  predicate ContractIdsUnique(awards: map<int, Award>)
  {
    forall i, j :: i in awards && j in awards && awards[i].sourceContractId == awards[j].sourceContractId ==> i == j
  }

  predicate HasContractId(sourceContractId: string, a: Award)
  {
    a.sourceContractId == sourceContractId
  }

  /**
   * Storing the award built from a source record: a record the award
   * builder skips or fails on stores nothing, and so does one whose source
   * contract is already stored; otherwise exactly one award is added.
   */
  method CreateAwardFromDataSource(db: Database, entry: Colombia.Entry, borrowerId: Option<int>, previous: bool,
                                   contracts: (string, string, bool) -> seq<Colombia.Entry>,
                                   parseInstant: string -> Instant) returns (r: Result<int>)
    requires db.Valid()
    modifies db`awards, db`nextId
    ensures db.Valid()
    ensures var d := Colombia.GetAward(entry, borrowerId, previous, contracts, parseInstant);
      && (d.Err? ==> r == Err(d.error))
      && (d.Ok? && (exists k :: k in old(db.awards) && old(db.awards)[k].sourceContractId == d.value.sourceContractId)
          ==> r == Err(Skipped(AwardExists)))
      && (r.Ok? ==> d.Ok? && r.value == old(db.nextId) && db.awards == old(db.awards)[r.value := d.value])
      && (d.Ok? && r.Err? ==> exists k :: k in old(db.awards) && old(db.awards)[k].sourceContractId == d.value.sourceContractId)
    ensures r.Err? ==> unchanged(db)
    ensures r.Ok? ==> db.nextId == old(db.nextId) + 1 && r.value !in old(db.awards)
    ensures ContractIdsUnique(old(db.awards)) ==> ContractIdsUnique(db.awards)
  {
    var d := Colombia.GetAward(entry, borrowerId, previous, contracts, parseInstant);
    if d.Err? {
      return Err(d.error);
    }
    r := StoreAward(db, d.value);
  }

  /** Storing an award unless one with the same source contract is stored. */
  method StoreAward(db: Database, award: Award) returns (r: Result<int>)
    requires db.Valid()
    modifies db`awards, db`nextId
    ensures db.Valid()
    ensures r.Err? <==> exists k :: k in old(db.awards) && old(db.awards)[k].sourceContractId == award.sourceContractId
    ensures r.Err? ==> r == Err(Skipped(AwardExists)) && db.awards == old(db.awards) && db.nextId == old(db.nextId)
    ensures r.Ok? ==> && r.value == old(db.nextId) && r.value !in old(db.awards)
                      && db.awards == old(db.awards)[r.value := award] && db.nextId == old(db.nextId) + 1
    ensures ContractIdsUnique(old(db.awards)) ==> ContractIdsUnique(db.awards)
  {
    var found := FindKey(db.awards, (a: Award) => HasContractId(award.sourceContractId, a));
    if found.Some? {
      return Err(Skipped(AwardExists));
    }
    var id := db.nextId;
    db.awards := db.awards[id := award];
    db.nextId := id + 1;
    r := Ok(id);
  }

  /** Some stored award comes from this source contract. */
  predicate ContractStored(awards: map<int, Award>, sourceContractId: string)
  {
    exists k :: k in awards && HasContractId(sourceContractId, awards[k])
  }

  /** The previous award a source record builds for the borrower. */
  function PreviousAward(entry: Colombia.Entry, borrowerId: int, contracts: (string, string, bool) -> seq<Colombia.Entry>,
                         parseInstant: string -> Instant): Result<Award>
  {
    Colombia.GetAward(entry, Some(borrowerId), true, contracts, parseInstant)
  }

  /**
   * After the first `n` records of a previous-awards run: the awards stored
   * before are kept, every record that builds an award has its source
   * contract stored, and every new award is one such a record built.
   */
  ghost predicate PreviousSoFar(awards0: map<int, Award>, awards: map<int, Award>, response: seq<Colombia.Entry>,
                                n: nat, borrowerId: int, contracts: (string, string, bool) -> seq<Colombia.Entry>,
                                parseInstant: string -> Instant)
    requires n <= |response|
  {
    && (forall k :: k in awards0 ==> k in awards && awards[k] == awards0[k])
    && (forall j :: 0 <= j < n && PreviousAward(response[j], borrowerId, contracts, parseInstant).Ok? ==>
          ContractStored(awards, PreviousAward(response[j], borrowerId, contracts, parseInstant).value.sourceContractId))
    && (forall k :: k in awards && k !in awards0 ==>
          exists j :: 0 <= j < n && PreviousAward(response[j], borrowerId, contracts, parseInstant) == Ok(awards[k]))
  }

  /** One more record: its award was stored, or its source contract was stored already, or it builds no award. */
  lemma {:induction false} PreviousStep(awards0: map<int, Award>, awards: map<int, Award>, awards': map<int, Award>,
                                        response: seq<Colombia.Entry>, n: nat, borrowerId: int,
                                        contracts: (string, string, bool) -> seq<Colombia.Entry>,
                                        parseInstant: string -> Instant)
    requires n < |response| && PreviousSoFar(awards0, awards, response, n, borrowerId, contracts, parseInstant)
    requires var d := PreviousAward(response[n], borrowerId, contracts, parseInstant);
      || (awards' == awards && (d.Ok? ==> ContractStored(awards, d.value.sourceContractId)))
      || (d.Ok? && exists id :: id !in awards && awards' == awards[id := d.value])
    ensures PreviousSoFar(awards0, awards', response, n + 1, borrowerId, contracts, parseInstant)
  {
    var d := PreviousAward(response[n], borrowerId, contracts, parseInstant);
    if awards' != awards {
      var id :| id !in awards && awards' == awards[id := d.value];
      assert HasContractId(d.value.sourceContractId, awards'[id]);
      forall c | ContractStored(awards, c) ensures ContractStored(awards', c) {
        var k :| k in awards && HasContractId(c, awards[k]);
        assert awards'[k] == awards[k];
      }
    }
  }

  /**
   * Storing a borrower's earlier awards as previous awards: each record is
   * stored on its own, and a record that is skipped or fails is rolled back
   * and passed over. Afterwards every record that builds an award has its
   * source contract stored, and every new award is one a record built.
   */
  method GetPreviousAwardsFromDataSource(db: Database, borrowerId: int, response: seq<Colombia.Entry>,
                                         contracts: (string, string, bool) -> seq<Colombia.Entry>,
                                         parseInstant: string -> Instant)
    requires db.Valid() && borrowerId in db.borrowers
    modifies db`awards, db`nextId
    ensures db.Valid()
    ensures response == [] ==> unchanged(db)
    ensures forall k :: k in old(db.awards) ==> k in db.awards && db.awards[k] == old(db.awards)[k]
    ensures forall i :: 0 <= i < |response| && PreviousAward(response[i], borrowerId, contracts, parseInstant).Ok? ==>
      ContractStored(db.awards, PreviousAward(response[i], borrowerId, contracts, parseInstant).value.sourceContractId)
    ensures forall k :: k in db.awards && k !in old(db.awards) ==>
      exists i :: 0 <= i < |response| && PreviousAward(response[i], borrowerId, contracts, parseInstant) == Ok(db.awards[k])
    ensures forall k :: k in db.awards && k !in old(db.awards) ==>
      db.awards[k].previous && db.awards[k].borrowerId == (if borrowerId != 0 then Some(borrowerId) else None)
    ensures forall k :: k in db.awards && k !in old(db.awards) ==> old(db.nextId) <= k < old(db.nextId) + |response|
    ensures ContractIdsUnique(old(db.awards)) ==> ContractIdsUnique(db.awards)
  {
    if response == [] {
      return;
    }
    var i := 0;
    while i < |response|
      invariant 0 <= i <= |response|
      invariant db.Valid()
      invariant old(db.nextId) <= db.nextId <= old(db.nextId) + i
      invariant forall k :: k in db.awards && k !in old(db.awards) ==> old(db.nextId) <= k < db.nextId
      invariant PreviousSoFar(old(db.awards), db.awards, response, i, borrowerId, contracts, parseInstant)
      invariant ContractIdsUnique(old(db.awards)) ==> ContractIdsUnique(db.awards)
    {
      ghost var before := db.awards;
      var created := CreateAwardFromDataSource(db, response[i], Some(borrowerId), true, contracts, parseInstant);
      ghost var d := PreviousAward(response[i], borrowerId, contracts, parseInstant);
      if created.Ok? {
        assert d.Ok? && created.value !in before && db.awards == before[created.value := d.value];
      } else if d.Ok? {
        var k :| k in before && before[k].sourceContractId == d.value.sourceContractId;
        assert HasContractId(d.value.sourceContractId, before[k]);
      }
      PreviousStep(old(db.awards), before, db.awards, response, i, borrowerId, contracts, parseInstant);
      i := i + 1;
    }
  }

  // ---------------------------------------------------------------------
  // Borrower documents.

  /** At most one document per application and document type. */
  predicate DocumentsUnique(documents: map<int, Document>)
  {
    forall i, j ::
      i in documents && j in documents && IsDocumentOf(documents[i].applicationId, documents[i].kind, documents[j])
      ==> i == j
  }

  predicate IsDocumentOf(id: int, kind: DocumentType, d: Document)
  {
    d.applicationId == id && d.kind == kind
  }

  /**
   * Storing an uploaded document: a document of the same type already held
   * for the application is overwritten (content, name, verification and
   * submission time), otherwise a new one is added.
   */
  method CreateOrUpdateBorrowerDocument(db: Database, filename: string, id: int, kind: DocumentType,
                                        content: seq<bv8>, verified: bool, now: Instant) returns (docId: int)
    requires db.Valid()
    modifies db`documents, db`nextId
    ensures db.Valid()
    ensures db.documents == old(db.documents)[docId := Document(id, kind, filename, content, verified, now)]
    ensures docId in old(db.documents) ==> IsDocumentOf(id, kind, old(db.documents)[docId])
    ensures docId in old(db.documents) <==> exists k :: k in old(db.documents) && IsDocumentOf(id, kind, old(db.documents)[k])
    ensures docId !in old(db.documents) ==> docId == old(db.nextId) && db.nextId == old(db.nextId) + 1
    ensures docId in old(db.documents) ==> db.nextId == old(db.nextId)
    ensures DocumentsUnique(old(db.documents)) ==> DocumentsUnique(db.documents)
  {
    var found := FindKey(db.documents, (d: Document) => IsDocumentOf(id, kind, d));
    if found.Some? {
      docId := found.value;
    } else {
      docId := db.nextId;
      db.nextId := docId + 1;
    }
    db.documents := db.documents[docId := Document(id, kind, filename, content, verified, now)];
  }
}
