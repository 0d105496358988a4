/**
 * Reading the Colombian public procurement source (SECOP): the supplier
 * document of an award record, the borrower's e-mail chosen by majority
 * among the source's e-mail records, the borrower and award rows built from
 * source records, and the paging and date window of the award feed. Every
 * HTTP response is an input.
 */
module Colombia {
  import opened Base
  import opened Models
  import Text

  /** One JSON record of the source, its values as text. */
  type Entry = map<string, string>

  /** The record's value for `key`, or `default` when the key is absent. */
  function Get(e: Entry, key: string, default: string): string
  {
    if key in e then e[key] else default
  }

  const SupplierTypeToExclude: string := "persona natural colombiana"

  /** The supplier placeholder the contract lookup is retried with. */
  const NotAwarded: string := "No Adjudicado"

  /** The value of the `adjudicado` column the award feed asks for, compared ignoring case. */
  const AwardedValue: string := "Si"

  /**
   * The awarded supplier's document number: a missing or empty value and
   * the placeholder "No Definido" skip the record.
   */
  function GetDocumentoProveedor(entry: Entry): (r: Result<string>)
    ensures r.Ok? <==>
      "nit_del_proveedor_adjudicado" in entry && entry["nit_del_proveedor_adjudicado"] !in {"", "No Definido"}
    ensures r.Ok? ==> r.value == entry["nit_del_proveedor_adjudicado"]
    ensures r.Err? ==> r.error == Skipped(MissingSupplier)
  {
    var d := Get(entry, "nit_del_proveedor_adjudicado", "");
    if d == "" || d == "No Definido" then Err(Skipped(MissingSupplier)) else Ok(d)
  }

  /** The e-mail of one e-mail record: the entity's address when that key exists, else the other one. */
  function EmailOf(e: Entry): (r: string)
    ensures "correo_entidad" in e ==> r == e["correo_entidad"]
    ensures "correo_entidad" !in e && "correo_electr_nico" in e ==> r == e["correo_electr_nico"]
    ensures "correo_entidad" !in e && "correo_electr_nico" !in e ==> r == ""
  {
    if "correo_entidad" in e then e["correo_entidad"] else Get(e, "correo_electr_nico", "")
  }

  function Emails(rs: seq<Entry>): (r: seq<string>)
    ensures |r| == |rs|
    ensures forall i :: 0 <= i < |rs| ==> r[i] == EmailOf(rs[i])
  {
    seq(|rs|, i requires 0 <= i < |rs| => EmailOf(rs[i]))
  }

  // ---------------------------------------------------------------------
  // Majority vote.

  /** How many times `y` occurs in `s`. */
  function Count(s: seq<string>, y: string): nat
  {
    if s == [] then 0 else Count(s[..|s| - 1], y) + (if s[|s| - 1] == y then 1 else 0)
  }

  lemma {:induction false} CountAbsent(s: seq<string>, y: string)
    requires y !in s
    ensures Count(s, y) == 0
  {
    if s != [] {
      assert forall t :: t in s[..|s| - 1] ==> t in s;
      CountAbsent(s[..|s| - 1], y);
    }
  }

  /**
   * `m` is the most frequent value of `xs`, and among equally frequent
   * values the one seen first: some occurrence of `m` is preceded only by
   * values that occur strictly fewer times.
   */
  ghost predicate IsMostCommon(xs: seq<string>, m: string)
  {
    && (forall y :: Count(xs, y) <= Count(xs, m))
    && exists k :: 0 <= k < |xs| && xs[k] == m && forall j :: 0 <= j < k ==> Count(xs, xs[j]) < Count(xs, m)
  }

  /** The majority vote picks exactly one value. */
  lemma MostCommonUnique(xs: seq<string>, a: string, b: string)
    requires IsMostCommon(xs, a) && IsMostCommon(xs, b)
    ensures a == b
  {
    var ka :| 0 <= ka < |xs| && xs[ka] == a && forall j :: 0 <= j < ka ==> Count(xs, xs[j]) < Count(xs, a);
    var kb :| 0 <= kb < |xs| && xs[kb] == b && forall j :: 0 <= j < kb ==> Count(xs, xs[j]) < Count(xs, b);
    assert Count(xs, a) == Count(xs, b);
  }

  /** A single value is its own majority. */
  lemma MostCommonSingle(x: string)
    ensures IsMostCommon([x], x)
  {
    forall y ensures Count([x], y) <= Count([x], x) {
      assert [x][..0] == [];
    }
  }

  /** Tallying the values, then taking the most frequent, the first-seen one on a tie. */
  method MostCommon(xs: seq<string>) returns (m: string)
    requires |xs| > 0
    ensures IsMostCommon(xs, m)
  {
    var counts: map<string, nat> := map[];
    var i := 0;
    while i < |xs|
      invariant 0 <= i <= |xs|
      invariant forall y :: y in counts <==> y in xs[..i]
      invariant forall y :: y in counts ==> counts[y] == Count(xs[..i], y)
    {
      var x := xs[i];
      assert xs[..i + 1] == xs[..i] + [x];
      assert xs[..i + 1][..i] == xs[..i];
      if x !in counts {
        CountAbsent(xs[..i], x);
      }
      var c := if x in counts then counts[x] else 0;
      counts := counts[x := c + 1];
      i := i + 1;
    }
    assert xs[..i] == xs;
    var best := 0;
    var j := 1;
    while j < |xs|
      invariant 1 <= j <= |xs|
      invariant 0 <= best < j
      invariant forall t :: 0 <= t < j ==> Count(xs, xs[t]) <= Count(xs, xs[best])
      invariant forall t :: 0 <= t < best ==> Count(xs, xs[t]) < Count(xs, xs[best])
    {
      assert xs[j] in xs && xs[best] in xs;
      if counts[xs[j]] > counts[xs[best]] {
        best := j;
      }
      j := j + 1;
    }
    m := xs[best];
    forall y ensures Count(xs, y) <= Count(xs, m) {
      if y in xs {
        var t :| 0 <= t < |xs| && xs[t] == y;
      } else {
        CountAbsent(xs, y);
      }
    }
  }

  /**
   * The borrower's e-mail: no e-mail record skips, one record gives its
   * address, several give the most frequent address; an address the
   * validator refuses skips.
   */
  method GetEmail(responses: seq<Entry>, isValid: string -> bool) returns (r: Result<string>)
    ensures responses == [] ==> r == Err(Skipped(NoRemoteEmail))
    ensures r.Ok? ==> isValid(r.value) && IsMostCommon(Emails(responses), r.value)
    ensures r.Ok? && |responses| == 1 ==> r.value == EmailOf(responses[0])
    ensures responses != [] && r.Err? ==> r == Err(Skipped(InvalidEmail))
    ensures responses != [] ==> exists m :: IsMostCommon(Emails(responses), m) && (r.Ok? <==> isValid(m))
  {
    if |responses| == 0 {
      return Err(Skipped(NoRemoteEmail));
    }
    var email := EmailOf(responses[0]);
    if |responses| > 1 {
      email := MostCommon(Emails(responses));
    } else {
      assert Emails(responses) == [email];
      MostCommonSingle(email);
    }
    if !isValid(email) {
      return Err(Skipped(InvalidEmail));
    }
    r := Ok(email);
    forall m | IsMostCommon(Emails(responses), m) ensures m == email {
      MostCommonUnique(Emails(responses), m, email);
    }
  }

  /** The e-mail records yield an address the validator accepts: some record exists and the most frequent address is valid. */
  ghost predicate EmailAccepted(responses: seq<Entry>, isValid: string -> bool)
  {
    responses != [] && exists m :: IsMostCommon(Emails(responses), m) && isValid(m)
  }

  /**
   * The source gives a borrower for a supplier: exactly one registry record,
   * not a natural person, and an accepted e-mail address.
   */
  ghost predicate BorrowerAvailable(registry: seq<Entry>, emailRecords: seq<Entry>, isValid: string -> bool)
  {
    && |registry| == 1
    && Text.Lower(Get(registry[0], "tipo_organizacion", "")) != SupplierTypeToExclude
    && EmailAccepted(emailRecords, isValid)
  }

  // ---------------------------------------------------------------------
  // Borrowers and awards built from source records.

  function Address(remote: Entry): string
  {
    "Direccion: " + Get(remote, "direccion", "No provisto")
      + "\nCiudad: " + Get(remote, "ciudad", "No provisto")
      + "\nProvincia: " + Get(remote, "provincia", "No provisto")
      + "\nEstado: " + Get(remote, "estado", "No provisto")
  }

  /**
   * The borrower row for a supplier: the registry must hold exactly one
   * record for it, its e-mail must be found and valid, and natural persons
   * are skipped (whatever the case of the organisation type).
   */
  method GetBorrower(identifier: string, registry: seq<Entry>, emailRecords: seq<Entry>, isValid: string -> bool)
    returns (r: Result<Borrower>)
    ensures |registry| != 1 ==> r == Err(Skipped(RemoteBorrowerCount))
    ensures r.Ok? ==> |registry| == 1 && Text.Lower(Get(registry[0], "tipo_organizacion", "")) != SupplierTypeToExclude
    ensures |registry| == 1 && Text.Lower(Get(registry[0], "tipo_organizacion", "")) == SupplierTypeToExclude ==>
      r.Err?
    ensures r.Ok? ==> isValid(r.value.email) && IsMostCommon(Emails(emailRecords), r.value.email)
    ensures r.Ok? ==> r.value.borrowerIdentifier == identifier && r.value.status == Active
    ensures r.Ok? ==> r.value.legalIdentifier == Get(registry[0], "nit_entidad", "")
    ensures r.Ok? ==> r.value.legalName == Get(registry[0], "nombre_entidad", "")
    ensures r.Ok? ==> r.value.sourceData == registry[0]
    ensures r.Ok? ==> (r.value.isMsme <==> Text.Lower(Get(registry[0], "es_pyme", "")) == "si")
    ensures r.Ok? ==> r.value.address == Address(registry[0])
    ensures r.Ok? ==> r.value.kind == Get(registry[0], "tipo_organizacion", "")
    ensures r.Ok? <==> BorrowerAvailable(registry, emailRecords, isValid)
  {
    if |registry| != 1 {
      return Err(Skipped(RemoteBorrowerCount));
    }
    var remote := registry[0];
    var email := GetEmail(emailRecords, isValid);
    if email.Err? {
      if EmailAccepted(emailRecords, isValid) {
        var m :| IsMostCommon(Emails(emailRecords), m) && (email.Ok? <==> isValid(m));
        var v :| IsMostCommon(Emails(emailRecords), v) && isValid(v);
        MostCommonUnique(Emails(emailRecords), m, v);
      }
      return Err(email.error);
    }
    var kind := Get(remote, "tipo_organizacion", "");
    if Text.Lower(kind) == SupplierTypeToExclude {
      return Err(Skipped(NaturalPerson));
    }
    r := Ok(Borrower(identifier, Get(remote, "nombre_entidad", ""), email.value, Address(remote),
                     Get(remote, "nit_entidad", ""), kind, "", NotInformed,
                     Text.Lower(Get(remote, "es_pyme", "")) == "si", remote, Active, None));
  }

  /**
   * The award row for an award record. The contract lookup (by purchase
   * process and supplier; only signed contracts for previous awards) is
   * retried with the "No Adjudicado" supplier when it finds nothing; no
   * contract at all, or a contract with no id, skips the record. The
   * borrower is linked only when its id is truthy. `parseInstant` reads a
   * source timestamp.
   */
  function GetAward(entry: Entry, borrowerId: Option<int>, previous: bool,
                    contracts: (string, string, bool) -> seq<Entry>, parseInstant: string -> Instant)
    : (r: Result<Award>)
    ensures "id_del_portafolio" !in entry || "nit_del_proveedor_adjudicado" !in entry ==> r == Err(KeyError)
    ensures r == Err(Skipped(NoRemoteContract)) <==>
      && "id_del_portafolio" in entry && "nit_del_proveedor_adjudicado" in entry
      && contracts(entry["id_del_portafolio"], entry["nit_del_proveedor_adjudicado"], previous) == []
      && contracts(entry["id_del_portafolio"], NotAwarded, false) == []
    ensures r.Ok? ==> r.value.sourceContractId != "" && r.value.previous == previous
    ensures r.Ok? ==> r.value.borrowerId == (if IsSet(borrowerId) then borrowerId else None)
    ensures r.Ok? && contracts(entry["id_del_portafolio"], entry["nit_del_proveedor_adjudicado"], previous) != [] ==>
      r.value.sourceContractId
        == Get(contracts(entry["id_del_portafolio"], entry["nit_del_proveedor_adjudicado"], previous)[0], "id_contrato", "")
    ensures r.Ok? && contracts(entry["id_del_portafolio"], entry["nit_del_proveedor_adjudicado"], previous) == [] ==>
      r.value.sourceContractId == Get(contracts(entry["id_del_portafolio"], NotAwarded, false)[0], "id_contrato", "")
  {
    if "id_del_portafolio" !in entry || "nit_del_proveedor_adjudicado" !in entry then Err(KeyError)
    else
      var process := entry["id_del_portafolio"];
      var first := contracts(process, entry["nit_del_proveedor_adjudicado"], previous);
      var found := if first != [] then first else contracts(process, NotAwarded, false);
      if found == [] then Err(Skipped(NoRemoteContract))
      else
        var contractId := Get(found[0], "id_contrato", "");
        if contractId == "" then Err(Skipped(MissingContractId))
        else
          var published := if "fecha_de_ultima_publicaci" in entry
                           then Some(parseInstant(entry["fecha_de_ultima_publicaci"])) else None;
          Ok(Award(contractId, if IsSet(borrowerId) then borrowerId else None, previous,
                   Get(entry, "nit_entidad", ""), Get(entry, "nombre_del_procedimiento", ""),
                   Get(entry, "entidad", ""), published))
  }

  // ---------------------------------------------------------------------
  // The award feed.

  /**
   * The date filter of one feed request: the last publication or the award
   * date lies in [from, until), or lies at or after `start`.
   */
  datatype Window = Between(from: Instant, until: Instant) | Since(start: Instant)

  /**
   * The order a feed request asks for: by last publication date, newest
   * first, records without that date after all dated ones.
   */
  datatype FeedOrder = PublishedNewestFirstUndatedLast

  /**
   * One feed request: the page (offset and size), the order, the value the
   * `adjudicado` column must equal ignoring case, and the date window.
   */
  datatype AwardsQuery = AwardsQuery(offset: int, limit: int, order: FeedOrder, adjudicado: string, window: Window)

  /** The record's date in the given column, when it has one. */
  function DateField(e: Entry, key: string, parseInstant: string -> Instant): (d: Option<Instant>)
    ensures d.Some? <==> key in e
  {
    if key in e then Some(parseInstant(e[key])) else None
  }

  /** The request selects the record: its `adjudicado` matches ignoring case and its dates pass the window. */
  predicate Selects(q: AwardsQuery, e: Entry, parseInstant: string -> Instant)
  {
    && "adjudicado" in e
    && Text.Lower(e["adjudicado"]) == Text.Lower(q.adjudicado)
    && InWindow(q.window, DateField(e, "fecha_de_ultima_publicaci", parseInstant),
                DateField(e, "fecha_adjudicacion", parseInstant))
  }

  /** The records of a page follow the order: dated ones newest first, then the undated ones. */
  predicate InFeedOrder(o: FeedOrder, page: seq<Entry>, parseInstant: string -> Instant)
  {
    match o
    case PublishedNewestFirstUndatedLast =>
      forall i, j :: 0 <= i < j < |page| ==>
        var di := DateField(page[i], "fecha_de_ultima_publicaci", parseInstant);
        var dj := DateField(page[j], "fecha_de_ultima_publicaci", parseInstant);
        (di.None? ==> dj.None?) && (di.Some? && dj.Some? ==> di.value >= dj.value)
  }

  /** A page the feed may give for the request: at most a page of selected records, in the requested order. */
  predicate Answers(q: AwardsQuery, page: seq<Entry>, parseInstant: string -> Instant)
  {
    && |page| <= q.limit
    && (forall e :: e in page ==> Selects(q, e, parseInstant))
    && InFeedOrder(q.order, page, parseInstant)
  }

  /** A record with these dates passes the window's filter (a missing date never does). */
  predicate InWindow(w: Window, published: Option<Instant>, awarded: Option<Instant>)
  {
    match w
    case Between(from, until) =>
      (published.Some? && from <= published.value < until) || (awarded.Some? && from <= awarded.value < until)
    case Since(start) =>
      (published.Some? && published.value >= start) || (awarded.Some? && awarded.value >= start)
  }

  /**
   * The request for page `index` of the award feed: pages of the
   * configured size; with both dates, the window between them; with only a
   * start date, everything from one second after it; with neither, the
   * configured number of days back from now.
   */
  function GetNewAwards(index: nat, fromDate: Option<Instant>, untilDate: Option<Instant>, now: Instant,
                        s: Settings): (q: AwardsQuery)
    ensures q.limit == s.secopPaginationLimit
    ensures index == 0 ==> q.offset == 0
    ensures Text.Lower(q.adjudicado) == "si"
    ensures q.order == PublishedNewestFirstUndatedLast
  {
    var limit := s.secopPaginationLimit;
    var window :=
      if fromDate.Some? && untilDate.Some? then Between(fromDate.value, untilDate.value)
      else if fromDate.Some? then Since(fromDate.value + 1)
      else Since(now - s.secopDefaultDays * SecondsPerDay);
    AwardsQuery(index * limit, limit, PublishedNewestFirstUndatedLast, AwardedValue, window)
  }

  /**
   * The date filter of a request: with both dates, those published or
   * awarded in the window between them; with only a start date, those
   * published or awarded after it; with neither, those published or
   * awarded within the configured number of days before now.
   */
  lemma NewAwardsWindow(index: nat, fromDate: Option<Instant>, untilDate: Option<Instant>, now: Instant,
                        s: Settings, published: Option<Instant>, awarded: Option<Instant>)
    ensures InWindow(GetNewAwards(index, fromDate, untilDate, now, s).window, published, awarded) <==>
      if fromDate.Some? && untilDate.Some? then
        (published.Some? && fromDate.value <= published.value < untilDate.value)
        || (awarded.Some? && fromDate.value <= awarded.value < untilDate.value)
      else if fromDate.Some? then
        (published.Some? && published.value > fromDate.value) || (awarded.Some? && awarded.value > fromDate.value)
      else
        (published.Some? && published.value + s.secopDefaultDays * SecondsPerDay >= now)
        || (awarded.Some? && awarded.value + s.secopDefaultDays * SecondsPerDay >= now)
  {
  }

  /**
   * The records a request selects are the awarded ones ("si" in any case)
   * whose dates pass its window.
   */
  lemma NewAwardsSelect(index: nat, fromDate: Option<Instant>, untilDate: Option<Instant>, now: Instant,
                        s: Settings, e: Entry, parseInstant: string -> Instant)
    ensures var q := GetNewAwards(index, fromDate, untilDate, now, s);
      Selects(q, e, parseInstant) <==>
        && "adjudicado" in e && Text.Lower(e["adjudicado"]) == "si"
        && InWindow(q.window, DateField(e, "fecha_de_ultima_publicaci", parseInstant),
                    DateField(e, "fecha_adjudicacion", parseInstant))
  {
  }

  /**
   * A page the feed gives for a request holds at most a page size of
   * awarded records, and a record without a publication date is followed
   * only by such records.
   */
  lemma NewAwardsPage(index: nat, fromDate: Option<Instant>, untilDate: Option<Instant>, now: Instant,
                      s: Settings, page: seq<Entry>, parseInstant: string -> Instant)
    requires Answers(GetNewAwards(index, fromDate, untilDate, now, s), page, parseInstant)
    ensures |page| <= s.secopPaginationLimit
    ensures forall e :: e in page ==> "adjudicado" in e && Text.Lower(e["adjudicado"]) == "si"
    ensures forall i, j :: 0 <= i < j < |page| && "fecha_de_ultima_publicaci" !in page[i] ==>
      "fecha_de_ultima_publicaci" !in page[j]
  {
    var q := GetNewAwards(index, fromDate, untilDate, now, s);
    forall i, j | 0 <= i < j < |page| && "fecha_de_ultima_publicaci" !in page[i]
      ensures "fecha_de_ultima_publicaci" !in page[j]
    {
      assert DateField(page[i], "fecha_de_ultima_publicaci", parseInstant).None?;
    }
  }

  /** Consecutive pages are consecutive slices of the feed: each page starts one page size after the previous one. */
  lemma NextPageOffset(index: nat, fromDate: Option<Instant>, untilDate: Option<Instant>, now: Instant, s: Settings)
    requires index > 0
    ensures GetNewAwards(index, fromDate, untilDate, now, s).offset
         == GetNewAwards(index - 1, fromDate, untilDate, now, s).offset + s.secopPaginationLimit
  {
    calc {
      GetNewAwards(index, fromDate, untilDate, now, s).offset;
      index * s.secopPaginationLimit;
      (index - 1) * s.secopPaginationLimit + s.secopPaginationLimit;
    }
  }
}
