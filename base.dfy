/**
 * Shared vocabulary: optional values, the error outcomes an operation can
 * end in, and time arithmetic on whole seconds.
 */
module Base {
  datatype Option<T> = None | Some(value: T)

  /** Why an ingestion step gave up on one source record (SkippedAwardError). */
  datatype SkipReason =
    | AwardExists
    | NoRemoteContract
    | MissingContractId
    | MissingSupplier
    | RemoteBorrowerCount
    | NoRemoteEmail
    | InvalidEmail
    | NaturalPerson
    | OptedOut
    | ApplicationExists
    | UuidTaken

  /** How an operation fails. */
  datatype Error =
    | Http(code: int)           // an HTTPException with this status code
    | NotImplemented            // NotImplementedError
    | KeyError                  // a dictionary lookup of an absent key
    | ValueError                // unpacking fewer values than expected
    | Crash                     // an attribute read on a missing row (None), or a failing e-mail or write
    | Skipped(reason: SkipReason)
    | SourceFormat              // a source record lacks a required key
    | Usage                     // a command-line usage error

  datatype Result<T> = Ok(value: T) | Err(error: Error)

  /** The result of a guard or of an operation with no value of interest. */
  datatype Outcome = Pass | Fail(error: Error)

  const BadRequest: int := 400
  const Unauthorized: int := 401
  const Forbidden: int := 403
  const NotFound: int := 404
  const Conflict: int := 409
  const PayloadTooLarge: int := 413
  const Unprocessable: int := 422
  const InternalServerError: int := 500

  /** A point in time, in whole seconds. */
  type Instant = int

  const SecondsPerDay: int := 86400

  /**
   * The whole days of a time difference, rounded down as a
   * time-difference's day count is: Euclidean division by a positive
   * divisor is floor division.
   */
  function DaysBetween(later: Instant, earlier: Instant): int
  {
    (later - earlier) / SecondsPerDay
  }

  /** Some element of a non-empty set, the next one an iteration visits. */
  method Pick<T>(s: set<T>) returns (x: T)
    requires |s| > 0
    ensures x in s
  {
    x :| x in s;
  }

  /** The key of some entry satisfying `p`, as a query's first match; None when there is none. */
  method FindKey<T>(m: map<int, T>, p: T -> bool) returns (r: Option<int>)
    ensures r.Some? ==> r.value in m && p(m[r.value])
    ensures r.None? <==> forall k :: k in m ==> !p(m[k])
  {
    var todo := m.Keys;
    while |todo| > 0
      invariant todo <= m.Keys
      invariant forall k :: k in m && k !in todo ==> !p(m[k])
      decreases |todo|
    {
      var k := Pick(todo);
      if p(m[k]) {
        return Some(k);
      }
      todo := todo - {k};
    }
    r := None;
  }

  /** No element occurs twice. */
  predicate Distinct(ids: seq<int>)
  {
    forall i, j :: 0 <= i < j < |ids| ==> ids[i] != ids[j]
  }

  /** `order` lists the elements of `done`, each once. */
  predicate Enumerates(order: seq<int>, done: set<int>)
  {
    && Distinct(order)
    && (forall i :: 0 <= i < |order| ==> order[i] in done)
    && (forall x :: x in done ==> x in order)
  }

  /** A value that is truthy: present and not zero (row ids are never zero). */
  predicate IsSet(x: Option<int>)
  {
    x.Some? && x.value != 0
  }
}

/** String helpers with the meaning the source relies on. */
module Text {
  import Base
  /** ASCII lower-casing (what the source compares against is ASCII). */
  function LowerChar(c: char): char
  {
    if 'A' <= c <= 'Z' then (c as int - 'A' as int + 'a' as int) as char else c
  }

  function Lower(s: string): (r: string)
    ensures |r| == |s|
    ensures forall i :: 0 <= i < |s| ==> r[i] == LowerChar(s[i])
  {
    if s == [] then [] else [LowerChar(s[0])] + Lower(s[1..])
  }

  /** `sep` occurs in `s` starting at position `i`. */
  predicate MatchesAt(s: string, sep: string, i: nat)
  {
    i + |sep| <= |s| && s[i..i + |sep|] == sep
  }

  /** The first position at or after `from` where `sep` occurs in `s`. */
  function FindFrom(s: string, sep: string, from: nat): (r: Base.Option<nat>)
    requires |sep| > 0
    ensures r.Some? ==> from <= r.value && MatchesAt(s, sep, r.value)
    ensures r.Some? ==> forall i :: from <= i < r.value ==> !MatchesAt(s, sep, i)
    ensures r.None? ==> forall i :: from <= i ==> !MatchesAt(s, sep, i)
    decreases |s| - from
  {
    if from + |sep| > |s| then Base.None
    else if MatchesAt(s, sep, from) then Base.Some(from)
    else FindFrom(s, sep, from + 1)
  }

  function Find(s: string, sep: string): (r: Base.Option<nat>)
    requires |sep| > 0
  {
    FindFrom(s, sep, 0)
  }

  predicate Contains(s: string, sep: string)
    requires |sep| > 0
  {
    Find(s, sep).Some?
  }

  /**
   * The first two pieces of `s` split on `sep`, as unpacking the first two
   * items of a string split does; with no separator there is only one piece
   * and the unpacking fails.
   */
  function SplitFirstTwo(s: string, sep: string): (r: Base.Result<(string, string)>)
    requires |sep| > 0
    ensures r.Err? <==> !Contains(s, sep)
    ensures r.Err? ==> r.error == Base.ValueError
  {
    match Find(s, sep)
    case None => Base.Err(Base.ValueError)
    case Some(i) =>
      var rest := s[i + |sep|..];
      match Find(rest, sep)
      case None => Base.Ok((s[..i], rest))
      case Some(j) => Base.Ok((s[..i], rest[..j]))
  }

  /**
   * Splitting `a + sep + b` gives back `a` and `b` when neither can be
   * mistaken for part of the separator: `b` holds no separator, `a` holds
   * none either and does not end with the separator's first character, and
   * the separator is one repeated character ("---").
   */
  lemma {:induction false} SplitJoined(a: string, b: string, sep: string)
    requires |sep| > 0
    requires forall i :: 0 <= i < |sep| ==> sep[i] == sep[0]
    requires !Contains(a, sep) && !Contains(b, sep)
    requires a == [] || a[|a| - 1] != sep[0]
    ensures SplitFirstTwo(a + sep + b, sep) == Base.Ok((a, b))
  {
    var s := a + sep + b;
    FirstMatchAt(a, b, sep, 0);
    assert Find(s, sep) == Base.Some(|a|);
    assert s[|a| + |sep|..] == b;
    assert s[..|a|] == a;
  }

  /** Scanning `a + sep + b` from `from` meets the separator first at `|a|`. */
  lemma {:induction false} FirstMatchAt(a: string, b: string, sep: string, from: nat)
    requires |sep| > 0
    requires forall i :: 0 <= i < |sep| ==> sep[i] == sep[0]
    requires !Contains(a, sep)
    requires a == [] || a[|a| - 1] != sep[0]
    requires from <= |a|
    ensures FindFrom(a + sep + b, sep, from) == Base.Some(|a|)
    decreases |a| - from
  {
    var s := a + sep + b;
    assert MatchesAt(s, sep, |a|);
    if from < |a| {
      assert !MatchesAt(s, sep, from) by {
        if from + |sep| <= |a| {
          assert s[from..from + |sep|] == a[from..from + |sep|];
          assert !MatchesAt(a, sep, from);
        } else {
          // the window straddles the end of `a`: its character at |a| - 1 - from
          // is a's last character, which differs from every separator character
          var k := |a| - 1 - from;
          assert s[from..from + |sep|][k] == a[|a| - 1];
        }
      }
      FirstMatchAt(a, b, sep, from + 1);
    }
  }
}
