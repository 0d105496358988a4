/**
 * The time-driven sweeps of the command-line tool: reminders to borrowers,
 * lapsing stale applications, the lenders' service-level warnings and the
 * erasure of dated personal data. Each application is handled in its own
 * transaction: a failure on one application (`failing`, the applications
 * whose mail or write fails) rolls that one back and stops the sweep, with
 * the applications handled before it kept.
 */
module Sweeps {
  import opened Base
  import opened Models
  import Timeline

  // ---------------------------------------------------------------------
  // Reminders.

  /** The applications whose borrower is due the reminder to start the application. */
  function IntroductionDue(apps: map<int, Application>, borrowers: map<int, Borrower>, awards: map<int, Award>,
                           messages: seq<Message>, now: Instant, s: Settings): set<int>
  {
    set id | id in apps && PendingIntroductionReminder(id, apps[id], borrowers, awards, messages, now, s)
  }

  /** The applications whose borrower is due the reminder to submit the application. */
  function SubmissionDue(apps: map<int, Application>, messages: seq<Message>, now: Instant, s: Settings): set<int>
  {
    set id | id in apps && PendingSubmissionReminder(id, apps[id], messages, now, s)
  }

  /** One reminder of the kind per application, in order. */
  function Reminders(ids: seq<int>, kind: MessageType): (r: seq<Message>)
    ensures |r| == |ids|
    ensures forall i :: 0 <= i < |ids| ==> r[i] == Message(ids[i], kind, "", None)
  {
    if ids == [] then [] else Reminders(ids[..|ids| - 1], kind) + [Message(ids[|ids| - 1], kind, "", None)]
  }

  /** The elements of a set, listed in some order. */
  method Enumerate(s: set<int>) returns (order: seq<int>)
    ensures Enumerates(order, s)
  {
    order := [];
    var todo := s;
    while |todo| > 0
      invariant todo <= s
      invariant Enumerates(order, s - todo)
      decreases |todo|
    {
      var x := Pick(todo);
      EnumeratesNext(order, s - todo, x);
      assert s - todo + {x} == s - (todo - {x});
      order := order + [x];
      todo := todo - {x};
    }
  }

  /** Listing one more element. */
  lemma EnumeratesNext(order: seq<int>, done: set<int>, x: int)
    requires Enumerates(order, done) && x !in done
    ensures Enumerates(order + [x], done + {x})
  {
  }

  /** A reminder recorded for an application is found by the reminder queries afterwards. */
  lemma RemindedHasMessage(messages: seq<Message>, ids: seq<int>, kind: MessageType, id: int)
    requires id in ids
    ensures HasMessage(messages + Reminders(ids, kind), id, kind)
  {
    var i :| 0 <= i < |ids| && ids[i] == id;
    assert (messages + Reminders(ids, kind))[|messages| + i] == Message(id, kind, "", None);
  }

  /** Appending messages never hides one already recorded. */
  lemma HasMessageKept(messages: seq<Message>, extra: seq<Message>, id: int, kind: MessageType)
    requires HasMessage(messages, id, kind)
    ensures HasMessage(messages + extra, id, kind)
  {
    var i :| 0 <= i < |messages| && messages[i].applicationId == id && messages[i].kind == kind;
    assert (messages + extra)[i] == messages[i];
  }

  /** Reminders of one kind do not count as messages of another kind. */
  lemma OtherKindUnseen(messages: seq<Message>, ids: seq<int>, kind: MessageType, id: int, other: MessageType)
    requires kind != other
    ensures HasMessage(messages + Reminders(ids, kind), id, other) <==> HasMessage(messages, id, other)
  {
    var all := messages + Reminders(ids, kind);
    if HasMessage(all, id, other) {
      var i :| 0 <= i < |all| && all[i].applicationId == id && all[i].kind == other;
      assert i < |messages| && all[i] == messages[i];
    } else if HasMessage(messages, id, other) {
      HasMessageKept(messages, Reminders(ids, kind), id, other);
    }
  }

  /**
   * Recording the start reminder for every application due it leaves none
   * due: the sweep does not remind a borrower twice.
   */
  lemma IntroductionSilenced(apps: map<int, Application>, borrowers: map<int, Borrower>, awards: map<int, Award>,
                             messages: seq<Message>, ids: seq<int>, extra: seq<Message>, now: Instant, s: Settings)
    requires forall id :: id in IntroductionDue(apps, borrowers, awards, messages, now, s) ==> id in ids
    ensures IntroductionDue(apps, borrowers, awards,
                            messages + Reminders(ids, BorrowerPendingApplicationReminder) + extra, now, s) == {}
  {
    var kind := BorrowerPendingApplicationReminder;
    var after := messages + Reminders(ids, kind) + extra;
    forall id | id in apps
      ensures !PendingIntroductionReminder(id, apps[id], borrowers, awards, after, now, s)
    {
      if id in IntroductionDue(apps, borrowers, awards, messages, now, s) {
        RemindedHasMessage(messages, ids, kind, id);
        HasMessageKept(messages + Reminders(ids, kind), extra, id, kind);
      } else if HasMessage(messages, id, kind) {
        HasMessageKept(messages, Reminders(ids, kind) + extra, id, kind);
        assert after == messages + (Reminders(ids, kind) + extra);
      }
    }
  }

  /**
   * Recording the submission reminder for every application due it leaves
   * none due.
   */
  lemma SubmissionSilenced(apps: map<int, Application>, messages: seq<Message>, ids: seq<int>, now: Instant,
                           s: Settings)
    requires forall id :: id in SubmissionDue(apps, messages, now, s) ==> id in ids
    ensures SubmissionDue(apps, messages + Reminders(ids, BorrowerPendingSubmitReminder), now, s) == {}
  {
    var kind := BorrowerPendingSubmitReminder;
    forall id | id in apps
      ensures !PendingSubmissionReminder(id, apps[id], messages + Reminders(ids, kind), now, s)
    {
      if id in SubmissionDue(apps, messages, now, s) {
        RemindedHasMessage(messages, ids, kind, id);
      } else if HasMessage(messages, id, kind) {
        HasMessageKept(messages, Reminders(ids, kind), id, kind);
      }
    }
  }

  /** Start reminders leave the applications due a submission reminder as they were. */
  lemma SubmissionDueUnaffected(apps: map<int, Application>, messages: seq<Message>, ids: seq<int>, now: Instant,
                                s: Settings)
    ensures SubmissionDue(apps, messages + Reminders(ids, BorrowerPendingApplicationReminder), now, s)
         == SubmissionDue(apps, messages, now, s)
  {
    forall id | id in apps
      ensures HasMessage(messages + Reminders(ids, BorrowerPendingApplicationReminder), id, BorrowerPendingSubmitReminder)
          <==> HasMessage(messages, id, BorrowerPendingSubmitReminder)
    {
      OtherKindUnseen(messages, ids, BorrowerPendingApplicationReminder, id, BorrowerPendingSubmitReminder);
    }
  }

  /**
   * Mailing one kind of reminder to each application of `due`: each mail is
   * recorded as a message, once per application; a failing mail stops the
   * run with the earlier messages kept.
   */
  method Remind(db: Database, due: set<int>, kind: MessageType, failing: set<int>)
    returns (r: Outcome, ghost sent: seq<int>)
    requires db.Valid()
    modifies db`messages
    ensures db.Valid()
    ensures db.messages == old(db.messages) + Reminders(sent, kind)
    ensures Distinct(sent) && forall i :: 0 <= i < |sent| ==> sent[i] in due && sent[i] !in failing
    ensures r == Pass <==> due !! failing
    ensures r.Fail? ==> r == Fail(Crash)
    ensures r == Pass ==> forall id :: id in due ==> id in sent
  {
    sent := [];
    var out: seq<Message> := [];
    var todo := due;
    while |todo| > 0
      invariant todo <= due
      invariant db.messages == old(db.messages)
      invariant out == Reminders(sent, kind)
      invariant Distinct(sent) && forall i :: 0 <= i < |sent| ==> sent[i] in due - todo && sent[i] !in failing
      invariant forall id :: id in due - todo ==> id in sent
      invariant (due - todo) !! failing
      decreases |todo|
    {
      var id := Pick(todo);
      if id in failing {
        db.messages := db.messages + out;
        return Fail(Crash), sent;
      }
      out := out + [Message(id, kind, "", None)];
      sent := sent + [id];
      todo := todo - {id};
    }
    db.messages := db.messages + out;
    r := Pass;
  }

  /**
   * Sending reminders: first the reminder to start to every application
   * due it, then — selected afresh — the reminder to submit to every
   * application due that one. A failing mail stops the run. A run that
   * finishes leaves no application due either reminder.
   */
  method SendReminders(db: Database, now: Instant, s: Settings, failing: set<int>)
    returns (r: Outcome, ghost introduced: seq<int>, ghost submitted: seq<int>)
    requires db.Valid()
    modifies db`messages
    ensures db.Valid()
    ensures db.messages == old(db.messages) + Reminders(introduced, BorrowerPendingApplicationReminder)
                                            + Reminders(submitted, BorrowerPendingSubmitReminder)
    ensures Distinct(introduced) && Distinct(submitted)
    ensures forall i :: 0 <= i < |introduced| ==>
      && introduced[i] !in failing
      && introduced[i] in IntroductionDue(db.applications, db.borrowers, db.awards, old(db.messages), now, s)
    ensures forall i :: 0 <= i < |submitted| ==>
      && submitted[i] !in failing
      && submitted[i] in SubmissionDue(db.applications, old(db.messages), now, s)
    ensures r == Pass <==>
      && IntroductionDue(db.applications, db.borrowers, db.awards, old(db.messages), now, s) !! failing
      && SubmissionDue(db.applications, old(db.messages), now, s) !! failing
    ensures r.Fail? ==> r == Fail(Crash)
    ensures r == Pass ==>
      && IntroductionDue(db.applications, db.borrowers, db.awards, db.messages, now, s) == {}
      && SubmissionDue(db.applications, db.messages, now, s) == {}
  {
    var intro := IntroductionDue(db.applications, db.borrowers, db.awards, db.messages, now, s);
    r, introduced := Remind(db, intro, BorrowerPendingApplicationReminder, failing);
    submitted := [];
    if r.Fail? {
      return;
    }
    SubmissionDueUnaffected(db.applications, old(db.messages), introduced, now, s);
    var submit := SubmissionDue(db.applications, db.messages, now, s);
    ghost var afterIntro := db.messages;
    r, submitted := Remind(db, submit, BorrowerPendingSubmitReminder, failing);
    if r == Pass {
      IntroductionSilenced(db.applications, db.borrowers, db.awards, old(db.messages), introduced,
                           Reminders(submitted, BorrowerPendingSubmitReminder), now, s);
      SubmissionDueUnaffected(db.applications, old(db.messages), introduced, now, s);
      SubmissionSilenced(db.applications, afterIntro, submitted, now, s);
    }
  }

  // ---------------------------------------------------------------------
  // Lapsing.

  /** An application marked lapsed now. */
  function LapsedRow(a: Application, now: Instant): (b: Application)
    ensures b.status == Lapsed && b.applicationLapsedAt == Some(now)
  {
    a.(status := Lapsed, applicationLapsedAt := Some(now))
  }

  /** The applications the lapse sweep selects. */
  function LapseDue(apps: map<int, Application>, now: Instant, s: Settings): set<int>
  {
    set id | id in apps && Lapseable(apps[id], now, s)
  }

  /** The applications with those of `ids` marked lapsed now. */
  function LapsedApps(apps: map<int, Application>, ids: set<int>, now: Instant): map<int, Application>
  {
    map id | id in apps :: if id in ids then LapsedRow(apps[id], now) else apps[id]
  }

  /**
   * Lapsing every application the sweep selects leaves none to lapse, and
   * only the selected applications change.
   */
  lemma LapseSettles(apps: map<int, Application>, now: Instant, s: Settings)
    ensures LapseDue(LapsedApps(apps, LapseDue(apps, now, s), now), now, s) == {}
    ensures forall id :: id in apps && !Lapseable(apps[id], now, s) ==>
      LapsedApps(apps, LapseDue(apps, now, s), now)[id] == apps[id]
  {
    var after := LapsedApps(apps, LapseDue(apps, now, s), now);
    forall id | id in after
      ensures !Lapseable(after[id], now, s)
    {
      if id in LapseDue(apps, now, s) {
        assert after[id].status == Lapsed;
      } else {
        assert after[id] == apps[id];
      }
    }
  }

  /**
   * Lapsing: every application left waiting on its borrower for too long
   * becomes lapsed, stamped now. A failure stops the sweep; the
   * applications lapsed before it stay lapsed.
   */
  method UpdateApplicationsToLapsed(db: Database, now: Instant, s: Settings, failing: set<int>)
    returns (r: Outcome, ghost lapsed: set<int>)
    requires db.Valid()
    modifies db`applications
    ensures db.Valid()
    ensures lapsed <= LapseDue(old(db.applications), now, s) && lapsed !! failing
    ensures db.applications == LapsedApps(old(db.applications), lapsed, now)
    ensures r == Pass <==> LapseDue(old(db.applications), now, s) !! failing
    ensures r.Fail? ==> r == Fail(Crash)
    ensures r == Pass ==> lapsed == LapseDue(old(db.applications), now, s) && LapseDue(db.applications, now, s) == {}
  {
    ghost var apps := db.applications;
    var due := LapseDue(db.applications, now, s);
    var todo := due;
    lapsed := {};
    assert db.applications == LapsedApps(apps, lapsed, now);
    while |todo| > 0
      invariant todo <= due && lapsed == due - todo && lapsed !! failing
      invariant db.Valid()
      invariant db.applications == LapsedApps(apps, lapsed, now)
      decreases |todo|
    {
      var id := Pick(todo);
      if id in failing {
        return Fail(Crash), lapsed;
      }
      assert db.applications[id] == apps[id];
      SetApplication(db, id, LapsedRow(db.applications[id], now));
      lapsed := lapsed + {id};
      todo := todo - {id};
      assert db.applications == LapsedApps(apps, lapsed, now);
    }
    LapseSettles(apps, now, s);
    r := Pass;
  }

  // ---------------------------------------------------------------------
  // Erasing dated personal data.

  /** An application whose contact address is cleared and which is archived now. */
  function ArchivedRow(a: Application, now: Instant): (b: Application)
    ensures b.primaryEmail == "" && b.archivedAt == Some(now) && !Unarchived(b)
    ensures b.uuid == a.uuid && b.status == a.status
  {
    a.(primaryEmail := "", archivedAt := Some(now))
  }

  /** A borrower whose personal data is cleared; its identifier and status stay. */
  function ErasedBorrower(b: Borrower): (e: Borrower)
    ensures e.legalName == "" && e.email == "" && e.address == "" && e.legalIdentifier == "" && e.sourceData == map[]
    ensures e.borrowerIdentifier == b.borrowerIdentifier && e.status == b.status
  {
    b.(legalName := "", email := "", address := "", legalIdentifier := "", sourceData := map[])
  }

  /** The applications the retention sweep selects. */
  function ArchiveDue(apps: map<int, Application>, now: Instant, s: Settings): set<int>
  {
    set id | id in apps && Archivable(apps[id], now, s)
  }

  /** The borrower's applications that are not archived. */
  function UnarchivedOf(apps: map<int, Application>, borrower: int): set<int>
  {
    set id | id in apps && apps[id].borrowerId == borrower && Unarchived(apps[id])
  }

  /** The applications with those of `ids` archived now. */
  function ArchivedApps(apps: map<int, Application>, ids: set<int>, now: Instant): map<int, Application>
  {
    map id | id in apps :: if id in ids then ArchivedRow(apps[id], now) else apps[id]
  }

  /** The documents that do not belong to an application of `ids`. */
  function KeptDocuments(documents: map<int, Document>, ids: set<int>): map<int, Document>
  {
    map k | k in documents && documents[k].applicationId !in ids :: documents[k]
  }

  /** Some application of `ids` is for the award. */
  predicate AwardOfSome(apps: map<int, Application>, ids: set<int>, award: int)
  {
    exists id :: id in ids && id in apps && apps[id].awardId == award
  }

  /** The awards with those of the applications of `ids` marked as previous. */
  function PreviousAwards(apps: map<int, Application>, awards: map<int, Award>, ids: set<int>): map<int, Award>
  {
    map w | w in awards :: if AwardOfSome(apps, ids, w) then awards[w].(previous := true) else awards[w]
  }

  /**
   * The sweep erases a borrower when, among the applications of `ids`, it
   * archives the last of the borrower's unarchived applications.
   */
  predicate ErasedBy(apps: map<int, Application>, ids: set<int>, borrower: int)
  {
    UnarchivedOf(apps, borrower) != {} && UnarchivedOf(apps, borrower) <= ids
  }

  /** The borrowers with those erased by archiving `ids` cleared. */
  function ErasedBorrowers(apps: map<int, Application>, borrowers: map<int, Borrower>, ids: set<int>)
    : map<int, Borrower>
  {
    map b | b in borrowers :: if ErasedBy(apps, ids, b) then ErasedBorrower(borrowers[b]) else borrowers[b]
  }

  /** Archiving `ids` leaves a borrower unarchived exactly its other unarchived applications. */
  lemma UnarchivedAfter(apps: map<int, Application>, ids: set<int>, now: Instant, borrower: int)
    ensures UnarchivedOf(ArchivedApps(apps, ids, now), borrower) == UnarchivedOf(apps, borrower) - ids
  {
    var after := ArchivedApps(apps, ids, now);
    forall id | id in UnarchivedOf(after, borrower)
      ensures id in UnarchivedOf(apps, borrower) - ids
    {
      assert id !in ids;
    }
  }

  /**
   * The retention sweep erases a borrower exactly when the borrower had an
   * unarchived application and has none left afterwards.
   */
  lemma ErasedIffNoneLeft(apps: map<int, Application>, now: Instant, s: Settings, borrower: int)
    ensures ErasedBy(apps, ArchiveDue(apps, now, s), borrower) <==>
      UnarchivedOf(apps, borrower) != {} && UnarchivedOf(ArchivedApps(apps, ArchiveDue(apps, now, s), now), borrower) == {}
  {
    var due := ArchiveDue(apps, now, s);
    UnarchivedAfter(apps, due, now, borrower);
    var u := UnarchivedOf(apps, borrower);
    if u - due == {} {
      forall id | id in u
        ensures id in due
      {
        assert id !in u - due;
      }
    }
  }

  /**
   * Archiving every application the sweep selects leaves none to archive,
   * and none of their documents.
   */
  lemma ArchiveSettles(apps: map<int, Application>, documents: map<int, Document>, now: Instant, s: Settings)
    ensures ArchiveDue(ArchivedApps(apps, ArchiveDue(apps, now, s), now), now, s) == {}
    ensures forall k :: k in KeptDocuments(documents, ArchiveDue(apps, now, s)) ==>
      documents[k].applicationId !in ArchiveDue(apps, now, s)
    ensures forall k :: k in documents && documents[k].applicationId !in ArchiveDue(apps, now, s) ==>
      k in KeptDocuments(documents, ArchiveDue(apps, now, s))
  {
    var after := ArchivedApps(apps, ArchiveDue(apps, now, s), now);
    forall id | id in after
      ensures !Archivable(after[id], now, s)
    {
      if id in ArchiveDue(apps, now, s) {
        assert !Unarchived(after[id]);
      } else {
        assert after[id] == apps[id];
      }
    }
  }

  /** One more archived application: its row, documents and award. */
  lemma ArchiveStep(apps: map<int, Application>, documents: map<int, Document>, awards: map<int, Award>,
                    ids: set<int>, x: int, now: Instant)
    requires x in apps && apps[x].awardId in awards
    ensures ArchivedApps(apps, ids + {x}, now) == ArchivedApps(apps, ids, now)[x := ArchivedRow(apps[x], now)]
    ensures KeptDocuments(documents, ids + {x}) == KeptDocuments(KeptDocuments(documents, ids), {x})
    ensures var w := apps[x].awardId;
      PreviousAwards(apps, awards, ids + {x}) == PreviousAwards(apps, awards, ids)[w := awards[w].(previous := true)]
  {
    var w := apps[x].awardId;
    assert AwardOfSome(apps, ids + {x}, w);
    forall v | v in awards && v != w
      ensures AwardOfSome(apps, ids + {x}, v) == AwardOfSome(apps, ids, v)
    {
      if AwardOfSome(apps, ids + {x}, v) {
        var id :| id in ids + {x} && id in apps && apps[id].awardId == v;
        assert id in ids;
      }
    }
  }

  /** One more archived application: its borrower is erased when that was its last unarchived one. */
  lemma EraseStep(apps: map<int, Application>, borrowers: map<int, Borrower>, ids: set<int>, x: int)
    requires x in apps && x !in ids && Unarchived(apps[x]) && apps[x].borrowerId in borrowers
    ensures var b := apps[x].borrowerId;
      && ErasedBorrowers(apps, borrowers, ids)[b] == borrowers[b]
      && ErasedBorrowers(apps, borrowers, ids + {x}) ==
           if UnarchivedOf(apps, b) <= ids + {x} then ErasedBorrowers(apps, borrowers, ids)[b := ErasedBorrower(borrowers[b])]
           else ErasedBorrowers(apps, borrowers, ids)
  {
    var b := apps[x].borrowerId;
    assert x in UnarchivedOf(apps, b);
    forall c | c in borrowers && c != b
      ensures ErasedBy(apps, ids + {x}, c) == ErasedBy(apps, ids, c)
    {
      assert x !in UnarchivedOf(apps, c);
    }
  }

  /**
   * Whether the borrower has an unarchived application other than `x`, as
   * the sweep's existence query asks.
   */
  method HasOtherUnarchived(apps: map<int, Application>, x: int, borrower: int) returns (found: bool)
    ensures found <==> exists k :: k in apps && k != x && apps[k].borrowerId == borrower && Unarchived(apps[k])
  {
    var todo := apps.Keys;
    while |todo| > 0
      invariant todo <= apps.Keys
      invariant forall k :: k in apps && k !in todo && k != x ==> !(apps[k].borrowerId == borrower && Unarchived(apps[k]))
      decreases |todo|
    {
      var k := Pick(todo);
      if k != x && apps[k].borrowerId == borrower && Unarchived(apps[k]) {
        return true;
      }
      todo := todo - {k};
    }
    found := false;
  }

  /** Marking an award as previous keeps the store consistent. */
  method MarkPrevious(db: Database, w: int)
    requires db.Valid() && w in db.awards
    modifies db`awards
    ensures db.Valid()
    ensures db.awards == old(db.awards)[w := old(db.awards)[w].(previous := true)]
  {
    db.awards := db.awards[w := db.awards[w].(previous := true)];
    assert db.awards.Keys == old(db.awards).Keys;
  }

  /** Deleting an application's documents keeps the store consistent. */
  method DeleteDocuments(db: Database, x: int)
    requires db.Valid()
    modifies db`documents
    ensures db.Valid()
    ensures db.documents == KeptDocuments(old(db.documents), {x})
  {
    db.documents := KeptDocuments(db.documents, {x});
  }

  /** Erasing a borrower's personal data keeps the store consistent. */
  method EraseBorrower(db: Database, b: int)
    requires db.Valid() && b in db.borrowers
    modifies db`borrowers
    ensures db.Valid()
    ensures db.borrowers == old(db.borrowers)[b := ErasedBorrower(old(db.borrowers)[b])]
  {
    ghost var borrowers := db.borrowers;
    db.borrowers := db.borrowers[b := ErasedBorrower(db.borrowers[b])];
    assert forall c :: c in db.borrowers ==> db.borrowers[c].borrowerIdentifier == borrowers[c].borrowerIdentifier;
  }

  /**
   * Archiving one application: its award becomes previous, its address is
   * cleared, it is archived now and its documents are deleted; its borrower
   * is erased when no other unarchived application of that borrower is left.
   */
  method ArchiveOne(db: Database, x: int, now: Instant) returns (ghost erased: bool)
    requires db.Valid() && x in db.applications
    modifies db`applications, db`awards, db`documents, db`borrowers
    ensures db.Valid()
    ensures var a := old(db.applications)[x];
      && db.applications == old(db.applications)[x := ArchivedRow(a, now)]
      && db.awards == old(db.awards)[a.awardId := old(db.awards)[a.awardId].(previous := true)]
      && db.documents == KeptDocuments(old(db.documents), {x})
      && (erased <==> UnarchivedOf(db.applications, a.borrowerId) == {})
      && db.borrowers == if erased then old(db.borrowers)[a.borrowerId := ErasedBorrower(old(db.borrowers)[a.borrowerId])]
                         else old(db.borrowers)
  {
    var a := db.applications[x];
    MarkPrevious(db, a.awardId);
    SetApplication(db, x, ArchivedRow(a, now));
    DeleteDocuments(db, x);
    var other := HasOtherUnarchived(db.applications, x, a.borrowerId);
    erased := !other;
    if other {
      ghost var k :| k in db.applications && k != x && db.applications[k].borrowerId == a.borrowerId
                     && Unarchived(db.applications[k]);
      assert k in UnarchivedOf(db.applications, a.borrowerId);
    } else {
      assert forall k :: k in UnarchivedOf(db.applications, a.borrowerId) ==> k == x;
      EraseBorrower(db, a.borrowerId);
    }
  }

  /**
   * Erasing dated data: every closed application past the retention period
   * is archived (award previous, address cleared, documents deleted), and a
   * borrower is erased once its last unarchived application is archived. A
   * failure stops the sweep; the applications archived before it stay so.
   */
  method RemoveDatedApplicationData(db: Database, now: Instant, s: Settings, failing: set<int>)
    returns (r: Outcome, ghost archived: set<int>)
    requires db.Valid()
    modifies db`applications, db`awards, db`documents, db`borrowers
    ensures db.Valid()
    ensures archived <= ArchiveDue(old(db.applications), now, s) && archived !! failing
    ensures db.applications == ArchivedApps(old(db.applications), archived, now)
    ensures db.documents == KeptDocuments(old(db.documents), archived)
    ensures db.awards == PreviousAwards(old(db.applications), old(db.awards), archived)
    ensures db.borrowers == ErasedBorrowers(old(db.applications), old(db.borrowers), archived)
    ensures r == Pass <==> ArchiveDue(old(db.applications), now, s) !! failing
    ensures r.Fail? ==> r == Fail(Crash)
    ensures r == Pass ==> archived == ArchiveDue(old(db.applications), now, s) && ArchiveDue(db.applications, now, s) == {}
  {
    ghost var apps := db.applications;
    ghost var documents := db.documents;
    ghost var awards := db.awards;
    ghost var borrowers := db.borrowers;
    var due := ArchiveDue(db.applications, now, s);
    var todo := due;
    assert due - todo == {};
    assert db.applications == ArchivedApps(apps, {}, now);
    assert db.documents == KeptDocuments(documents, {});
    assert db.awards == PreviousAwards(apps, awards, {});
    assert db.borrowers == ErasedBorrowers(apps, borrowers, {});
    while |todo| > 0
      invariant todo <= due
      invariant (due - todo) !! failing
      invariant db.Valid()
      invariant Retained(db, apps, documents, awards, borrowers, due - todo, now)
      decreases |todo|
    {
      var x := Pick(todo);
      if x in failing {
        break;
      }
      ArchiveRound(db, apps, documents, awards, borrowers, due, todo, x, now);
      todo := todo - {x};
    }
    archived := due - todo;
    if |todo| > 0 {
      return Fail(Crash), archived;
    }
    assert archived == due;
    ArchiveSettles(apps, documents, now, s);
    r := Pass;
  }

  /** The store after the retention sweep archived `ids` of the applications `apps`. */
  ghost predicate Retained(db: Database, apps: map<int, Application>, documents: map<int, Document>,
                           awards: map<int, Award>, borrowers: map<int, Borrower>, ids: set<int>, now: Instant)
    reads db
  {
    && db.applications == ArchivedApps(apps, ids, now)
    && db.documents == KeptDocuments(documents, ids)
    && db.awards == PreviousAwards(apps, awards, ids)
    && db.borrowers == ErasedBorrowers(apps, borrowers, ids)
  }

  /** One round of the retention sweep keeps the sweep's invariant. */
  method ArchiveRound(db: Database, ghost apps: map<int, Application>, ghost documents: map<int, Document>,
                      ghost awards: map<int, Award>, ghost borrowers: map<int, Borrower>, ghost due: set<int>,
                      ghost todo: set<int>, x: int, now: Instant)
    requires db.Valid() && x in todo && todo <= due && x in apps && Unarchived(apps[x])
    requires Retained(db, apps, documents, awards, borrowers, due - todo, now)
    modifies db`applications, db`awards, db`documents, db`borrowers
    ensures db.Valid()
    ensures Retained(db, apps, documents, awards, borrowers, due - (todo - {x}), now)
  {
    var archived := due - todo;
    assert due - (todo - {x}) == archived + {x};
    assert db.applications[x] == apps[x];
    assert apps[x].awardId in awards && apps[x].borrowerId in borrowers;
    ArchiveStep(apps, documents, awards, archived, x, now);
    EraseStep(apps, borrowers, archived, x);
    UnarchivedAfter(apps, archived + {x}, now, apps[x].borrowerId);
    var erased := ArchiveOne(db, x, now);
  }

  // ---------------------------------------------------------------------
  // Service-level warnings.

  /** The statuses in which an application is waiting on its lender. */
  const SlaStatuses: set<ApplicationStatus> := {ContractUploaded, Started}

  /** The applications the service-level sweep looks at. */
  function SlaCandidates(apps: map<int, Application>): set<int>
  {
    set id | id in apps && apps[id].status in SlaStatuses
  }

  /** The two ways of counting the days an application has waited on its lender. */
  datatype DayCount =
    | RecordCount  // the application record's count (Timeline.LenderWaitDays)
    | JobCount     // the background jobs' count (Timeline.DaysPassed)

  /**
   * The days the application has waited on its lender, counted the way `c`
   * says (an application the lender has not started waits no days).
   */
  function WaitingDays(id: int, a: Application, actions: seq<Action>, c: DayCount, now: Instant): int
  {
    if a.lenderStartedAt.None? then 0
    else
      var requests := ActionTimes(actions, id, FiRequestInformation);
      var answers := ActionTimes(actions, id, MsmeUploadAdditionalDocumentCompleted);
      match c
      case RecordCount => Timeline.LenderWaitDays(a.lenderStartedAt.value, requests, answers, now)
      case JobCount => Timeline.DaysPassed(a.lenderStartedAt.value, requests, answers, now)
  }

  /** An application waiting on its lender has a known lender and a start time. */
  predicate LenderKnown(a: Application, lenders: map<int, Lender>)
  {
    a.status in SlaStatuses ==> a.lenderId.Some? && a.lenderId.value in lenders && a.lenderStartedAt.Some?
  }

  /** The SLA days of the application's lender, if it has one. */
  function SlaDays(a: Application, lenders: map<int, Lender>): Option<int>
  {
    if a.lenderId.Some? && a.lenderId.value in lenders then Some(lenders[a.lenderId.value].slaDays) else None
  }

  /**
   * The application has used more than the reminder fraction of its
   * lender's SLA days: `days > sla * fraction`, with the fraction as
   * numerator over a positive denominator.
   */
  predicate NearDeadline(id: int, a: Application, lenders: map<int, Lender>, actions: seq<Action>, c: DayCount, now: Instant,
                         s: Settings)
  {
    var sla := SlaDays(a, lenders);
    sla.Some? && BeyondFraction(WaitingDays(id, a, actions, c, now), sla.value, s)
  }

  /** `days` exceeds the reminder fraction of `sla` days. */
  predicate BeyondFraction(days: int, sla: int, s: Settings)
  {
    days * s.progressToRemindDenominator > sla * s.progressToRemindNumerator
  }

  /** Near its deadline and past all of its lender's SLA days. */
  predicate PastDeadline(id: int, a: Application, lenders: map<int, Lender>, actions: seq<Action>, c: DayCount, now: Instant,
                         s: Settings)
  {
    NearDeadline(id, a, lenders, actions, c, now, s) && WaitingDays(id, a, actions, c, now) > SlaDays(a, lenders).value
  }

  /** The count recorded for a lender, zero when none is. */
  function Count(counts: map<int, nat>, lender: int): nat
  {
    if lender in counts then counts[lender] else 0
  }

  /** The sweep's count of applications near their deadline per lender, over `order`. */
  function Tally(apps: map<int, Application>, lenders: map<int, Lender>, actions: seq<Action>, c: DayCount, order: seq<int>,
                 now: Instant, s: Settings): map<int, nat>
  {
    if order == [] then map[]
    else
      var counts := Tally(apps, lenders, actions, c, order[..|order| - 1], now, s);
      var id := order[|order| - 1];
      if id in apps && NearDeadline(id, apps[id], lenders, actions, c, now, s) then
        counts[apps[id].lenderId.value := Count(counts, apps[id].lenderId.value) + 1]
      else counts
  }

  /** The applications of `order` near their deadline for the lender. */
  function NearFor(apps: map<int, Application>, lenders: map<int, Lender>, actions: seq<Action>, c: DayCount, order: seq<int>,
                   now: Instant, s: Settings, lender: int): set<int>
  {
    set id | id in order && id in apps && NearDeadline(id, apps[id], lenders, actions, c, now, s)
                          && apps[id].lenderId == Some(lender)
  }

  /**
   * The count the sweep reports for a lender is the number of that
   * lender's applications near their deadline, each counted once.
   */
  lemma {:induction false} TallyCounts(apps: map<int, Application>, lenders: map<int, Lender>, actions: seq<Action>, c: DayCount,
                                       order: seq<int>, now: Instant, s: Settings, lender: int)
    requires Distinct(order)
    ensures Count(Tally(apps, lenders, actions, c, order, now, s), lender) == |NearFor(apps, lenders, actions, c, order, now, s, lender)|
  {
    if order == [] {
      assert NearFor(apps, lenders, actions, c, order, now, s, lender) == {};
    } else {
      var prefix := order[..|order| - 1];
      var id := order[|order| - 1];
      assert order == prefix + [id];
      assert Distinct(prefix) && id !in prefix;
      TallyCounts(apps, lenders, actions, c, prefix, now, s, lender);
      NearForNext(apps, lenders, actions, c, prefix, id, now, s, lender);
    }
  }

  /** Handling one more application adds it to its lender's near-deadline set, if it belongs there. */
  lemma NearForNext(apps: map<int, Application>, lenders: map<int, Lender>, actions: seq<Action>, c: DayCount,
                    prefix: seq<int>, id: int, now: Instant, s: Settings, lender: int)
    requires id !in prefix
    ensures var counted := id in apps && NearDeadline(id, apps[id], lenders, actions, c, now, s)
                           && apps[id].lenderId == Some(lender);
      var before := NearFor(apps, lenders, actions, c, prefix, now, s, lender);
      && NearFor(apps, lenders, actions, c, prefix + [id], now, s, lender) == before + (if counted then {id} else {})
      && id !in before
  {
  }

  /** The applications of `order` past their deadline. */
  function PastIn(apps: map<int, Application>, lenders: map<int, Lender>, actions: seq<Action>, c: DayCount, order: seq<int>,
                  now: Instant, s: Settings): set<int>
  {
    set id | id in order && id in apps && PastDeadline(id, apps[id], lenders, actions, c, now, s)
  }

  /** The applications with those of `ids` stamped overdue now. */
  function OverduedApps(apps: map<int, Application>, ids: set<int>, now: Instant): map<int, Application>
  {
    map id | id in apps :: if id in ids then apps[id].(overduedAt := Some(now)) else apps[id]
  }

  /** The notices to staff, one per application of `order` past its deadline, in order. */
  function OverdueNotices(apps: map<int, Application>, lenders: map<int, Lender>, actions: seq<Action>, c: DayCount,
                          order: seq<int>, now: Instant, s: Settings): (r: seq<Message>)
    ensures forall i :: 0 <= i < |r| ==>
      && r[i].kind == OverdueApplication && r[i].lenderId.None?
      && r[i].applicationId in PastIn(apps, lenders, actions, c, order, now, s)
  {
    if order == [] then []
    else
      var id := order[|order| - 1];
      OverdueNotices(apps, lenders, actions, c, order[..|order| - 1], now, s)
        + if id in apps && PastDeadline(id, apps[id], lenders, actions, c, now, s)
          then [Message(id, OverdueApplication, "", None)] else []
  }

  /**
   * The notices to lenders, one per notified lender, all attached to the
   * application `last`. The row does not record the lender: its lender id
   * stays None, so only their number and order follow `notified`.
   */
  function LenderNotices(notified: seq<int>, last: int): (r: seq<Message>)
    ensures |r| == |notified|
    ensures forall i :: 0 <= i < |r| ==> r[i] == Message(last, OverdueApplication, "", None)
  {
    if notified == [] then []
    else LenderNotices(notified[..|notified| - 1], last) + [Message(last, OverdueApplication, "", None)]
  }

  /** Handling one more application extends the counts, the overdue set and the staff notices by its own. */
  lemma SlaStep(apps: map<int, Application>, lenders: map<int, Lender>, actions: seq<Action>, c: DayCount, order: seq<int>,
                id: int, now: Instant, s: Settings)
    requires id in apps
    ensures var next := order + [id];
      var near := NearDeadline(id, apps[id], lenders, actions, c, now, s);
      var past := PastDeadline(id, apps[id], lenders, actions, c, now, s);
      var counts := Tally(apps, lenders, actions, c, order, now, s);
      && Tally(apps, lenders, actions, c, next, now, s) ==
           (if near then counts[apps[id].lenderId.value := Count(counts, apps[id].lenderId.value) + 1] else counts)
      && PastIn(apps, lenders, actions, c, next, now, s) ==
           PastIn(apps, lenders, actions, c, order, now, s) + (if past then {id} else {})
      && OverdueNotices(apps, lenders, actions, c, next, now, s) ==
           OverdueNotices(apps, lenders, actions, c, order, now, s)
             + (if past then [Message(id, OverdueApplication, "", None)] else [])
  {
    var next := order + [id];
    assert next[..|next| - 1] == order;
  }

  /** Stamping one more application overdue. */
  lemma OverduedStep(apps: map<int, Application>, ids: set<int>, id: int, now: Instant)
    requires id in apps
    ensures OverduedApps(apps, ids + {id}, now) == OverduedApps(apps, ids, now)[id := apps[id].(overduedAt := Some(now))]
  {
  }

  /** The sweep's state after handling the applications of `order`. */
  ghost predicate Swept(current: map<int, Application>, sent: seq<Message>, counts: map<int, nat>,
                        apps: map<int, Application>, messages: seq<Message>, lenders: map<int, Lender>,
                        actions: seq<Action>, c: DayCount, order: seq<int>, now: Instant, s: Settings)
  {
    && current == OverduedApps(apps, PastIn(apps, lenders, actions, c, order, now, s), now)
    && sent == messages + OverdueNotices(apps, lenders, actions, c, order, now, s)
    && counts == Tally(apps, lenders, actions, c, order, now, s)
  }

  /** Handling one more application keeps the sweep's state in step with `order`. */
  lemma SweptStep(current: map<int, Application>, sent: seq<Message>, counts: map<int, nat>,
                  apps: map<int, Application>, messages: seq<Message>, lenders: map<int, Lender>,
                  actions: seq<Action>, c: DayCount, order: seq<int>, id: int, now: Instant, s: Settings)
    requires Swept(current, sent, counts, apps, messages, lenders, actions, c, order, now, s)
    requires id in apps && id !in order
    ensures id in current && current[id] == apps[id]
    ensures var a := apps[id];
      var near := NearDeadline(id, a, lenders, actions, c, now, s);
      var past := PastDeadline(id, a, lenders, actions, c, now, s);
      Swept(if past then current[id := a.(overduedAt := Some(now))] else current,
            sent + (if past then [Message(id, OverdueApplication, "", None)] else []),
            if near then counts[a.lenderId.value := Count(counts, a.lenderId.value) + 1] else counts,
            apps, messages, lenders, actions, c, order + [id], now, s)
  {
    SlaStep(apps, lenders, actions, c, order, id, now, s);
    OverduedStep(apps, PastIn(apps, lenders, actions, c, order, now, s), id, now);
  }

  /**
   * One application of the service-level sweep, `a` being the stored row:
   * when it is near its deadline its lender's count goes up, and when it is
   * past it the row is stamped overdue and staff are notified.
   */
  method SlaRound(current: map<int, Application>, sent: seq<Message>, counts: map<int, nat>, id: int,
                  a: Application, lenders: map<int, Lender>, actions: seq<Action>, c: DayCount, now: Instant, s: Settings)
    returns (current': map<int, Application>, sent': seq<Message>, counts': map<int, nat>)
    requires a.lenderId.Some? && a.lenderId.value in lenders && a.lenderStartedAt.Some?
    ensures var near := NearDeadline(id, a, lenders, actions, c, now, s);
      var past := PastDeadline(id, a, lenders, actions, c, now, s);
      && counts' == (if near then counts[a.lenderId.value := Count(counts, a.lenderId.value) + 1] else counts)
      && current' == (if past then current[id := a.(overduedAt := Some(now))] else current)
      && sent' == sent + (if past then [Message(id, OverdueApplication, "", None)] else [])
  {
    var lender := a.lenderId.value;
    var sla := lenders[lender].slaDays;
    var requests := ActionTimes(actions, id, FiRequestInformation);
    var answers := ActionTimes(actions, id, MsmeUploadAdditionalDocumentCompleted);
    var days;
    if c == RecordCount {
      days := Timeline.DaysWaitingForLender(a.lenderStartedAt.value, requests, answers, now);
    } else {
      days := Timeline.GetApplicationDaysPassed(a.lenderStartedAt.value, requests, answers, now);
    }
    assert days == WaitingDays(id, a, actions, c, now) && SlaDays(a, lenders) == Some(sla);
    counts', current', sent' := counts, current, sent;
    if BeyondFraction(days, sla, s) {
      counts' := counts[lender := Count(counts, lender) + 1];
      if days > sla {
        current' := current[id := a.(overduedAt := Some(now))];
        sent' := sent + [Message(id, OverdueApplication, "", None)];
      }
    }
  }

  /** Stamping applications overdue keeps their uuids and links. */
  lemma OverduedLinked(apps: map<int, Application>, ids: set<int>, now: Instant, borrowers: map<int, Borrower>,
                       awards: map<int, Award>, lenders: map<int, Lender>)
    requires UuidsUnique(apps) && forall id :: id in apps ==> ApplicationLinked(apps[id], borrowers, awards, lenders)
    ensures var after := OverduedApps(apps, ids, now);
      && after.Keys == apps.Keys
      && UuidsUnique(after)
      && forall id :: id in after ==> ApplicationLinked(after[id], borrowers, awards, lenders)
  {
    var after := OverduedApps(apps, ids, now);
    assert forall id :: id in after ==> after[id].uuid == apps[id].uuid;
  }

  /** Handling one more application of the first pass keeps the sweep's state in step. */
  method MeasureNext(current: map<int, Application>, sent: seq<Message>, counts: map<int, nat>,
                     ghost apps: map<int, Application>, ghost messages: seq<Message>, lenders: map<int, Lender>,
                     actions: seq<Action>, c: DayCount, ghost order: seq<int>, id: int, now: Instant, s: Settings)
    returns (current': map<int, Application>, sent': seq<Message>, counts': map<int, nat>)
    requires Swept(current, sent, counts, apps, messages, lenders, actions, c, order, now, s)
    requires id in apps && id !in order && apps[id].status in SlaStatuses && LenderKnown(apps[id], lenders)
    ensures Swept(current', sent', counts', apps, messages, lenders, actions, c, order + [id], now, s)
  {
    SweptStep(current, sent, counts, apps, messages, lenders, actions, c, order, id, now, s);
    current', sent', counts' := SlaRound(current, sent, counts, id, current[id], lenders, actions, c, now, s);
  }

  /**
   * The first pass of the service-level sweep over the stored rows `apps`
   * and the message log `messages`: each application waiting on its lender
   * is measured, counted and, when past its deadline, stamped and reported
   * to staff. A failure stops the pass, keeping what the applications
   * handled before it changed.
   */
  method MeasureAll(apps: map<int, Application>, messages: seq<Message>, lenders: map<int, Lender>,
                    actions: seq<Action>, c: DayCount, now: Instant, s: Settings, failing: set<int>)
    returns (r: Outcome, current: map<int, Application>, sent: seq<Message>, counts: map<int, nat>, last: int,
             ghost order: seq<int>)
    requires forall id :: id in apps ==> LenderKnown(apps[id], lenders)
    ensures Distinct(order)
    ensures forall i :: 0 <= i < |order| ==> order[i] in SlaCandidates(apps) && order[i] !in failing
    ensures r == Pass <==> SlaCandidates(apps) !! failing
    ensures r.Fail? ==> r == Fail(Crash)
    ensures r == Pass ==> forall id :: id in SlaCandidates(apps) ==> id in order
    ensures order != [] ==> last == order[|order| - 1]
    ensures Swept(current, sent, counts, apps, messages, lenders, actions, c, order, now, s)
  {
    var candidates := SlaCandidates(apps);
    var queue := Enumerate(candidates);
    current, sent, counts := apps, messages, map[];
    last := 0;
    r := Pass;
    assert current == OverduedApps(apps, {}, now);
    var i := 0;
    order := [];
    while i < |queue|
      invariant 0 <= i <= |queue| && order == queue[..i]
      invariant forall j :: 0 <= j < i ==> queue[j] !in failing
      invariant i > 0 ==> last == queue[i - 1]
      invariant Swept(current, sent, counts, apps, messages, lenders, actions, c, order, now, s)
    {
      var id := queue[i];
      if id in failing {
        r := Fail(Crash);
        break;
      }
      assert id !in order;
      current, sent, counts := MeasureNext(current, sent, counts, apps, messages, lenders, actions, c, order, id, now, s);
      order := order + [id];
      last := id;
      i := i + 1;
    }
    QueueDisjoint(queue, candidates, failing, i);
  }

  /** A pass over a listing of `candidates` meets a failing one exactly when they are not disjoint. */
  lemma QueueDisjoint(queue: seq<int>, candidates: set<int>, failing: set<int>, i: int)
    requires Enumerates(queue, candidates) && 0 <= i <= |queue|
    requires forall j :: 0 <= j < i ==> queue[j] !in failing
    ensures i == |queue| ==> candidates !! failing
    ensures i < |queue| && queue[i] in failing ==> !(candidates !! failing)
  {
    if i == |queue| {
      forall c | c in candidates
        ensures c !in failing
      {
        var j :| 0 <= j < |queue| && queue[j] == c;
      }
    }
    if i < |queue| && queue[i] in failing {
      assert queue[i] in candidates * failing;
    }
  }

  /** Storing the applications after the first pass keeps the store consistent. */
  method StoreMeasured(db: Database, current: map<int, Application>, sent: seq<Message>, ghost ids: set<int>,
                       now: Instant)
    requires db.Valid() && current == OverduedApps(db.applications, ids, now)
    modifies db`applications, db`messages
    ensures db.Valid() && db.applications == current && db.messages == sent
  {
    OverduedLinked(db.applications, ids, now, db.borrowers, db.awards, db.lenders);
    db.applications := current;
    db.messages := sent;
  }

  /** The first pass of the service-level sweep, on the store. */
  method SlaMeasure(db: Database, c: DayCount, now: Instant, s: Settings, failing: set<int>)
    returns (r: Outcome, counts: map<int, nat>, last: int, ghost order: seq<int>)
    requires db.Valid()
    modifies db`applications, db`messages
    ensures db.Valid()
    ensures Distinct(order)
    ensures forall i :: 0 <= i < |order| ==> order[i] in SlaCandidates(old(db.applications)) && order[i] !in failing
    ensures r == Pass <==> SlaCandidates(old(db.applications)) !! failing
    ensures r.Fail? ==> r == Fail(Crash)
    ensures r == Pass ==> forall id :: id in SlaCandidates(old(db.applications)) ==> id in order
    ensures order != [] ==> last == order[|order| - 1]
    ensures Swept(db.applications, db.messages, counts, old(db.applications), old(db.messages), db.lenders, db.actions, c,
                  order, now, s)
  {
    var current, sent;
    r, current, sent, counts, last, order := MeasureAll(db.applications, db.messages, db.lenders, db.actions, c, now, s, failing);
    StoreMeasured(db, current, sent, PastIn(old(db.applications), db.lenders, db.actions, c, order, now, s), now);
  }

  /** A nonempty count exists only once some application was handled. */
  lemma TallyNonempty(apps: map<int, Application>, lenders: map<int, Lender>, actions: seq<Action>, c: DayCount, order: seq<int>,
                      now: Instant, s: Settings)
    requires Tally(apps, lenders, actions, c, order, now, s) != map[]
    ensures order != []
  {
  }

  /** Notifying one more lender. */
  lemma LenderNoticesNext(notified: seq<int>, l: int, last: int)
    ensures LenderNotices(notified + [l], last) == LenderNotices(notified, last) + [Message(last, OverdueApplication, "", None)]
  {
    assert (notified + [l])[..|notified|] == notified;
  }

  /** The second pass: one notice to each counted lender, attached to the application `last`. */
  method NotifyLenders(db: Database, counts: map<int, nat>, last: int) returns (ghost notified: seq<int>)
    modifies db`messages
    ensures Enumerates(notified, counts.Keys)
    ensures db.messages == old(db.messages) + LenderNotices(notified, last)
  {
    notified := [];
    var notices := [];
    var todo := counts.Keys;
    while |todo| > 0
      invariant todo <= counts.Keys
      invariant Enumerates(notified, counts.Keys - todo)
      invariant notices == LenderNotices(notified, last)
      invariant db.messages == old(db.messages)
      decreases |todo|
    {
      var l := Pick(todo);
      EnumeratesNext(notified, counts.Keys - todo, l);
      assert counts.Keys - todo + {l} == counts.Keys - (todo - {l});
      LenderNoticesNext(notified, l, last);
      notices := notices + [Message(last, OverdueApplication, "", None)];
      notified := notified + [l];
      todo := todo - {l};
    }
    db.messages := db.messages + notices;
  }

  /**
   * The service-level sweep: every application started by its lender or
   * with its contract uploaded is measured against its lender's SLA days.
   * Those near the deadline are counted per lender; those past it are
   * stamped overdue and staff are notified for each. Then each counted
   * lender gets one notice, attached to the last application handled. A
   * failure stops the sweep before any lender is notified.
   */
  method SlaOverdueApplications(db: Database, c: DayCount, now: Instant, s: Settings, failing: set<int>)
    returns (r: Outcome, counts: map<int, nat>, ghost order: seq<int>, ghost notified: seq<int>)
    requires db.Valid() && s.progressToRemindDenominator > 0
    modifies db`applications, db`messages
    ensures db.Valid()
    ensures Distinct(order)
    ensures forall i :: 0 <= i < |order| ==> order[i] in SlaCandidates(old(db.applications)) && order[i] !in failing
    ensures r == Pass <==> SlaCandidates(old(db.applications)) !! failing
    ensures r.Fail? ==> r == Fail(Crash) && notified == []
    ensures r == Pass ==> forall id :: id in SlaCandidates(old(db.applications)) ==> id in order
    ensures counts == Tally(old(db.applications), db.lenders, db.actions, c, order, now, s)
    ensures db.applications ==
      OverduedApps(old(db.applications), PastIn(old(db.applications), db.lenders, db.actions, c, order, now, s), now)
    ensures Distinct(notified) && (r == Pass ==> forall l :: l in counts <==> l in notified)
    ensures notified != [] ==> order != []
    ensures var staff := old(db.messages) + OverdueNotices(old(db.applications), db.lenders, db.actions, c, order, now, s);
      db.messages == if notified == [] then staff else staff + LenderNotices(notified, order[|order| - 1])
  {
    var last;
    r, counts, last, order := SlaMeasure(db, c, now, s, failing);
    notified := [];
    if r.Fail? {
      return;
    }
    notified := NotifyLenders(db, counts, last);
    if notified != [] {
      assert notified[0] in counts;
      TallyNonempty(old(db.applications), db.lenders, db.actions, c, order, now, s);
    }
  }
}
