/**
 * The background jobs' own versions of the application helpers: creating
 * an invited application, the date-based selections written as lists of
 * (status, timestamp) pairs, the reminder selections written as queries
 * that exclude the applications already holding a reminder, and the
 * overdue-reminder job, which runs the service-level sweep with the
 * background jobs' day count.
 */
module BackgroundApplications {
  import opened Base
  import opened Models
  import Sweeps
  import Commands
  import Timeline

  // ---------------------------------------------------------------------
  // Creating an application.

  /**
   * Creating the application for an award and a borrower: it is skipped
   * when an application with the key `hash(legal identifier + source
   * contract id)` is stored (or, as the store's unique constraint would,
   * when the derived uuid is taken); otherwise a pending application is
   * stored under a fresh id, keyed and with its uuid derived from the key,
   * the borrower's e-mail, and an invitation that expires after the
   * configured number of days.
   */
  method CreateApplication(db: Database, awardId: int, borrowerId: int, email: string, legalIdentifier: string,
                           sourceContractId: string, hash: string -> string, generateUuid: string -> string,
                           now: Instant, s: Settings) returns (r: Result<int>)
    requires db.Valid() && awardId in db.awards && borrowerId in db.borrowers
    modifies db`applications, db`nextId
    ensures db.Valid()
    ensures var key := hash(legalIdentifier + sourceContractId);
      && (!Commands.KeyFree(old(db.applications), key) ==> r == Err(Skipped(ApplicationExists)))
      && (r.Ok? <==> Commands.KeyFree(old(db.applications), key)
                     && forall k :: k in old(db.applications) ==> old(db.applications)[k].uuid != generateUuid(key))
    ensures r.Err? ==> db.applications == old(db.applications)
    ensures r.Ok? ==>
      var key := hash(legalIdentifier + sourceContractId);
      && r.value !in old(db.applications)
      && db.applications == old(db.applications)[r.value := NewApplication(generateUuid(key), awardId, borrowerId, key,
                                                                            email, Pending, now)
                                                           .(expiredAt := Some(now + s.applicationExpirationDays * SecondsPerDay))]
  {
    var key := hash(legalIdentifier + sourceContractId);
    var uuid := generateUuid(key);
    var taken := Commands.ApplicationTaken(db, key, uuid);
    if taken.Fail? {
      return Err(taken.error);
    }
    var id := db.nextId;
    var app := NewApplication(uuid, awardId, borrowerId, key, email, Pending, now)
               .(expiredAt := Some(now + s.applicationExpirationDays * SecondsPerDay));
    db.applications := db.applications[id := app];
    db.nextId := db.nextId + 1;
    r := Ok(id);
  }

  /**
   * Creating the same application twice: the second attempt is always
   * skipped, and when the first one created the application the second
   * finds it.
   */
  method CreateTwice(db: Database, awardId: int, borrowerId: int, email: string, legalIdentifier: string,
                     sourceContractId: string, hash: string -> string, generateUuid: string -> string,
                     now: Instant, s: Settings) returns (first: Result<int>, second: Result<int>)
    requires db.Valid() && awardId in db.awards && borrowerId in db.borrowers
    modifies db`applications, db`nextId
    ensures second.Err? && (first.Ok? ==> second == Err(Skipped(ApplicationExists)))
  {
    first := CreateApplication(db, awardId, borrowerId, email, legalIdentifier, sourceContractId, hash, generateUuid,
                               now, s);
    var key := hash(legalIdentifier + sourceContractId);
    if first.Ok? {
      var id := first.value;
      assert id in db.applications;
      assert db.applications[id].awardBorrowerIdentifier == key;
      assert !Commands.KeyFree(db.applications, key);
    } else {
      assert !(Commands.KeyFree(db.applications, key)
               && forall k :: k in db.applications ==> db.applications[k].uuid != generateUuid(key));
    }
    second := CreateApplication(db, awardId, borrowerId, email, legalIdentifier, sourceContractId, hash, generateUuid,
                                now, s);
  }

  // ---------------------------------------------------------------------
  // Date-based selections, as (status, timestamp) pairs.

  /** A status and the timestamp a date-based selection compares for it. */
  type Dated = (ApplicationStatus, Application -> Option<Instant>)

  /** The closed statuses and the instant each was reached. */
  const DatedPairs: seq<Dated> := [
    (Declined, (a: Application) => a.borrowerDeclinedAt),
    (Rejected, (a: Application) => a.lenderRejectedAt),
    (Completed, (a: Application) => a.lenderApprovedAt),
    (Lapsed, (a: Application) => a.applicationLapsedAt)]

  /** The statuses that wait on the borrower and the instant each was reached. */
  const LapsedPairs: seq<Dated> := [
    (Pending, (a: Application) => Some(a.createdAt)),
    (Accepted, (a: Application) => a.borrowerAcceptedAt),
    (InformationRequested, (a: Application) => a.informationRequestedAt)]

  /** Some pair names the application's status and a timestamp more than `days` days before now. */
  predicate MatchesPair(a: Application, pairs: seq<Dated>, days: int, now: Instant)
  {
    exists i :: 0 <= i < |pairs| && a.status == pairs[i].0 && OlderThan(pairs[i].1(a), days, now)
  }

  /** The unarchived applications closed for longer than the retention period. */
  function GetDatedApplications(apps: map<int, Application>, now: Instant, s: Settings): set<int>
  {
    set id | id in apps && MatchesPair(apps[id], DatedPairs, s.daysToEraseBorrowerData, now) && Unarchived(apps[id])
  }

  /** The unarchived applications left waiting on the borrower for longer than the lapse period. */
  function GetLapsedApplications(apps: map<int, Application>, now: Instant, s: Settings): set<int>
  {
    set id | id in apps && MatchesPair(apps[id], LapsedPairs, s.daysToChangeToLapsed, now) && Unarchived(apps[id])
  }

  lemma DatedPairsMatch(a: Application, days: int, now: Instant)
    ensures MatchesPair(a, DatedPairs, days, now) <==>
      || (a.status == Declined && OlderThan(a.borrowerDeclinedAt, days, now))
      || (a.status == Rejected && OlderThan(a.lenderRejectedAt, days, now))
      || (a.status == Completed && OlderThan(a.lenderApprovedAt, days, now))
      || (a.status == Lapsed && OlderThan(a.applicationLapsedAt, days, now))
  {
    if a.status == Declined && OlderThan(a.borrowerDeclinedAt, days, now) {
      assert DatedPairs[0].1(a) == a.borrowerDeclinedAt;
    } else if a.status == Rejected && OlderThan(a.lenderRejectedAt, days, now) {
      assert DatedPairs[1].1(a) == a.lenderRejectedAt;
    } else if a.status == Completed && OlderThan(a.lenderApprovedAt, days, now) {
      assert DatedPairs[2].1(a) == a.lenderApprovedAt;
    } else if a.status == Lapsed && OlderThan(a.applicationLapsedAt, days, now) {
      assert DatedPairs[3].1(a) == a.applicationLapsedAt;
    }
  }

  lemma LapsedPairsMatch(a: Application, days: int, now: Instant)
    ensures MatchesPair(a, LapsedPairs, days, now) <==>
      || (a.status == Pending && a.createdAt + days * SecondsPerDay < now)
      || (a.status == Accepted && OlderThan(a.borrowerAcceptedAt, days, now))
      || (a.status == InformationRequested && OlderThan(a.informationRequestedAt, days, now))
  {
    if a.status == Pending && a.createdAt + days * SecondsPerDay < now {
      assert LapsedPairs[0].1(a) == Some(a.createdAt);
    } else if a.status == Accepted && OlderThan(a.borrowerAcceptedAt, days, now) {
      assert LapsedPairs[1].1(a) == a.borrowerAcceptedAt;
    } else if a.status == InformationRequested && OlderThan(a.informationRequestedAt, days, now) {
      assert LapsedPairs[2].1(a) == a.informationRequestedAt;
    }
  }

  /** The job's dated selection is exactly the set the retention sweep archives. */
  lemma DatedAreArchivable(apps: map<int, Application>, now: Instant, s: Settings)
    ensures GetDatedApplications(apps, now, s) == Sweeps.ArchiveDue(apps, now, s)
  {
    forall id | id in apps
      ensures id in GetDatedApplications(apps, now, s) <==> id in Sweeps.ArchiveDue(apps, now, s)
    {
      DatedPairsMatch(apps[id], s.daysToEraseBorrowerData, now);
    }
  }

  /** The job's lapsed selection is exactly the set the lapse sweep lapses. */
  lemma LapsedAreLapseable(apps: map<int, Application>, now: Instant, s: Settings)
    ensures GetLapsedApplications(apps, now, s) == Sweeps.LapseDue(apps, now, s)
  {
    forall id | id in apps
      ensures id in GetLapsedApplications(apps, now, s) <==> id in Sweeps.LapseDue(apps, now, s)
    {
      LapsedPairsMatch(apps[id], s.daysToChangeToLapsed, now);
    }
  }

  // ---------------------------------------------------------------------
  // Reminder selections, as queries.

  /** The applications some message of the kind is attached to. */
  function MessagedIds(messages: seq<Message>, kind: MessageType): set<int>
  {
    set i | 0 <= i < |messages| && messages[i].kind == kind :: messages[i].applicationId
  }

  /** Whether the invitation expires after now, within the reminder horizon. */
  predicate ExpiresWithin(expiredAt: Option<Instant>, now: Instant, s: Settings)
  {
    expiredAt.Some? && expiredAt.value > now && expiredAt.value <= now + s.reminderDaysBeforeExpiration * SecondsPerDay
  }

  /**
   * Pending applications, joined with their borrower and award, expiring
   * within the horizon, whose borrower is active and which hold no
   * introduction reminder.
   */
  function GetApplicationsToRemindIntro(apps: map<int, Application>, borrowers: map<int, Borrower>,
                                        awards: map<int, Award>, messages: seq<Message>, now: Instant,
                                        s: Settings): set<int>
  {
    set id | id in apps && apps[id].borrowerId in borrowers && apps[id].awardId in awards
             && apps[id].status == Pending && ExpiresWithin(apps[id].expiredAt, now, s)
             && id !in MessagedIds(messages, BorrowerPendingApplicationReminder)
             && borrowers[apps[id].borrowerId].status == Active
  }

  /** Accepted applications expiring within the horizon which hold no submission reminder. */
  function GetApplicationsToRemindSubmit(apps: map<int, Application>, messages: seq<Message>, now: Instant,
                                         s: Settings): set<int>
  {
    set id | id in apps && apps[id].status == Accepted && ExpiresWithin(apps[id].expiredAt, now, s)
             && id !in MessagedIds(messages, BorrowerPendingSubmitReminder)
  }

  /** An application is among those messaged with the kind exactly when it holds such a message. */
  lemma MessagedIff(messages: seq<Message>, kind: MessageType, id: int)
    ensures id in MessagedIds(messages, kind) <==> HasMessage(messages, id, kind)
  {
    if HasMessage(messages, id, kind) {
      var i :| 0 <= i < |messages| && messages[i].applicationId == id && messages[i].kind == kind;
      assert messages[i].applicationId in MessagedIds(messages, kind);
    }
  }

  /** The job's introduction query selects exactly the applications the reminder sweep reminds. */
  lemma RemindIntroIsDue(apps: map<int, Application>, borrowers: map<int, Borrower>, awards: map<int, Award>,
                         messages: seq<Message>, now: Instant, s: Settings)
    ensures GetApplicationsToRemindIntro(apps, borrowers, awards, messages, now, s)
         == Sweeps.IntroductionDue(apps, borrowers, awards, messages, now, s)
  {
    forall id | id in apps
      ensures id in GetApplicationsToRemindIntro(apps, borrowers, awards, messages, now, s)
          <==> id in Sweeps.IntroductionDue(apps, borrowers, awards, messages, now, s)
    {
      MessagedIff(messages, BorrowerPendingApplicationReminder, id);
    }
  }

  /** The job's submission query selects exactly the applications the reminder sweep reminds. */
  lemma RemindSubmitIsDue(apps: map<int, Application>, messages: seq<Message>, now: Instant, s: Settings)
    ensures GetApplicationsToRemindSubmit(apps, messages, now, s) == Sweeps.SubmissionDue(apps, messages, now, s)
  {
    forall id | id in apps
      ensures id in GetApplicationsToRemindSubmit(apps, messages, now, s)
          <==> id in Sweeps.SubmissionDue(apps, messages, now, s)
    {
      MessagedIff(messages, BorrowerPendingSubmitReminder, id);
    }
  }

  /** Once reminded, an application is out of the job's introduction query for good. */
  lemma RemindedIntroLeaves(apps: map<int, Application>, borrowers: map<int, Borrower>, awards: map<int, Award>,
                            messages: seq<Message>, id: int, now: Instant, s: Settings)
    ensures id !in GetApplicationsToRemindIntro(apps, borrowers, awards,
                                                messages + [Message(id, BorrowerPendingApplicationReminder, "", None)],
                                                now, s)
  {
    var after := messages + [Message(id, BorrowerPendingApplicationReminder, "", None)];
    assert after[|messages|].applicationId in MessagedIds(after, BorrowerPendingApplicationReminder);
  }

  // ---------------------------------------------------------------------
  // The overdue-reminder job.

  /**
   * The job's overdue reminders: the service-level sweep over the
   * applications started by their lender or with their contract uploaded,
   * with the days counted the background jobs' way. Each application is
   * its own transaction, so a failure stops the job keeping the
   * applications handled before it; each counted lender is notified once.
   */
  method SendOverdueReminders(db: Database, now: Instant, s: Settings, failing: set<int>)
    returns (r: Outcome, counts: map<int, nat>, ghost order: seq<int>, ghost notified: seq<int>)
    requires db.Valid() && s.progressToRemindDenominator > 0
    modifies db`applications, db`messages
    ensures db.Valid()
    ensures Distinct(order)
    ensures forall i :: 0 <= i < |order| ==>
      order[i] in Sweeps.SlaCandidates(old(db.applications)) && order[i] !in failing
    ensures r == Pass <==> Sweeps.SlaCandidates(old(db.applications)) !! failing
    ensures r == Pass ==> forall id :: id in Sweeps.SlaCandidates(old(db.applications)) ==> id in order
    ensures counts == Sweeps.Tally(old(db.applications), db.lenders, db.actions, Sweeps.JobCount, order, now, s)
    ensures db.applications ==
      Sweeps.OverduedApps(old(db.applications),
                          Sweeps.PastIn(old(db.applications), db.lenders, db.actions, Sweeps.JobCount, order, now, s), now)
    ensures Distinct(notified) && (r == Pass ==> forall l :: l in counts <==> l in notified)
    ensures r.Fail? ==> notified == []
    ensures notified != [] ==> order != []
    ensures var staff := old(db.messages)
                         + Sweeps.OverdueNotices(old(db.applications), db.lenders, db.actions, Sweeps.JobCount, order,
                                                 now, s);
      db.messages == if notified == [] then staff else staff + Sweeps.LenderNotices(notified, order[|order| - 1])
  {
    r, counts, order, notified := Sweeps.SlaOverdueApplications(db, Sweeps.JobCount, now, s, failing);
  }

  // ---------------------------------------------------------------------
  // Where the job and the command agree.

  /** The borrower has not answered every one of two or more information requests. */
  predicate AnswersWithin(actions: seq<Action>, id: int)
  {
    var requests := |ActionTimes(actions, id, FiRequestInformation)|;
    requests < 2 || |ActionTimes(actions, id, MsmeUploadAdditionalDocumentCompleted)| < requests
  }

  /** Under that condition the two day counts agree. */
  lemma WaitingAgree(id: int, a: Application, actions: seq<Action>, now: Instant)
    requires AnswersWithin(actions, id)
    ensures Sweeps.WaitingDays(id, a, actions, Sweeps.RecordCount, now)
         == Sweeps.WaitingDays(id, a, actions, Sweeps.JobCount, now)
  {
    if a.lenderStartedAt.Some? {
      Timeline.VariantsAgree(a.lenderStartedAt.value, ActionTimes(actions, id, FiRequestInformation),
                             ActionTimes(actions, id, MsmeUploadAdditionalDocumentCompleted), now);
    }
  }

  /**
   * When no application handled has its borrower answering every one of
   * two or more requests, the job and the command count the same lenders,
   * stamp the same applications overdue and notify staff alike.
   */
  lemma {:induction false} SweepsAgree(apps: map<int, Application>, lenders: map<int, Lender>, actions: seq<Action>,
                                       order: seq<int>, now: Instant, s: Settings)
    requires forall i :: 0 <= i < |order| ==> AnswersWithin(actions, order[i])
    ensures Sweeps.Tally(apps, lenders, actions, Sweeps.RecordCount, order, now, s)
         == Sweeps.Tally(apps, lenders, actions, Sweeps.JobCount, order, now, s)
    ensures Sweeps.PastIn(apps, lenders, actions, Sweeps.RecordCount, order, now, s)
         == Sweeps.PastIn(apps, lenders, actions, Sweeps.JobCount, order, now, s)
    ensures Sweeps.OverdueNotices(apps, lenders, actions, Sweeps.RecordCount, order, now, s)
         == Sweeps.OverdueNotices(apps, lenders, actions, Sweeps.JobCount, order, now, s)
  {
    if order != [] {
      var prefix := order[..|order| - 1];
      var id := order[|order| - 1];
      assert forall i :: 0 <= i < |prefix| ==> prefix[i] == order[i];
      SweepsAgree(apps, lenders, actions, prefix, now, s);
      if id in apps {
        WaitingAgree(id, apps[id], actions, now);
      }
    }
    forall id | id in order && id in apps
      ensures Sweeps.WaitingDays(id, apps[id], actions, Sweeps.RecordCount, now)
           == Sweeps.WaitingDays(id, apps[id], actions, Sweeps.JobCount, now)
    {
      var i :| 0 <= i < |order| && order[i] == id;
      WaitingAgree(id, apps[id], actions, now);
    }
  }
}
