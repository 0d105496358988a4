/**
 * The command-line variants of the lapse and retention sweeps, which run
 * every application in one transaction: a failure rolls the whole
 * transaction back, so either every selected application is handled or
 * none is. The session neither flushes nor commits before the end, so
 * the retention command's query for a borrower's other unarchived
 * applications sees the store as it was when the run began.
 */
module MainCommands {
  import opened Base
  import opened Models
  import Sweeps

  /**
   * Lapsing, in one transaction: when no selected application fails, all
   * of them are lapsed; otherwise nothing changes.
   */
  method UpdateApplicationsToLapsed(db: Database, now: Instant, s: Settings, failing: set<int>) returns (r: Outcome)
    requires db.Valid()
    modifies db`applications
    ensures db.Valid()
    ensures r == Pass <==> Sweeps.LapseDue(old(db.applications), now, s) !! failing
    ensures r.Fail? ==> r == Fail(Crash) && db.applications == old(db.applications)
    ensures r == Pass ==>
      db.applications == Sweeps.LapsedApps(old(db.applications), Sweeps.LapseDue(old(db.applications), now, s), now)
  {
    var saved := db.applications;
    ghost var lapsed;
    r, lapsed := Sweeps.UpdateApplicationsToLapsed(db, now, s, failing);
    if r.Fail? {
      db.applications := saved;
    }
  }

  // ---------------------------------------------------------------------
  // Erasing dated data in one transaction.

  /**
   * The one-transaction command erases a borrower when an application it
   * archives was, when the run began, the borrower's only unarchived one.
   */
  predicate ErasedUnflushed(apps: map<int, Application>, ids: set<int>, borrower: int)
  {
    exists x :: x in ids && Sweeps.UnarchivedOf(apps, borrower) == {x}
  }

  /** The borrowers with those the one-transaction command erases cleared. */
  function UnflushedErasedBorrowers(apps: map<int, Application>, borrowers: map<int, Borrower>, ids: set<int>)
    : map<int, Borrower>
  {
    map b | b in borrowers :: if ErasedUnflushed(apps, ids, b) then Sweeps.ErasedBorrower(borrowers[b]) else borrowers[b]
  }

  /** A borrower the one-transaction command erases is one the per-application sweep erases as well. */
  lemma UnflushedErasesLess(apps: map<int, Application>, ids: set<int>, borrower: int)
    requires ErasedUnflushed(apps, ids, borrower)
    ensures Sweeps.ErasedBy(apps, ids, borrower)
  {
    var x :| x in ids && Sweeps.UnarchivedOf(apps, borrower) == {x};
    assert x in Sweeps.UnarchivedOf(apps, borrower);
  }

  /**
   * A borrower with two unarchived applications, both archived in the
   * run, keeps its personal data in the one-transaction command, though
   * it has no unarchived application left and the per-application sweep
   * erases it.
   */
  lemma TwoArchivedKeepData(apps: map<int, Application>, ids: set<int>, borrower: int, x: int, y: int, now: Instant)
    requires x != y && x in Sweeps.UnarchivedOf(apps, borrower) && y in Sweeps.UnarchivedOf(apps, borrower)
    requires Sweeps.UnarchivedOf(apps, borrower) <= ids
    ensures !ErasedUnflushed(apps, ids, borrower)
    ensures Sweeps.ErasedBy(apps, ids, borrower)
    ensures Sweeps.UnarchivedOf(Sweeps.ArchivedApps(apps, ids, now), borrower) == {}
  {
    forall z | z in ids
      ensures Sweeps.UnarchivedOf(apps, borrower) != {z}
    {
      if z == x {
        assert y in Sweeps.UnarchivedOf(apps, borrower);
      } else {
        assert x in Sweeps.UnarchivedOf(apps, borrower);
      }
    }
    Sweeps.UnarchivedAfter(apps, ids, now, borrower);
  }

  /** One more archived application: its borrower is erased when it was, at the start, the only unarchived one. */
  lemma UnflushedEraseStep(apps: map<int, Application>, borrowers: map<int, Borrower>, ids: set<int>, x: int)
    requires x in apps && x !in ids && Unarchived(apps[x]) && apps[x].borrowerId in borrowers
    ensures var b := apps[x].borrowerId;
      && UnflushedErasedBorrowers(apps, borrowers, ids)[b] == borrowers[b]
      && UnflushedErasedBorrowers(apps, borrowers, ids + {x}) ==
           if Sweeps.UnarchivedOf(apps, b) == {x}
           then UnflushedErasedBorrowers(apps, borrowers, ids)[b := Sweeps.ErasedBorrower(borrowers[b])]
           else UnflushedErasedBorrowers(apps, borrowers, ids)
  {
    var b := apps[x].borrowerId;
    assert x in Sweeps.UnarchivedOf(apps, b);
    forall z | z in ids
      ensures Sweeps.UnarchivedOf(apps, b) != {z}
    {
      assert z != x;
    }
    if ErasedUnflushed(apps, ids + {x}, b) {
      var z :| z in ids + {x} && Sweeps.UnarchivedOf(apps, b) == {z};
      assert z == x;
    }
    forall c | c in borrowers && c != b
      ensures ErasedUnflushed(apps, ids + {x}, c) == ErasedUnflushed(apps, ids, c)
    {
      assert x !in Sweeps.UnarchivedOf(apps, c);
      if ErasedUnflushed(apps, ids + {x}, c) {
        var z :| z in ids + {x} && Sweeps.UnarchivedOf(apps, c) == {z};
        assert z in Sweeps.UnarchivedOf(apps, c);
      }
    }
  }

  /**
   * Archiving one application inside the transaction: its award becomes
   * previous, its address is cleared, it is archived now and its documents
   * are deleted; its borrower is erased when `start`, the store as the
   * query sees it, holds no other unarchived application of that borrower.
   */
  method ArchiveOneUnflushed(db: Database, start: map<int, Application>, x: int, now: Instant)
    requires db.Valid() && x in db.applications
    modifies db`applications, db`awards, db`documents, db`borrowers
    ensures db.Valid()
    ensures var a := old(db.applications)[x];
      && db.applications == old(db.applications)[x := Sweeps.ArchivedRow(a, now)]
      && db.awards == old(db.awards)[a.awardId := old(db.awards)[a.awardId].(previous := true)]
      && db.documents == Sweeps.KeptDocuments(old(db.documents), {x})
      && db.borrowers ==
           if Sweeps.UnarchivedOf(start, a.borrowerId) <= {x}
           then old(db.borrowers)[a.borrowerId := Sweeps.ErasedBorrower(old(db.borrowers)[a.borrowerId])]
           else old(db.borrowers)
  {
    var a := db.applications[x];
    Sweeps.MarkPrevious(db, a.awardId);
    SetApplication(db, x, Sweeps.ArchivedRow(a, now));
    Sweeps.DeleteDocuments(db, x);
    var other := Sweeps.HasOtherUnarchived(start, x, a.borrowerId);
    if other {
      ghost var k :| k in start && k != x && start[k].borrowerId == a.borrowerId && Unarchived(start[k]);
      assert k in Sweeps.UnarchivedOf(start, a.borrowerId);
    } else {
      assert forall k :: k in Sweeps.UnarchivedOf(start, a.borrowerId) ==> k == x;
      Sweeps.EraseBorrower(db, a.borrowerId);
    }
  }

  /** The store after the command archived `ids` of the applications `apps`, inside its transaction. */
  ghost predicate RetainedUnflushed(db: Database, apps: map<int, Application>, documents: map<int, Document>,
                                    awards: map<int, Award>, borrowers: map<int, Borrower>, ids: set<int>,
                                    now: Instant)
    reads db
  {
    && db.applications == Sweeps.ArchivedApps(apps, ids, now)
    && db.documents == Sweeps.KeptDocuments(documents, ids)
    && db.awards == Sweeps.PreviousAwards(apps, awards, ids)
    && db.borrowers == UnflushedErasedBorrowers(apps, borrowers, ids)
  }

  /** One round of the command keeps its invariant. */
  method ArchiveRoundUnflushed(db: Database, apps: map<int, Application>, ghost documents: map<int, Document>,
                               ghost awards: map<int, Award>, ghost borrowers: map<int, Borrower>,
                               ghost due: set<int>, ghost todo: set<int>, x: int, now: Instant)
    requires db.Valid() && x in todo && todo <= due && x in apps && Unarchived(apps[x])
    requires RetainedUnflushed(db, apps, documents, awards, borrowers, due - todo, now)
    modifies db`applications, db`awards, db`documents, db`borrowers
    ensures db.Valid()
    ensures RetainedUnflushed(db, apps, documents, awards, borrowers, due - (todo - {x}), now)
  {
    ghost var archived := due - todo;
    assert due - (todo - {x}) == archived + {x};
    assert db.applications[x] == apps[x];
    assert apps[x].awardId in awards && apps[x].borrowerId in borrowers;
    Sweeps.ArchiveStep(apps, documents, awards, archived, x, now);
    UnflushedEraseStep(apps, borrowers, archived, x);
    var b := apps[x].borrowerId;
    assert x in Sweeps.UnarchivedOf(apps, b);
    assert Sweeps.UnarchivedOf(apps, b) <= {x} <==> Sweeps.UnarchivedOf(apps, b) == {x};
    ArchiveOneUnflushed(db, apps, x, now);
  }

  /**
   * The loop of the one-transaction command over the applications `due`:
   * it stops at the first failing one; when none fails, every one of them
   * is archived against the store as it was at the start.
   */
  method ArchiveUnflushed(db: Database, due: set<int>, failing: set<int>, now: Instant) returns (done: bool)
    requires db.Valid()
    requires forall x :: x in due ==> x in db.applications && Unarchived(db.applications[x])
    modifies db`applications, db`awards, db`documents, db`borrowers
    ensures db.Valid()
    ensures done <==> due !! failing
    ensures done ==> RetainedUnflushed(db, old(db.applications), old(db.documents), old(db.awards), old(db.borrowers),
                                       due, now)
  {
    var applications := db.applications;
    ghost var awards, documents, borrowers := db.awards, db.documents, db.borrowers;
    var todo := due;
    assert due - todo == {};
    assert db.applications == Sweeps.ArchivedApps(applications, {}, now);
    assert db.documents == Sweeps.KeptDocuments(documents, {});
    assert db.awards == Sweeps.PreviousAwards(applications, awards, {});
    assert db.borrowers == UnflushedErasedBorrowers(applications, borrowers, {});
    while |todo| > 0
      invariant todo <= due
      invariant (due - todo) !! failing
      invariant db.Valid()
      invariant RetainedUnflushed(db, applications, documents, awards, borrowers, due - todo, now)
      decreases |todo|
    {
      var x := Pick(todo);
      if x in failing {
        return false;
      }
      ArchiveRoundUnflushed(db, applications, documents, awards, borrowers, due, todo, x, now);
      todo := todo - {x};
    }
    assert due - todo == due;
    done := true;
  }

  /**
   * Erasing dated data, in one transaction, as written: when no selected
   * application fails, all of them are archived, their documents deleted
   * and their awards marked previous, and a borrower is erased when one of
   * them was its only unarchived application when the run began;
   * otherwise nothing changes.
   */
  method RemoveDatedApplicationData(db: Database, now: Instant, s: Settings, failing: set<int>) returns (r: Outcome)
    requires db.Valid()
    modifies db`applications, db`awards, db`documents, db`borrowers
    ensures db.Valid()
    ensures r == Pass <==> Sweeps.ArchiveDue(old(db.applications), now, s) !! failing
    ensures r.Fail? ==>
      && r == Fail(Crash)
      && db.applications == old(db.applications) && db.awards == old(db.awards)
      && db.documents == old(db.documents) && db.borrowers == old(db.borrowers)
    ensures r == Pass ==>
      var due := Sweeps.ArchiveDue(old(db.applications), now, s);
      && db.applications == Sweeps.ArchivedApps(old(db.applications), due, now)
      && db.documents == Sweeps.KeptDocuments(old(db.documents), due)
      && db.awards == Sweeps.PreviousAwards(old(db.applications), old(db.awards), due)
      && db.borrowers == UnflushedErasedBorrowers(old(db.applications), old(db.borrowers), due)
      && Sweeps.ArchiveDue(db.applications, now, s) == {}
  {
    var applications, awards, documents, borrowers := db.applications, db.awards, db.documents, db.borrowers;
    var due := Sweeps.ArchiveDue(db.applications, now, s);
    var done := ArchiveUnflushed(db, due, failing, now);
    if !done {
      db.applications, db.awards, db.documents, db.borrowers := applications, awards, documents, borrowers;
      return Fail(Crash);
    }
    Sweeps.ArchiveSettles(applications, documents, now, s);
    r := Pass;
  }

  /**
   * Erasing dated data in one transaction, as intended: the query sees the
   * run's own archiving, so a borrower is erased exactly when it has no
   * unarchived application left, as in the per-application sweep.
   */
  method RemoveDatedApplicationDataFlushed(db: Database, now: Instant, s: Settings, failing: set<int>)
    returns (r: Outcome)
    requires db.Valid()
    modifies db`applications, db`awards, db`documents, db`borrowers
    ensures db.Valid()
    ensures r == Pass <==> Sweeps.ArchiveDue(old(db.applications), now, s) !! failing
    ensures r.Fail? ==>
      && r == Fail(Crash)
      && db.applications == old(db.applications) && db.awards == old(db.awards)
      && db.documents == old(db.documents) && db.borrowers == old(db.borrowers)
    ensures r == Pass ==>
      var due := Sweeps.ArchiveDue(old(db.applications), now, s);
      && db.applications == Sweeps.ArchivedApps(old(db.applications), due, now)
      && db.documents == Sweeps.KeptDocuments(old(db.documents), due)
      && db.awards == Sweeps.PreviousAwards(old(db.applications), old(db.awards), due)
      && db.borrowers == Sweeps.ErasedBorrowers(old(db.applications), old(db.borrowers), due)
      && Sweeps.ArchiveDue(db.applications, now, s) == {}
  {
    var applications, awards, documents, borrowers := db.applications, db.awards, db.documents, db.borrowers;
    ghost var archived;
    r, archived := Sweeps.RemoveDatedApplicationData(db, now, s, failing);
    if r.Fail? {
      db.applications, db.awards, db.documents, db.borrowers := applications, awards, documents, borrowers;
    }
  }
}
