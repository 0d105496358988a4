/**
 * How many days an application has been waiting on its lender, in the two
 * ways the system computes it. Both start the clock when the lender starts
 * work, stop it at the lender's first information request, and restart it
 * whenever the borrower answers a request, until the lender's next request
 * (or now, for an unanswered answer). Requests and answers are paired in
 * order. They differ in how they treat answers left over once every
 * request has been paired: see VariantsDiverge.
 */
module Timeline {
  import opened Base

  /**
   * The lender's share after the first request: each answer is paired with
   * the next request still queued, or with now if none is queued; the
   * count stops after the pairing that empties the queue.
   */
  function LenderShareAfterAnswers(requests: seq<Instant>, answers: seq<Instant>, now: Instant): int
    decreases |answers|
  {
    if answers == [] then 0
    else if requests == [] then DaysBetween(now, answers[0])
    else
      var rest := if |requests| == 1 then 0 else LenderShareAfterAnswers(requests[1..], answers[1..], now);
      DaysBetween(requests[0], answers[0]) + rest
  }

  /** The days an application has waited for its lender, the way the application record counts them. */
  function LenderWaitDays(started: Instant, requests: seq<Instant>, answers: seq<Instant>, now: Instant): int
  {
    if requests == [] then DaysBetween(now, started) + LenderShareAfterAnswers([], answers, now)
    else DaysBetween(requests[0], started) + LenderShareAfterAnswers(requests[1..], answers, now)
  }

  /**
   * The lender's share after the first request, pairing each answer with
   * the next queued request, and the first answer found with an empty
   * queue with now.
   */
  function PairedShare(requests: seq<Instant>, answers: seq<Instant>, now: Instant): int
    decreases |answers|
  {
    if answers == [] then 0
    else if requests == [] then DaysBetween(now, answers[0])
    else DaysBetween(requests[0], answers[0]) + PairedShare(requests[1..], answers[1..], now)
  }

  /** The days an application has waited for its lender, the way the background jobs count them. */
  function DaysPassed(started: Instant, requests: seq<Instant>, answers: seq<Instant>, now: Instant): int
  {
    if requests == [] then DaysBetween(now, started) + PairedShare([], answers, now)
    else DaysBetween(requests[0], started) + PairedShare(requests[1..], answers, now)
  }

  /**
   * The application record's count: the first request (or now) closes the
   * first interval; then each answer is charged until the next request
   * popped from the queue (or now), and the loop stops as soon as the
   * queue is empty.
   */
  method DaysWaitingForLender(started: Instant, requests: seq<Instant>, answers: seq<Instant>, now: Instant)
    returns (days: int)
    ensures days == LenderWaitDays(started, requests, answers, now)
  {
    days := 0;
    var queue := requests;
    var end: Instant;
    if |queue| > 0 {
      end := queue[0];
      queue := queue[1..];
    } else {
      end := now;
    }
    days := days + DaysBetween(end, started);
    ghost var total := LenderWaitDays(started, requests, answers, now);
    var i := 0;
    while i < |answers|
      invariant 0 <= i <= |answers|
      invariant days + LenderShareAfterAnswers(queue, answers[i..], now) == total
      invariant i > 0 ==> |queue| > 0
    {
      if |queue| > 0 {
        end := queue[0];
        queue := queue[1..];
      } else {
        end := now;
      }
      days := days + DaysBetween(end, answers[i]);
      assert answers[i..][1..] == answers[i + 1..];
      i := i + 1;
      if |queue| == 0 {
        break;
      }
    }
  }

  /**
   * The background jobs' count: build the (end, start) pairs — the first
   * request or now against the lender's start, then each answer against
   * the next queued request, or against now once the queue is empty (and
   * stop) — and sum their whole days.
   */
  method GetApplicationDaysPassed(started: Instant, requests: seq<Instant>, answers: seq<Instant>, now: Instant)
    returns (days: int)
    ensures days == DaysPassed(started, requests, answers, now)
  {
    var pairs: seq<(Instant, Instant)>;
    var queue := requests;
    if |queue| > 0 {
      pairs := [(queue[0], started)];
      queue := queue[1..];
    } else {
      pairs := [(now, started)];
    }
    ghost var total := DaysPassed(started, requests, answers, now);
    var i := 0;
    while i < |answers|
      invariant 0 <= i <= |answers|
      invariant SumDays(pairs) + PairedShare(queue, answers[i..], now) == total
    {
      assert answers[i..][1..] == answers[i + 1..];
      if |queue| == 0 {
        pairs := pairs + [(now, answers[i])];
        SumDaysAppend(pairs[..|pairs| - 1], (now, answers[i]));
        assert pairs[..|pairs| - 1] + [(now, answers[i])] == pairs;
        break;
      }
      pairs := pairs + [(queue[0], answers[i])];
      SumDaysAppend(pairs[..|pairs| - 1], (queue[0], answers[i]));
      assert pairs[..|pairs| - 1] + [(queue[0], answers[i])] == pairs;
      queue := queue[1..];
      i := i + 1;
    }
    days := 0;
    var j := 0;
    while j < |pairs|
      invariant 0 <= j <= |pairs|
      invariant days == SumDays(pairs[..j])
    {
      assert pairs[..j + 1] == pairs[..j] + [pairs[j]];
      SumDaysAppend(pairs[..j], pairs[j]);
      days := days + DaysBetween(pairs[j].0, pairs[j].1);
      j := j + 1;
    }
    assert pairs[..j] == pairs;
  }

  /** The whole days of a list of (end, start) pairs, added up. */
  function SumDays(pairs: seq<(Instant, Instant)>): int
  {
    if pairs == [] then 0 else DaysBetween(pairs[0].0, pairs[0].1) + SumDays(pairs[1..])
  }

  lemma {:induction false} SumDaysAppend(pairs: seq<(Instant, Instant)>, p: (Instant, Instant))
    ensures SumDays(pairs + [p]) == SumDays(pairs) + DaysBetween(p.0, p.1)
  {
    if pairs != [] {
      assert (pairs + [p])[1..] == pairs[1..] + [p];
      SumDaysAppend(pairs[1..], p);
    }
  }

  /**
   * The two counts agree unless the borrower has answered every one of two
   * or more requests: then the application record's count stops one
   * interval early.
   */
  lemma {:induction false} VariantsAgree(started: Instant, requests: seq<Instant>, answers: seq<Instant>, now: Instant)
    requires |requests| < 2 || |answers| < |requests|
    ensures LenderWaitDays(started, requests, answers, now) == DaysPassed(started, requests, answers, now)
  {
    if requests == [] {
      SharesAgree([], answers, now);
    } else {
      SharesAgree(requests[1..], answers, now);
    }
  }

  lemma {:induction false} SharesAgree(requests: seq<Instant>, answers: seq<Instant>, now: Instant)
    requires requests == [] || |answers| <= |requests|
    ensures LenderShareAfterAnswers(requests, answers, now) == PairedShare(requests, answers, now)
    decreases |answers|
  {
    if answers != [] && requests != [] && |requests| > 1 {
      SharesAgree(requests[1..], answers[1..], now);
    }
  }

  /**
   * When the borrower has answered every one of two or more requests, the
   * background jobs' count also charges the lender from the answer to the
   * last request until now, and the application record's count does not.
   */
  lemma {:induction false} VariantsDiverge(started: Instant, requests: seq<Instant>, answers: seq<Instant>, now: Instant)
    requires |requests| >= 2 && |answers| >= |requests|
    ensures DaysPassed(started, requests, answers, now)
         == LenderWaitDays(started, requests, answers, now) + DaysBetween(now, answers[|requests| - 1])
  {
    SharesDiverge(requests[1..], answers, now);
  }

  lemma {:induction false} SharesDiverge(requests: seq<Instant>, answers: seq<Instant>, now: Instant)
    requires |requests| >= 1 && |answers| >= |requests| + 1
    ensures PairedShare(requests, answers, now)
         == LenderShareAfterAnswers(requests, answers, now) + DaysBetween(now, answers[|requests|])
    decreases |answers|
  {
    if |requests| > 1 {
      SharesDiverge(requests[1..], answers[1..], now);
      assert answers[1..][|requests| - 1] == answers[|requests|];
    } else {
      assert PairedShare(requests[1..], answers[1..], now) == DaysBetween(now, answers[1]);
    }
  }
}
