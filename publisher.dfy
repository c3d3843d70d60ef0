/** `push_to_unifi`: the payload is posted up to `maxRetries` times, attempts
    numbered from 1. The first accepted post ends the loop. After a failed
    attempt `k` the agent sleeps `backoffFactor ^ (k - 1)` seconds, the last
    failed attempt included; when every attempt has failed the function returns
    normally. A negative wait makes `time.sleep` raise, which ends the function
    with that error. The webhook's answers are a sequence of outcomes: entry
    `k - 1` says whether attempt `k` was accepted, and an attempt past the end
    of the sequence fails. */
module Publisher {
  import opened Differ

  /** `base ** exp` on integers. */
  function Pow(base: int, exp: nat): int
    decreases exp
  {
    if exp == 0 then 1 else base * Pow(base, exp - 1)
  }

  /** Whether attempt number `attempt` (from 1) is accepted. */
  predicate Succeeds(outcomes: seq<bool>, attempt: nat) {
    1 <= attempt <= |outcomes| && outcomes[attempt - 1]
  }

  datatype PushStatus =
    | Delivered     // an attempt was accepted; the function returned
    | Exhausted     // every attempt failed; the function logged and returned
    | SleepRaised   // a negative wait made `time.sleep` raise

  /** How a push ended, how many posts it made, and the waits it slept, in order. */
  datatype PushReport = PushReport(status: PushStatus, posts: nat, waits: seq<int>)

  /** The attempts from `attempt` on, given that the earlier ones all failed. */
  function Attempts(outcomes: seq<bool>, attempt: nat, maxRetries: int, factor: int): PushReport
    requires attempt >= 1
    decreases maxRetries + 1 - attempt
  {
    if attempt > maxRetries then PushReport(Exhausted, attempt - 1, [])
    else if Succeeds(outcomes, attempt) then PushReport(Delivered, attempt, [])
    else
      var wait := Pow(factor, attempt - 1);
      if wait < 0 then PushReport(SleepRaised, attempt, [])
      else
        var rest := Attempts(outcomes, attempt + 1, maxRetries, factor);
        PushReport(rest.status, rest.posts, [wait] + rest.waits)
  }

  /** The whole retry loop. */
  function Push(outcomes: seq<bool>, maxRetries: int, factor: int): PushReport {
    Attempts(outcomes, 1, maxRetries, factor)
  }

  /** `push_to_unifi(create, update_old, update_new, delete)`: returns how the
      push ended and the payloads posted, one per attempt. */
  method PushToWebhook(delta: Delta, outcomes: seq<bool>, maxRetries: int, factor: int)
    returns (report: PushReport, posted: seq<Delta>)
    ensures report == Push(outcomes, maxRetries, factor)
    ensures |posted| == report.posts
    ensures forall i :: 0 <= i < |posted| ==> posted[i] == delta
  {
    var waits: seq<int> := [];
    posted := [];
    var attempt := 1;
    while attempt <= maxRetries
      invariant 1 <= attempt
      invariant |posted| == attempt - 1
      invariant forall i :: 0 <= i < |posted| ==> posted[i] == delta
      invariant Push(outcomes, maxRetries, factor) == Prefixed(waits, Attempts(outcomes, attempt, maxRetries, factor))
      decreases maxRetries + 1 - attempt
    {
      posted := posted + [delta];
      if Succeeds(outcomes, attempt) {
        return PushReport(Delivered, attempt, waits), posted;
      }
      var wait := Pow(factor, attempt - 1);
      if wait < 0 {
        return PushReport(SleepRaised, attempt, waits), posted;
      }
      waits := waits + [wait];
      attempt := attempt + 1;
    }
    return PushReport(Exhausted, attempt - 1, waits), posted;
  }

  /** `report` with `waits` slept before it. */
  function Prefixed(waits: seq<int>, report: PushReport): PushReport {
    PushReport(report.status, report.posts, waits + report.waits)
  }

  lemma {:induction false} PowNonNegative(base: int, exp: nat)
    requires base >= 0
    ensures Pow(base, exp) >= 0
    decreases exp
  {
    if exp > 0 {
      PowNonNegative(base, exp - 1);
    }
  }

  /** From attempt `a` on: the posts made, the attempts that failed, and the
      waits slept after them. */
  lemma {:induction false} AttemptsOutcome(outcomes: seq<bool>, a: nat, maxRetries: int, factor: int)
    requires a >= 1
    ensures var r := Attempts(outcomes, a, maxRetries, factor);
      && a - 1 <= r.posts
      && (r.status == Exhausted ==> r.posts == if maxRetries < a then a - 1 else maxRetries)
      && (r.status != Exhausted ==> a <= r.posts <= maxRetries)
      && (r.status == Delivered ==> Succeeds(outcomes, r.posts))
      && (r.status == SleepRaised ==> !Succeeds(outcomes, r.posts) && Pow(factor, r.posts - 1) < 0)
      && (forall j :: a <= j < r.posts ==> !Succeeds(outcomes, j))
      && (r.status == Exhausted ==> forall j :: a <= j <= r.posts ==> !Succeeds(outcomes, j))
    decreases maxRetries + 1 - a
  {
    if a <= maxRetries && !Succeeds(outcomes, a) && Pow(factor, a - 1) >= 0 {
      AttemptsOutcome(outcomes, a + 1, maxRetries, factor);
    }
  }

  lemma {:induction false} AttemptsWaits(outcomes: seq<bool>, a: nat, maxRetries: int, factor: int)
    requires a >= 1
    ensures var r := Attempts(outcomes, a, maxRetries, factor);
      && |r.waits| == (if r.status == Exhausted then r.posts - (a - 1) else r.posts - a)
      && forall i :: 0 <= i < |r.waits| ==> r.waits[i] == Pow(factor, a - 1 + i)
    decreases maxRetries + 1 - a
  {
    if a <= maxRetries && !Succeeds(outcomes, a) && Pow(factor, a - 1) >= 0 {
      AttemptsWaits(outcomes, a + 1, maxRetries, factor);
      AttemptsOutcome(outcomes, a + 1, maxRetries, factor);
    }
    AttemptsOutcome(outcomes, a, maxRetries, factor);
  }

  /** At most `maxRetries` posts, and at least one whenever `maxRetries` is positive. */
  lemma PushPostsBounded(outcomes: seq<bool>, maxRetries: int, factor: int)
    ensures var r := Push(outcomes, maxRetries, factor);
      && r.posts <= (if maxRetries < 0 then 0 else maxRetries)
      && (r.posts == 0 <==> maxRetries < 1)
  {
    AttemptsOutcome(outcomes, 1, maxRetries, factor);
  }

  /** The loop stops at the first accepted attempt: a delivered push made its
      last post accepted and every earlier one failed; a push that did not
      deliver saw every one of its posts fail. */
  lemma PushStopsAtFirstSuccess(outcomes: seq<bool>, maxRetries: int, factor: int)
    ensures var r := Push(outcomes, maxRetries, factor);
      && (r.status == Delivered ==> Succeeds(outcomes, r.posts))
      && (forall j :: 1 <= j < r.posts ==> !Succeeds(outcomes, j))
      && (r.status != Delivered ==> forall j :: 1 <= j <= r.posts ==> !Succeeds(outcomes, j))
  {
    AttemptsOutcome(outcomes, 1, maxRetries, factor);
  }

  /** The `i`-th wait is `factor ^ i`, and every failed post is followed by a
      wait, the last one included when all attempts fail. */
  lemma PushWaitsGrowGeometrically(outcomes: seq<bool>, maxRetries: int, factor: int)
    ensures var r := Push(outcomes, maxRetries, factor);
      && |r.waits| == (if r.status == Exhausted then r.posts else r.posts - 1)
      && forall i :: 0 <= i < |r.waits| ==> r.waits[i] == Pow(factor, i)
  {
    AttemptsWaits(outcomes, 1, maxRetries, factor);
  }

  /** With a factor of zero or more no wait is negative, so the push never raises. */
  lemma {:induction false} NonNegativeFactorNeverRaises(outcomes: seq<bool>, a: nat, maxRetries: int, factor: int)
    requires a >= 1 && factor >= 0
    ensures Attempts(outcomes, a, maxRetries, factor).status != SleepRaised
    decreases maxRetries + 1 - a
  {
    PowNonNegative(factor, a - 1);
    if a <= maxRetries && !Succeeds(outcomes, a) {
      NonNegativeFactorNeverRaises(outcomes, a + 1, maxRetries, factor);
    }
  }

  /** When the first accepted attempt is `k` and the factor is not negative, the
      push is delivered after exactly `k` posts. */
  lemma PushDeliversAtFirstSuccess(outcomes: seq<bool>, maxRetries: int, factor: int, k: nat)
    requires factor >= 0 && 1 <= k <= maxRetries && Succeeds(outcomes, k)
    requires forall j :: 1 <= j < k ==> !Succeeds(outcomes, j)
    ensures Push(outcomes, maxRetries, factor).status == Delivered
    ensures Push(outcomes, maxRetries, factor).posts == k
  {
    AttemptsOutcome(outcomes, 1, maxRetries, factor);
    NonNegativeFactorNeverRaises(outcomes, 1, maxRetries, factor);
  }

  /** When every attempt fails and the factor is not negative, the push makes all
      its posts, sleeps after each of them, and returns without error. */
  lemma PushExhaustsWhenAllFail(outcomes: seq<bool>, maxRetries: int, factor: int)
    requires factor >= 0
    requires forall j :: 1 <= j <= maxRetries ==> !Succeeds(outcomes, j)
    ensures var r := Push(outcomes, maxRetries, factor);
      && r.status == Exhausted
      && r.posts == (if maxRetries < 0 then 0 else maxRetries)
      && |r.waits| == r.posts
  {
    AttemptsOutcome(outcomes, 1, maxRetries, factor);
    AttemptsWaits(outcomes, 1, maxRetries, factor);
    NonNegativeFactorNeverRaises(outcomes, 1, maxRetries, factor);
  }

  /** The configured defaults (5 attempts, factor 2) against a webhook that never
      accepts: five posts and the waits 1, 2, 4, 8 and 16 seconds. */
  lemma DefaultBackoffSchedule()
    ensures Push([], 5, 2) == PushReport(Exhausted, 5, [1, 2, 4, 8, 16])
  {
    assert Pow(2, 4) == 16 && Pow(2, 3) == 8 && Pow(2, 2) == 4 && Pow(2, 1) == 2;
  }

  /** A negative factor makes the wait after the second failure negative, so the
      push ends with an error after two posts and one sleep. */
  lemma NegativeFactorRaisesAfterSecondFailure(outcomes: seq<bool>, maxRetries: int, factor: int)
    requires factor < 0 && maxRetries >= 2
    requires !Succeeds(outcomes, 1) && !Succeeds(outcomes, 2)
    ensures Push(outcomes, maxRetries, factor) == PushReport(SleepRaised, 2, [1])
  {
    assert Pow(factor, 0) == 1 && Pow(factor, 1) == factor;
    assert Attempts(outcomes, 2, maxRetries, factor) == PushReport(SleepRaised, 2, []);
    assert Attempts(outcomes, 1, maxRetries, factor) == PushReport(SleepRaised, 2, [1] + []);
  }
}
