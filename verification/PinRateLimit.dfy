/** The viewer PIN rate limiter: one mutable bucket per client, a fixed window, a counter and a lock.

    Source: apps/access/rate_limit.py. Times are microseconds. The clock is read before the row is
    locked, so a non-decreasing clock is a hypothesis here and `ClockMustNotStepBack` shows it is needed. */
module PinRateLimit {
  import opened Basics

  const FAILURE_LIMIT := 5
  const SECOND := 1_000_000
  const WINDOW := 900 * SECOND
  const LOCK := 900 * SECOND

  datatype Bucket = Bucket(windowStart: int, failures: nat, lockedUntil: Option<int>)

  datatype PinCheckResult = PinCheckResult(authenticated: bool, locked: bool, retryAfter: Option<int>)

  function CeilSeconds(us: int): int {
    (us + SECOND - 1) / SECOND
  }

  predicate IsLocked(b: Bucket, now: int) {
    b.lockedUntil.Some? && b.lockedUntil.value > now
  }

  function FetchOrCreate(b: Option<Bucket>, now: int): Bucket {
    if b.Some? then b.value else Bucket(now, 0, None)
  }

  /** The bucket once a wrong PIN has been counted. */
  function CountFailure(b: Bucket, now: int): Bucket {
    var w := if now - b.windowStart >= WINDOW then Bucket(now, 0, None) else b;
    var failures := w.failures + 1;
    Bucket(w.windowStart, failures, if failures >= FAILURE_LIMIT then Some(now + LOCK) else w.lockedUntil)
  }

  function Check(b: Option<Bucket>, now: int, correct: bool): (Option<Bucket>, PinCheckResult) {
    var bucket := FetchOrCreate(b, now);
    if IsLocked(bucket, now) then
      (Some(bucket), PinCheckResult(false, true, Some(Max(1, CeilSeconds(bucket.lockedUntil.value - now)))))
    else if correct then (None, PinCheckResult(true, false, None))
    else
      var counted := CountFailure(bucket, now);
      (Some(counted), if counted.lockedUntil.Some? then PinCheckResult(false, true, Some(CeilSeconds(LOCK)))
                      else PinCheckResult(false, false, None))
  }

  function Max(a: int, b: int): int { if a >= b then a else b }

  /** The table of buckets, one row per client. */
  class RateLimiter {
    var buckets: map<string, Bucket>

    constructor ()
      ensures buckets == map[]
    {
      buckets := map[];
    }

    method CheckPin(client: string, now: int, correct: bool) returns (result: PinCheckResult)
      modifies this
      ensures (buckets, result) == Step(old(buckets), Attempt(client, now, correct))
    {
      if client !in buckets {
        buckets := buckets[client := Bucket(now, 0, None)];
      }
      var bucket := buckets[client];
      if bucket.lockedUntil.Some? && bucket.lockedUntil.value > now {
        var wait := CeilSeconds(bucket.lockedUntil.value - now);
        assert buckets == buckets[client := bucket];
        return PinCheckResult(false, true, Some(Max(1, wait)));
      }
      if correct {
        buckets := buckets - {client};
        assert buckets == old(buckets) - {client};
        return PinCheckResult(true, false, None);
      }
      if now - bucket.windowStart >= WINDOW {
        bucket := Bucket(now, 0, None);
      }
      bucket := bucket.(failures := bucket.failures + 1);
      if bucket.failures >= FAILURE_LIMIT {
        bucket := bucket.(lockedUntil := Some(now + LOCK));
      }
      buckets := buckets[client := bucket];
      assert buckets == old(buckets)[client := bucket];
      if bucket.lockedUntil.Some? {
        return PinCheckResult(false, true, Some(CeilSeconds(LOCK)));
      }
      return PinCheckResult(false, false, None);
    }
  }

  // ------------------------------------------------------------------
  // Runs of many clients.
  // ------------------------------------------------------------------

  datatype Attempt = Attempt(client: string, now: int, correct: bool)

  function BucketOf(buckets: map<string, Bucket>, client: string): Option<Bucket> {
    if client in buckets then Some(buckets[client]) else None
  }

  function Step(buckets: map<string, Bucket>, a: Attempt): (map<string, Bucket>, PinCheckResult) {
    var (after, result) := Check(BucketOf(buckets, a.client), a.now, a.correct);
    (if after.Some? then buckets[a.client := after.value] else buckets - {a.client}, result)
  }

  function Front<T>(s: seq<T>): seq<T>
    requires s != []
  {
    s[..|s| - 1]
  }

  function Last<T>(s: seq<T>): T
    requires s != []
  {
    s[|s| - 1]
  }

  /** The table after a run, from an empty one. */
  function After(run: seq<Attempt>): map<string, Bucket> {
    if run == [] then map[] else Step(After(Front(run)), Last(run)).0
  }

  /** The PIN is actually compared: the client is not locked out at that moment. */
  predicate Evaluated(b: Option<Bucket>, now: int) {
    !IsLocked(FetchOrCreate(b, now), now)
  }

  /** The last attempt of the run let its client in. */
  predicate Admits(run: seq<Attempt>)
    requires run != []
  {
    Step(After(Front(run)), Last(run)).1.authenticated
  }

  /** The clock readings at which `client` had a PIN compared and found wrong since last let in. */
  function FailuresOf(run: seq<Attempt>, client: string): seq<int> {
    if run == [] then []
    else
      var a := Last(run);
      if a.client == client && Admits(run) then []
      else
        FailuresOf(Front(run), client) +
        if a.client == client && Evaluated(BucketOf(After(Front(run)), client), a.now) && !a.correct then [a.now] else []
  }

  ghost predicate ClockNeverStepsBack(run: seq<Attempt>) {
    forall i, j :: 0 <= i < j < |run| ==> run[i].now <= run[j].now
  }

  /** `client` never gets in during the run. */
  ghost predicate NeverAdmitted(run: seq<Attempt>, client: string) {
    run != [] ==>
      NeverAdmitted(Front(run), client) && (Last(run).client == client ==> !Admits(run))
  }

  // ------------------------------------------------------------------
  // The invariant.
  // ------------------------------------------------------------------

  /** How a client's bucket stands to the failures `f` seen so far, up to clock reading `now`. */
  ghost predicate Explains(f: seq<int>, b: Option<Bucket>, now: int) {
    && (forall i, j :: 0 <= i < j < |f| ==> f[i] <= f[j])
    && (forall i :: 0 <= i < |f| ==> f[i] <= now)
    && (forall i :: 0 <= i < |f| - 8 ==> f[i] + WINDOW <= f[i + 8])
    && (b.None? <==> f == [])
    && (b.Some? ==>
          var c := b.value.failures;
          var start := |f| - c;
          && 1 <= c <= FAILURE_LIMIT && c <= |f|
          && b.value.windowStart == f[start]
          && b.value.lockedUntil == (if c == FAILURE_LIMIT then Some(f[|f| - 1] + LOCK) else None)
          && (start >= 4 ==> f[start - 4] + WINDOW <= f[start]))
  }

  lemma ExplainsLater(f: seq<int>, b: Option<Bucket>, now: int, later: int)
    requires Explains(f, b, now) && now <= later
    ensures Explains(f, b, later)
  {}

  /** Counting one more failure keeps the bucket explained, and never finds a stale lock: the lock
      reply goes out exactly when this failure is the fifth of its window. */
  lemma FailureKept(f: seq<int>, b: Option<Bucket>, now: int)
    requires Explains(f, b, now) && Evaluated(b, now)
    ensures var counted := CountFailure(FetchOrCreate(b, now), now);
            && Explains(f + [now], Some(counted), now)
            && (counted.lockedUntil.Some? <==> counted.failures == FAILURE_LIMIT)
            && (counted.lockedUntil.Some? ==> counted.lockedUntil.value == now + LOCK)
  {
    EightApart(f, b, now);
    if b.Some? && now - b.value.windowStart < WINDOW { KeptInWindow(f, b, now); } else { KeptInNewWindow(f, b, now); }
  }

  lemma KeptInWindow(f: seq<int>, b: Option<Bucket>, now: int)
    requires Explains(f, b, now) && Evaluated(b, now) && (|f| >= 8 ==> f[|f| - 8] + WINDOW <= now)
    requires b.Some? && now - b.value.windowStart < WINDOW
    ensures Explains(f + [now], Some(CountFailure(b.value, now)), now)
  {
    var counted := CountFailure(b.value, now);
    var g := f + [now];
    assert counted.failures == b.value.failures + 1 <= FAILURE_LIMIT;
    assert g[|g| - counted.failures] == f[|f| - b.value.failures];
  }

  lemma KeptInNewWindow(f: seq<int>, b: Option<Bucket>, now: int)
    requires Explains(f, b, now) && Evaluated(b, now) && (|f| >= 8 ==> f[|f| - 8] + WINDOW <= now)
    requires b.None? || now - b.value.windowStart >= WINDOW
    ensures Explains(f + [now], Some(CountFailure(FetchOrCreate(b, now), now)), now)
  {
    var g := f + [now];
    assert CountFailure(FetchOrCreate(b, now), now) == Bucket(now, 1, None) && g[|g| - 1] == now;
    if |f| >= 4 {
      assert b.value.failures == FAILURE_LIMIT ==> f[|f| - 4] <= f[|f| - 1];
      assert b.value.failures < FAILURE_LIMIT ==> f[|f| - 4] <= f[|f| - b.value.failures];
    }
  }

  lemma EightApart(f: seq<int>, b: Option<Bucket>, now: int)
    requires Explains(f, b, now) && Evaluated(b, now)
    ensures |f| >= 8 ==> f[|f| - 8] + WINDOW <= now
  {
    if |f| >= 8 {
      var bucket := FetchOrCreate(b, now);
      var c := bucket.failures;
      var start := |f| - c;
      if now - bucket.windowStart >= WINDOW {
        assert f[|f| - 8] <= f[start];
      } else {
        assert c < FAILURE_LIMIT;
        assert f[|f| - 8] <= f[start - 4];
      }
    }
  }

  lemma StepLeavesOthers(buckets: map<string, Bucket>, a: Attempt, client: string)
    requires a.client != client
    ensures BucketOf(Step(buckets, a).0, client) == BucketOf(buckets, client)
  {}

  /** **Who is let in, and what is left of them.** An attempt is admitted iff the PIN is right and the client is not
      locked out at that moment; it then leaves no row for its client, and no attempt touches another client's. */
  lemma AdmittedIff(buckets: map<string, Bucket>, a: Attempt)
    ensures var (after, result) := Step(buckets, a);
            var lockedOut := a.client in buckets && buckets[a.client].lockedUntil.Some? && a.now < buckets[a.client].lockedUntil.value;
            && (result.authenticated <==> a.correct && !lockedOut)
            && (result.authenticated ==> a.client !in after && !result.locked && result.retryAfter.None?)
            && (!result.authenticated ==> a.client in after)
            && (lockedOut ==> result.locked && after == buckets)
            && forall c :: c != a.client ==> (c in after <==> c in buckets) && (c in after ==> after[c] == buckets[c])
  {}

  /** **Nothing from before an admission matters.** Whatever a client did up to being let in, its bucket, its counted
      failures and the reply to its next attempt are those of the run that starts afterwards. */
  lemma {:induction false} AdmissionForgets(run: seq<Attempt>, more: seq<Attempt>, client: string)
    requires run != [] && Last(run).client == client && Admits(run)
    ensures BucketOf(After(run + more), client) == BucketOf(After(more), client)
    ensures FailuresOf(run + more, client) == FailuresOf(more, client)
    decreases |more|
  {
    if more == [] {
      assert run + more == run;
      AdmittedIff(After(Front(run)), Last(run));
    } else {
      assert Front(run + more) == run + Front(more) && Last(run + more) == Last(more);
      AdmissionForgets(run, Front(more), client);
      if Last(more).client != client {
        StepLeavesOthers(After(Front(run + more)), Last(more), client);
        StepLeavesOthers(After(Front(more)), Last(more), client);
      }
    }
  }

  /** The bucket of a client always explains its failures since it was last let in. */
  lemma {:induction false} RunExplained(run: seq<Attempt>, client: string, now: int)
    requires ClockNeverStepsBack(run)
    requires forall i :: 0 <= i < |run| ==> run[i].now <= now
    ensures Explains(FailuresOf(run, client), BucketOf(After(run), client), now)
  {
    if run != [] {
      var before, a := Front(run), Last(run);
      RunExplained(before, client, a.now);
      var f, b := FailuresOf(before, client), BucketOf(After(before), client);
      if a.client != client {
        StepLeavesOthers(After(before), a, client);
        assert f + [] == f;
      } else if Evaluated(b, a.now) && !a.correct {
        FailureKept(f, b, a.now);
      } else {
        assert f + [] == f;
      }
      ExplainsLater(FailuresOf(run, client), BucketOf(After(run), client), a.now, now);
    }
  }

  // ------------------------------------------------------------------
  // What the limiter promises.
  // ------------------------------------------------------------------

  function Within(f: seq<int>, a: int): set<int> {
    set i | 0 <= i < |f| && a <= f[i] < a + WINDOW
  }

  lemma AtMostEight(f: seq<int>, a: int)
    requires forall i, j :: 0 <= i < j < |f| ==> f[i] <= f[j]
    requires forall i :: 0 <= i < |f| - 8 ==> f[i] + WINDOW <= f[i + 8]
    ensures |Within(f, a)| <= 8
  {
    var lo := 0;
    while lo < |f| && f[lo] < a
      invariant 0 <= lo <= |f| && forall i :: 0 <= i < lo ==> f[i] < a
    {
      lo := lo + 1;
    }
    assert forall i :: lo + 8 <= i < |f| ==> f[lo + 8] <= f[i];
    SpanIs(lo, 8);
    SubsetSize(Within(f, a), Span(lo, 8));
  }

  function Span(lo: int, n: nat): set<int> {
    if n == 0 then {} else Span(lo, n - 1) + {lo + n - 1}
  }

  lemma {:induction false} SpanIs(lo: int, n: nat)
    ensures |Span(lo, n)| == n && forall i :: i in Span(lo, n) <==> lo <= i < lo + n
  {
    if n > 0 { SpanIs(lo, n - 1); }
  }

  /** **Sliding bound.** Whatever the other clients do, a client has at most eight PINs compared and refused
      between two admissions in any half-open fifteen minutes of a run whose clock never steps back. */
  lemma SlidingBound(run: seq<Attempt>, client: string, a: int)
    requires ClockNeverStepsBack(run)
    ensures |Within(FailuresOf(run, client), a)| <= 8
  {
    if run != [] { RunExplained(run, client, Last(run).now); }
    AtMostEight(FailuresOf(run, client), a);
  }

  /** An explained bucket is within its limit and locked exactly at it, from the last failure. */
  lemma ExplainedLock(f: seq<int>, b: Option<Bucket>, now: int)
    requires Explains(f, b, now) && b.Some?
    ensures f != [] && 1 <= b.value.failures <= FAILURE_LIMIT
    ensures b.value.lockedUntil == if b.value.failures == FAILURE_LIMIT then Some(Last(f) + LOCK) else None
  {}

  /** The reply to a wrong PIN that was compared is a lock reply exactly at the fifth failure of its window. */
  lemma ReplyAtLimit(f: seq<int>, b: Option<Bucket>, now: int)
    requires Explains(f, b, now) && Evaluated(b, now)
    ensures var (after, result) := Check(b, now, false);
            after.Some? && (result.locked <==> after.value.failures == FAILURE_LIMIT)
  {
    FailureKept(f, b, now);
  }

  lemma BucketStays(run: seq<Attempt>, client: string)
    requires run != [] && Last(run).client == client && !Admits(run)
    ensures var a := Last(run);
            var b := BucketOf(After(Front(run)), client);
            && BucketOf(After(run), client).Some?
            && (Evaluated(b, a.now) ==> !a.correct)
            && BucketOf(After(run), client) == Check(b, a.now, a.correct).0
            && Step(After(Front(run)), a).1 == Check(b, a.now, a.correct).1
  {}

  /** **The counter and the lock.** After an attempt that is not admitted `failure_count` is between one and five,
      the lock is set exactly at five and runs from the fifth failure, and a reply to a compared PIN is a lock
      reply only from the attempt that just reached the limit. */
  lemma LockOnlyAtLimit(run: seq<Attempt>, client: string)
    requires run != [] && ClockNeverStepsBack(run) && Last(run).client == client && !Admits(run)
    ensures var b := BucketOf(After(run), client);
            && b.Some? && 1 <= b.value.failures <= FAILURE_LIMIT
            && FailuresOf(run, client) != []
            && b.value.lockedUntil == (if b.value.failures == FAILURE_LIMIT then Some(Last(FailuresOf(run, client)) + LOCK) else None)
            && (Evaluated(BucketOf(After(Front(run)), client), Last(run).now) ==>
                  (Step(After(Front(run)), Last(run)).1.locked <==> b.value.failures == FAILURE_LIMIT))
  {
    var now := Last(run).now;
    BucketStays(run, client);
    RunExplained(run, client, now);
    ExplainedLock(FailuresOf(run, client), BucketOf(After(run), client), now);
    var b := BucketOf(After(Front(run)), client);
    if Evaluated(b, now) {
      RunExplained(Front(run), client, now);
      ReplyAtLimit(FailuresOf(Front(run), client), b, now);
    }
  }

  // ------------------------------------------------------------------
  // Eight is reached.
  // ------------------------------------------------------------------

  function Guesses(times: seq<int>): seq<Attempt> {
    seq(|times|, i requires 0 <= i < |times| => Attempt("", times[i], false))
  }

  /** One failure that opens a window, three just before it ends, five just after. */
  function BurstTime(i: nat): int { if i == 0 then 0 else WINDOW - 4 + i }

  function Burst(n: nat): seq<int> {
    if n == 0 then [] else Burst(n - 1) + [BurstTime(n - 1)]
  }

  lemma {:induction false} BurstIs(n: nat)
    ensures |Burst(n)| == n && forall i :: 0 <= i < n ==> Burst(n)[i] == BurstTime(i)
  {
    if n > 0 { BurstIs(n - 1); }
  }

  function BucketAt(n: nat): Option<Bucket> {
    if n == 0 then None
    else if n <= 4 then Some(Bucket(0, n, None))
    else Some(Bucket(WINDOW, n - 4, if n == 9 then Some(WINDOW + 4 + LOCK) else None))
  }

  /** Guessing wrongly at `times`, every guess is compared, and the bucket ends as `b`. */
  ghost predicate AllCompared(times: seq<int>, b: Option<Bucket>) {
    var run := Guesses(times);
    FailuresOf(run, "") == times && NeverAdmitted(run, "") && BucketOf(After(run), "") == b
  }

  lemma OneMoreGuess(times: seq<int>, now: int, b: Option<Bucket>, after: Option<Bucket>)
    requires AllCompared(times, b) && Evaluated(b, now) && Check(b, now, false).0 == after
    ensures AllCompared(times + [now], after)
  {
    var run := Guesses(times + [now]);
    assert Front(run) == Guesses(times);
    assert Last(run) == Attempt("", now, false);
  }

  lemma BurstStep(n: nat)
    requires 0 < n <= 9
    ensures Evaluated(BucketAt(n - 1), BurstTime(n - 1))
    ensures Check(BucketAt(n - 1), BurstTime(n - 1), false).0 == BucketAt(n)
  {}

  lemma {:induction false} BurstRuns(n: nat)
    requires n <= 9
    ensures AllCompared(Burst(n), BucketAt(n))
  {
    if n > 0 {
      BurstRuns(n - 1);
      BurstStep(n);
      OneMoreGuess(Burst(n - 1), BurstTime(n - 1), BucketAt(n - 1), BucketAt(n));
    }
  }

  lemma BurstInOrder(n: nat)
    ensures ClockNeverStepsBack(Guesses(Burst(n)))
  {
    BurstIs(n);
  }

  lemma BurstWithin(f: seq<int>)
    requires |f| == 9 && forall i :: 0 <= i < 9 ==> f[i] == BurstTime(i)
    ensures |Within(f, WINDOW - 3)| == 8
  {
    SpanIs(1, 8);
    assert Within(f, WINDOW - 3) == Span(1, 8);
  }

  /** **Eight is attained**, so the bound cannot be lowered. */
  lemma EightAttained()
    ensures var run := Guesses(Burst(9));
            && ClockNeverStepsBack(run) && NeverAdmitted(run, "")
            && |Within(FailuresOf(run, ""), WINDOW - 3)| == 8
  {
    BurstRuns(9);
    BurstInOrder(9);
    BurstIs(9);
    BurstWithin(Burst(9));
  }

  // ------------------------------------------------------------------
  // The wait the client is told.
  // ------------------------------------------------------------------

  function SecondsLater(now: int, n: int): int { now + n * SECOND }

  /** After `wait` whole seconds, and no sooner, a PIN is compared again. */
  ghost predicate ExactWait(b: Bucket, now: int, wait: Option<int>) {
    && wait.Some? && wait.value >= 1
    && Evaluated(Some(b), SecondsLater(now, wait.value))
    && forall n :: n < wait.value ==> !Evaluated(Some(b), SecondsLater(now, n))
  }

  lemma WaitIsExact(b: Bucket, now: int)
    requires IsLocked(b, now)
    ensures ExactWait(b, now, Some(CeilSeconds(b.lockedUntil.value - now)))
  {
    var left := b.lockedUntil.value - now;
    var wait := CeilSeconds(left);
    assert wait * SECOND >= left > (wait - 1) * SECOND;
    forall n | n < wait ensures !Evaluated(Some(b), SecondsLater(now, n)) {
      assert n * SECOND <= (wait - 1) * SECOND;
    }
  }

  /** **`Retry-After` is exact.** A locked-out attempt changes nothing, waiting the stated number of
      seconds always gets the PIN compared, and no smaller whole number of seconds does. */
  lemma RetryAfterIsExact(b: Bucket, now: int, correct: bool)
    requires IsLocked(b, now)
    ensures Check(Some(b), now, correct).0 == Some(b)
    ensures ExactWait(b, now, Check(Some(b), now, correct).1.retryAfter)
  {
    WaitIsExact(b, now);
  }

  /** So is the wait in the reply to the failure that locks. */
  lemma LockReplyIsExact(f: seq<int>, b: Option<Bucket>, now: int)
    requires Explains(f, b, now) && Evaluated(b, now) && Check(b, now, false).1.locked
    ensures var (after, result) := Check(b, now, false);
            after.Some? && ExactWait(after.value, now, result.retryAfter)
  {
    FailureKept(f, b, now);
    WaitIsExact(Check(b, now, false).0.value, now);
  }

  // ------------------------------------------------------------------
  // Without the clock hypothesis.
  // ------------------------------------------------------------------

  /** The failure counted last on `client`'s bucket set the lock, at a clock reading before its window. */
  ghost predicate LocksEarly(run: seq<Attempt>, client: string)
    requires run != []
  {
    var before, a := BucketOf(After(Front(run)), client), Last(run);
    && a.client == client && !a.correct && Evaluated(before, a.now)
    && var counted := CountFailure(FetchOrCreate(before, a.now), a.now);
       counted.lockedUntil.Some? && a.now < counted.windowStart
  }

  /** Every failure that locks `client` out has a clock reading not before its window. */
  ghost predicate LocksInOrder(run: seq<Attempt>, client: string) {
    run != [] ==> LocksInOrder(Front(run), client) && !LocksEarly(run, client)
  }

  /** Whatever the clock says, one more wrong PIN leaves the counter within five. */
  ghost predicate NextWithin(b: Option<Bucket>) {
    forall now :: WithinAfter(b, now)
  }

  predicate WithinAfter(b: Option<Bucket>, now: int) {
    Check(b, now, false).0.Some? && Check(b, now, false).0.value.failures <= FAILURE_LIMIT
  }

  /** At no point of the run could one more wrong PIN push `client`'s counter past five. */
  ghost predicate LimitHolds(run: seq<Attempt>, client: string) {
    NextWithin(BucketOf(After(run), client)) && (run != [] ==> LimitHolds(Front(run), client))
  }

  /** A bucket within its limit, locked exactly at it, and not before the window plus the lock time. */
  predicate Tame(b: Option<Bucket>) {
    b.Some? ==>
      && b.value.failures <= FAILURE_LIMIT
      && (b.value.lockedUntil.Some? <==> b.value.failures == FAILURE_LIMIT)
      && (b.value.lockedUntil.Some? ==> b.value.lockedUntil.value >= b.value.windowStart + LOCK)
  }

  lemma TameIsWithin(b: Option<Bucket>)
    requires Tame(b)
    ensures NextWithin(b)
  {}

  /** One attempt on a tame bucket leaves it tame, unless it locks early; and then the limit is open. */
  lemma TameStep(b: Option<Bucket>, now: int, correct: bool)
    requires Tame(b)
    ensures var counted := CountFailure(FetchOrCreate(b, now), now);
            var early := !correct && Evaluated(b, now) && counted.lockedUntil.Some? && now < counted.windowStart;
            var after := Check(b, now, correct).0;
            if early then !NextWithin(after) else Tame(after)
  {
    var counted := CountFailure(FetchOrCreate(b, now), now);
    if !correct && Evaluated(b, now) && counted.lockedUntil.Some? && now < counted.windowStart {
      assert !WithinAfter(Some(counted), now + LOCK);
    }
  }

  lemma {:induction false} LimitHoldsStep(run: seq<Attempt>, client: string)
    ensures LimitHolds(run, client) <==> LocksInOrder(run, client)
    ensures LocksInOrder(run, client) ==> Tame(BucketOf(After(run), client))
  {
    if run != [] {
      var before, a := Front(run), Last(run);
      LimitHoldsStep(before, client);
      if LocksInOrder(before, client) {
        if a.client == client {
          TameStep(BucketOf(After(before), client), a.now, a.correct);
        } else {
          StepLeavesOthers(After(before), a, client);
        }
      }
    }
    if LocksInOrder(run, client) { TameIsWithin(BucketOf(After(run), client)); }
  }

  /** **Exactly when the limit holds, for any clock at all.** Over a run of any clients with any clock
      readings, no wrong PIN at any point can push a client's counter past five iff every failure that locked
      the client out was not before its window. Then the counter and the lock agree throughout. */
  lemma LimitHoldsIff(run: seq<Attempt>, client: string)
    ensures LimitHolds(run, client) <==> LocksInOrder(run, client)
    ensures LocksInOrder(run, client) && client in After(run) ==>
              var b := After(run)[client];
              b.failures <= FAILURE_LIMIT && (b.lockedUntil.Some? <==> b.failures == FAILURE_LIMIT)
  {
    LimitHoldsStep(run, client);
  }

  /** A clock that never steps back locks in order, so then the limit holds for every client, admitted or not. */
  lemma {:induction false} OrderedClockLocksInOrder(run: seq<Attempt>, client: string, now: int)
    requires ClockNeverStepsBack(run) && forall i :: 0 <= i < |run| ==> run[i].now <= now
    ensures LocksInOrder(run, client)
    ensures client in After(run) ==> After(run)[client].windowStart <= now
  {
    if run != [] {
      var a := Last(run);
      OrderedClockLocksInOrder(Front(run), client, a.now);
      if a.client != client { StepLeavesOthers(After(Front(run)), a, client); }
    }
  }

  /** **The clock must not step back.** A run whose clock does counts a sixth failure in one window. */
  lemma ClockMustNotStepBack()
    ensures var run := Guesses([1000, 0, 0, 0, 0, WINDOW]);
            BucketOf(After(run), "") == Some(Bucket(1000, 6, Some(WINDOW + LOCK)))
  {
    StepBackRuns(5);
    OneMoreGuess(StepBack(5), WINDOW, Some(Bucket(1000, 5, Some(LOCK))), Some(Bucket(1000, 6, Some(WINDOW + LOCK))));
    StepBackIs();
  }

  /** One failure at a reading of 1000, and then the clock says nought. */
  function StepBack(n: nat): seq<int> {
    if n == 0 then [] else StepBack(n - 1) + [StepBackTime(n - 1)]
  }

  lemma StepBackIs()
    ensures StepBack(5) + [WINDOW] == [1000, 0, 0, 0, 0, WINDOW]
  {
    assert StepBack(0) == [] && StepBack(1) == [1000] && StepBack(2) == [1000, 0] && StepBack(3) == [1000, 0, 0];
    assert StepBack(4) == [1000, 0, 0, 0] && StepBack(5) == [1000, 0, 0, 0, 0];
  }

  function StepBackBucket(n: nat): Option<Bucket> {
    if n == 0 then None else Some(Bucket(1000, n, if n == 5 then Some(LOCK) else None))
  }

  function StepBackTime(n: nat): int { if n == 0 then 1000 else 0 }

  lemma StepBackStep(n: nat)
    requires n < 5
    ensures Evaluated(StepBackBucket(n), StepBackTime(n))
    ensures Check(StepBackBucket(n), StepBackTime(n), false).0 == StepBackBucket(n + 1)
  {}

  lemma {:induction false} StepBackRuns(n: nat)
    requires n <= 5
    ensures AllCompared(StepBack(n), StepBackBucket(n))
  {
    if n > 0 {
      StepBackRuns(n - 1);
      StepBackStep(n - 1);
      OneMoreGuess(StepBack(n - 1), StepBackTime(n - 1), StepBackBucket(n - 1), StepBackBucket(n));
    }
  }
}
