/** The wait for pending uploads before an unmount: polling with a growing sleep, a retry limit and a deadline. */
module CacheSync {
  import opened Options

  /** Pending uploads as the VFS reports them; a missing number counts as zero. */
  datatype Uploads = Uploads(inProgress: Option<int>, queued: Option<int>)

  /** One reading of the VFS statistics; without a disk cache there are no numbers. */
  datatype Sample = Sample(diskCache: Option<Uploads>)

  predicate Pending(n: Option<int>) {
    n.Some? && n.value > 0
  }

  /** There is a disk cache, and neither of its two numbers is positive. */
  predicate NothingLeft(s: Sample) {
    match s.diskCache
    case None => false
    case Some(u) => (u.inProgress.None? || u.inProgress.value <= 0) && (u.queued.None? || u.queued.value <= 0)
  }

  /** There is no disk cache, or an upload in progress, or one in the queue. */
  predicate SomethingLeft(s: Sample) {
    match s.diskCache
    case None => true
    case Some(u) => Uploading(u)
  }

  predicate Uploading(u: Uploads) {
    (u.inProgress.Some? && u.inProgress.value >= 1) || (u.queued.Some? && u.queued.value >= 1)
  }

  datatype End = NoCache | Synced | OutOfRetries | PastDeadline

  const MAX_RETRIES: nat := 5
  const STEP_MILLIS: nat := 2000
  const CAP_MILLIS: nat := 10000
  const TIMEOUT_MILLIS: nat := 120000

  function Min(a: int, b: int): int {
    if a < b then a else b
  }

  /** The time slept in n retries. */
  function Slept(n: nat, step: nat, cap: nat): nat {
    if n == 0 then 0 else Slept(n - 1, step, cap) + Min(n * step, cap)
  }

  /** The readings of the statistics and of the clock are arbitrary.  The loop reads statistics k after clock k. */
  method WaitForSync(first: Sample, samples: nat -> Sample, start: int, clock: nat -> int,
                     maxRetries: nat, step: nat, cap: nat, timeout: nat)
    returns (end: End, retries: nat, slept: nat)
    ensures end == NoCache <==> first.diskCache.None?
    ensures retries <= maxRetries && slept == Slept(retries, step, cap)
    ensures end == NoCache ==> retries == 0
    ensures end != NoCache ==> forall k :: 0 <= k < retries ==> SomethingLeft(samples(k)) && clock(k) < start + timeout
    ensures end == Synced ==> retries < maxRetries && clock(retries) < start + timeout && NothingLeft(samples(retries))
    ensures end == OutOfRetries ==> retries == maxRetries
    ensures end == PastDeadline ==> retries < maxRetries && clock(retries) >= start + timeout
  {
    retries, slept := 0, 0;
    if first.diskCache.None? {
      return NoCache, retries, slept;
    }
    var deadline := start + timeout;
    while retries < maxRetries && clock(retries) < deadline
      invariant retries <= maxRetries && slept == Slept(retries, step, cap)
      invariant forall k :: 0 <= k < retries ==> SomethingLeft(samples(k)) && clock(k) < deadline
    {
      var allClear := true;
      match samples(retries).diskCache {
        case Some(uploads) =>
          if Pending(uploads.inProgress) || Pending(uploads.queued) {
            allClear := false;
          }
        case None =>
          allClear := false;
      }
      if allClear {
        return Synced, retries, slept;
      }
      retries := retries + 1;
      var sleep := retries * step;
      if sleep > cap {
        sleep := cap;
      }
      slept := slept + sleep;
    }
    end := if retries == maxRetries then OutOfRetries else PastDeadline;
  }

  function Triangle(n: nat): nat {
    n * (n + 1) / 2
  }

  lemma TriangleNext(n: nat)
    ensures Triangle(n + 1) == Triangle(n) + n + 1
  {
    assert (n + 1) * (n + 2) == n * (n + 1) + 2 * (n + 1);
  }

  /** While the sleeps grow. */
  lemma {:induction false} SleptGrowing(n: nat, step: nat, cap: nat)
    requires n * step <= cap
    ensures Slept(n, step, cap) == step * Triangle(n)
  {
    if n > 0 {
      assert (n - 1) * step == n * step - step;
      SleptGrowing(n - 1, step, cap);
      TriangleNext(n - 1);
      Distribute(step, Triangle(n - 1), n);
    }
  }

  lemma Distribute(a: int, b: int, c: int)
    ensures a * (b + c) == a * b + a * c && a * c == c * a
  {
  }

  lemma Monotone(step: nat, m: nat, n: nat)
    requires m <= n
    ensures m * step <= n * step
  {
    assert n * step == m * step + (n - m) * step;
  }

  /** Sleeps that grow up to the cap, then the cap. */
  lemma {:induction false} SleptCapped(n: nat, step: nat, cap: nat, m: nat)
    requires m <= n && m * step <= cap < (m + 1) * step
    ensures Slept(n, step, cap) == step * Triangle(m) + (n - m) * cap
  {
    if n == m {
      SleptGrowing(n, step, cap);
    } else {
      SleptCapped(n - 1, step, cap, m);
      Monotone(step, m + 1, n);
      Distribute(cap, n - 1 - m, 1);
    }
  }

  /** The retries whose sleep is not cut off at the cap. */
  function Uncut(n: nat, step: nat, cap: nat): nat {
    if step == 0 then n else Min(n, cap / step)
  }

  /** The closed form, for any number of retries, step and cap. */
  lemma SleptClosedForm(n: nat, step: nat, cap: nat)
    ensures Slept(n, step, cap) == step * Triangle(Uncut(n, step, cap)) + (n - Uncut(n, step, cap)) * cap
  {
    hide Slept, Triangle;
    if step == 0 || n <= cap / step {
      if step > 0 { Monotone(step, n, cap / step); }
      SleptGrowing(n, step, cap);
    } else {
      Distribute(step, cap / step, 1);
      SleptCapped(n, step, cap, cap / step);
    }
  }

  lemma {:induction false} SleptMonotone(m: nat, n: nat, step: nat, cap: nat)
    requires m <= n
    ensures Slept(m, step, cap) <= Slept(n, step, cap)
  {
    if m < n { SleptMonotone(m, n - 1, step, cap); }
  }

  /** With the constants of the driver: never more than 30 seconds of sleep, and all of them when every retry is used. */
  lemma SleepAtMostThirtySeconds(n: nat)
    requires n <= MAX_RETRIES
    ensures Slept(n, STEP_MILLIS, CAP_MILLIS) <= 30000
    ensures Slept(n, STEP_MILLIS, CAP_MILLIS) == 30000 <==> n == MAX_RETRIES
    ensures n < MAX_RETRIES ==> Slept(n, STEP_MILLIS, CAP_MILLIS) <= 20000
  {
    SleptClosedForm(MAX_RETRIES, STEP_MILLIS, CAP_MILLIS);
    SleptClosedForm(MAX_RETRIES - 1, STEP_MILLIS, CAP_MILLIS);
    hide Slept;
    if n < MAX_RETRIES { SleptMonotone(n, MAX_RETRIES - 1, STEP_MILLIS, CAP_MILLIS); }
  }

  /** The clock shows what was slept, and otherwise less than the given time. */
  ghost predicate ReadsWithin(clock: nat -> int, start: int, millis: int) {
    forall k: nat :: k < MAX_RETRIES ==> clock(k) < start + Slept(k, STEP_MILLIS, CAP_MILLIS) + millis
  }

  /** The wait of the driver; without a mount point there is no first reading.  It sleeps 30 seconds at most, and the
      deadline of two minutes never ends it unless reading the statistics takes 100 seconds. */
  method WaitForVFSCacheSync(first: Option<Sample>, samples: nat -> Sample, start: int, clock: nat -> int)
    returns (end: End, retries: nat, slept: nat)
    ensures end == NoCache <==> first.None? || first.value.diskCache.None?
    ensures slept <= 30000 && (slept == 30000 <==> end == OutOfRetries)
    ensures retries <= 5 && (end == OutOfRetries <==> retries == 5) && (end == PastDeadline ==> clock(retries) >= start + 120000)
    ensures end == Synced ==> samples(retries).diskCache.Some?
    ensures end == Synced && samples(retries).diskCache.value.inProgress.Some? ==> samples(retries).diskCache.value.inProgress.value <= 0
    ensures end == Synced && samples(retries).diskCache.value.queued.Some? ==> samples(retries).diskCache.value.queued.value <= 0
    ensures end != NoCache ==> forall k | 0 <= k < retries && samples(k).diskCache.Some? :: Uploading(samples(k).diskCache.value)
    ensures ReadsWithin(clock, start, 100000) ==> end != PastDeadline
  {
    if first.None? {
      return NoCache, 0, 0;
    }
    end, retries, slept := WaitForSync(first.value, samples, start, clock, MAX_RETRIES, STEP_MILLIS, CAP_MILLIS, TIMEOUT_MILLIS);
    SleepAtMostThirtySeconds(retries);
    hide Slept;
    assert retries == MAX_RETRIES ==> end == OutOfRetries;
  }
}
