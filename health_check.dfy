/**
 * `HealthMonitor`: bounded buffers of request metrics, and the threshold classifiers
 * that turn readings into a status. Readings of the host (`psutil`) and the clock are
 * parameters; latencies and percentages are reals.
 */
module HealthCheck {
  import opened Wrappers

  datatype Status = Healthy | Warning | Critical {
    function Label(): string {
      match this
      case Healthy => "healthy"
      case Warning => "warning"
      case Critical => "critical"
    }
  }

  const MemoryWarning: real := 85.0
  const MemoryCritical: real := 95.0
  const LatencyWarning: real := 2.0
  const LatencyCritical: real := 5.0
  const ErrorRateWarning: real := 0.1
  const ErrorRateCritical: real := 0.2
  const SystemWarning: real := 75.0
  const SystemCritical: real := 90.0

  /** The buffers keep this many of the most recent entries. */
  const BufferLimit := 1000
  /** The average latency is taken over this many of the most recent entries. */
  const LatencyWindow := 100
  const SecondsPerHour := 3600
  const SecondsPerDay := 86400

  // ---------------------------------------------------------------------------
  // Classifiers

  /** `_get_memory_status(usage)` */
  function MemoryStatus(usage: real): (s: Status)
    ensures s == Critical <==> usage > MemoryCritical
    ensures s == Warning <==> MemoryWarning < usage <= MemoryCritical
    ensures s == Healthy <==> usage <= MemoryWarning
  {
    if usage > MemoryCritical then Critical
    else if usage > MemoryWarning then Warning
    else Healthy
  }

  /** `_get_api_status(latency)` */
  function ApiStatus(latency: real): (s: Status)
    ensures s == Critical <==> latency > LatencyCritical
    ensures s == Warning <==> LatencyWarning < latency <= LatencyCritical
    ensures s == Healthy <==> latency <= LatencyWarning
  {
    if latency > LatencyCritical then Critical
    else if latency > LatencyWarning then Warning
    else Healthy
  }

  /** `_get_system_status(cpu_usage, disk_usage)` */
  function SystemStatus(cpu: real, disk: real): (s: Status)
    ensures s == Critical <==> cpu > SystemCritical || disk > SystemCritical
    ensures s == Warning <==> cpu <= SystemCritical && disk <= SystemCritical && (cpu > SystemWarning || disk > SystemWarning)
    ensures s == Healthy <==> cpu <= SystemWarning && disk <= SystemWarning
  {
    if cpu > SystemCritical || disk > SystemCritical then Critical
    else if cpu > SystemWarning || disk > SystemWarning then Warning
    else Healthy
  }

  /** `_get_overall_status()` for a memory reading and an error rate. */
  function OverallStatus(usage: real, errorRate: real): (s: Status)
    ensures s == Critical <==> usage > MemoryCritical || errorRate > ErrorRateCritical
    ensures s == Healthy <==> usage <= MemoryWarning && errorRate <= ErrorRateWarning
  {
    if usage > MemoryCritical || errorRate > ErrorRateCritical then Critical
    else if usage > MemoryWarning || errorRate > ErrorRateWarning then Warning
    else Healthy
  }

  /** A reading raised from one value to a higher one never gets a better status. */
  lemma MemoryStatusMonotone(u: real, v: real)
    requires u <= v
    ensures MemoryStatus(u) == Critical ==> MemoryStatus(v) == Critical
    ensures MemoryStatus(v) == Healthy ==> MemoryStatus(u) == Healthy
  {
  }

  // ---------------------------------------------------------------------------
  // Buffers and averages

  /** `s[-n:]` for `n > 0`: the whole list when it is short enough. */
  function Last<T>(s: seq<T>, n: nat): (r: seq<T>)
    requires n > 0
    ensures |r| == if |s| > n then n else |s|
    ensures r == s[|s| - |r|..]
  {
    if |s| > n then s[|s| - n..] else s
  }

  /** Appending and keeping the last `n` keeps the new entry last and drops only the oldest ones. */
  lemma AppendAndTrim<T>(s: seq<T>, x: T, n: nat)
    requires n > 0
    ensures var r := Last(s + [x], n);
            && 0 < |r| <= n && r[|r| - 1] == x
            && r[..|r| - 1] == (if n > 1 then Last(s, n - 1) else [])
  {
    var r := Last(s + [x], n);
    assert r == (s + [x])[|s| + 1 - |r|..];
    assert r[..|r| - 1] == s[|s| + 1 - |r|..];
  }

  function Sum(s: seq<real>): real
    decreases |s|
  {
    if s == [] then 0.0 else Sum(s[..|s| - 1]) + s[|s| - 1]
  }

  /** The sum of values all within `[lo, hi]` is within `|s|` times those bounds. */
  lemma {:induction false} SumBounds(s: seq<real>, lo: real, hi: real)
    requires forall x | x in s :: lo <= x <= hi
    ensures |s| as real * lo <= Sum(s) <= |s| as real * hi
    decreases |s|
  {
    if s != [] {
      var init := s[..|s| - 1];
      assert forall x | x in init :: x in s;
      SumBounds(init, lo, hi);
      assert s[|s| - 1] in s;
      assert |s| as real * lo == |init| as real * lo + lo;
      assert |s| as real * hi == |init| as real * hi + hi;
    }
  }

  /** The mean of the last 100 latencies; `0` when none has been recorded. */
  function AverageLatency(latencies: seq<real>): (avg: real)
    ensures latencies == [] ==> avg == 0.0
  {
    if latencies == [] then 0.0
    else
      var window := Last(latencies, LatencyWindow);
      Sum(window) / |window| as real
  }

  /** The average of a non-empty buffer lies between the least and greatest of its last 100 entries. */
  lemma AverageWithinWindow(latencies: seq<real>, lo: real, hi: real)
    requires latencies != []
    requires forall x | x in Last(latencies, LatencyWindow) :: lo <= x <= hi
    ensures lo <= AverageLatency(latencies) <= hi
  {
    var window := Last(latencies, LatencyWindow);
    SumBounds(window, lo, hi);
    MeanBounds(Sum(window), |window| as real, lo, hi);
  }

  /** A total between `n` times two bounds gives a mean between them. */
  lemma MeanBounds(total: real, n: real, lo: real, hi: real)
    requires n > 0.0 && n * lo <= total <= n * hi
    ensures lo <= total / n <= hi
  {
    var q := total / n;
    assert q * n == total;
  }

  /** Entries older than the last 100 play no part in the average. */
  lemma AverageIgnoresOlder(older: seq<real>, recent: seq<real>)
    requires |recent| >= LatencyWindow
    ensures AverageLatency(older + recent) == AverageLatency(recent)
  {
    var s := older + recent;
    assert Last(s, LatencyWindow) == Last(recent, LatencyWindow) by {
      assert s[|s| - LatencyWindow..] == recent[|recent| - LatencyWindow..];
    }
  }

  // ---------------------------------------------------------------------------
  // The monitor

  datatype ErrorEntry = ErrorEntry(stamp: int, details: Option<string>)

  /** The number of errors recorded less than an hour before `now`. */
  function RecentErrors(errors: seq<ErrorEntry>, now: int): (n: nat)
    ensures n <= |errors|
    decreases |errors|
  {
    if errors == [] then 0
    else RecentErrors(errors[..|errors| - 1], now) + (if now - errors[|errors| - 1].stamp < SecondsPerHour then 1 else 0)
  }

  /** The `metrics` of a `HealthMonitor`. */
  class HealthMonitor {
    var memoryUsage: seq<real>
    var apiLatency: seq<real>
    var requestCount: nat
    var errors: seq<ErrorEntry>
    var lastMemoryOptimization: Option<int>

    /** The buffers stay bounded, and every recorded error belongs to a counted request. */
    ghost predicate Valid()
      reads this
    {
      |apiLatency| <= BufferLimit && |errors| <= BufferLimit && |errors| <= requestCount
    }

    constructor ()
      ensures Valid()
      ensures memoryUsage == [] && apiLatency == [] && requestCount == 0 && errors == []
      ensures lastMemoryOptimization == None
    {
      memoryUsage, apiLatency, requestCount, errors := [], [], 0, [];
      lastMemoryOptimization := None;
    }

    /** `record_request(latency, error, error_details)` at time `now`. */
    method RecordRequest(latency: real, error: bool, details: Option<string>, now: int)
      requires Valid()
      modifies this
      ensures Valid()
      ensures requestCount == old(requestCount) + 1
      ensures apiLatency == Last(old(apiLatency) + [latency], BufferLimit)
      ensures error ==> errors == Last(old(errors) + [ErrorEntry(now, details)], BufferLimit)
      ensures !error ==> errors == old(errors)
      ensures memoryUsage == old(memoryUsage) && lastMemoryOptimization == old(lastMemoryOptimization)
    {
      requestCount := requestCount + 1;
      apiLatency := apiLatency + [latency];
      if |apiLatency| > BufferLimit {
        apiLatency := apiLatency[|apiLatency| - BufferLimit..];
      }
      if error {
        errors := errors + [ErrorEntry(now, details)];
        if |errors| > BufferLimit {
          errors := errors[|errors| - BufferLimit..];
        }
      }
    }

    /** `record_memory_optimization()` at time `now`. */
    method RecordMemoryOptimization(now: int)
      modifies this
      ensures lastMemoryOptimization == Some(now)
      ensures memoryUsage == old(memoryUsage) && apiLatency == old(apiLatency)
      ensures requestCount == old(requestCount) && errors == old(errors)
    {
      lastMemoryOptimization := Some(now);
    }

    /** `_calculate_error_rate()` at time `now`: a share of the counted requests. */
    function ErrorRate(now: int): (rate: real)
      reads this
      requires Valid()
      ensures requestCount == 0 ==> rate == 0.0
      ensures 0.0 <= rate <= 1.0
    {
      var recent := RecentErrors(errors, now);
      if requestCount == 0 then 0.0 else recent as real / requestCount as real
    }

    /** The `average_latency` of `_check_api_health()` */
    function AverageApiLatency(): (avg: real)
      reads this
      ensures apiLatency == [] ==> avg == 0.0
    {
      AverageLatency(apiLatency)
    }

    /** The `needs_optimization` flag of `_check_memory()` at time `now`. */
    predicate NeedsOptimization(now: int)
      reads this
    {
      lastMemoryOptimization.None? || now - lastMemoryOptimization.value > SecondsPerDay
    }
  }

  /** Recording an optimisation clears the flag for a whole day. */
  lemma OptimizationRecorded(m: HealthMonitor, since: int, now: int)
    requires m.lastMemoryOptimization == Some(since)
    ensures m.NeedsOptimization(now) <==> now - since > SecondsPerDay
  {
  }
}
