/** Latency metrics of a run, and the interpolated percentile of a cohort, over exact numbers. */
module CiLatency {
  import opened Options
  import opened Ordering

  // ---- The percentile -----------------------------------------------------------------------------------------

  function Leq(): (real, real) -> bool {
    (a: real, b: real) => a <= b
  }

  function Sorted(values: seq<real>): (r: seq<real>)
    ensures multiset(r) == multiset(values) && |r| == |values|
  {
    var r := SortBy(Leq(), values);
    assert |multiset(r)| == |r| && |multiset(values)| == |values|;
    r
  }

  ghost predicate IsSorted(s: seq<real>) {
    forall i, j :: 0 <= i < j < |s| ==> s[i] <= s[j]
  }

  lemma SortedSorts(values: seq<real>)
    ensures IsSorted(Sorted(values))
  {
    SortByAscending(Leq(), values);
    var s := Sorted(values);
    forall i, j | 0 <= i < j < |s| ensures s[i] <= s[j] {
      assert Leq()(s[i], s[j]);
    }
  }

  /** The point that divides the way from `a` to `b` at `x`. */
  function Blend(a: real, b: real, x: real): real {
    a + (b - a) * x
  }

  /** The rank of a fraction among `n` places. */
  function Rank(n: nat, fraction: real): (r: real)
    requires n > 0 && 0.0 <= fraction <= 1.0
    ensures 0.0 <= r <= (n - 1) as real
  {
    RankFits(n, fraction);
    fraction * (n - 1) as real
  }

  /** The value at a rank between two places of the sorted list. */
  function Interpolate(s: seq<real>, rank: real): real
    requires s != [] && 0.0 <= rank <= (|s| - 1) as real
  {
    var low := rank.Floor;
    var high := if low + 1 < |s| then low + 1 else |s| - 1;
    Blend(s[low], s[high], rank - low as real)
  }

  /** `percentile`. */
  function Percentile(values: seq<real>, fraction: real): Option<real>
    requires 0.0 <= fraction <= 1.0
  {
    var s := Sorted(values);
    if s == [] then None
    else if |s| == 1 then Some(s[0])
    else Some(Interpolate(s, Rank(|s|, fraction)))
  }

  // ---- Products -----------------------------------------------------------------------------------------------

  lemma Product(a: real, b: real)
    requires 0.0 <= a && 0.0 <= b
    ensures 0.0 <= a * b
  {
  }

  lemma Distribute(a: real, b: real, x: real)
    ensures (a - b) * x == a * x - b * x
  {
  }

  lemma Scaled(a: real, b: real, x: real)
    requires a <= b && 0.0 <= x
    ensures a * x <= b * x
  {
    Product(b - a, x);
    Distribute(b, a, x);
  }

  lemma RankFits(n: nat, fraction: real)
    requires n > 0 && 0.0 <= fraction <= 1.0
    ensures 0.0 <= fraction * (n - 1) as real <= (n - 1) as real
  {
    Scaled(fraction, 1.0, (n - 1) as real);
    Product(fraction, (n - 1) as real);
  }

  lemma RankMonotone(n: nat, f: real, g: real)
    requires n > 0 && 0.0 <= f <= g <= 1.0
    ensures Rank(n, f) <= Rank(n, g)
  {
    Scaled(f, g, (n - 1) as real);
  }

  /** A blend lies between its end points. */
  lemma BlendBetween(a: real, b: real, x: real)
    requires a <= b && 0.0 <= x <= 1.0
    ensures a <= Blend(a, b, x) <= b
  {
    Product(b - a, x);
    Product(b - a, 1.0 - x);
    Remainder(b - a, x);
  }

  lemma Remainder(d: real, x: real)
    ensures d * (1.0 - x) == d - d * x
  {
  }

  lemma BlendFurther(a: real, b: real, x: real, y: real)
    requires a <= b && x <= y
    ensures Blend(a, b, x) <= Blend(a, b, y)
  {
    Scaled(x, y, b - a);
  }

  /** The difference of two blends is a sum of products. */
  lemma BlendDifference(a: real, b: real, c: real, d: real, x: real)
    ensures Blend(c, d, x) - Blend(a, b, x) == (c - a) * (1.0 - x) + (d - b) * x
  {
    Remainder(c - a, x);
    Distribute(c, a, x);
    Distribute(d, b, x);
    Distribute(d, c, x);
    Distribute(b, a, x);
  }

  /** Moving both end points up moves the point between them up. */
  lemma BlendHigher(a: real, b: real, c: real, d: real, x: real)
    requires a <= c && b <= d && 0.0 <= x <= 1.0
    ensures Blend(a, b, x) <= Blend(c, d, x)
  {
    hide Blend;
    BlendDifference(a, b, c, d, x);
    Product(c - a, 1.0 - x);
    Product(d - b, x);
  }

  // ---- Interpolation ------------------------------------------------------------------------------------------

  /** The place below a rank, and how far the rank is from it. */
  lemma Places(s: seq<real>, rank: real)
    requires s != [] && 0.0 <= rank <= (|s| - 1) as real
    ensures 0 <= rank.Floor < |s| && 0.0 <= rank - rank.Floor as real < 1.0
  {
  }

  function High(s: seq<real>, rank: real): (high: nat)
    requires s != [] && 0.0 <= rank <= (|s| - 1) as real
    ensures high < |s| && rank.Floor <= high
  {
    if rank.Floor + 1 < |s| then rank.Floor + 1 else |s| - 1
  }

  lemma InterpolateBounds(s: seq<real>, rank: real)
    requires s != [] && IsSorted(s) && 0.0 <= rank <= (|s| - 1) as real
    ensures s[0] <= s[rank.Floor] <= Interpolate(s, rank) <= s[High(s, rank)] <= s[|s| - 1]
  {
    hide Blend;
    Places(s, rank);
    BlendBetween(s[rank.Floor], s[High(s, rank)], rank - rank.Floor as real);
  }

  lemma InterpolateMonotone(s: seq<real>, r: real, t: real)
    requires s != [] && IsSorted(s) && 0.0 <= r <= t <= (|s| - 1) as real
    ensures Interpolate(s, r) <= Interpolate(s, t)
  {
    hide Blend;
    Places(s, r);
    Places(s, t);
    if r.Floor == t.Floor {
      BlendFurther(s[r.Floor], s[High(s, r)], r - r.Floor as real, t - t.Floor as real);
    } else {
      InterpolateBounds(s, r);
      InterpolateBounds(s, t);
      assert r.Floor + 1 <= t.Floor;
    }
  }

  /** The percentile as the interpolation at the rank of the fraction; for one value that is the value. */
  lemma PercentileIsInterpolated(values: seq<real>, fraction: real)
    requires values != [] && 0.0 <= fraction <= 1.0
    ensures Percentile(values, fraction) == Some(Interpolate(Sorted(values), Rank(|values|, fraction)))
  {
    hide Sorted, Blend, Rank;
    var s := Sorted(values);
    if |s| == 1 {
      SinglePlace(s, Rank(|s|, fraction));
    }
  }

  lemma SinglePlace(s: seq<real>, rank: real)
    requires |s| == 1 && rank == 0.0
    ensures Interpolate(s, rank) == s[0]
  {
  }

  /** The percentile lies between the smallest and the largest value. */
  lemma PercentileBetween(values: seq<real>, fraction: real, m: real)
    requires values != [] && 0.0 <= fraction <= 1.0
    ensures (forall v :: v in values ==> m <= v) ==> m <= Percentile(values, fraction).value
    ensures (forall v :: v in values ==> v <= m) ==> Percentile(values, fraction).value <= m
  {
    hide Sorted, Interpolate, Percentile, Rank, High;
    var s := Sorted(values);
    SortedSorts(values);
    PercentileIsInterpolated(values, fraction);
    InterpolateBounds(s, Rank(|values|, fraction));
    assert s[0] in multiset(s) && s[|s| - 1] in multiset(s);
    assert s[0] in values && s[|s| - 1] in values;
  }

  /** A larger fraction never gives a smaller percentile. */
  lemma PercentileInFraction(values: seq<real>, f: real, g: real)
    requires values != [] && 0.0 <= f <= g <= 1.0
    ensures Percentile(values, f).value <= Percentile(values, g).value
  {
    hide Sorted, Interpolate, Percentile, Rank;
    SortedSorts(values);
    PercentileIsInterpolated(values, f);
    PercentileIsInterpolated(values, g);
    RankMonotone(|values|, f, g);
    InterpolateMonotone(Sorted(values), Rank(|values|, f), Rank(|values|, g));
  }

  /** The order of the values plays no role. */
  lemma PercentilePermuted(a: seq<real>, b: seq<real>, fraction: real)
    requires multiset(a) == multiset(b) && 0.0 <= fraction <= 1.0
    ensures Percentile(a, fraction) == Percentile(b, fraction)
  {
    hide Interpolate, Rank;
    SortedPermuted(a, b);
  }

  lemma SortedPermuted(a: seq<real>, b: seq<real>)
    requires multiset(a) == multiset(b)
    ensures Sorted(a) == Sorted(b)
  {
    hide SortBy;
    SortByAscending(Leq(), a);
    SortByAscending(Leq(), b);
    AscendingUnique(Leq(), Sorted(a), Sorted(b));
  }

  /** At the rank of a place the percentile is the value of that place. */
  lemma PercentileAtPlace(values: seq<real>, k: nat, fraction: real)
    requires k < |values| && 0.0 <= fraction <= 1.0 && Rank(|values|, fraction) == k as real
    ensures Percentile(values, fraction) == Some(Sorted(values)[k])
  {
    hide Sorted, Rank, Percentile;
    PercentileIsInterpolated(values, fraction);
  }

  // ---- Larger data --------------------------------------------------------------------------------------------

  /** How many values are at most `v`. */
  function CountUpTo(s: seq<real>, v: real): (n: nat)
    ensures n <= |s|
  {
    if s == [] then 0 else CountUpTo(s[1..], v) + if s[0] <= v then 1 else 0
  }

  lemma {:induction false} CountInsert(x: real, xs: seq<real>, v: real)
    ensures CountUpTo(Insert(Leq(), x, xs), v) == CountUpTo(xs, v) + if x <= v then 1 else 0
  {
    if xs == [] {
      assert [x][1..] == [];
    } else if x <= xs[0] {
      assert ([x] + xs)[1..] == xs;
    } else {
      CountInsert(x, xs[1..], v);
      var rest := Insert(Leq(), x, xs[1..]);
      assert ([xs[0]] + rest)[1..] == rest;
    }
  }

  lemma {:induction false} CountSortBy(values: seq<real>, v: real)
    ensures CountUpTo(SortBy(Leq(), values), v) == CountUpTo(values, v)
  {
    if values != [] {
      CountSortBy(values[1..], v);
      CountInsert(values[0], SortBy(Leq(), values[1..]), v);
    }
  }

  /** In a sorted list the value at a place is at most `v` exactly when more values than its number are. */
  lemma {:induction false} CountSorted(s: seq<real>, k: nat, v: real)
    requires IsSorted(s) && k < |s|
    ensures s[k] <= v <==> CountUpTo(s, v) > k
  {
    assert IsSorted(s[1..]);
    if k > 0 {
      CountSorted(s[1..], k - 1, v);
      assert s[0] <= s[k];
      if s[0] > v {
        CountNone(s[1..], v);
      }
    } else if s[0] > v {
      CountNone(s[1..], v);
    }
  }

  lemma {:induction false} CountNone(s: seq<real>, v: real)
    requires forall i :: 0 <= i < |s| ==> s[i] > v
    ensures CountUpTo(s, v) == 0
  {
    if s != [] {
      CountNone(s[1..], v);
    }
  }

  lemma {:induction false} CountFewer(a: seq<real>, b: seq<real>, v: real)
    requires |a| == |b| && forall i :: 0 <= i < |a| ==> a[i] <= b[i]
    ensures CountUpTo(b, v) <= CountUpTo(a, v)
  {
    if a != [] {
      CountFewer(a[1..], b[1..], v);
    }
  }

  /** Raising values raises every place of the sorted list. */
  lemma SortedHigher(a: seq<real>, b: seq<real>, k: nat)
    requires |a| == |b| && k < |a| && forall i :: 0 <= i < |a| ==> a[i] <= b[i]
    ensures Sorted(a)[k] <= Sorted(b)[k]
  {
    hide Sorted;
    SortedSorts(a);
    SortedSorts(b);
    var v := Sorted(b)[k];
    CountSorted(Sorted(b), k, v);
    CountKept(b, v);
    CountFewer(a, b, v);
    CountKept(a, v);
    CountSorted(Sorted(a), k, v);
  }

  lemma CountKept(values: seq<real>, v: real)
    ensures CountUpTo(Sorted(values), v) == CountUpTo(values, v)
  {
    CountSortBy(values, v);
  }

  lemma InterpolateHigher(s: seq<real>, t: seq<real>, rank: real)
    requires |s| == |t| && s != [] && 0.0 <= rank <= (|s| - 1) as real
    requires forall k :: 0 <= k < |s| ==> s[k] <= t[k]
    ensures Interpolate(s, rank) <= Interpolate(t, rank)
  {
    hide Blend;
    Places(s, rank);
    var low, high := rank.Floor, High(s, rank);
    BlendHigher(s[low], s[high], t[low], t[high], rank - low as real);
  }

  /** The percentile never falls when values rise. */
  lemma PercentileInData(a: seq<real>, b: seq<real>, fraction: real)
    requires a != [] && |a| == |b| && 0.0 <= fraction <= 1.0
    requires forall i :: 0 <= i < |a| ==> a[i] <= b[i]
    ensures Percentile(a, fraction).value <= Percentile(b, fraction).value
  {
    hide Sorted, Interpolate, Percentile, Rank;
    PercentileIsInterpolated(a, fraction);
    PercentileIsInterpolated(b, fraction);
    forall k | 0 <= k < |a| ensures Sorted(a)[k] <= Sorted(b)[k] {
      SortedHigher(a, b, k);
    }
    InterpolateHigher(Sorted(a), Sorted(b), Rank(|a|, fraction));
  }

  // ---- One run ------------------------------------------------------------------------------------------------

  /** A timestamp, with or without a UTC offset, in seconds. */
  datatype Stamp = Stamp(aware: bool, at: real)

  /** The time between two timestamps; a negative one counts as absent, mixed kinds are an error. */
  datatype Elapsed = Absent | Mixed | Elapsed(seconds: real)

  function Seconds(start: Option<Stamp>, end: Option<Stamp>): Elapsed {
    if start.None? || end.None? then Absent
    else if start.value.aware != end.value.aware then Mixed
    else if end.value.at - start.value.at >= 0.0 then Elapsed(end.value.at - start.value.at)
    else Absent
  }

  datatype Job = Job(name: string, conclusion: string, completed: Option<Stamp>)

  datatype JobTimings = JobTimings(completions: seq<real>, failures: seq<real>, required: seq<real>)

  predicate IsTimed(job: Job, started: Option<Stamp>) {
    Seconds(started, job.completed).Elapsed?
  }

  /** The times of the jobs that a condition selects. */
  function Times(jobs: seq<Job>, started: Option<Stamp>, selects: Job -> bool): seq<real> {
    if jobs == [] then [] else
      var k := |jobs| - 1;
      Times(jobs[..k], started, selects) +
      if IsTimed(jobs[k], started) && selects(jobs[k]) then [Seconds(started, jobs[k].completed).seconds] else []
  }

  function All(): Job -> bool {
    (job: Job) => true
  }

  function FailedIn(scope: set<string>): Job -> bool {
    (job: Job) => job.conclusion == "failure" && job.name in scope
  }

  function FinishedIn(required: set<string>): Job -> bool {
    (job: Job) => job.name in required && job.conclusion in {"success", "failure"}
  }

  lemma NoTimes(started: Option<Stamp>, selects: Job -> bool)
    ensures Times([], started, selects) == []
  {
  }

  lemma OneMoreTime(jobs: seq<Job>, k: nat, started: Option<Stamp>, selects: Job -> bool)
    requires k < |jobs|
    ensures Times(jobs[..k + 1], started, selects) ==
            Times(jobs[..k], started, selects) +
            if IsTimed(jobs[k], started) && selects(jobs[k]) then [Seconds(started, jobs[k].completed).seconds] else []
  {
    hide Seconds, IsTimed;
    assert jobs[..k + 1][..k] == jobs[..k];
  }

  /** `_aggregate_jobs`; no result stands for the error on mixed timestamps. */
  method AggregateJobs(jobs: seq<Job>, started: Option<Stamp>, required: set<string>, scope: set<string>)
    returns (timings: Option<JobTimings>)
    ensures timings.None? <==> exists i :: 0 <= i < |jobs| && Seconds(started, jobs[i].completed).Mixed?
    ensures timings.Some? ==> timings.value == JobTimings(Times(jobs, started, All()),
                                                          Times(jobs, started, FailedIn(scope)),
                                                          Times(jobs, started, FinishedIn(required)))
  {
    hide Seconds, Times;
    NoTimes(started, All());
    NoTimes(started, FailedIn(scope));
    NoTimes(started, FinishedIn(required));
    var completions: seq<real>, failures: seq<real>, finished: seq<real> := [], [], [];
    for k := 0 to |jobs|
      invariant forall i :: 0 <= i < k ==> !Seconds(started, jobs[i].completed).Mixed?
      invariant completions == Times(jobs[..k], started, All())
      invariant failures == Times(jobs[..k], started, FailedIn(scope))
      invariant finished == Times(jobs[..k], started, FinishedIn(required))
    {
      OneMoreTime(jobs, k, started, All());
      OneMoreTime(jobs, k, started, FailedIn(scope));
      OneMoreTime(jobs, k, started, FinishedIn(required));
      var job := jobs[k];
      var elapsed := Seconds(started, job.completed);
      if elapsed.Mixed? {
        return None;
      }
      if elapsed.Elapsed? {
        completions := completions + [elapsed.seconds];
        if job.conclusion == "failure" && job.name in scope {
          failures := failures + [elapsed.seconds];
        }
        if job.name in required && job.conclusion in {"success", "failure"} {
          finished := finished + [elapsed.seconds];
        }
      }
    }
    assert jobs[..|jobs|] == jobs;
    return Some(JobTimings(completions, failures, finished));
  }

  function Min(values: seq<real>): (r: Option<real>)
    ensures r.None? <==> values == []
    ensures r.Some? ==> r.value in values && forall v :: v in values ==> r.value <= v
  {
    if values == [] then None else
      var k := |values| - 1;
      var rest := Min(values[..k]);
      assert forall v :: v in values ==> v in values[..k] || v == values[k];
      if rest.Some? && rest.value <= values[k] then rest else Some(values[k])
  }

  function Max(values: seq<real>): (r: Option<real>)
    ensures r.None? <==> values == []
    ensures r.Some? ==> r.value in values && forall v :: v in values ==> v <= r.value
  {
    if values == [] then None else
      var k := |values| - 1;
      var rest := Max(values[..k]);
      assert forall v :: v in values ==> v in values[..k] || v == values[k];
      if rest.Some? && rest.value >= values[k] then rest else Some(values[k])
  }

  datatype RunTiming = RunTiming(queue: Option<real>, execution: Option<real>, firstFailure: Option<real>,
                                 finalRequired: Option<real>)

  const FAST_FEEDBACK_CHECK: string := "fast-feedback"

  /** `parse_run`, from decoded timestamps; no result stands for the error on mixed timestamps. */
  method ParseRun(attempt: nat, createdAt: Option<Stamp>, startedAt: Option<Stamp>, jobs: seq<Job>,
                  required: set<string>)
    returns (result: Option<RunTiming>)
    ensures var started := Start(attempt, createdAt, startedAt);
            result.None? <==> (attempt == 1 && Seconds(createdAt, started).Mixed?) ||
                              exists i :: 0 <= i < |jobs| && Seconds(started, jobs[i].completed).Mixed?
    ensures result.Some? ==>
              var started := Start(attempt, createdAt, startedAt);
              result.value.execution == Max(Times(jobs, started, All())) &&
              result.value.firstFailure == Min(Times(jobs, started, FailedIn(required + {FAST_FEEDBACK_CHECK}))) &&
              result.value.finalRequired == Max(Times(jobs, started, FinishedIn(required)))
    ensures result.Some? ==>
              var started := Start(attempt, createdAt, startedAt);
              var timed := attempt == 1 && createdAt.Some? && started.value.at >= createdAt.value.at;
              result.value.queue == if timed then Some(started.value.at - createdAt.value.at) else None
  {
    var created := if attempt == 1 then createdAt else None;
    var started := if startedAt.Some? then startedAt else created;
    var timings := AggregateJobs(jobs, started, required, required + {FAST_FEEDBACK_CHECK});
    if timings.None? {
      return None;
    }
    var queue := Seconds(created, started);
    if queue.Mixed? {
      return None;
    }
    return Some(RunTiming(if queue.Elapsed? then Some(queue.seconds) else None,
                          Max(timings.value.completions), Min(timings.value.failures), Max(timings.value.required)));
  }

  /** Where the times of a run are measured from: a re-run does not fall back to the creation of its first attempt. */
  function Start(attempt: nat, createdAt: Option<Stamp>, startedAt: Option<Stamp>): Option<Stamp> {
    if startedAt.Some? then startedAt else if attempt == 1 then createdAt else None
  }

  lemma {:induction false} TimesAmongAll(jobs: seq<Job>, started: Option<Stamp>, selects: Job -> bool, t: real)
    requires t in Times(jobs, started, selects)
    ensures t in Times(jobs, started, All()) && t >= 0.0
  {
    var k := |jobs| - 1;
    if t in Times(jobs[..k], started, selects) {
      TimesAmongAll(jobs[..k], started, selects, t);
    }
  }

  /** First failure and final required completion fall within the execution time, and no time is negative. */
  lemma WithinExecution(jobs: seq<Job>, started: Option<Stamp>, required: set<string>, scope: set<string>)
    ensures var execution := Max(Times(jobs, started, All()));
            var failure := Min(Times(jobs, started, FailedIn(scope)));
            var final := Max(Times(jobs, started, FinishedIn(required)));
            (failure.Some? ==> execution.Some? && 0.0 <= failure.value <= execution.value) &&
            (final.Some? ==> execution.Some? && 0.0 <= final.value <= execution.value)
  {
    hide Times;
    var failure := Min(Times(jobs, started, FailedIn(scope)));
    var final := Max(Times(jobs, started, FinishedIn(required)));
    if failure.Some? {
      TimesAmongAll(jobs, started, FailedIn(scope), failure.value);
    }
    if final.Some? {
      TimesAmongAll(jobs, started, FinishedIn(required), final.value);
    }
  }
}
