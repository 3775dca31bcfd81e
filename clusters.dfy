/** `detect_clusters`: sort the durations, walk them once, and grow a run while each
    next duration lies within a relative `tolerance` of the run's running mean;
    report each run's mean and size, most populous first. */
module Clusters {
  import opened Stats
  import opened Sorting

  /** A `(center_value, count)` pair. */
  datatype Cluster = Cluster(center: real, count: nat)

  /** The source's membership test: `abs(dur - mean) / mean <= tolerance`. */
  predicate Joins(d: real, run: seq<real>, tolerance: real)
    requires run != [] && Positive(run)
  {
    Abs(d - Mean(run)) / Mean(run) <= tolerance
  }

  /** The runs the greedy walk produces from the open run `current` and the
      durations still to visit, `rest`. */
  function Greedy(rest: seq<real>, current: seq<real>, tolerance: real): (runs: seq<seq<real>>)
    requires current != [] && Positive(current) && Positive(rest)
    ensures runs != []
    decreases |rest|
  {
    if rest == [] then [current]
    else if Joins(rest[0], current, tolerance) then Greedy(rest[1..], current + [rest[0]], tolerance)
    else [current] + Greedy(rest[1..], [rest[0]], tolerance)
  }

  /** The runs of a sorted, positive sequence of durations. */
  function Runs(sorted: seq<real>, tolerance: real): seq<seq<real>>
    requires Positive(sorted)
  {
    if sorted == [] then [] else Greedy(sorted[1..], [sorted[0]], tolerance)
  }

  /** One cluster per run: its mean and its size. */
  function ClusterOf(run: seq<real>): Cluster {
    Cluster(Mean(run), |run|)
  }

  function ClustersOfRuns(runs: seq<seq<real>>): (cs: seq<Cluster>)
    ensures |cs| == |runs|
    ensures forall k :: 0 <= k < |runs| ==> cs[k] == ClusterOf(runs[k])
  {
    if runs == [] then [] else [ClusterOf(runs[0])] + ClustersOfRuns(runs[1..])
  }

  /** The sort key of `clusters.sort(key=lambda x: -x[1])`. */
  function ByCountDescending(c: Cluster): real {
    -(c.count as real)
  }

  function Centers(cs: seq<Cluster>): (r: seq<real>)
    ensures |r| == |cs| && forall k :: 0 <= k < |cs| ==> r[k] == cs[k].center
  {
    if cs == [] then [] else [cs[0].center] + Centers(cs[1..])
  }

  function TotalCount(cs: seq<Cluster>): nat {
    if cs == [] then 0 else cs[0].count + TotalCount(cs[1..])
  }

  function Concat(runs: seq<seq<real>>): seq<real> {
    if runs == [] then [] else runs[0] + Concat(runs[1..])
  }

  /** The clusters before the count sort: one per run of the sorted durations,
      in ascending order of their values. */
  function RunClusters(durations: seq<real>, tolerance: real): seq<Cluster>
    requires Positive(durations)
  {
    var sorted := SortBy(durations, Identity);
    SortedDurations(durations);
    ClustersOfRuns(Runs(sorted, tolerance))
  }

  /** What `detect_clusters` returns. */
  function DetectedClusters(durations: seq<real>, tolerance: real): seq<Cluster>
    requires Positive(durations)
  {
    SortBy(RunClusters(durations, tolerance), ByCountDescending)
  }

  /** Sorting keeps the durations positive and their number unchanged. */
  lemma SortedDurations(durations: seq<real>)
    requires Positive(durations)
    ensures Positive(SortBy(durations, Identity)) && |SortBy(durations, Identity)| == |durations|
  {
    SortByPermutes(durations, Identity);
    PositivePermutation(durations, SortBy(durations, Identity));
  }

  lemma PositivePermutation(a: seq<real>, b: seq<real>)
    requires Positive(a) && multiset(a) == multiset(b)
    ensures Positive(b)
  {
    forall i | 0 <= i < |b| ensures b[i] > 0.0 {
      assert b[i] in multiset(a);
    }
  }

  lemma {:induction false} AppendRun(runs: seq<seq<real>>, run: seq<real>)
    ensures ClustersOfRuns(runs + [run]) == ClustersOfRuns(runs) + [Cluster(Mean(run), |run|)]
  {
    if runs != [] {
      assert (runs + [run])[1..] == runs[1..] + [run];
      AppendRun(runs[1..], run);
    }
  }

  /** One step of the walk: visiting `sorted[i]` either extends the open run or
      closes it and opens a new one. */
  lemma GreedyStep(sorted: seq<real>, i: nat, current: seq<real>, tolerance: real)
    requires i < |sorted| && Positive(sorted) && current != [] && Positive(current)
    ensures Positive(current + [sorted[i]]) && Positive([sorted[i]])
    ensures Greedy(sorted[i..], current, tolerance) ==
      if Joins(sorted[i], current, tolerance) then Greedy(sorted[i + 1..], current + [sorted[i]], tolerance)
      else [current] + Greedy(sorted[i + 1..], [sorted[i]], tolerance)
  {
    assert sorted[i..][0] == sorted[i] && sorted[i..][1..] == sorted[i + 1..];
  }

  /** The default `tolerance` of `detect_clusters`, used by every call in the tool.
      It is non-negative, as `DetectedClustersTies` and `ReclusterCenters` require. */
  const DefaultTolerance: real := 0.15

  /** `detect_clusters`: sort, walk, then order the clusters by count. */
  method DetectClusters(durations: seq<real>, tolerance: real) returns (clusters: seq<Cluster>)
    requires Positive(durations)
    ensures clusters == DetectedClusters(durations, tolerance)
  {
    if |durations| == 0 {
      return [];
    }
    var sorted := SortBy(durations, Identity);
    SortedDurations(durations);
    clusters := WalkRuns(sorted, tolerance);
    clusters := SortBy(clusters, ByCountDescending);
  }

  /** The loop of `detect_clusters` over the sorted durations: extend the open
      run while the next duration joins it, otherwise close it as a cluster and
      open a new run; close the last run at the end. */
  method WalkRuns(sorted: seq<real>, tolerance: real) returns (clusters: seq<Cluster>)
    requires sorted != [] && Positive(sorted)
    ensures clusters == ClustersOfRuns(Runs(sorted, tolerance))
  {
    clusters := [];
    var current := [sorted[0]];
    ghost var closed: seq<seq<real>> := [];
    var i := 1;
    while i < |sorted|
      invariant 1 <= i <= |sorted|
      invariant current != [] && Positive(current)
      invariant clusters == ClustersOfRuns(closed)
      invariant closed + Greedy(sorted[i..], current, tolerance) == Runs(sorted, tolerance)
    {
      var d := sorted[i];
      WalkStep(sorted, i, closed, current, tolerance);
      var mean := Mean(current);
      if Abs(d - mean) / mean <= tolerance {
        current := current + [d];
      } else {
        clusters := clusters + [Cluster(Mean(current), |current|)];
        AppendRun(closed, current);
        closed := closed + [current];
        current := [d];
      }
      i := i + 1;
    }
    WalkEnd(sorted, i, closed, current, tolerance);
    if current != [] {
      clusters := clusters + [Cluster(Mean(current), |current|)];
      AppendRun(closed, current);
      closed := closed + [current];
    }
  }

  /** The loop invariant of the walk survives visiting `sorted[i]`. */
  lemma WalkStep(sorted: seq<real>, i: nat, closed: seq<seq<real>>, current: seq<real>, tolerance: real)
    requires i < |sorted| && Positive(sorted) && current != [] && Positive(current)
    requires closed + Greedy(sorted[i..], current, tolerance) == Runs(sorted, tolerance)
    ensures Positive(current + [sorted[i]]) && Positive([sorted[i]])
    ensures Joins(sorted[i], current, tolerance) ==>
      closed + Greedy(sorted[i + 1..], current + [sorted[i]], tolerance) == Runs(sorted, tolerance)
    ensures !Joins(sorted[i], current, tolerance) ==>
      (closed + [current]) + Greedy(sorted[i + 1..], [sorted[i]], tolerance) == Runs(sorted, tolerance)
  {
    GreedyStep(sorted, i, current, tolerance);
    if !Joins(sorted[i], current, tolerance) {
      var g := Greedy(sorted[i + 1..], [sorted[i]], tolerance);
      assert closed + ([current] + g) == (closed + [current]) + g;
    }
  }

  /** At the end of the walk, closing the open run completes the runs. */
  lemma WalkEnd(sorted: seq<real>, i: nat, closed: seq<seq<real>>, current: seq<real>, tolerance: real)
    requires i == |sorted| && Positive(sorted) && current != [] && Positive(current)
    requires closed + Greedy(sorted[i..], current, tolerance) == Runs(sorted, tolerance)
    ensures closed + [current] == Runs(sorted, tolerance)
  {
    assert sorted[i..] == [];
  }

  // ---------------------------------------------------------------------------
  // Properties of the greedy walk

  ghost predicate Ascending(s: seq<real>) {
    forall i, j :: 0 <= i < j < |s| ==> s[i] <= s[j]
  }

  lemma AscendingFromSorted(s: seq<real>)
    requires SortedBy(s, Identity)
    ensures Ascending(s)
  {
    forall i, j | 0 <= i < j < |s| ensures s[i] <= s[j] {
      assert Identity(s[i]) <= Identity(s[j]);
    }
  }

  /** Every run is non-empty and holds only members of `pool`. */
  ghost predicate RunsDrawnFrom(runs: seq<seq<real>>, pool: seq<real>) {
    forall k :: 0 <= k < |runs| ==> runs[k] != [] && forall x :: x in runs[k] ==> x in pool
  }

  /** The walk's runs are non-empty and hold only durations it was given. */
  lemma {:induction false} GreedyMembers(rest: seq<real>, current: seq<real>, tolerance: real)
    requires current != [] && Positive(current) && Positive(rest)
    ensures RunsDrawnFrom(Greedy(rest, current, tolerance), current + rest)
    decreases |rest|
  {
    if rest != [] {
      var d := rest[0];
      assert rest == [d] + rest[1..];
      if Joins(d, current, tolerance) {
        assert (current + [d]) + rest[1..] == current + rest;
        GreedyMembers(rest[1..], current + [d], tolerance);
      } else {
        GreedyMembers(rest[1..], [d], tolerance);
        var g := Greedy(rest[1..], [d], tolerance);
        assert [d] + rest[1..] == rest;
        var runs := [current] + g;
        forall k | 0 <= k < |runs|
          ensures runs[k] != [] && forall x :: x in runs[k] ==> x in current + rest
        {
          if k > 0 {
            assert runs[k] == g[k - 1];
          }
        }
      }
    }
  }

  /** Laid end to end, the runs are exactly the durations walked, in order. */
  lemma {:induction false} GreedyConcat(rest: seq<real>, current: seq<real>, tolerance: real)
    requires current != [] && Positive(current) && Positive(rest)
    ensures Concat(Greedy(rest, current, tolerance)) == current + rest
    decreases |rest|
  {
    if rest == [] {
      assert Concat([current]) == current + Concat([]);
    } else {
      var d := rest[0];
      assert rest == [d] + rest[1..];
      if Joins(d, current, tolerance) {
        GreedyConcat(rest[1..], current + [d], tolerance);
      } else {
        GreedyConcat(rest[1..], [d], tolerance);
        var g := Greedy(rest[1..], [d], tolerance);
        assert ([current] + g)[1..] == g;
      }
    }
  }

  /** A duration at least as large as every member of a run is at least its mean,
      and one that fails to join it exceeds the mean by more than the tolerance. */
  lemma FailedJoin(d: real, run: seq<real>, tolerance: real)
    requires run != [] && Positive(run)
    requires forall x :: x in run ==> x <= d
    requires !Joins(d, run, tolerance)
    ensures Mean(run) <= d && d > (1.0 + tolerance) * Mean(run)
  {
    assert Within(run, Min(run), d) by {
      forall i | 0 <= i < |run| ensures Min(run) <= run[i] <= d {
        assert run[i] in run;
      }
    }
    MeanBounds(run, Min(run), d);
    var m := Mean(run);
    assert (d - m) / m > tolerance;
    assert d - m > tolerance * m by {
      assert d - m == ((d - m) / m) * m;
    }
  }

  /** In an ascending walk, the durations still to visit are ascending and at
      least every member of the open run. */
  lemma AscendingSplit(current: seq<real>, rest: seq<real>)
    requires Ascending(current + rest) && rest != []
    ensures Ascending(rest)
    ensures forall x :: x in current ==> x <= rest[0]
  {
    forall i, j | 0 <= i < j < |rest| ensures rest[i] <= rest[j] {
      assert rest[i] == (current + rest)[|current| + i] && rest[j] == (current + rest)[|current| + j];
    }
    forall x | x in current ensures x <= rest[0] {
      var i :| 0 <= i < |current| && current[i] == x;
      assert (current + rest)[i] == x && (current + rest)[|current|] == rest[0];
    }
  }

  /** A run opened by `d` in an ascending walk has mean at least `d`. */
  lemma FirstRunMean(d: real, rest: seq<real>, tolerance: real)
    requires d > 0.0 && Positive(rest) && Ascending([d] + rest)
    ensures Positive([d])
    ensures Mean(Greedy(rest, [d], tolerance)[0]) >= d
  {
    var g := Greedy(rest, [d], tolerance);
    GreedyMembers(rest, [d], tolerance);
    assert g[0] != [] && forall x :: x in g[0] ==> x in [d] + rest;
    assert Within(g[0], d, Max(g[0])) by {
      forall i | 0 <= i < |g[0]| ensures d <= g[0][i] <= Max(g[0]) {
        var x := g[0][i];
        assert x in g[0];
        var j :| 0 <= j < |[d] + rest| && ([d] + rest)[j] == x;
        assert ([d] + rest)[0] <= ([d] + rest)[j];
      }
    }
    MeanBounds(g[0], d, Max(g[0]));
  }

  /** Each value exceeds the one before it by more than a factor of (1 + tolerance). */
  ghost predicate Separated(values: seq<real>, tolerance: real) {
    forall k :: 0 < k < |values| ==> SeparatedAt(values, k, tolerance)
  }

  ghost predicate SeparatedAt(values: seq<real>, k: nat, tolerance: real)
    requires 0 < k < |values|
  {
    values[k] > (1.0 + tolerance) * values[k - 1]
  }

  function Means(runs: seq<seq<real>>): (r: seq<real>)
    ensures |r| == |runs| && forall k :: 0 <= k < |runs| ==> r[k] == Mean(runs[k])
  {
    if runs == [] then [] else [Mean(runs[0])] + Means(runs[1..])
  }

  /** An ascending walk yields runs whose means are separated. */
  lemma {:induction false} GreedySeparated(rest: seq<real>, current: seq<real>, tolerance: real)
    requires current != [] && Positive(current) && Positive(rest)
    requires Ascending(current + rest)
    ensures Separated(Means(Greedy(rest, current, tolerance)), tolerance)
    decreases |rest|
  {
    if rest != [] {
      var d := rest[0];
      GreedyStep(rest, 0, current, tolerance);
      assert rest[0..] == rest;
      if Joins(d, current, tolerance) {
        assert current + rest == (current + [d]) + rest[1..];
        GreedySeparated(rest[1..], current + [d], tolerance);
      } else {
        GreedySeparatedClose(rest, current, tolerance);
      }
    }
  }

  lemma {:induction false} GreedySeparatedClose(rest: seq<real>, current: seq<real>, tolerance: real)
    requires current != [] && Positive(current) && Positive(rest)
    requires Ascending(current + rest)
    requires rest != [] && !Joins(rest[0], current, tolerance)
    ensures Separated(Means([current] + Greedy(rest[1..], [rest[0]], tolerance)), tolerance)
    decreases |rest|, 0
  {
    var d := rest[0];
    AscendingSplit(current, rest);
    assert [d] + rest[1..] == rest;
    GreedySeparated(rest[1..], [d], tolerance);
    ClosedRunSeparated(d, rest[1..], current, tolerance);
    CloseStep(current, Greedy(rest[1..], [d], tolerance), tolerance);
  }

  lemma CloseStep(current: seq<real>, runs: seq<seq<real>>, tolerance: real)
    requires runs != [] && Separated(Means(runs), tolerance)
    requires Means(runs)[0] > (1.0 + tolerance) * Mean(current)
    ensures Separated(Means([current] + runs), tolerance)
  {
    MeansCons(current, runs);
    SeparatedCons(Mean(current), Means(runs), tolerance);
  }

  /** Closing `current` because `d` failed to join it: the next run's mean exceeds
      the closed run's mean by more than the factor (1 + tolerance). */
  lemma ClosedRunSeparated(d: real, rest: seq<real>, current: seq<real>, tolerance: real)
    requires current != [] && Positive(current) && d > 0.0 && Positive(rest)
    requires Ascending([d] + rest) && forall x :: x in current ==> x <= d
    requires !Joins(d, current, tolerance)
    ensures Means(Greedy(rest, [d], tolerance))[0] > (1.0 + tolerance) * Mean(current)
  {
    FailedJoin(d, current, tolerance);
    FirstRunMean(d, rest, tolerance);
  }

  lemma MeansCons(run: seq<real>, runs: seq<seq<real>>)
    ensures Means([run] + runs) == [Mean(run)] + Means(runs)
  {
    assert ([run] + runs)[1..] == runs;
  }

  lemma SeparatedCons(m: real, values: seq<real>, tolerance: real)
    requires values != [] && Separated(values, tolerance)
    requires values[0] > (1.0 + tolerance) * m
    ensures Separated([m] + values, tolerance)
  {
    var all := [m] + values;
    forall k | 0 < k < |all| ensures SeparatedAt(all, k, tolerance) {
      assert all[k] == values[k - 1];
      if k > 1 {
        assert all[k - 1] == values[k - 2];
        assert SeparatedAt(values, k - 1, tolerance);
      }
    }
  }

  // ---------------------------------------------------------------------------
  // How a run grows: the join test inside a run, and its failure between runs

  /** Every run is non-empty with positive members. */
  ghost predicate RunsPositive(runs: seq<seq<real>>) {
    forall k :: 0 <= k < |runs| ==> runs[k] != [] && Positive(runs[k])
  }

  /** Every member of `run` after its first joined the members before it. */
  ghost predicate GrownByJoining(run: seq<real>, tolerance: real)
    requires run != [] && Positive(run)
  {
    forall j :: 1 <= j < |run| ==> Joins(run[j], run[..j], tolerance)
  }

  /** The first member of each run failed to join the run before it. */
  ghost predicate SplitWhereJoinFails(runs: seq<seq<real>>, tolerance: real)
    requires RunsPositive(runs)
  {
    forall k :: 0 < k < |runs| ==> !Joins(runs[k][0], runs[k - 1], tolerance)
  }

  /** The walk's first run starts with the open run. */
  lemma {:induction false} GreedyFirstRun(rest: seq<real>, current: seq<real>, tolerance: real)
    requires current != [] && Positive(current) && Positive(rest)
    ensures |Greedy(rest, current, tolerance)[0]| >= |current|
    ensures Greedy(rest, current, tolerance)[0][..|current|] == current
    decreases |rest|
  {
    if rest != [] && Joins(rest[0], current, tolerance) {
      GreedyFirstRun(rest[1..], current + [rest[0]], tolerance);
      var r := Greedy(rest[1..], current + [rest[0]], tolerance)[0];
      assert r[..|current|] == r[..|current| + 1][..|current|];
    }
  }

  lemma GrownByJoiningExtend(run: seq<real>, d: real, tolerance: real)
    requires run != [] && Positive(run) && d > 0.0
    requires GrownByJoining(run, tolerance) && Joins(d, run, tolerance)
    ensures Positive(run + [d]) && GrownByJoining(run + [d], tolerance)
  {
    var r := run + [d];
    forall j | 1 <= j < |r| ensures Joins(r[j], r[..j], tolerance) {
      if j < |run| {
        assert r[..j] == run[..j] && r[j] == run[j];
      } else {
        assert r[..j] == run;
      }
    }
  }

  /** Each run of the walk grew by joining, and each run after the first opened
      because its first member failed to join the previous run. */
  lemma {:induction false} GreedyJoins(rest: seq<real>, current: seq<real>, tolerance: real)
    requires current != [] && Positive(current) && Positive(rest)
    requires GrownByJoining(current, tolerance)
    ensures RunsPositive(Greedy(rest, current, tolerance))
    ensures forall k :: 0 <= k < |Greedy(rest, current, tolerance)| ==>
      GrownByJoining(Greedy(rest, current, tolerance)[k], tolerance)
    ensures SplitWhereJoinFails(Greedy(rest, current, tolerance), tolerance)
    decreases |rest|
  {
    if rest != [] {
      var d := rest[0];
      if Joins(d, current, tolerance) {
        GrownByJoiningExtend(current, d, tolerance);
        GreedyJoins(rest[1..], current + [d], tolerance);
      } else {
        GreedyJoins(rest[1..], [d], tolerance);
        GreedyFirstRun(rest[1..], [d], tolerance);
        var g := Greedy(rest[1..], [d], tolerance);
        assert g[0][0] == d;
        JoinsCons(current, g, tolerance);
      }
    }
  }

  lemma JoinsCons(run: seq<real>, runs: seq<seq<real>>, tolerance: real)
    requires run != [] && Positive(run) && GrownByJoining(run, tolerance)
    requires runs != [] && RunsPositive(runs) && SplitWhereJoinFails(runs, tolerance)
    requires forall k :: 0 <= k < |runs| ==> GrownByJoining(runs[k], tolerance)
    requires !Joins(runs[0][0], run, tolerance)
    ensures RunsPositive([run] + runs)
    ensures forall k :: 0 <= k < |[run] + runs| ==> GrownByJoining(([run] + runs)[k], tolerance)
    ensures SplitWhereJoinFails([run] + runs, tolerance)
  {
    var all := [run] + runs;
    forall k | 0 < k < |all| ensures all[k] == runs[k - 1] {
    }
  }

  /** The runs of a sorted, positive sequence: laid end to end they are the sequence;
      a member after a run's first joined it (its distance to the mean of the run so
      far is within the tolerance), and the first member of every later run did
      not join the run before it. */
  lemma RunsCharacterization(sorted: seq<real>, tolerance: real)
    requires Positive(sorted)
    ensures Concat(Runs(sorted, tolerance)) == sorted
    ensures RunsPositive(Runs(sorted, tolerance))
    ensures forall k :: 0 <= k < |Runs(sorted, tolerance)| ==>
      GrownByJoining(Runs(sorted, tolerance)[k], tolerance)
    ensures SplitWhereJoinFails(Runs(sorted, tolerance), tolerance)
  {
    if sorted != [] {
      GreedyConcat(sorted[1..], [sorted[0]], tolerance);
      GreedyJoins(sorted[1..], [sorted[0]], tolerance);
      assert [sorted[0]] + sorted[1..] == sorted;
    }
  }

  // ---------------------------------------------------------------------------
  // From runs to clusters

  lemma {:induction false} CentersOfRuns(runs: seq<seq<real>>)
    ensures Centers(ClustersOfRuns(runs)) == Means(runs)
  {
    if runs != [] {
      CentersOfRuns(runs[1..]);
    }
  }

  lemma {:induction false} TotalCountOfRuns(runs: seq<seq<real>>)
    ensures TotalCount(ClustersOfRuns(runs)) == |Concat(runs)|
  {
    if runs != [] {
      TotalCountOfRuns(runs[1..]);
    }
  }

  lemma {:induction false} TotalCountInsert(x: Cluster, t: seq<Cluster>, key: Cluster -> real)
    ensures TotalCount(Insert(x, t, key)) == x.count + TotalCount(t)
  {
    if t == [] || key(x) <= key(t[0]) {
      assert ([x] + t)[1..] == t;
    } else {
      TotalCountInsert(x, t[1..], key);
      assert ([t[0]] + Insert(x, t[1..], key))[1..] == Insert(x, t[1..], key);
    }
  }

  /** Sorting the clusters keeps their total count. */
  lemma {:induction false} TotalCountSort(cs: seq<Cluster>, key: Cluster -> real)
    ensures TotalCount(SortBy(cs, key)) == TotalCount(cs)
  {
    if cs != [] {
      TotalCountSort(cs[1..], key);
      TotalCountInsert(cs[0], SortBy(cs[1..], key), key);
    }
  }

  lemma {:induction false} CentersInsert(x: Cluster, t: seq<Cluster>, key: Cluster -> real)
    ensures multiset(Centers(Insert(x, t, key))) == multiset(Centers(t)) + multiset{x.center}
  {
    if t == [] || key(x) <= key(t[0]) {
      assert ([x] + t)[1..] == t;
    } else {
      CentersInsert(x, t[1..], key);
      assert ([t[0]] + Insert(x, t[1..], key))[1..] == Insert(x, t[1..], key);
      assert Centers(t) == [t[0].center] + Centers(t[1..]);
    }
  }

  /** Sorting the clusters keeps the multiset of their centres. */
  lemma {:induction false} CentersSort(cs: seq<Cluster>, key: Cluster -> real)
    ensures multiset(Centers(SortBy(cs, key))) == multiset(Centers(cs))
  {
    if cs != [] {
      CentersSort(cs[1..], key);
      CentersInsert(cs[0], SortBy(cs[1..], key), key);
      assert Centers(cs) == [cs[0].center] + Centers(cs[1..]);
    }
  }

  /** Positive, separated values with a non-negative tolerance strictly increase. */
  lemma {:induction false} SeparatedIncreasing(values: seq<real>, tolerance: real)
    requires Positive(values) && tolerance >= 0.0 && Separated(values, tolerance)
    ensures forall i, j :: 0 <= i < j < |values| ==> values[i] < values[j]
  {
    if |values| > 1 {
      var tail := values[1..];
      forall k | 0 < k < |tail| ensures SeparatedAt(tail, k, tolerance) {
        assert SeparatedAt(values, k + 1, tolerance);
      }
      SeparatedIncreasing(tail, tolerance);
      assert SeparatedAt(values, 1, tolerance);
      assert tolerance * values[0] >= 0.0;
      forall i, j | 0 <= i < j < |values| ensures values[i] < values[j] {
        if i > 0 {
          assert values[i] == tail[i - 1] && values[j] == tail[j - 1];
        } else if j > 1 {
          assert values[j] == tail[j - 1] && values[1] == tail[0];
        }
      }
    }
  }

  /** The runs of the sorted durations: positive means, separated, and laid end
      to end exactly the sorted durations. */
  lemma SortedRuns(durations: seq<real>, tolerance: real)
    requires Positive(durations)
    ensures Positive(SortBy(durations, Identity))
    ensures multiset(SortBy(durations, Identity)) == multiset(durations)
    ensures |SortBy(durations, Identity)| == |durations|
    ensures RunsPositive(Runs(SortBy(durations, Identity), tolerance))
    ensures Concat(Runs(SortBy(durations, Identity), tolerance)) == SortBy(durations, Identity)
    ensures Separated(Means(Runs(SortBy(durations, Identity), tolerance)), tolerance)
    ensures RunClusters(durations, tolerance) == ClustersOfRuns(Runs(SortBy(durations, Identity), tolerance))
  {
    var sorted := SortBy(durations, Identity);
    SortByFacts(durations, Identity);
    PositivePermutation(durations, sorted);
    RunsCharacterization(sorted, tolerance);
    if sorted != [] {
      AscendingFromSorted(sorted);
      assert [sorted[0]] + sorted[1..] == sorted;
      GreedySeparated(sorted[1..], [sorted[0]], tolerance);
    }
  }

  /** Before the count sort, the clusters account for every duration once, have
      positive centres separated by more than the tolerance, and list their
      centres in ascending order when the tolerance is not negative. */
  lemma RunClustersFacts(durations: seq<real>, tolerance: real)
    requires Positive(durations)
    ensures TotalCount(RunClusters(durations, tolerance)) == |durations|
    ensures Positive(Centers(RunClusters(durations, tolerance)))
    ensures Separated(Centers(RunClusters(durations, tolerance)), tolerance)
    ensures tolerance >= 0.0 ==> forall i, j :: 0 <= i < j < |RunClusters(durations, tolerance)| ==>
      RunClusters(durations, tolerance)[i].center < RunClusters(durations, tolerance)[j].center
  {
    var sorted := SortBy(durations, Identity);
    SortedRuns(durations, tolerance);
    var runs := Runs(sorted, tolerance);
    TotalCountOfRuns(runs);
    CentersOfRuns(runs);
    var c := Centers(RunClusters(durations, tolerance));
    assert c == Means(runs);
    if tolerance >= 0.0 {
      SeparatedIncreasing(c, tolerance);
    }
  }

  /** Every cluster before the count sort holds at least one duration, and its
      centre lies between the smallest and the largest duration. */
  lemma RunClustersBounds(durations: seq<real>, tolerance: real)
    requires Positive(durations) && durations != []
    ensures forall k :: 0 <= k < |RunClusters(durations, tolerance)| ==>
      RunClusters(durations, tolerance)[k].count >= 1 &&
      Min(durations) <= RunClusters(durations, tolerance)[k].center <= Max(durations)
  {
    var sorted := SortBy(durations, Identity);
    SortedRuns(durations, tolerance);
    var runs := Runs(sorted, tolerance);
    GreedyMembers(sorted[1..], [sorted[0]], tolerance);
    assert [sorted[0]] + sorted[1..] == sorted;
    forall k | 0 <= k < |runs| ensures Min(durations) <= Mean(runs[k]) <= Max(durations) {
      forall i | 0 <= i < |runs[k]| ensures Min(durations) <= runs[k][i] <= Max(durations) {
        assert runs[k][i] in runs[k];
        assert runs[k][i] in multiset(durations);
      }
      MeanBounds(runs[k], Min(durations), Max(durations));
    }
  }

  // ---------------------------------------------------------------------------
  // What `detect_clusters` promises

  /** No durations, no clusters; otherwise every duration is counted in exactly
      one cluster, each cluster is non-empty with its centre between the
      smallest and the largest duration, and the list runs from the most to the
      least populous cluster. */
  lemma DetectedClustersFacts(durations: seq<real>, tolerance: real)
    requires Positive(durations)
    ensures DetectedClusters(durations, tolerance) == [] <==> durations == []
    ensures TotalCount(DetectedClusters(durations, tolerance)) == |durations|
    ensures forall i, j :: 0 <= i < j < |DetectedClusters(durations, tolerance)| ==>
      DetectedClusters(durations, tolerance)[i].count >= DetectedClusters(durations, tolerance)[j].count
    ensures durations != [] ==> forall k :: 0 <= k < |DetectedClusters(durations, tolerance)| ==>
      DetectedClusters(durations, tolerance)[k].count >= 1 &&
      Min(durations) <= DetectedClusters(durations, tolerance)[k].center <= Max(durations)
  {
    var rc := RunClusters(durations, tolerance);
    var dc := DetectedClusters(durations, tolerance);
    RunClustersFacts(durations, tolerance);
    TotalCountSort(rc, ByCountDescending);
    SortByFacts(rc, ByCountDescending);
    assert |dc| == |rc|;
    assert TotalCount([]) == 0;
    forall i, j | 0 <= i < j < |dc| ensures dc[i].count >= dc[j].count {
      assert ByCountDescending(dc[i]) <= ByCountDescending(dc[j]);
    }
    if durations != [] {
      RunClustersBounds(durations, tolerance);
      forall k | 0 <= k < |dc|
        ensures dc[k].count >= 1 && Min(durations) <= dc[k].center <= Max(durations)
      {
        assert dc[k] in multiset(rc);
      }
    }
  }

  /** Clusters of equal count keep the order of ascending centre they had after
      the walk: the count sort is stable. */
  lemma DetectedClustersTies(durations: seq<real>, tolerance: real)
    requires Positive(durations) && tolerance >= 0.0
    ensures forall i, j ::
      (0 <= i < j < |DetectedClusters(durations, tolerance)| &&
       DetectedClusters(durations, tolerance)[i].count == DetectedClusters(durations, tolerance)[j].count) ==>
      DetectedClusters(durations, tolerance)[i].center < DetectedClusters(durations, tolerance)[j].center
  {
    var rc := RunClusters(durations, tolerance);
    var dc := DetectedClusters(durations, tolerance);
    RunClustersFacts(durations, tolerance);
    var before := (x: Cluster, y: Cluster) => x.center < y.center;
    SortByKeepsTies(rc, ByCountDescending, before);
    forall i, j | 0 <= i < j < |dc| && dc[i].count == dc[j].count ensures dc[i].center < dc[j].center {
      assert ByCountDescending(dc[i]) == ByCountDescending(dc[j]);
    }
  }

  /** The clusters depend only on which durations occur how often, not on their
      order in the capture. */
  lemma DetectedClustersOrderIndependent(a: seq<real>, b: seq<real>, tolerance: real)
    requires Positive(a) && multiset(a) == multiset(b)
    ensures Positive(b)
    ensures DetectedClusters(a, tolerance) == DetectedClusters(b, tolerance)
  {
    PositivePermutation(a, b);
    SortByValueDependsOnMultiset(a, b);
  }

  // ---------------------------------------------------------------------------
  // Clustering the centres again

  function Singletons(s: seq<real>): (r: seq<seq<real>>)
    ensures |r| == |s| && forall k :: 0 <= k < |s| ==> r[k] == [s[k]]
  {
    if s == [] then [] else [[s[0]]] + Singletons(s[1..])
  }

  /** One cluster of count 1 at each value. */
  function UnitClusters(s: seq<real>): (r: seq<Cluster>)
    ensures |r| == |s| && forall k :: 0 <= k < |s| ==> r[k] == Cluster(s[k], 1)
  {
    if s == [] then [] else [Cluster(s[0], 1)] + UnitClusters(s[1..])
  }

  /** A value more than (1 + tolerance) times a positive `c` does not join [c]. */
  lemma SeparatedDoesNotJoin(c: real, d: real, tolerance: real)
    requires c > 0.0 && d > (1.0 + tolerance) * c
    ensures Positive([c]) && !Joins(d, [c], tolerance)
  {
    MeanSingleton(c);
    if tolerance < 0.0 {
      assert Abs(d - c) / c >= 0.0;
    } else {
      assert d - c > tolerance * c;
      assert (d - c) / c * c == d - c;
    }
  }

  /** Walking separated values puts each in a run of its own. */
  lemma {:induction false} GreedySingletons(rest: seq<real>, c: real, tolerance: real)
    requires c > 0.0 && Positive(rest) && Separated([c] + rest, tolerance)
    ensures Positive([c])
    ensures Greedy(rest, [c], tolerance) == Singletons([c] + rest)
    decreases |rest|
  {
    var all := [c] + rest;
    assert all[1..] == rest;
    if rest != [] {
      var d := rest[0];
      assert SeparatedAt(all, 1, tolerance);
      SeparatedDoesNotJoin(c, d, tolerance);
      forall k | 0 < k < |rest| ensures SeparatedAt(rest, k, tolerance) {
        assert SeparatedAt(all, k + 1, tolerance);
      }
      assert [d] + rest[1..] == rest;
      GreedySingletons(rest[1..], d, tolerance);
    }
  }

  lemma {:induction false} ClustersOfSingletons(s: seq<real>)
    ensures ClustersOfRuns(Singletons(s)) == UnitClusters(s)
  {
    if s != [] {
      ClustersOfSingletons(s[1..]);
      MeanSingleton(s[0]);
    }
  }

  /** Clustering the centres of the clusters again, with the same non-negative
      tolerance, gives one cluster of count 1 per centre, in ascending order of
      centre: the centres are already further apart than the tolerance. */
  lemma ReclusterCenters(durations: seq<real>, tolerance: real)
    requires Positive(durations) && tolerance >= 0.0
    ensures Positive(Centers(DetectedClusters(durations, tolerance)))
    ensures DetectedClusters(Centers(DetectedClusters(durations, tolerance)), tolerance) ==
      UnitClusters(Centers(RunClusters(durations, tolerance)))
  {
    var c := Centers(RunClusters(durations, tolerance));
    var again := Centers(DetectedClusters(durations, tolerance));
    RunClustersFacts(durations, tolerance);
    CentersSort(RunClusters(durations, tolerance), ByCountDescending);
    DetectedClustersOrderIndependent(c, again, tolerance);
    assert SortedBy(c, Identity) by {
      forall i, j | 0 <= i < j < |c| ensures Identity(c[i]) <= Identity(c[j]) {
        assert c[i] == RunClusters(durations, tolerance)[i].center;
      }
    }
    SortBySorted(c, Identity);
    if c != [] {
      assert [c[0]] + c[1..] == c;
      GreedySingletons(c[1..], c[0], tolerance);
    }
    ClustersOfSingletons(c);
    SortBySorted(UnitClusters(c), ByCountDescending);
  }
}
