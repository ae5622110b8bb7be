/**
 k-means clustering of runs (kmeans_cluster and centroid_update in archetype.c): assign every run to a nearest
 centroid, give every empty cluster the worst-placed run of a cluster that can spare one, recompute the centroids,
 repeat until nothing moves.
 */
module KMeans {
  import opened Options
  import opened Sums
  import opened FeatureSpace
  import opened LloydDescent
  import Seeding

  /** The points of all runs, in run order. */
  ghost function PointsOf(vs: seq<FeatureVector>, stats: Stats): (ps: seq<Point>)
    ensures |ps| == |vs|
  {
    if vs == [] then [] else PointsOf(vs[..|vs| - 1], stats) + [PointOf(vs[|vs| - 1], stats)]
  }

  lemma {:induction false} PointsAt(vs: seq<FeatureVector>, stats: Stats, i: nat)
    requires i < |vs|
    ensures PointsOf(vs, stats)[i] == PointOf(vs[i], stats)
  {
    if i < |vs| - 1 {
      PointsAt(vs[..|vs| - 1], stats, i);
    }
  }

  /** Distances from a point to the first m centroids. */
  ghost function Candidates(p: Point, cs: seq<Point>, m: nat): (ds: seq<Option<Distance>>)
    requires m <= |cs|
    ensures |ds| == m
  {
    if m == 0 then [] else Candidates(p, cs, m - 1) + [DistanceSpec(p, cs[m - 1])]
  }

  lemma {:induction false} CandidatesAt(p: Point, cs: seq<Point>, m: nat, c: nat)
    requires c < m <= |cs|
    ensures Candidates(p, cs, m)[c] == DistanceSpec(p, cs[c])
  {
    if c < m - 1 {
      CandidatesAt(p, cs, m - 1, c);
    }
  }

  predicate FirstNearest(ds: seq<Option<Distance>>, c: int) {
    && 0 <= c < |ds| && ds[c].Some?
    && forall j :: 0 <= j < |ds| && ds[j].Some? ==>
         && ds[c].value.squared <= ds[j].value.squared
         && (j < c ==> ds[c].value.squared < ds[j].value.squared)
  }

  predicate NoneComparable(ds: seq<Option<Distance>>) {
    forall j :: 0 <= j < |ds| ==> ds[j].None?
  }

  predicate FirstSmallest(sizes: seq<int>, c: int) {
    0 <= c < |sizes| && forall j :: 0 <= j < |sizes| ==> sizes[c] <= sizes[j] && (j < c ==> sizes[c] < sizes[j])
  }

  /** Number of runs per cluster. */
  function Loads(assign: seq<int>, k: nat): (sizes: seq<int>)
    ensures |sizes| == k
  {
    if k == 0 then [] else Loads(assign, k - 1) + [Count(assign, k - 1)]
  }

  lemma {:induction false} LoadsAt(assign: seq<int>, k: nat, c: nat)
    requires c < k
    ensures Loads(assign, k)[c] == Count(assign, c)
  {
    if c < k - 1 {
      LoadsAt(assign, k - 1, c);
    }
  }

  /** Where the assignment step puts run i: at the first nearest centroid, or failing any, at the smallest cluster. */
  ghost predicate Placed(ps: seq<Point>, cs: seq<Point>, assign: seq<int>, i: nat)
    requires i < |ps| && i < |assign|
  {
    var ds := Candidates(ps[i], cs, |cs|);
    FirstNearest(ds, assign[i]) || (NoneComparable(ds) && FirstSmallest(Loads(assign[..i], |cs|), assign[i]))
  }

  // ---- assignment step --------------------------------------------------------------------------

  /** One turn of the search for a nearest centroid: candidate c at distance d against the best so far. */
  function Improve(best: int, bestD: real, c: nat, d: Option<Distance>): (int, real) {
    if d.Some? && (best < 0 || d.value.squared < bestD) then (c, d.value.squared) else (best, bestD)
  }

  /** The running minimum over a row of distances: its index (-1 before the first comparable one) and its value. */
  function Best(ds: seq<Option<Distance>>): (r: (int, real))
    ensures -1 <= r.0 < |ds|
  {
    if ds == [] then (-1, 0.0)
    else
      var (c, d) := Best(ds[..|ds| - 1]);
      Improve(c, d, |ds| - 1, ds[|ds| - 1])
  }

  lemma BestNext(ds: seq<Option<Distance>>, d: Option<Distance>)
    ensures Best(ds + [d]) == Improve(Best(ds).0, Best(ds).1, |ds|, d)
  {
    assert (ds + [d])[..|ds|] == ds;
  }

  lemma {:induction false} BestIsFirstNearest(ds: seq<Option<Distance>>)
    ensures var (c, d) := Best(ds);
            if c < 0 then NoneComparable(ds) && d == 0.0 else FirstNearest(ds, c) && d == ds[c].value.squared
  {
    if ds != [] {
      var front := ds[..|ds| - 1];
      BestIsFirstNearest(front);
      assert forall j :: 0 <= j < |front| ==> front[j] == ds[j];
    }
  }

  method NearestCentroid(v: FeatureVector, centroids: array<Point>, stats: Stats) returns (best: int, bestD: real)
    requires v.Valid()
    ensures (best, bestD) == Best(Candidates(PointOf(v, stats), centroids[..], centroids.Length))
  {
    ghost var p, cs := PointOf(v, stats), centroids[..];
    best, bestD := -1, 0.0;
    for c := 0 to centroids.Length
      invariant (best, bestD) == Best(Candidates(p, cs, c))
    {
      var d := CentroidDistance(v, centroids[c], stats);
      BestNext(Candidates(p, cs, c), d);
      var improved := Improve(best, bestD, c, d);
      best, bestD := improved.0, improved.1;
    }
  }

  method SmallestCluster(sizes: array<int>) returns (smallest: int)
    requires sizes.Length > 0
    ensures FirstSmallest(sizes[..], smallest)
  {
    smallest := 0;
    for c := 1 to sizes.Length
      invariant 0 <= smallest < c
      invariant forall j :: 0 <= j < c ==> sizes[smallest] <= sizes[j] && (j < smallest ==> sizes[smallest] < sizes[j])
    {
      if sizes[c] < sizes[smallest] {
        smallest := c;
      }
    }
  }

  /** Where run v goes, given the cluster sizes so far. */
  method Place(v: FeatureVector, centroids: array<Point>, sizes: array<int>, stats: Stats) returns (c: int, d: real)
    requires v.Valid() && sizes.Length == centroids.Length > 0
    ensures 0 <= c < sizes.Length
    ensures var ds := Candidates(PointOf(v, stats), centroids[..], centroids.Length);
            if NoneComparable(ds) then FirstSmallest(sizes[..], c) && d == 0.0
            else FirstNearest(ds, c) && d == ds[c].value.squared
  {
    c, d := NearestCentroid(v, centroids, stats);
    BestIsFirstNearest(Candidates(PointOf(v, stats), centroids[..], centroids.Length));
    if c < 0 {
      c := SmallestCluster(sizes);
    }
  }

  lemma PlaceCost(p: Point, cs: seq<Point>, c: nat, d: real)
    requires c < |cs|
    requires var ds := Candidates(p, cs, |cs|);
             if NoneComparable(ds) then d == 0.0 else FirstNearest(ds, c) && d == ds[c].value.squared
    ensures d == OwnCost(p, cs[c])
  {
    CandidatesAt(p, cs, |cs|, c);
  }

  lemma PlacedExtends(ps: seq<Point>, cs: seq<Point>, assign: seq<int>, c: int, j: nat)
    requires j < |assign| && |assign| < |ps| && Placed(ps, cs, assign, j)
    ensures Placed(ps, cs, assign + [c], j)
  {
    assert (assign + [c])[..j] == assign[..j];
  }

  lemma LoadsNext(assign: seq<int>, k: nat, c: nat)
    requires c < k
    ensures Loads(assign + [c], k) == Loads(assign, k)[c := Loads(assign, k)[c] + 1]
  {
    var after, sizes := Loads(assign + [c], k), Loads(assign, k);
    forall d: nat | d < k ensures after[d] == sizes[c := sizes[c] + 1][d] {
      CountSnoc(assign, c, d);
      LoadsAt(assign + [c], k, d);
      LoadsAt(assign, k, d);
    }
  }

  /** The state of the assignment loop after its first |assign| runs. */
  ghost predicate AssignedSoFar(ps: seq<Point>, cs: seq<Point>, assign: seq<int>, dists: seq<real>)
    requires |assign| == |dists| <= |ps|
  {
    && InClusters(assign, |cs|)
    && (forall j: nat {:trigger Placed(ps, cs, assign, j)} :: j < |assign| ==> Placed(ps, cs, assign, j))
    && forall j {:trigger dists[j]} :: 0 <= j < |assign| ==> dists[j] == OwnCost(ps[j], cs[assign[j]])
  }

  lemma AssignedNext(ps: seq<Point>, cs: seq<Point>, assign: seq<int>, dists: seq<real>, c: int, d: real)
    requires |assign| == |dists| < |ps| && AssignedSoFar(ps, cs, assign, dists) && 0 <= c < |cs|
    requires var ds := Candidates(ps[|assign|], cs, |cs|);
             if NoneComparable(ds) then FirstSmallest(Loads(assign, |cs|), c) && d == 0.0
             else FirstNearest(ds, c) && d == ds[c].value.squared
    ensures AssignedSoFar(ps, cs, assign + [c], dists + [d])
  {
    hide Placed, Candidates, Loads, NoneComparable, FirstNearest, FirstSmallest, OwnCost;
    var after := assign + [c];
    forall j: nat | j < |after| ensures Placed(ps, cs, after, j) {
      if j < |assign| {
        PlacedExtends(ps, cs, assign, c, j);
      } else {
        PlacedLast(ps, cs, assign, c);
      }
    }
    PlaceCost(ps[|assign|], cs, c, d);
  }

  lemma PlacedLast(ps: seq<Point>, cs: seq<Point>, assign: seq<int>, c: int)
    requires |assign| < |ps|
    requires var ds := Candidates(ps[|assign|], cs, |cs|);
             if NoneComparable(ds) then FirstSmallest(Loads(assign, |cs|), c) else FirstNearest(ds, c)
    ensures Placed(ps, cs, assign + [c], |assign|)
  {
    hide Candidates, Loads, NoneComparable, FirstNearest, FirstSmallest;
    assert (assign + [c])[..|assign|] == assign;
  }

  lemma NoLoads(k: nat)
    ensures forall c :: 0 <= c < k ==> Loads([], k)[c] == 0
  {
    forall c: nat | c < k ensures Loads([], k)[c] == 0 {
      LoadsAt([], k, c);
    }
  }

  /** One turn of the assignment loop. */
  method AssignOne(vs: seq<FeatureVector>, stats: Stats, centroids: array<Point>, assignments: array<int>,
                   distances: array<real>, sizes: array<int>, i: nat) returns (moved: bool)
    requires AllValid(vs) && assignments.Length == distances.Length == |vs| && i < |vs|
    requires sizes.Length == centroids.Length > 0 && assignments != sizes
    requires AssignedSoFar(PointsOf(vs, stats), centroids[..], assignments[..i], distances[..i])
    requires sizes[..] == Loads(assignments[..i], sizes.Length)
    modifies assignments, distances, sizes
    ensures AssignedSoFar(PointsOf(vs, stats), centroids[..], assignments[..i + 1], distances[..i + 1])
    ensures sizes[..] == Loads(assignments[..i + 1], sizes.Length)
    ensures assignments[..] == old(assignments[..])[i := assignments[i]]
    ensures moved <==> assignments[i] != old(assignments[i])
  {
    ghost var a, ds := assignments[..i], distances[..i];
    PointsAt(vs, stats, i);
    var c, d := Place(vs[i], centroids, sizes, stats);
    AssignedNext(PointsOf(vs, stats), centroids[..], a, ds, c, d);
    LoadsNext(a, sizes.Length, c);
    moved := c != assignments[i];
    assignments[i], distances[i] := c, d;
    sizes[c] := sizes[c] + 1;
    assert assignments[..i + 1] == a + [c] && distances[..i + 1] == ds + [d];
  }

  /** The assignment step. */
  method AssignAll(vs: seq<FeatureVector>, stats: Stats, centroids: array<Point>, assignments: array<int>,
                   distances: array<real>, sizes: array<int>) returns (changed: bool)
    requires AllValid(vs) && assignments.Length == distances.Length == |vs|
    requires sizes.Length == centroids.Length > 0 && assignments != sizes
    requires forall c :: 0 <= c < sizes.Length ==> sizes[c] == 0
    modifies assignments, distances, sizes
    ensures AssignedSoFar(PointsOf(vs, stats), centroids[..], assignments[..], distances[..])
    ensures sizes[..] == Loads(assignments[..], centroids.Length)
    ensures changed <==> assignments[..] != old(assignments[..])
  {
    ghost var before := assignments[..];
    changed := false;
    NoLoads(sizes.Length);
    assert sizes[..] == Loads([], sizes.Length);
    for i := 0 to |vs|
      invariant centroids[..] == old(centroids[..])
      invariant AssignedSoFar(PointsOf(vs, stats), centroids[..], assignments[..i], distances[..i])
      invariant sizes[..] == Loads(assignments[..i], sizes.Length)
      invariant forall j :: i <= j < |vs| ==> assignments[j] == before[j]
      invariant changed <==> exists j :: 0 <= j < i && assignments[j] != before[j]
    {
      var moved := AssignOne(vs, stats, centroids, assignments, distances, sizes, i);
      changed := changed || moved;
    }
    assert assignments[..|vs|] == assignments[..] && distances[..|vs|] == distances[..];
  }

  // ---- empty-cluster repair ---------------------------------------------------------------------

  /** Sum of the loads of the first k clusters. */
  function TotalLoad(assign: seq<int>, k: nat): nat {
    if k == 0 then 0 else TotalLoad(assign, k - 1) + Count(assign, k - 1)
  }

  lemma {:induction false} TotalLoadSnoc(assign: seq<int>, a: int, k: nat)
    requires 0 <= a
    ensures TotalLoad(assign + [a], k) == TotalLoad(assign, k) + (if a < k then 1 else 0)
  {
    if k > 0 {
      TotalLoadSnoc(assign, a, k - 1);
      CountSnoc(assign, a, k - 1);
    }
  }

  lemma {:induction false} NoLoad(k: nat)
    ensures TotalLoad([], k) == 0
  {
    if k > 0 {
      NoLoad(k - 1);
    }
  }

  /** The loads of all clusters add up to the number of runs. */
  lemma {:induction false} LoadsAddUp(assign: seq<int>, k: nat)
    requires InClusters(assign, k)
    ensures TotalLoad(assign, k) == |assign|
  {
    if assign == [] {
      NoLoad(k);
    } else {
      var n := |assign| - 1;
      LoadsAddUp(assign[..n], k);
      TotalLoadSnoc(assign[..n], assign[n], k);
      assert assign == assign[..n] + [assign[n]];
    }
  }

  lemma {:induction false} SmallLoads(assign: seq<int>, k: nat, empty: int)
    requires forall c: nat :: c < k ==> Count(assign, c) <= 1
    requires empty >= 0 && Count(assign, empty) == 0
    ensures TotalLoad(assign, k) <= if empty < k then k - 1 else k
  {
    if k > 0 {
      SmallLoads(assign, k - 1, empty);
    }
  }

  /** With at least as many runs as clusters, an empty cluster means some run shares its cluster with another. */
  lemma Pigeonhole(assign: seq<int>, k: nat, empty: nat) returns (i: nat)
    requires InClusters(assign, k) && empty < k <= |assign| && Count(assign, empty) == 0
    ensures i < |assign| && Count(assign, assign[i]) > 1
  {
    LoadsAddUp(assign, k);
    if forall c: nat :: c < k ==> Count(assign, c) <= 1 {
      SmallLoads(assign, k, empty);
      assert false;
    }
    var c: nat :| c < k && Count(assign, c) > 1;
    CountPositive(assign, c);
    i :| 0 <= i < |assign| && assign[i] == c;
  }

  /** Among the first m runs whose cluster can spare one, the first placed farthest from its centroid; -1 if none. */
  function Worst(assign: seq<int>, dists: seq<real>, m: nat): (w: int)
    requires |dists| == |assign| && m <= |assign|
    ensures -1 <= w < m
  {
    if m == 0 then -1
    else
      var w := Worst(assign, dists, m - 1);
      if Count(assign, assign[m - 1]) <= 1 then w
      else if w < 0 || dists[m - 1] > dists[w] then m - 1 else w
  }

  /** What Worst finds: nothing exactly when no cluster can spare a run, otherwise a farthest such run. */
  lemma {:induction false} WorstIsFarthest(assign: seq<int>, dists: seq<real>, m: nat)
    requires |dists| == |assign| && m <= |assign|
    ensures var w := Worst(assign, dists, m);
            && (w < 0 <==> forall i :: 0 <= i < m ==> Count(assign, assign[i]) <= 1)
            && (w >= 0 ==> Count(assign, assign[w]) > 1)
            && (w >= 0 ==> forall i :: 0 <= i < m && Count(assign, assign[i]) > 1 ==>
                             dists[i] <= dists[w] && (i < w ==> dists[i] < dists[w]))
  {
    if m > 0 {
      WorstIsFarthest(assign, dists, m - 1);
    }
  }

  method FindWorst(assignments: array<int>, distances: array<real>, sizes: array<int>) returns (worst: int)
    requires distances.Length == assignments.Length
    requires InClusters(assignments[..], sizes.Length) && sizes[..] == Loads(assignments[..], sizes.Length)
    ensures worst == Worst(assignments[..], distances[..], assignments.Length)
  {
    ghost var a, ds := assignments[..], distances[..];
    worst := -1;
    for i := 0 to assignments.Length
      invariant worst == Worst(a, ds, i)
    {
      LoadsAt(a, sizes.Length, a[i]);
      assert assignments[i] == a[i] && distances[i] == ds[i] && sizes[a[i]] == sizes[..][a[i]];
      if sizes[assignments[i]] <= 1 {
        continue;
      }
      if worst < 0 || distances[i] > distances[worst] {
        worst := i;
      }
    }
  }

  /** Give each empty cluster from c on the worst-placed run that can be spared, in cluster order. */
  function Repair(assign: seq<int>, dists: seq<real>, k: nat, c: nat): (r: (seq<int>, seq<real>))
    requires |dists| == |assign| && c <= k
    ensures |r.0| == |r.1| == |assign|
    decreases k - c
  {
    if c == k then (assign, dists)
    else
      var w := Worst(assign, dists, |assign|);
      if Count(assign, c) > 0 || w < 0 then Repair(assign, dists, k, c + 1)
      else Repair(assign[w := c], dists[w := 0.0], k, c + 1)
  }

  /** The state of the repair loop: which clusters still have their members, and what has moved. */
  ghost predicate RepairedSoFar(before: seq<int>, now: seq<int>, k: nat, done: nat) {
    && |now| == |before| && InClusters(now, k)
    && Repaired(before, now)
    && (forall c: nat :: c < k && (c < done || c in before) ==> c in now)
  }

  lemma StealOne(before: seq<int>, now: seq<int>, k: nat, c: nat, worst: nat)
    requires c < k && RepairedSoFar(before, now, k, c) && worst < |now|
    requires Count(now, c) == 0 && Count(now, now[worst]) > 1
    ensures RepairedSoFar(before, now[worst := c], k, c + 1)
  {
    var after := now[worst := c];
    CountPositive(now, c);
    if now[worst] != before[worst] {
      OnlyMember(now, worst);
      assert false;
    }
    forall d: nat | d < k && (d < c + 1 || d in before) ensures d in after {
      if d == c {
        assert after[worst] == c;
      } else {
        CountUpdate(now, worst, c, d);
        CountPositive(now, d);
        CountPositive(after, d);
      }
    }
  }

  /** A run that is the only one with its label counts once. */
  lemma {:induction false} OnlyMember(s: seq<int>, i: nat)
    requires i < |s| && forall j :: 0 <= j < |s| && j != i ==> s[j] != s[i]
    ensures Count(s, s[i]) == 1
  {
    var n := |s| - 1;
    if i < n {
      OnlyMember(s[..n], i);
    } else {
      CountPositive(s[..n], s[n]);
    }
  }

  lemma DonorExists(assign: seq<int>, dists: seq<real>, k: nat, c: nat)
    requires |dists| == |assign| >= k > c && InClusters(assign, k) && Count(assign, c) == 0
    ensures var w := Worst(assign, dists, |assign|);
            w >= 0 && Count(assign, assign[w]) > 1
  {
    WorstIsFarthest(assign, dists, |assign|);
    var i := Pigeonhole(assign, k, c);
  }

  /** With n >= k, repair always finds a donor, never empties a cluster, and leaves every cluster with a member. */
  lemma {:induction false} RepairFillsAll(before: seq<int>, now: seq<int>, dists: seq<real>, k: nat, c: nat)
    requires |dists| == |now| >= k && c <= k && RepairedSoFar(before, now, k, c)
    ensures var r := Repair(now, dists, k, c);
            InClusters(r.0, k) && NoneEmpty(r.0, k) && Repaired(before, r.0)
    decreases k - c
  {
    if c < k {
      if Count(now, c) > 0 {
        CountPositive(now, c);
        RepairFillsAll(before, now, dists, k, c + 1);
      } else {
        var w := Worst(now, dists, |now|);
        DonorExists(now, dists, k, c);
        StealOne(before, now, k, c, w);
        RepairFillsAll(before, now[w := c], dists[w := 0.0], k, c + 1);
      }
    }
  }

  /** Repair changes a run's distance only when it moves the run, and then to zero. */
  lemma {:induction false} RepairDistances(assign: seq<int>, dists: seq<real>, k: nat, c: nat, i: nat)
    requires |dists| == |assign| && c <= k && i < |assign|
    ensures Repair(assign, dists, k, c).1[i] in {dists[i], 0.0}
    decreases k - c
  {
    if c < k {
      var w := Worst(assign, dists, |assign|);
      if Count(assign, c) > 0 || w < 0 {
        RepairDistances(assign, dists, k, c + 1, i);
      } else {
        RepairDistances(assign[w := c], dists[w := 0.0], k, c + 1, i);
      }
    }
  }

  lemma LoadsAfterSteal(assign: seq<int>, k: nat, w: nat, c: nat)
    requires InClusters(assign, k) && w < |assign| && c < k && assign[w] != c
    ensures var sizes := Loads(assign, k);
            Loads(assign[w := c], k) == sizes[assign[w] := sizes[assign[w]] - 1][c := sizes[c] + 1]
  {
    var after, sizes := Loads(assign[w := c], k), Loads(assign, k);
    forall d: nat | d < k ensures after[d] == sizes[assign[w] := sizes[assign[w]] - 1][c := sizes[c] + 1][d] {
      CountUpdate(assign, w, c, d);
      LoadsAt(assign[w := c], k, d);
      LoadsAt(assign, k, d);
    }
  }

  /** Move the worst-placed run that can be spared into empty cluster c. */
  method StealWorst(assignments: array<int>, distances: array<real>, sizes: array<int>, c: nat)
    requires c < sizes.Length && distances.Length == assignments.Length && assignments != sizes
    requires InClusters(assignments[..], sizes.Length) && sizes[..] == Loads(assignments[..], sizes.Length)
    requires Count(assignments[..], c) == 0 && Worst(assignments[..], distances[..], assignments.Length) >= 0
    modifies assignments, distances, sizes
    ensures var w := old(Worst(assignments[..], distances[..], assignments.Length));
            && assignments[..] == old(assignments[..])[w := c]
            && distances[..] == old(distances[..])[w := 0.0]
    ensures sizes[..] == Loads(assignments[..], sizes.Length)
  {
    ghost var a := assignments[..];
    var worst := FindWorst(assignments, distances, sizes);
    WorstIsFarthest(a, distances[..], |a|);
    LoadsAfterSteal(a, sizes.Length, worst, c);
    var donor := assignments[worst];
    sizes[donor] := sizes[donor] - 1;
    assignments[worst] := c;
    distances[worst] := 0.0;
    sizes[c] := sizes[c] + 1;
  }

  lemma {:induction false} NoneOf(s: seq<int>, a: int)
    requires Count(s, a) == 0
    ensures a !in s
  {
    if s != [] {
      NoneOf(s[..|s| - 1], a);
    }
  }

  /** Repair leaves an assignment without empty clusters alone. */
  lemma {:induction false} NothingToRepair(assign: seq<int>, dists: seq<real>, k: nat, c: nat)
    requires |dists| == |assign| && c <= k && NoneEmpty(assign, k)
    ensures Repair(assign, dists, k, c) == (assign, dists)
    decreases k - c
  {
    if c < k {
      assert c in assign;
      if Count(assign, c) == 0 {
        NoneOf(assign, c);
      }
      NothingToRepair(assign, dists, k, c + 1);
    }
  }

  /**
   The repair loop. One steal fills a cluster, so the inner loop of the source turns at most once, and its way out
   when no donor exists is never taken, because there are enough runs.
   */
  method RepairEmpty(assignments: array<int>, distances: array<real>, sizes: array<int>) returns (changed: bool)
    requires distances.Length == assignments.Length >= sizes.Length && assignments != sizes
    requires InClusters(assignments[..], sizes.Length) && sizes[..] == Loads(assignments[..], sizes.Length)
    modifies assignments, distances, sizes
    ensures (assignments[..], distances[..]) == Repair(old(assignments[..]), old(distances[..]), sizes.Length, 0)
    ensures sizes[..] == Loads(assignments[..], sizes.Length)
    ensures !changed ==> assignments[..] == old(assignments[..])
    ensures old(NoneEmpty(assignments[..], sizes.Length)) ==> !changed
  {
    changed := false;
    for c := 0 to sizes.Length
      invariant InClusters(assignments[..], sizes.Length)
      invariant Repair(assignments[..], distances[..], sizes.Length, c)
                == old(Repair(assignments[..], distances[..], sizes.Length, 0))
      invariant sizes[..] == Loads(assignments[..], sizes.Length)
      invariant !changed ==> assignments[..] == old(assignments[..])
      invariant old(NoneEmpty(assignments[..], sizes.Length)) ==> !changed
    {
      LoadsAt(assignments[..], sizes.Length, c);
      assert sizes[c] == sizes[..][c];
      if sizes[c] == 0 {
        NoneOf(assignments[..], c);
        DonorExists(assignments[..], distances[..], sizes.Length, c);
        StealWorst(assignments, distances, sizes, c);
        changed := true;
      }
    }
  }

  // ---- centroid update --------------------------------------------------------------------------

  /** Running sum and count of one dimension. */
  datatype Mass = Mass(sum: real, count: nat)

  function AddMass(acc: map<string, Mass>, name: string, z: real): map<string, Mass> {
    var mass := if name in acc then acc[name] else Mass(0.0, 0);
    acc[name := Mass(mass.sum + z, mass.count + 1)]
  }

  /** The sums after the first j features of a member. */
  function AddFeatures(acc: map<string, Mass>, v: FeatureVector, stats: Stats, j: nat): map<string, Mass>
    requires j <= |v.names| && forall name :: name in v.names ==> name in v.values
  {
    if j == 0 then acc
    else
      var before, name := AddFeatures(acc, v, stats, j - 1), v.names[j - 1];
      if Varies(stats, name) then AddMass(before, name, ZScore(stats[name], v.values[name])) else before
  }

  lemma {:induction false} AddFeaturesAt(acc: map<string, Mass>, v: FeatureVector, stats: Stats, j: nat, name: string)
    requires v.Valid() && j <= |v.names|
    ensures var after, met := AddFeatures(acc, v, stats, j), name in v.names[..j] && Varies(stats, name);
            && (name in after <==> name in acc || met)
            && (name in after ==>
                  after[name]
                  == if met then AddMass(acc, name, ZScore(stats[name], v.values[name]))[name] else acc[name])
  {
    if j > 0 {
      AddFeaturesAt(acc, v, stats, j - 1, name);
      assert v.names[..j] == v.names[..j - 1] + [v.names[j - 1]];
      assert v.names[j - 1] !in v.names[..j - 1];
    }
  }

  /** Inner loop of centroid_update: fold one member's standardised features into the sums. */
  method AddMember(acc0: map<string, Mass>, v: FeatureVector, stats: Stats) returns (acc: map<string, Mass>)
    requires v.Valid()
    ensures forall name :: name in acc <==> name in acc0 || name in PointOf(v, stats)
    ensures forall name :: name in acc ==>
              acc[name] == if name in PointOf(v, stats) then AddMass(acc0, name, PointOf(v, stats)[name])[name]
                           else acc0[name]
  {
    acc := acc0;
    for j := 0 to |v.names|
      invariant acc == AddFeatures(acc0, v, stats, j)
    {
      if Varies(stats, v.names[j]) {
        acc := AddMass(acc, v.names[j], ZScore(stats[v.names[j]], v.values[v.names[j]]));
      }
    }
    assert v.names[..|v.names|] == v.names;
    forall name {
      AddFeaturesAt(acc0, v, stats, |v.names|, name);
    }
  }

  /** The sums after the first m runs: per dimension, over the members of cluster c. */
  ghost predicate Massed(acc: map<string, Mass>, ps: seq<Point>, assign: seq<int>, c: int, m: nat)
    requires m <= |assign| == |ps|
  {
    forall name :: MassedAt(acc, ps, assign, c, m, name)
  }

  ghost predicate MassedAt(acc: map<string, Mass>, ps: seq<Point>, assign: seq<int>, c: int, m: nat, name: string)
    requires m <= |assign| == |ps|
  {
    var xs := MemberValues(ps, assign, c, name, m);
    if xs == [] then name !in acc else name in acc && acc[name] == Mass(Sum(xs), |xs|)
  }

  lemma MassedNextAt(before: map<string, Mass>, after: map<string, Mass>, ps: seq<Point>, assign: seq<int>, c: int,
                     m: nat, name: string)
    requires m < |assign| == |ps| && assign[m] == c && MassedAt(before, ps, assign, c, m, name)
    requires name in after <==> name in before || name in ps[m]
    requires name in after ==>
               after[name] == if name in ps[m] then AddMass(before, name, ps[m][name])[name] else before[name]
    ensures MassedAt(after, ps, assign, c, m + 1, name)
  {
    var xs := MemberValues(ps, assign, c, name, m);
    if name in ps[m] {
      SumSnoc(xs, ps[m][name]);
    } else {
      assert MemberValues(ps, assign, c, name, m + 1) == xs;
    }
  }

  lemma MassedNext(before: map<string, Mass>, after: map<string, Mass>, ps: seq<Point>, assign: seq<int>, c: int,
                   m: nat)
    requires m < |assign| == |ps| && Massed(before, ps, assign, c, m)
    requires assign[m] != c ==> after == before
    requires assign[m] == c ==> forall name ::
               && (name in after <==> name in before || name in ps[m])
               && (name in after ==> after[name] == if name in ps[m] then AddMass(before, name, ps[m][name])[name]
                                                    else before[name])
    ensures Massed(after, ps, assign, c, m + 1)
  {
    forall name: string {:trigger MassedAt(after, ps, assign, c, m + 1, name)}
      ensures MassedAt(after, ps, assign, c, m + 1, name)
    {
      assert MassedAt(before, ps, assign, c, m, name);
      if assign[m] == c {
        MassedNextAt(before, after, ps, assign, c, m, name);
      } else {
        assert MemberValues(ps, assign, c, name, m + 1) == MemberValues(ps, assign, c, name, m);
      }
    }
  }

  method SumMembers(vs: seq<FeatureVector>, stats: Stats, assignments: array<int>, c: int)
      returns (acc: map<string, Mass>, size: nat)
    requires AllValid(vs) && assignments.Length == |vs|
    ensures Massed(acc, PointsOf(vs, stats), assignments[..], c, |vs|)
    ensures size == Count(assignments[..], c)
  {
    ghost var ps, a := PointsOf(vs, stats), assignments[..];
    acc, size := map[], 0;
    for i := 0 to |vs|
      invariant Massed(acc, ps, a, c, i)
      invariant size == Count(a[..i], c)
    {
      PointsAt(vs, stats, i);
      ghost var before := acc;
      assert a[..i + 1][..i] == a[..i];
      if assignments[i] == c {
        size := size + 1;
        acc := AddMember(acc, vs[i], stats);
      }
      MassedNext(before, acc, ps, a, c, i);
    }
    assert a[..|vs|] == a;
  }

  /** Recompute one centroid from the current assignment, with its number of members. */
  method CentroidUpdate(vs: seq<FeatureVector>, stats: Stats, assignments: array<int>, c: int)
      returns (centroid: Point, size: nat)
    requires AllValid(vs) && assignments.Length == |vs|
    ensures IsCentroid(centroid, PointsOf(vs, stats), assignments[..], c)
    ensures size == Count(assignments[..], c)
  {
    var acc;
    acc, size := SumMembers(vs, stats, assignments, c);
    ghost var ps, a := PointsOf(vs, stats), assignments[..];
    forall name: string {:trigger name in acc}
      ensures name in acc <==> MemberValues(ps, a, c, name, |ps|) != []
      ensures name in acc ==> acc[name].count > 0
      ensures name in acc ==> acc[name].sum / acc[name].count as real == Mean(MemberValues(ps, a, c, name, |ps|))
    {
      assert MassedAt(acc, ps, a, c, |ps|, name);
    }
    centroid := map name | name in acc :: acc[name].sum / acc[name].count as real;
  }

  // ---- whole runs -------------------------------------------------------------------------------

  /** One iteration: the assignment and distances before repair, then the assignment and centroids it leaves. */
  datatype Snapshot = Snapshot(nearest: seq<int>, dists: seq<real>, assign: seq<int>, centroids: seq<Point>)

  /** An iteration from the given centroids: assign every run, repair empty clusters, recompute the centroids. */
  ghost predicate Step(ps: seq<Point>, before: seq<Point>, s: Snapshot) {
    && |s.nearest| == |s.dists| == |s.assign| == |ps| && |s.centroids| == |before|
    && AssignedSoFar(ps, before, s.nearest, s.dists)
    && s.assign == Repair(s.nearest, s.dists, |before|, 0).0
    && AreCentroids(s.centroids, ps, s.assign)
  }

  /** The centroids after the first m iterations. */
  function Reached(seeds: seq<Point>, hist: seq<Snapshot>, m: nat): seq<Point>
    requires m <= |hist|
  {
    if m == 0 then seeds else hist[m - 1].centroids
  }

  /** The first m iterations are a run of k-means from the given seed centroids. */
  ghost predicate IsRun(ps: seq<Point>, seeds: seq<Point>, hist: seq<Snapshot>, m: nat)
    requires m <= |hist|
  {
    m == 0 || (IsRun(ps, seeds, hist, m - 1) && Step(ps, Reached(seeds, hist, m - 1), hist[m - 1]))
  }

  lemma {:induction false} StepAt(ps: seq<Point>, seeds: seq<Point>, hist: seq<Snapshot>, m: nat, t: nat)
    requires t < m <= |hist| && IsRun(ps, seeds, hist, m)
    ensures IsRun(ps, seeds, hist, t + 1)
    ensures Step(ps, Reached(seeds, hist, t), hist[t])
  {
    if t < m - 1 {
      StepAt(ps, seeds, hist, m - 1, t);
    }
  }

  lemma {:induction false} RunUnaffected(ps: seq<Point>, seeds: seq<Point>, hist: seq<Snapshot>, s: Snapshot, m: nat)
    requires m <= |hist| && IsRun(ps, seeds, hist, m)
    ensures IsRun(ps, seeds, hist + [s], m)
  {
    if m > 0 {
      RunUnaffected(ps, seeds, hist, s, m - 1);
    }
  }

  lemma PlacedIsNearest(ps: seq<Point>, cs: seq<Point>, assign: seq<int>, dists: seq<real>)
    requires |assign| == |dists| == |ps| && AssignedSoFar(ps, cs, assign, dists)
    ensures Nearest(ps, assign, cs)
  {
    forall i: nat, c: nat | i < |ps| && c < |cs| && DistanceSpec(ps[i], cs[c]).Some?
      ensures DistanceSpec(ps[i], cs[assign[i]]).Some?
      ensures DistanceSpec(ps[i], cs[assign[i]]).value.squared <= DistanceSpec(ps[i], cs[c]).value.squared
    {
      assert Placed(ps, cs, assign, i);
      CandidatesAt(ps[i], cs, |cs|, c);
      CandidatesAt(ps[i], cs, |cs|, assign[i]);
    }
  }

  lemma StepOutcome(ps: seq<Point>, before: seq<Point>, s: Snapshot)
    requires Step(ps, before, s) && |ps| >= |before|
    ensures InClusters(s.assign, |before|) && NoneEmpty(s.assign, |before|)
    ensures InClusters(s.nearest, |before|) && Nearest(ps, s.nearest, before) && Repaired(s.nearest, s.assign)
  {
    PlacedIsNearest(ps, before, s.nearest, s.dists);
    RepairFillsAll(s.nearest, s.nearest, s.dists, |before|, 0);
  }

  /** A snapshot that k-means may stop at: every run in one of the clusters, no cluster empty, centroids are means. */
  ghost predicate Clustered(ps: seq<Point>, k: nat, s: Snapshot) {
    && |s.assign| == |ps| && |s.centroids| == k
    && InClusters(s.assign, k) && NoneEmpty(s.assign, k)
    && AreCentroids(s.centroids, ps, s.assign)
  }

  /** After every iteration each run is in exactly one cluster 0..k-1, no cluster is empty, centroids are means. */
  lemma {:induction false} RunKeepsClusters(ps: seq<Point>, seeds: seq<Point>, hist: seq<Snapshot>, m: nat)
    requires 1 <= m <= |hist| && IsRun(ps, seeds, hist, m) && |ps| >= |seeds|
    ensures Clustered(ps, |seeds|, hist[m - 1])
  {
    if m > 1 {
      RunKeepsClusters(ps, seeds, hist, m - 1);
    }
    StepOutcome(ps, Reached(seeds, hist, m - 1), hist[m - 1]);
  }

  lemma StepDescends(ps: seq<Point>, dims: set<string>, k: nat, s: Snapshot, s': Snapshot)
    requires |ps| >= k && SameDimensions(ps, dims) && Clustered(ps, k, s) && Step(ps, s.centroids, s')
    ensures Clustered(ps, k, s')
    ensures Cost(ps, s'.assign, s'.centroids) <= Cost(ps, s.assign, s.centroids)
  {
    StepOutcome(ps, s.centroids, s');
    IterationDescends(ps, dims, s.assign, s.centroids, s'.nearest, s'.assign, s'.centroids);
  }

  lemma ClusteredAt(ps: seq<Point>, seeds: seq<Point>, hist: seq<Snapshot>, t: nat)
    requires IsRun(ps, seeds, hist, |hist|) && |ps| >= |seeds| && t < |hist|
    ensures Clustered(ps, |seeds|, hist[t])
  {
    hide Clustered, Step, IsRun, Reached;
    StepAt(ps, seeds, hist, |hist|, t);
    RunKeepsClusters(ps, seeds, hist, t + 1);
  }

  lemma StepFrom(ps: seq<Point>, seeds: seq<Point>, hist: seq<Snapshot>, t: nat)
    requires IsRun(ps, seeds, hist, |hist|) && t + 1 < |hist|
    ensures Step(ps, hist[t].centroids, hist[t + 1])
  {
    hide Step;
    StepAt(ps, seeds, hist, |hist|, t + 1);
  }

  /** Lloyd descent: when every run measured the same features, no iteration raises the cost, repairs included. */
  lemma RunDescends(ps: seq<Point>, dims: set<string>, seeds: seq<Point>, hist: seq<Snapshot>, t: nat)
    requires IsRun(ps, seeds, hist, |hist|) && |ps| >= |seeds| && t + 1 < |hist| && SameDimensions(ps, dims)
    ensures Clustered(ps, |seeds|, hist[t]) && Clustered(ps, |seeds|, hist[t + 1])
    ensures Cost(ps, hist[t + 1].assign, hist[t + 1].centroids) <= Cost(ps, hist[t].assign, hist[t].centroids)
  {
    ClusteredAt(ps, seeds, hist, t);
    StepFrom(ps, seeds, hist, t);
    StepDescends(ps, dims, |seeds|, hist[t], hist[t + 1]);
  }

  lemma CentroidsUnique(cs: seq<Point>, ds: seq<Point>, ps: seq<Point>, assign: seq<int>)
    requires |assign| == |ps| && |cs| == |ds| && AreCentroids(cs, ps, assign) && AreCentroids(ds, ps, assign)
    ensures cs == ds
  {
    forall c: nat | c < |cs| ensures cs[c] == ds[c] {
      assert IsCentroid(cs[c], ps, assign, c) && IsCentroid(ds[c], ps, assign, c);
    }
  }

  // ---- the algorithm ----------------------------------------------------------------------------

  method UpdateAll(vs: seq<FeatureVector>, stats: Stats, assignments: array<int>, centroids: array<Point>)
    requires AllValid(vs) && assignments.Length == |vs|
    modifies centroids
    ensures AreCentroids(centroids[..], PointsOf(vs, stats), assignments[..])
  {
    for c := 0 to centroids.Length
      invariant forall d: nat :: d < c ==> IsCentroid(centroids[d], PointsOf(vs, stats), assignments[..], d)
    {
      var size;
      centroids[c], size := CentroidUpdate(vs, stats, assignments, c);
    }
  }

  /** The body of the outer loop. */
  method Iterate(vs: seq<FeatureVector>, stats: Stats, centroids: array<Point>, assignments: array<int>,
                 distances: array<real>) returns (changed: bool, ghost s: Snapshot)
    requires AllValid(vs) && assignments.Length == distances.Length == |vs| >= centroids.Length > 0
    modifies centroids, assignments, distances
    ensures Step(PointsOf(vs, stats), old(centroids[..]), s)
    ensures s.assign == assignments[..] && s.centroids == centroids[..]
    ensures distances[..] == Repair(s.nearest, s.dists, centroids.Length, 0).1
    ensures !changed <==> s.nearest == s.assign == old(assignments[..])
  {
    var sizes := new int[centroids.Length](_ => 0);
    var moved := AssignAll(vs, stats, centroids, assignments, distances, sizes);
    ghost var a1, d1 := assignments[..], distances[..];
    assert InClusters(a1, sizes.Length);
    var stolen := RepairEmpty(assignments, distances, sizes);
    UpdateAll(vs, stats, assignments, centroids);
    changed := moved || stolen;
    if assignments[..] == a1 {
      RepairFillsAll(a1, a1, d1, sizes.Length, 0);
    }
    s := Snapshot(a1, d1, assignments[..], centroids[..]);
  }

  /** An iteration that moves nothing keeps the centroids, which are then nearest for all their members. */
  lemma StillMeansNearest(ps: seq<Point>, assign: seq<int>, before: seq<Point>, s: Snapshot)
    requires |ps| >= |before| && |assign| == |ps| && AreCentroids(before, ps, assign)
    requires Step(ps, before, s) && s.assign == assign == s.nearest
    ensures s.centroids == before
    ensures InClusters(s.assign, |s.centroids|) && Nearest(ps, s.assign, s.centroids)
  {
    CentroidsUnique(before, s.centroids, ps, assign);
    StepOutcome(ps, before, s);
  }

  lemma BlankCost(p: Point, q: Point)
    requires p == map[]
    ensures DistanceSpec(p, q).None? && OwnCost(p, q) == 0.0
  {
    assert SquaredDiffs(p, q) == map[];
  }

  /** A run with no varying feature is at distance zero from everything, and repair keeps it there. */
  lemma BlankRunsStayPut(ps: seq<Point>, before: seq<Point>, s: Snapshot, i: nat)
    requires Step(ps, before, s) && i < |ps| && ps[i] == map[]
    ensures Repair(s.nearest, s.dists, |before|, 0).1[i] == 0.0
  {
    RepairDistances(s.nearest, s.dists, |before|, 0, i);
    BlankCost(ps[i], before[s.nearest[i]]);
  }

  /** A run with a varying feature shares it with its own cluster's centroid. */
  lemma OwnCentroidComparable(ps: seq<Point>, assign: seq<int>, i: nat, cs: seq<Point>)
    requires |assign| == |ps| && i < |ps| && InClusters(assign, |cs|) && AreCentroids(cs, ps, assign)
    ensures ps[i] != map[] ==> DistanceSpec(ps[i], cs[assign[i]]).Some?
  {
    if ps[i] != map[] {
      var name :| name in ps[i];
      assert IsCentroid(cs[assign[i]], ps, assign, assign[i]);
      MemberMeasures(ps, assign, i, name, |ps|);
      assert name in SquaredDiffs(ps[i], cs[assign[i]]);
    }
  }

  /** Distance of run i to its final centroid; it would keep its old one if the two could not be compared. */
  method FinalDistance(vs: seq<FeatureVector>, stats: Stats, centroids: array<Point>, assignments: array<int>,
                       distances: array<real>, i: nat) returns (d: real)
    requires AllValid(vs) && assignments.Length == distances.Length == |vs| && i < |vs|
    requires InClusters(assignments[..], centroids.Length)
    requires AreCentroids(centroids[..], PointsOf(vs, stats), assignments[..])
    requires PointsOf(vs, stats)[i] == map[] ==> distances[i] == 0.0
    ensures d == OwnCost(PointsOf(vs, stats)[i], centroids[..][assignments[..][i]])
  {
    PointsAt(vs, stats, i);
    OwnCentroidComparable(PointsOf(vs, stats), assignments[..], i, centroids[..]);
    var r := CentroidDistance(vs[i], centroids[assignments[i]], stats);
    if PointOf(vs[i], stats) == map[] {
      BlankCost(PointOf(vs[i], stats), centroids[assignments[i]]);
    }
    d := if r.Some? then r.value.squared else distances[i];
  }

  /** The closing loop: distances to the final centroids. */
  method FinalDistances(vs: seq<FeatureVector>, stats: Stats, centroids: array<Point>, assignments: array<int>,
                        distances: array<real>)
    requires AllValid(vs) && assignments.Length == distances.Length == |vs|
    requires InClusters(assignments[..], centroids.Length)
    requires AreCentroids(centroids[..], PointsOf(vs, stats), assignments[..])
    requires forall i: nat :: i < |vs| && PointsOf(vs, stats)[i] == map[] ==> distances[i] == 0.0
    modifies distances
    ensures forall i :: 0 <= i < |vs| ==>
              distances[i] == OwnCost(PointsOf(vs, stats)[i], centroids[..][assignments[..][i]])
  {
    ghost var costs: seq<real> := [];
    for i := 0 to |vs|
      invariant distances[..i] == costs
      invariant forall j :: i <= j < |vs| ==> distances[j] == old(distances[j])
      invariant forall j :: 0 <= j < i ==>
                              costs[j] == OwnCost(PointsOf(vs, stats)[j], centroids[..][assignments[..][j]])
    {
      var d := FinalDistance(vs, stats, centroids, assignments, distances, i);
      distances[i] := d;
      assert distances[..i + 1] == costs + [d];
      costs := costs + [d];
    }
  }

  /** A point with only some of its coordinates. */
  ghost function Restrict(p: Point, names: seq<string>): Point {
    map name | name in p && name in names :: p[name]
  }

  lemma RestrictGrows(p: Point, names: seq<string>, m: nat)
    requires m < |names|
    ensures Restrict(p, names[..m + 1])
            == if names[m] in p then Restrict(p, names[..m])[names[m] := p[names[m]]] else Restrict(p, names[..m])
  {
    assert names[..m + 1] == names[..m] + [names[m]];
  }

  /** The centroid a seed run stands for: its own standardised values. */
  method SeedCentroid(v: FeatureVector, stats: Stats) returns (p: Point)
    requires v.Valid()
    ensures p == PointOf(v, stats)
  {
    p := map[];
    for j := 0 to |v.names|
      invariant p == Restrict(PointOf(v, stats), v.names[..j])
    {
      RestrictGrows(PointOf(v, stats), v.names, j);
      if Varies(stats, v.names[j]) {
        p := p[v.names[j] := ZScore(stats[v.names[j]], v.values[v.names[j]])];
      }
    }
    assert v.names[..|v.names|] == v.names;
  }

  /** The points of the chosen runs. */
  ghost function SeedPoints(ps: seq<Point>, chosen: seq<nat>, m: nat): (seeds: seq<Point>)
    requires m <= |chosen| && Seeding.InRange(chosen, |ps|)
    ensures |seeds| == m
  {
    if m == 0 then [] else SeedPoints(ps, chosen, m - 1) + [ps[chosen[m - 1]]]
  }

  method SeedCentroids(vs: seq<FeatureVector>, stats: Stats, chosen: seq<nat>) returns (centroids: array<Point>)
    requires AllValid(vs) && Seeding.InRange(chosen, |vs|)
    ensures fresh(centroids) && centroids[..] == SeedPoints(PointsOf(vs, stats), chosen, |chosen|)
  {
    centroids := new Point[|chosen|](_ => map[]);
    for c := 0 to |chosen|
      invariant centroids[..c] == SeedPoints(PointsOf(vs, stats), chosen, c)
    {
      PointsAt(vs, stats, chosen[c]);
      ghost var before := centroids[..c];
      centroids[c] := SeedCentroid(vs[chosen[c]], stats);
      assert centroids[..c + 1] == before + [centroids[c]];
    }
    assert centroids[..|chosen|] == centroids[..];
  }

  /** Where the outer loop stands after the given iterations. */
  ghost predicate At(ps: seq<Point>, seeds: seq<Point>, hist: seq<Snapshot>, assign: seq<int>, cents: seq<Point>,
                     dists: seq<real>)
  {
    && |dists| == |ps|
    && IsRun(ps, seeds, hist, |hist|) && cents == Reached(seeds, hist, |hist|)
    && (hist != [] ==> assign == hist[|hist| - 1].assign && BlanksAtZero(ps, dists))
  }

  ghost predicate BlanksAtZero(ps: seq<Point>, dists: seq<real>)
    requires |dists| == |ps|
  {
    forall i: nat :: i < |ps| && ps[i] == map[] ==> dists[i] == 0.0
  }

  lemma RunGrows(ps: seq<Point>, seeds: seq<Point>, hist: seq<Snapshot>, s: Snapshot, dists: seq<real>)
    requires IsRun(ps, seeds, hist, |hist|) && Step(ps, Reached(seeds, hist, |hist|), s)
    requires dists == Repair(s.nearest, s.dists, |Reached(seeds, hist, |hist|)|, 0).1
    ensures At(ps, seeds, hist + [s], s.assign, s.centroids, dists)
  {
    RunUnaffected(ps, seeds, hist, s, |hist|);
    assert Reached(seeds, hist + [s], |hist|) == Reached(seeds, hist, |hist|);
    forall i: nat | i < |ps| && ps[i] == map[] ensures dists[i] == 0.0 {
      BlankRunsStayPut(ps, Reached(seeds, hist, |hist|), s, i);
    }
  }

  lemma Settled(ps: seq<Point>, seeds: seq<Point>, hist: seq<Snapshot>, s: Snapshot)
    requires IsRun(ps, seeds, hist, |hist|) && hist != [] && |ps| >= |seeds|
    requires Step(ps, Reached(seeds, hist, |hist|), s)
    requires s.assign == s.nearest == hist[|hist| - 1].assign
    ensures IsSettled(ps, s.assign, s.centroids)
  {
    RunKeepsClusters(ps, seeds, hist, |hist|);
    StillMeansNearest(ps, s.assign, Reached(seeds, hist, |hist|), s);
  }

  /** Every run is in a cluster whose centroid is nearest to it: another iteration would change nothing. */
  ghost predicate IsSettled(ps: seq<Point>, assign: seq<int>, cents: seq<Point>) {
    |assign| == |ps| && InClusters(assign, |cents|) && Nearest(ps, assign, cents)
  }

  /** Iteration j moves nothing: every run was nearest where it had been before, and no cluster was empty. */
  ghost predicate Still(hist: seq<Snapshot>, j: nat)
    requires 1 <= j < |hist|
  {
    hist[j].nearest == hist[j].assign == hist[j - 1].assign
  }

  /** The loop goes on until an iteration moves nothing or the iterations run out, and no further. */
  ghost predicate StopsWhenStill(hist: seq<Snapshot>, converged: bool, maxIterations: nat) {
    && 1 <= |hist| <= maxIterations
    && (forall j: nat :: 1 <= j < |hist| - 1 ==> !Still(hist, j))
    && (converged <==> |hist| > 1 && Still(hist, |hist| - 1))
    && (!converged ==> |hist| == maxIterations)
  }

  /** One turn of the outer loop, with the history it extends. */
  method Turn(vs: seq<FeatureVector>, stats: Stats, centroids: array<Point>, assignments: array<int>,
              distances: array<real>, ghost seeds: seq<Point>, ghost hist: seq<Snapshot>)
      returns (changed: bool, ghost hist': seq<Snapshot>)
    requires AllValid(vs) && assignments.Length == distances.Length == |vs| >= centroids.Length > 0
    requires |seeds| == centroids.Length
    requires At(PointsOf(vs, stats), seeds, hist, assignments[..], centroids[..], distances[..])
    modifies centroids, assignments, distances
    ensures |hist'| == |hist| + 1
    ensures At(PointsOf(vs, stats), seeds, hist', assignments[..], centroids[..], distances[..])
    ensures hist' == hist + [hist'[|hist|]]
    ensures hist != [] ==> (!changed <==> Still(hist', |hist|))
    ensures !changed && hist != [] ==> IsSettled(PointsOf(vs, stats), assignments[..], centroids[..])
  {
    ghost var ps := PointsOf(vs, stats);
    ghost var s;
    changed, s := Iterate(vs, stats, centroids, assignments, distances);
    hist' := hist + [s];
    RunGrows(ps, seeds, hist, s, distances[..]);
    if !changed && hist != [] {
      Settled(ps, seeds, hist, s);
    }
  }

  /** The outer loop: iterate until nothing moves or the iterations run out. */
  method Lloyd(vs: seq<FeatureVector>, stats: Stats, centroids: array<Point>, assignments: array<int>,
               distances: array<real>, maxIterations: nat) returns (converged: bool, ghost hist: seq<Snapshot>)
    requires AllValid(vs) && assignments.Length == distances.Length == |vs| >= centroids.Length > 0
    requires maxIterations >= 1
    modifies centroids, assignments, distances
    ensures StopsWhenStill(hist, converged, maxIterations)
    ensures At(PointsOf(vs, stats), old(centroids[..]), hist, assignments[..], centroids[..], distances[..])
    ensures converged ==> IsSettled(PointsOf(vs, stats), assignments[..], centroids[..])
  {
    ghost var seeds := centroids[..];
    hist, converged := [], false;
    for iter := 0 to maxIterations
      invariant |hist| == iter && forall j: nat :: 1 <= j < |hist| ==> !Still(hist, j)
      invariant At(PointsOf(vs, stats), seeds, hist, assignments[..], centroids[..], distances[..])
    {
      var changed;
      ghost var before := hist;
      changed, hist := Turn(vs, stats, centroids, assignments, distances, seeds, hist);
      assert forall j: nat :: 1 <= j < |before| ==> Still(hist, j) == Still(before, j);
      if !changed && iter > 0 {
        converged := true;
        return;
      }
    }
  }

  /**
   What a finished clustering promises: the history is a run of k-means from the seeds, the result is its last
   snapshot, dists are the squared distances to the final centroids, and if the iteration stopped by itself then
   every run is in a cluster whose centroid is nearest to it.
   */
  ghost predicate IsResult(ps: seq<Point>, seeds: seq<Point>, hist: seq<Snapshot>, assign: seq<int>,
                           cents: seq<Point>, dists: seq<real>, converged: bool)
  {
    && hist != [] && IsRun(ps, seeds, hist, |hist|)
    && assign == hist[|hist| - 1].assign && cents == hist[|hist| - 1].centroids
    && Clustered(ps, |seeds|, hist[|hist| - 1])
    && |dists| == |ps| && (forall i :: 0 <= i < |ps| ==> dists[i] == OwnCost(ps[i], cents[assign[i]]))
    && (converged ==> IsSettled(ps, assign, cents))
  }

  /** kmeans_cluster once the seed centroids are in place. */
  method ClusterFrom(vs: seq<FeatureVector>, stats: Stats, centroids: array<Point>, maxIterations: nat)
      returns (assign: seq<int>, cents: seq<Point>, dists: seq<real>, converged: bool, ghost hist: seq<Snapshot>)
    requires AllValid(vs) && |vs| >= centroids.Length >= 1 && maxIterations >= 1
    modifies centroids
    ensures StopsWhenStill(hist, converged, maxIterations)
    ensures IsResult(PointsOf(vs, stats), old(centroids[..]), hist, assign, cents, dists, converged)
  {
    ghost var ps, seeds := PointsOf(vs, stats), centroids[..];
    var assignments := new int[|vs|](_ => -1);
    var distances := new real[|vs|](_ => 0.0);
    converged, hist := Lloyd(vs, stats, centroids, assignments, distances, maxIterations);
    RunKeepsClusters(ps, seeds, hist, |hist|);
    FinalDistances(vs, stats, centroids, assignments, distances);
    assign, cents, dists := assignments[..], centroids[..], distances[..];
  }

  /** kmeans_cluster: seed with k-means++, then cluster. */
  method KMeansCluster(vs: seq<FeatureVector>, k: nat, stats: Stats, first: nat, draws: seq<real>, maxIterations: nat)
      returns (assign: seq<int>, cents: seq<Point>, dists: seq<real>, converged: bool, chosen: seq<nat>,
               ghost hist: seq<Snapshot>)
    requires AllValid(vs) && |vs| >= k >= 1 && maxIterations >= 1
    requires |draws| == k && Seeding.Fractions(draws)
    ensures Seeding.IsTable(Seeding.TableOf(vs, stats)) && |chosen| == k && Seeding.InRange(chosen, |vs|)
    ensures Seeding.IsSeeding(Seeding.TableOf(vs, stats), first, draws, chosen)
    ensures (forall c :: 1 <= c < k ==> draws[c] > 0.0) ==> Seeding.NoDuplicates(chosen)
    ensures StopsWhenStill(hist, converged, maxIterations)
    ensures IsResult(PointsOf(vs, stats), SeedPoints(PointsOf(vs, stats), chosen, k), hist, assign, cents, dists,
                     converged)
  {
    chosen := Seeding.KMeansPlusPlusInit(vs, k, stats, first, draws);
    var centroids := SeedCentroids(vs, stats, chosen);
    assert |centroids[..]| == k;
    assign, cents, dists, converged, hist := ClusterFrom(vs, stats, centroids, maxIterations);
  }

  // ---- how a clustering comes to its end --------------------------------------------------------

  /** The assignment step has one outcome. */
  lemma {:induction false} SameAssignment(ps: seq<Point>, cs: seq<Point>, a: seq<int>, ds: seq<real>, b: seq<int>,
                                          es: seq<real>, m: nat)
    requires |a| == |ds| == |b| == |es| == |ps| && m <= |ps|
    requires AssignedSoFar(ps, cs, a, ds) && AssignedSoFar(ps, cs, b, es)
    ensures a[..m] == b[..m]
  {
    if m > 0 {
      SameAssignment(ps, cs, a, ds, b, es, m - 1);
      assert Placed(ps, cs, a, m - 1) && Placed(ps, cs, b, m - 1);
      OnePlace(ps, cs, a, b, m - 1);
      assert a[..m] == a[..m - 1] + [a[m - 1]] && b[..m] == b[..m - 1] + [b[m - 1]];
    }
  }

  lemma OnePlace(ps: seq<Point>, cs: seq<Point>, a: seq<int>, b: seq<int>, i: nat)
    requires i < |ps| && i < |a| && i < |b| && a[..i] == b[..i] && Placed(ps, cs, a, i) && Placed(ps, cs, b, i)
    ensures a[i] == b[i]
  {
    hide Candidates, Loads, FirstNearest, NoneComparable, FirstSmallest;
    OneNearest(Candidates(ps[i], cs, |cs|), a[i], b[i]);
    OneSmallest(Loads(a[..i], |cs|), a[i], b[i]);
  }

  lemma OneNearest(ds: seq<Option<Distance>>, c: int, d: int)
    ensures FirstNearest(ds, c) ==> !NoneComparable(ds) && (FirstNearest(ds, d) ==> c == d)
    ensures FirstNearest(ds, d) ==> !NoneComparable(ds)
  {
  }

  lemma OneSmallest(sizes: seq<int>, c: int, d: int)
    ensures FirstSmallest(sizes, c) && FirstSmallest(sizes, d) ==> c == d
  {
    if FirstSmallest(sizes, c) && FirstSmallest(sizes, d) {
      assert sizes[c] == sizes[d];
    }
  }

  /** From centroids that did not move, an iteration that repaired nothing is repeated as it was. */
  lemma SameStep(ps: seq<Point>, cs: seq<Point>, s: Snapshot, s': Snapshot)
    requires Step(ps, cs, s) && Step(ps, cs, s') && |ps| >= |cs| && s.nearest == s.assign
    ensures s'.nearest == s'.assign == s.assign
  {
    StepOutcome(ps, cs, s);
    SameAssignment(ps, cs, s.nearest, s.dists, s'.nearest, s'.dists, |ps|);
    assert s.nearest == s.nearest[..|ps|] == s'.nearest[..|ps|] == s'.nearest;
    NothingToRepair(s'.nearest, s'.dists, |cs|, 0);
  }

  /**
   When every run measured the same features, an iteration that repairs nothing lowers the cost strictly, or else the
   next iteration moves nothing, so that the loop ends there.
   */
  lemma StrictUntilStill(ps: seq<Point>, dims: set<string>, seeds: seq<Point>, hist: seq<Snapshot>, t: nat)
    requires IsRun(ps, seeds, hist, |hist|) && |ps| >= |seeds| && t + 2 < |hist| && SameDimensions(ps, dims)
    requires hist[t + 1].nearest == hist[t + 1].assign
    ensures Clustered(ps, |seeds|, hist[t]) && Clustered(ps, |seeds|, hist[t + 1])
    ensures Cost(ps, hist[t + 1].assign, hist[t + 1].centroids) < Cost(ps, hist[t].assign, hist[t].centroids)
            || Still(hist, t + 2)
  {
    hide Step, IsRun, Clustered, Cost, CostTo, SameDimensions;
    ClusteredAt(ps, seeds, hist, t);
    ClusteredAt(ps, seeds, hist, t + 1);
    StepFrom(ps, seeds, hist, t);
    StepFrom(ps, seeds, hist, t + 1);
    StepStrict(ps, dims, |seeds|, hist[t], hist[t + 1], hist[t + 2]);
  }

  lemma StepStrict(ps: seq<Point>, dims: set<string>, k: nat, s: Snapshot, s': Snapshot, s'': Snapshot)
    requires |ps| >= k && SameDimensions(ps, dims) && Clustered(ps, k, s) && Clustered(ps, k, s')
    requires Step(ps, s.centroids, s') && Step(ps, s'.centroids, s'') && s'.nearest == s'.assign
    ensures Cost(ps, s'.assign, s'.centroids) < Cost(ps, s.assign, s.centroids)
            || s''.nearest == s''.assign == s'.assign
  {
    hide Step, AreCentroids, CostTo, SameDimensions, Nearest, Repaired;
    StepOutcome(ps, s.centroids, s');
    IterationStrict(ps, dims, s.assign, s.centroids, s'.assign, s'.centroids);
    if s'.centroids == s.centroids {
      SameStep(ps, s.centroids, s', s'');
    }
  }

  // ---- runs that measured the same features -----------------------------------------------------

  ghost predicate MeasuredAlike(vs: seq<FeatureVector>, names: set<string>) {
    forall i :: 0 <= i < |vs| ==> vs[i].values.Keys == names
  }

  /** Runs that measured the same features, one of which varies, have points of the same dimensions. */
  lemma AlikeMeansSameDimensions(vs: seq<FeatureVector>, stats: Stats, names: set<string>)
    requires MeasuredAlike(vs, names) && exists name :: name in names && Varies(stats, name)
    ensures SameDimensions(PointsOf(vs, stats), set name | name in names && Varies(stats, name))
  {
    var dims := set name | name in names && Varies(stats, name);
    forall i: nat | i < |vs| ensures PointsOf(vs, stats)[i].Keys == dims {
      PointsAt(vs, stats, i);
      assert vs[i].values.Keys == names;
    }
    var name :| name in names && Varies(stats, name);
    assert name in dims;
  }

  /**
   What the clustering of such runs comes to: from one iteration to the next the cost never rises, and it falls with
   every iteration that repairs nothing, but for the last ones before the loop ends because nothing moves.
   */
  lemma ClusteringDescends(vs: seq<FeatureVector>, stats: Stats, names: set<string>, seeds: seq<Point>,
                           hist: seq<Snapshot>, converged: bool, maxIterations: nat, t: nat)
    requires MeasuredAlike(vs, names) && (exists name :: name in names && Varies(stats, name)) && |vs| >= |seeds|
    requires IsRun(PointsOf(vs, stats), seeds, hist, |hist|) && StopsWhenStill(hist, converged, maxIterations)
    requires t + 1 < |hist|
    ensures var ps := PointsOf(vs, stats);
            && Clustered(ps, |seeds|, hist[t]) && Clustered(ps, |seeds|, hist[t + 1])
            && var before, after := Cost(ps, hist[t].assign, hist[t].centroids),
                                    Cost(ps, hist[t + 1].assign, hist[t + 1].centroids);
               && after <= before
               && (hist[t + 1].nearest == hist[t + 1].assign && t + 3 < |hist| ==> after < before)
  {
    var ps, dims := PointsOf(vs, stats), set name | name in names && Varies(stats, name);
    AlikeMeansSameDimensions(vs, stats, names);
    hide MeasuredAlike, PointsOf, SameDimensions, IsRun, CostTo, Clustered;
    RunDescends(ps, dims, seeds, hist, t);
    if hist[t + 1].nearest == hist[t + 1].assign && t + 3 < |hist| {
      StrictUntilStill(ps, dims, seeds, hist, t);
    }
  }
}
