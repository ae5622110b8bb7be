/**
 Why Lloyd's iteration never gets worse: the algebra behind kmeans_cluster, stated on points, assignments and
 centroids as values. A centroid is the available-case mean of its members (centroid_update in archetype.c).
 */
module LloydDescent {
  import opened Sums
  import opened FeatureSpace

  /** Values of one dimension over the members of cluster c among the first m runs, in run order. */
  function MemberValues(ps: seq<Point>, assign: seq<int>, c: int, name: string, m: nat): seq<real>
    requires m <= |assign| == |ps|
  {
    if m == 0 then []
    else
      MemberValues(ps, assign, c, name, m - 1) +
      (if assign[m - 1] == c && name in ps[m - 1] then [ps[m - 1][name]] else [])
  }

  /** Whether p is the centroid of cluster c: defined exactly where a member is, as the mean over those members. */
  ghost predicate IsCentroid(p: Point, ps: seq<Point>, assign: seq<int>, c: int)
    requires |assign| == |ps|
  {
    && (forall name :: name in p <==> MemberValues(ps, assign, c, name, |ps|) != [])
    && forall name :: name in p ==> p[name] == Mean(MemberValues(ps, assign, c, name, |ps|))
  }

  ghost predicate AreCentroids(cs: seq<Point>, ps: seq<Point>, assign: seq<int>)
    requires |assign| == |ps|
  {
    forall c: nat {:trigger IsCentroid(cs[c], ps, assign, c)} :: c < |cs| ==> IsCentroid(cs[c], ps, assign, c)
  }

  /** Every run measured the same features, so that all points have the same dimensions, and at least one varies. */
  ghost predicate SameDimensions(ps: seq<Point>, dims: set<string>) {
    dims != {} && forall i :: 0 <= i < |ps| ==> ps[i].Keys == dims
  }

  ghost predicate InClusters(assign: seq<int>, k: nat) {
    forall i :: 0 <= i < |assign| ==> 0 <= assign[i] < k
  }

  ghost predicate NoneEmpty(assign: seq<int>, k: nat) {
    forall c: nat :: c < k ==> c in assign
  }

  /** Squared distance of run i to its own cluster's centroid; zero when they share nothing. */
  ghost function OwnCost(p: Point, q: Point): real {
    var d := DistanceSpec(p, q);
    if d.Some? then d.value.squared else 0.0
  }

  /** Over the first m runs, the sum of the squared distances to the own centroid. */
  ghost function CostTo(ps: seq<Point>, assign: seq<int>, cs: seq<Point>, m: nat): real
    requires m <= |assign| == |ps| && InClusters(assign, |cs|)
  {
    if m == 0 then 0.0 else CostTo(ps, assign, cs, m - 1) + OwnCost(ps[m - 1], cs[assign[m - 1]])
  }

  /** The quantity k-means descends on: sum over runs of the squared distance to the own centroid. */
  ghost function Cost(ps: seq<Point>, assign: seq<int>, cs: seq<Point>): real
    requires |assign| == |ps| && InClusters(assign, |cs|)
  {
    CostTo(ps, assign, cs, |ps|)
  }

  // ---- one dimension, one cluster: the mean is the best centre ----------------------------------

  lemma {:induction false} Expand(xs: seq<real>, y: real)
    ensures SumSqDev(xs, y) == SumSqDev(xs, 0.0) - 2.0 * Times(y, Sum(xs)) + Times(Square(y), |xs| as real)
  {
    if xs != [] {
      var front, x := xs[..|xs| - 1], xs[|xs| - 1];
      Expand(front, y);
      SquareOfDifference(x, y);
      SquareOfDifference(x, 0.0);
      Distribute(y, Sum(front), x);
      Distribute(Square(y), |front| as real, 1.0);
    }
  }

  lemma MeanTimesCount(xs: seq<real>)
    requires xs != []
    ensures Times(Mean(xs), |xs| as real) == Sum(xs)
  {
  }

  lemma Gain(n: real, m: real, y: real)
    requires n >= 0.0
    ensures -2.0 * Times(m, Times(m, n)) + Times(Square(m), n) <= -2.0 * Times(y, Times(m, n)) + Times(Square(y), n)
    ensures -2.0 * Times(m, Times(m, n)) + Times(Square(m), n) + Times(n, Square(y - m))
            == -2.0 * Times(y, Times(m, n)) + Times(Square(y), n)
  {
    var gain := Times(n, Square(y - m));
    SquareZero(y - m);
    TimesNonNegative(n, Square(y - m));
    SquareOfDifference(y, m);
    assert gain == Times(n, Square(y)) - 2.0 * Times(n, Times(m, y)) + Times(n, Square(m));
    assert Times(y, Times(m, n)) == Times(n, Times(m, y));
    assert Times(m, Times(m, n)) == Times(n, Square(m));
    assert Times(Square(m), n) == Times(n, Square(m));
    assert Times(Square(y), n) == Times(n, Square(y));
  }

  /** Squared deviations are least around the mean. */
  lemma MeanIsBest(xs: seq<real>, y: real)
    requires xs != []
    ensures SumSqDev(xs, Mean(xs)) <= SumSqDev(xs, y)
  {
    var m, n := Mean(xs), |xs| as real;
    Expand(xs, m);
    Expand(xs, y);
    MeanTimesCount(xs);
    Gain(n, m, y);
  }

  lemma FactorIsZero(x: real, y: real)
    requires x > 0.0 && Times(x, y) == 0.0
    ensures y == 0.0
  {
  }

  /** No other centre is as good. */
  lemma OnlyMeanIsBest(xs: seq<real>, y: real)
    requires xs != [] && SumSqDev(xs, y) == SumSqDev(xs, Mean(xs))
    ensures y == Mean(xs)
  {
    var m, n := Mean(xs), |xs| as real;
    Expand(xs, m);
    Expand(xs, y);
    MeanTimesCount(xs);
    Gain(n, m, y);
    hide Times, Square, Mean, SumSqDev;
    FactorIsZero(n, Square(y - m));
    SquareZero(y - m);
  }

  // ---- one dimension, all clusters --------------------------------------------------------------

  function Coord(p: Point, name: string): real {
    if name in p then p[name] else 0.0
  }

  /** Sum of the terms of the first m runs that are in cluster c. */
  function ClusterSum(terms: seq<real>, assign: seq<int>, c: int, m: nat): real
    requires m <= |assign| == |terms|
  {
    if m == 0 then 0.0
    else ClusterSum(terms, assign, c, m - 1) + (if assign[m - 1] == c then terms[m - 1] else 0.0)
  }

  /** The terms of the first m runs, summed cluster by cluster over the first k clusters. */
  function GroupTotal(terms: seq<real>, assign: seq<int>, k: nat, m: nat): real
    requires m <= |assign| == |terms|
  {
    if k == 0 then 0.0 else GroupTotal(terms, assign, k - 1, m) + ClusterSum(terms, assign, k - 1, m)
  }

  lemma {:induction false} GroupTotalMonotone(terms: seq<real>, terms': seq<real>, assign: seq<int>, k: nat, m: nat)
    requires m <= |assign| == |terms| == |terms'|
    requires forall c: nat :: c < k ==> ClusterSum(terms, assign, c, m) <= ClusterSum(terms', assign, c, m)
    ensures GroupTotal(terms, assign, k, m) <= GroupTotal(terms', assign, k, m)
  {
    if k > 0 {
      GroupTotalMonotone(terms, terms', assign, k - 1, m);
    }
  }

  /** Equal totals of terms that are nowhere larger are equal cluster by cluster. */
  lemma {:induction false} GroupTotalTight(terms: seq<real>, terms': seq<real>, assign: seq<int>, k: nat, m: nat,
                                           c: nat)
    requires m <= |assign| == |terms| == |terms'| && c < k
    requires forall d: nat :: d < k ==> ClusterSum(terms, assign, d, m) <= ClusterSum(terms', assign, d, m)
    requires GroupTotal(terms, assign, k, m) == GroupTotal(terms', assign, k, m)
    ensures ClusterSum(terms, assign, c, m) == ClusterSum(terms', assign, c, m)
  {
    GroupTotalMonotone(terms, terms', assign, k - 1, m);
    if c < k - 1 {
      GroupTotalTight(terms, terms', assign, k - 1, m, c);
    }
  }

  /** One more run adds its term to the total over the clusters, as long as its cluster is among them. */
  lemma {:induction false} GroupTotalNext(terms: seq<real>, assign: seq<int>, k: nat, m: nat)
    requires m < |assign| == |terms| && 0 <= assign[m]
    ensures GroupTotal(terms, assign, k, m + 1)
            == GroupTotal(terms, assign, k, m) + (if assign[m] < k then terms[m] else 0.0)
  {
    if k > 0 {
      GroupTotalNext(terms, assign, k - 1, m);
    }
  }

  lemma {:induction false} NoGroups(terms: seq<real>, assign: seq<int>, k: nat)
    requires |assign| == |terms|
    ensures GroupTotal(terms, assign, k, 0) == 0.0
  {
    if k > 0 {
      NoGroups(terms, assign, k - 1);
    }
  }

  /** Summing run by run is summing cluster by cluster. */
  lemma {:induction false} Regroup(terms: seq<real>, assign: seq<int>, k: nat, m: nat)
    requires m <= |assign| == |terms| && InClusters(assign, k)
    ensures SumTo(terms, m) == GroupTotal(terms, assign, k, m)
  {
    if m == 0 {
      NoGroups(terms, assign, k);
    } else {
      Regroup(terms, assign, k, m - 1);
      GroupTotalNext(terms, assign, k, m - 1);
    }
  }

  /** One dimension of the spread around centres ys, run by run, for the first m runs. */
  function Column(ps: seq<Point>, assign: seq<int>, ys: seq<Point>, name: string, m: nat): (terms: seq<real>)
    requires m <= |assign| == |ps| && InClusters(assign, |ys|)
    ensures |terms| == m
  {
    if m == 0 then []
    else
      Column(ps, assign, ys, name, m - 1)
      + [Square(Coord(ps[m - 1], name) - Coord(ys[assign[m - 1]], name))]
  }

  lemma {:induction false} ColumnAt(ps: seq<Point>, assign: seq<int>, ys: seq<Point>, name: string, m: nat, i: nat)
    requires i < m <= |assign| == |ps| && InClusters(assign, |ys|)
    ensures Column(ps, assign, ys, name, m)[i] == Square(Coord(ps[i], name) - Coord(ys[assign[i]], name))
  {
    if i < m - 1 {
      ColumnAt(ps, assign, ys, name, m - 1, i);
    }
  }

  lemma SumSqDevSnoc(xs: seq<real>, x: real, y: real)
    ensures SumSqDev(xs + [x], y) == SumSqDev(xs, y) + Square(x - y)
  {
    assert (xs + [x])[..|xs|] == xs;
  }

  lemma {:induction false} ClusterColumn(ps: seq<Point>, assign: seq<int>, ys: seq<Point>, name: string, c: nat, m: nat)
    requires m <= |assign| == |ps| && InClusters(assign, |ys|) && c < |ys|
    requires forall i :: 0 <= i < |ps| ==> name in ps[i]
    ensures ClusterSum(Column(ps, assign, ys, name, |ps|), assign, c, m)
            == SumSqDev(MemberValues(ps, assign, c, name, m), Coord(ys[c], name))
  {
    if m > 0 {
      ClusterColumn(ps, assign, ys, name, c, m - 1);
      ColumnAt(ps, assign, ys, name, |ps|, m - 1);
      var xs := MemberValues(ps, assign, c, name, m - 1);
      if assign[m - 1] == c {
        SumSqDevSnoc(xs, ps[m - 1][name], Coord(ys[c], name));
      } else {
        assert MemberValues(ps, assign, c, name, m) == xs;
      }
    }
  }

  lemma CentroidBestHere(p: Point, ps: seq<Point>, assign: seq<int>, c: int, name: string, y: real)
    requires |assign| == |ps| && IsCentroid(p, ps, assign, c)
    ensures var xs := MemberValues(ps, assign, c, name, |ps|);
            SumSqDev(xs, Coord(p, name)) <= SumSqDev(xs, y)
  {
    var xs := MemberValues(ps, assign, c, name, |ps|);
    if xs != [] {
      assert name in p;
      MeanIsBest(xs, y);
    }
  }

  /** The centroid of a cluster is a best centre for it in every dimension. */
  lemma ClusterNoWorse(ps: seq<Point>, assign: seq<int>, cs: seq<Point>, ys: seq<Point>, name: string, c: nat)
    requires |assign| == |ps| && |cs| == |ys| && InClusters(assign, |cs|) && AreCentroids(cs, ps, assign) && c < |cs|
    requires forall i :: 0 <= i < |ps| ==> name in ps[i]
    ensures ClusterSum(Column(ps, assign, cs, name, |ps|), assign, c, |ps|)
            <= ClusterSum(Column(ps, assign, ys, name, |ps|), assign, c, |ps|)
  {
    ClusterColumn(ps, assign, cs, name, c, |ps|);
    ClusterColumn(ps, assign, ys, name, c, |ps|);
    assert IsCentroid(cs[c], ps, assign, c);
    CentroidBestHere(cs[c], ps, assign, c, name, Coord(ys[c], name));
  }

  /** Centroids are the best centres in every dimension. */
  lemma CentroidsBestColumn(ps: seq<Point>, assign: seq<int>, cs: seq<Point>, ys: seq<Point>, name: string)
    requires |assign| == |ps| && |cs| == |ys| && InClusters(assign, |cs|) && AreCentroids(cs, ps, assign)
    requires forall i :: 0 <= i < |ps| ==> name in ps[i]
    ensures SumTo(Column(ps, assign, cs, name, |ps|), |ps|) <= SumTo(Column(ps, assign, ys, name, |ps|), |ps|)
  {
    var k, n := |cs|, |ps|;
    var terms, terms' := Column(ps, assign, cs, name, n), Column(ps, assign, ys, name, n);
    forall c: nat | c < k ensures ClusterSum(terms, assign, c, n) <= ClusterSum(terms', assign, c, n) {
      ClusterNoWorse(ps, assign, cs, ys, name, c);
    }
    GroupTotalMonotone(terms, terms', assign, k, n);
    Regroup(terms, assign, k, n);
    Regroup(terms', assign, k, n);
  }

  /** Centres as good as the centroids in a dimension agree with them there, for every cluster with a member. */
  lemma OnlyCentroidsBestColumn(ps: seq<Point>, assign: seq<int>, cs: seq<Point>, ys: seq<Point>, name: string, i: nat)
    requires |assign| == |ps| && |cs| == |ys| && InClusters(assign, |cs|) && AreCentroids(cs, ps, assign) && i < |ps|
    requires forall j :: 0 <= j < |ps| ==> name in ps[j]
    requires SumTo(Column(ps, assign, cs, name, |ps|), |ps|) == SumTo(Column(ps, assign, ys, name, |ps|), |ps|)
    ensures Coord(ys[assign[i]], name) == Coord(cs[assign[i]], name)
  {
    hide Column, Coord, SumTo, Mean, SumSqDev;
    var k, n, c := |cs|, |ps|, assign[i];
    var terms, terms' := Column(ps, assign, cs, name, n), Column(ps, assign, ys, name, n);
    forall d: nat | d < k ensures ClusterSum(terms, assign, d, n) <= ClusterSum(terms', assign, d, n) {
      ClusterNoWorse(ps, assign, cs, ys, name, d);
    }
    Regroup(terms, assign, k, n);
    Regroup(terms', assign, k, n);
    GroupTotalTight(terms, terms', assign, k, n, c);
    ClusterColumn(ps, assign, cs, name, c, n);
    ClusterColumn(ps, assign, ys, name, c, n);
    MemberMeasures(ps, assign, i, name, n);
    CentroidCoord(cs[c], ps, assign, c, name);
    OnlyMeanIsBest(MemberValues(ps, assign, c, name, n), Coord(ys[c], name));
  }

  lemma CentroidCoord(p: Point, ps: seq<Point>, assign: seq<int>, c: int, name: string)
    requires |assign| == |ps| && IsCentroid(p, ps, assign, c) && MemberValues(ps, assign, c, name, |ps|) != []
    ensures Coord(p, name) == Mean(MemberValues(ps, assign, c, name, |ps|))
  {
    assert name in p;
  }

  // ---- all dimensions ---------------------------------------------------------------------------

  ghost function DiffsOn(p: Point, q: Point, dims: set<string>): map<string, real> {
    map name | name in dims :: Square(Coord(p, name) - Coord(q, name))
  }

  /** Over the first m runs, the squared differences to the own centre, restricted to some dimensions. */
  ghost function Spread(ps: seq<Point>, assign: seq<int>, ys: seq<Point>, dims: set<string>, m: nat): real
    requires m <= |assign| == |ps| && InClusters(assign, |ys|)
  {
    if m == 0 then 0.0
    else Spread(ps, assign, ys, dims, m - 1) + SumVals(DiffsOn(ps[m - 1], ys[assign[m - 1]], dims))
  }

  lemma {:induction false} SpreadLessDimension(ps: seq<Point>, assign: seq<int>, ys: seq<Point>, dims: set<string>,
                                               name: string, m: nat)
    requires m <= |assign| == |ps| && InClusters(assign, |ys|) && name in dims
    ensures Spread(ps, assign, ys, dims, m)
            == Spread(ps, assign, ys, dims - {name}, m) + SumTo(Column(ps, assign, ys, name, |ps|), m)
  {
    hide DiffsOn, Column, Square, Coord;
    if m > 0 {
      SpreadLessDimension(ps, assign, ys, dims, name, m - 1);
      OneDimensionLess(ps[m - 1], ys[assign[m - 1]], dims, name);
      ColumnAt(ps, assign, ys, name, |ps|, m - 1);
    }
  }

  lemma OneDimensionLess(p: Point, q: Point, dims: set<string>, name: string)
    requires name in dims
    ensures SumVals(DiffsOn(p, q, dims))
            == SumVals(DiffsOn(p, q, dims - {name})) + Square(Coord(p, name) - Coord(q, name))
  {
    hide Square, Coord;
    var d := DiffsOn(p, q, dims);
    SumRemove(d, name);
    assert d - {name} == DiffsOn(p, q, dims - {name});
  }

  lemma {:induction false} EmptySpread(ps: seq<Point>, assign: seq<int>, ys: seq<Point>, m: nat)
    requires m <= |assign| == |ps| && InClusters(assign, |ys|)
    ensures Spread(ps, assign, ys, {}, m) == 0.0
  {
    if m > 0 {
      EmptySpread(ps, assign, ys, m - 1);
      assert DiffsOn(ps[m - 1], ys[assign[m - 1]], {}) == map[];
    }
  }

  /** No other choice of one centre per cluster has a smaller spread than the centroids. */
  lemma {:induction false} CentroidsBest(ps: seq<Point>, assign: seq<int>, cs: seq<Point>, ys: seq<Point>,
                                         dims: set<string>)
    requires |assign| == |ps| && |cs| == |ys| && InClusters(assign, |cs|) && AreCentroids(cs, ps, assign)
    requires forall i :: 0 <= i < |ps| ==> dims <= ps[i].Keys
    ensures Spread(ps, assign, cs, dims, |ps|) <= Spread(ps, assign, ys, dims, |ps|)
    decreases |dims|
  {
    if dims == {} {
      EmptySpread(ps, assign, cs, |ps|);
      EmptySpread(ps, assign, ys, |ps|);
    } else {
      var name :| name in dims;
      CentroidsBest(ps, assign, cs, ys, dims - {name});
      SpreadLessDimension(ps, assign, cs, dims, name, |ps|);
      SpreadLessDimension(ps, assign, ys, dims, name, |ps|);
      CentroidsBestColumn(ps, assign, cs, ys, name);
    }
  }

  /** Centres with as small a spread as the centroids agree with them in every dimension. */
  lemma OnlyCentroidsBest(ps: seq<Point>, assign: seq<int>, cs: seq<Point>, ys: seq<Point>, dims: set<string>,
                          name: string, i: nat)
    requires |assign| == |ps| && |cs| == |ys| && InClusters(assign, |cs|) && AreCentroids(cs, ps, assign)
    requires forall j :: 0 <= j < |ps| ==> dims <= ps[j].Keys
    requires Spread(ps, assign, cs, dims, |ps|) == Spread(ps, assign, ys, dims, |ps|)
    requires name in dims && i < |ps|
    ensures Coord(ys[assign[i]], name) == Coord(cs[assign[i]], name)
  {
    hide Spread, Column, Coord, AreCentroids;
    CentroidsBest(ps, assign, cs, ys, dims - {name});
    SpreadLessDimension(ps, assign, cs, dims, name, |ps|);
    SpreadLessDimension(ps, assign, ys, dims, name, |ps|);
    CentroidsBestColumn(ps, assign, cs, ys, name);
    OnlyCentroidsBestColumn(ps, assign, cs, ys, name, i);
  }

  // ---- one iteration ----------------------------------------------------------------------------

  /** Every run is in a cluster whose centroid is nearest to it among those it shares a dimension with. */
  ghost predicate Nearest(ps: seq<Point>, assign: seq<int>, cs: seq<Point>)
    requires |assign| == |ps| && InClusters(assign, |cs|)
  {
    forall i, c: nat :: 0 <= i < |ps| && c < |cs| && DistanceSpec(ps[i], cs[c]).Some? ==>
                     && DistanceSpec(ps[i], cs[assign[i]]).Some?
                     && DistanceSpec(ps[i], cs[assign[i]]).value.squared <= DistanceSpec(ps[i], cs[c]).value.squared
  }

  /** What repair may do to an assignment: move runs, each to become the only member of a cluster that was empty. */
  ghost predicate Repaired(before: seq<int>, after: seq<int>) {
    && |after| == |before|
    && forall i :: 0 <= i < |before| ==>
         || after[i] == before[i]
         || (after[i] !in before && forall j :: 0 <= j < |before| && j != i ==> after[j] != after[i])
  }

  /** Centres for the repaired clusters: a moved run is its own centre, the others keep their old centroid. */
  ghost predicate AreCentres(ys: seq<Point>, ps: seq<Point>, before: seq<int>, after: seq<int>, cs: seq<Point>)
    requires |before| == |after| == |ps| && InClusters(after, |cs|)
  {
    && |ys| == |cs|
    && forall i :: 0 <= i < |ps| ==> ys[after[i]] == if after[i] == before[i] then cs[after[i]] else ps[i]
  }

  lemma {:induction false} CentresExist(ps: seq<Point>, before: seq<int>, after: seq<int>, cs: seq<Point>, m: nat)
      returns (ys: seq<Point>)
    requires |before| == |ps| && InClusters(after, |cs|) && Repaired(before, after) && m <= |ps|
    ensures |ys| == |cs|
    ensures forall i :: 0 <= i < m ==> ys[after[i]] == if after[i] == before[i] then cs[after[i]] else ps[i]
    ensures forall c :: 0 <= c < |cs| && (forall i :: 0 <= i < m ==> after[i] != c) ==> ys[c] == cs[c]
    decreases m
  {
    if m == 0 {
      return cs;
    }
    ys := CentresExist(ps, before, after, cs, m - 1);
    var i := m - 1;
    if after[i] != before[i] {
      ys := ys[after[i] := ps[i]];
    } else {
      assert forall j :: 0 <= j < i && after[j] == after[i] ==> after[j] == before[j];
    }
  }

  lemma DiffsMatch(p: Point, q: Point, dims: set<string>)
    requires p.Keys == dims && q.Keys == dims
    ensures SquaredDiffs(p, q) == DiffsOn(p, q, dims)
  {
  }

  lemma OwnCostOn(p: Point, q: Point, dims: set<string>)
    requires p.Keys == dims && q.Keys == dims && dims != {}
    ensures DistanceSpec(p, q).Some?
    ensures OwnCost(p, q) == SumVals(DiffsOn(p, q, dims)) / |dims| as real
  {
    DiffsMatch(p, q, dims);
    assert SquaredDiffs(p, q).Keys == dims;
    var name :| name in dims;
    assert name in SquaredDiffs(p, q);
    assert |SquaredDiffs(p, q)| == |SquaredDiffs(p, q).Keys|;
  }

  lemma DivideSum(x: real, y: real, n: real)
    requires n != 0.0
    ensures (x + y) / n == x / n + y / n
  {
  }

  /** With the same dimensions everywhere, the cost is the spread divided by the number of dimensions. */
  lemma {:induction false} CostIsSpread(ps: seq<Point>, assign: seq<int>, ys: seq<Point>, dims: set<string>, m: nat)
    requires m <= |assign| == |ps| && InClusters(assign, |ys|) && SameDimensions(ps, dims)
    requires forall i :: 0 <= i < |ps| ==> ys[assign[i]].Keys == dims
    ensures |dims| > 0
    ensures CostTo(ps, assign, ys, m) == Spread(ps, assign, ys, dims, m) / |dims| as real
  {
    assert dims != {};
    if m > 0 {
      CostIsSpread(ps, assign, ys, dims, m - 1);
      var p, y := ps[m - 1], ys[assign[m - 1]];
      OwnCostOn(p, y, dims);
      DivideSum(Spread(ps, assign, ys, dims, m - 1), SumVals(DiffsOn(p, y, dims)), |dims| as real);
    }
  }

  lemma {:induction false} MemberMeasures(ps: seq<Point>, assign: seq<int>, i: nat, name: string, m: nat)
    requires i < m <= |assign| == |ps| && name in ps[i]
    ensures MemberValues(ps, assign, assign[i], name, m) != []
  {
    if i < m - 1 {
      MemberMeasures(ps, assign, i, name, m - 1);
    }
  }

  lemma {:induction false} MeasuredByMember(ps: seq<Point>, assign: seq<int>, c: int, name: string, m: nat)
      returns (i: nat)
    requires m <= |assign| == |ps| && MemberValues(ps, assign, c, name, m) != []
    ensures i < m && assign[i] == c && name in ps[i]
  {
    if assign[m - 1] == c && name in ps[m - 1] {
      i := m - 1;
    } else {
      i := MeasuredByMember(ps, assign, c, name, m - 1);
    }
  }

  /** A cluster with a member has its centroid defined on all the common dimensions. */
  lemma CentroidDimensions(ps: seq<Point>, assign: seq<int>, p: Point, c: int, dims: set<string>)
    requires |assign| == |ps| && SameDimensions(ps, dims) && c in assign && IsCentroid(p, ps, assign, c)
    ensures p.Keys == dims
  {
    var i :| 0 <= i < |assign| && assign[i] == c;
    forall name | name in dims ensures name in p {
      MemberMeasures(ps, assign, i, name, |ps|);
    }
    forall name | name in p ensures name in dims {
      var j := MeasuredByMember(ps, assign, c, name, |ps|);
    }
  }

  lemma {:induction false} CostPointwise(ps: seq<Point>, a: seq<int>, cs: seq<Point>, b: seq<int>, ds: seq<Point>,
                                         m: nat)
    requires m <= |a| == |b| == |ps| && InClusters(a, |cs|) && InClusters(b, |ds|)
    requires forall i :: 0 <= i < |ps| ==> OwnCost(ps[i], cs[a[i]]) <= OwnCost(ps[i], ds[b[i]])
    ensures CostTo(ps, a, cs, m) <= CostTo(ps, b, ds, m)
  {
    if m > 0 {
      CostPointwise(ps, a, cs, b, ds, m - 1);
    }
  }

  /** A moved run costs nothing, the others no more than before. */
  lemma RepairNoWorse(ps: seq<Point>, before: seq<int>, after: seq<int>, cs: seq<Point>, ys: seq<Point>)
    requires |before| == |ps| && InClusters(before, |cs|) && InClusters(after, |cs|) && Repaired(before, after)
    requires AreCentres(ys, ps, before, after, cs)
    ensures Cost(ps, after, ys) <= Cost(ps, before, cs)
  {
    forall i | 0 <= i < |ps| ensures OwnCost(ps[i], ys[after[i]]) <= OwnCost(ps[i], cs[before[i]]) {
      DistanceNonNegative(ps[i], cs[before[i]]);
      if after[i] != before[i] && DistanceSpec(ps[i], ps[i]).Some? {
        DistanceZeroIffAgree(ps[i], ps[i]);
      }
    }
    CostPointwise(ps, after, ys, before, cs, |ps|);
  }

  /** Updating the centroids never raises the cost. */
  lemma UpdateNoWorse(ps: seq<Point>, assign: seq<int>, cs: seq<Point>, ys: seq<Point>, dims: set<string>)
    requires |assign| == |ps| && |cs| == |ys| && InClusters(assign, |cs|) && SameDimensions(ps, dims)
    requires AreCentroids(cs, ps, assign)
    requires forall i :: 0 <= i < |ps| ==> ys[assign[i]].Keys == dims
    ensures Cost(ps, assign, cs) <= Cost(ps, assign, ys)
  {
    forall i | 0 <= i < |ps| ensures cs[assign[i]].Keys == dims {
      CentroidDimensions(ps, assign, cs[assign[i]], assign[i], dims);
    }
    CostIsSpread(ps, assign, cs, dims, |ps|);
    CostIsSpread(ps, assign, ys, dims, |ps|);
    CentroidsBest(ps, assign, cs, ys, dims);
    DivideMonotone(Spread(ps, assign, cs, dims, |ps|), Spread(ps, assign, ys, dims, |ps|), |dims| as real);
  }

  /** An update that does not lower the cost leaves the centroids as they were. */
  lemma UpdateStrict(ps: seq<Point>, assign: seq<int>, cs: seq<Point>, ys: seq<Point>, dims: set<string>)
    requires |assign| == |ps| && |cs| == |ys| && InClusters(assign, |cs|) && SameDimensions(ps, dims)
    requires AreCentroids(cs, ps, assign) && NoneEmpty(assign, |cs|)
    requires forall c :: 0 <= c < |cs| ==> cs[c].Keys == ys[c].Keys == dims
    requires Cost(ps, assign, cs) == Cost(ps, assign, ys)
    ensures ys == cs
  {
    hide AreCentroids, Spread, CostTo, Coord;
    if |cs| > 0 {
      CostIsSpread(ps, assign, cs, dims, |ps|);
      CostIsSpread(ps, assign, ys, dims, |ps|);
      DivideOne(Spread(ps, assign, cs, dims, |ps|), Spread(ps, assign, ys, dims, |ps|), |dims| as real);
    }
    forall c: nat, name | c < |cs| && name in dims ensures Coord(ys[c], name) == Coord(cs[c], name) {
      assert c in assign;
      var i :| 0 <= i < |assign| && assign[i] == c;
      OnlyCentroidsBest(ps, assign, cs, ys, dims, name, i);
    }
    forall c: nat | c < |cs| ensures ys[c] == cs[c] {
      SameCoords(ys[c], cs[c], dims);
    }
  }

  lemma SameCoords(p: Point, q: Point, dims: set<string>)
    requires p.Keys == q.Keys == dims && forall name :: name in dims ==> Coord(p, name) == Coord(q, name)
    ensures p == q
  {
    forall name | name in p ensures p[name] == q[name] {
      assert Coord(p, name) == Coord(q, name);
    }
  }

  lemma DivideOne(x: real, y: real, n: real)
    requires n > 0.0 && x / n == y / n
    ensures x == y
  {
    assert x == x / n * n && y == y / n * n;
  }

  lemma DivideMonotone(x: real, y: real, n: real)
    requires x <= y && n > 0.0
    ensures x / n <= y / n
  {
  }

  /**
   One iteration of k-means never raises the cost: from an assignment a0 with centroids c0, assign every run to a
   nearest centroid (a1), repair empty clusters (a2), and recompute the centroids (c2).
   */
  lemma IterationDescends(ps: seq<Point>, dims: set<string>, a0: seq<int>, c0: seq<Point>, a1: seq<int>,
                          a2: seq<int>, c2: seq<Point>)
    requires |a0| == |a1| == |a2| == |ps| && |c2| == |c0| && SameDimensions(ps, dims)
    requires InClusters(a0, |c0|) && InClusters(a1, |c0|) && InClusters(a2, |c0|)
    requires AreCentroids(c0, ps, a0) && NoneEmpty(a0, |c0|)
    requires Nearest(ps, a1, c0) && Repaired(a1, a2) && AreCentroids(c2, ps, a2)
    ensures Cost(ps, a2, c2) <= Cost(ps, a0, c0)
  {
    forall c: nat | c < |c0| ensures c0[c].Keys == dims {
      CentroidDimensions(ps, a0, c0[c], c, dims);
    }
    var ys := CentresExist(ps, a1, a2, c0, |ps|);
    UpdateNoWorse(ps, a2, c2, ys, dims);
    RepairNoWorse(ps, a1, a2, c0, ys);
    forall i | 0 <= i < |ps| ensures OwnCost(ps[i], c0[a1[i]]) <= OwnCost(ps[i], c0[a0[i]]) {
      OwnCostOn(ps[i], c0[a0[i]], dims);
    }
    CostPointwise(ps, a1, c0, a0, c0, |ps|);
  }

  /** An iteration that repairs nothing lowers the cost, or else it leaves the centroids as they were. */
  lemma IterationStrict(ps: seq<Point>, dims: set<string>, a0: seq<int>, c0: seq<Point>, a1: seq<int>, c1: seq<Point>)
    requires |a0| == |a1| == |ps| && |c1| == |c0| && SameDimensions(ps, dims)
    requires InClusters(a0, |c0|) && InClusters(a1, |c0|) && NoneEmpty(a0, |c0|) && NoneEmpty(a1, |c0|)
    requires AreCentroids(c0, ps, a0) && Nearest(ps, a1, c0) && AreCentroids(c1, ps, a1)
    ensures Cost(ps, a1, c1) < Cost(ps, a0, c0) || c1 == c0
  {
    hide CostTo, IsCentroid, Spread, SquaredDiffs;
    forall c: nat | c < |c0| ensures c0[c].Keys == dims && c1[c].Keys == dims {
      CentroidDimensions(ps, a0, c0[c], c, dims);
      CentroidDimensions(ps, a1, c1[c], c, dims);
    }
    UpdateNoWorse(ps, a1, c1, c0, dims);
    forall i | 0 <= i < |ps| ensures OwnCost(ps[i], c0[a1[i]]) <= OwnCost(ps[i], c0[a0[i]]) {
      OwnCostOn(ps[i], c0[a0[i]], dims);
    }
    CostPointwise(ps, a1, c0, a0, c0, |ps|);
    if Cost(ps, a1, c1) == Cost(ps, a1, c0) {
      UpdateStrict(ps, a1, c1, c0, dims);
    }
  }
}
