/**
 Feature vectors, per-feature statistics and the coverage-aware distance of archetype.c.

 A run measures some named features and not others. A feature's statistics are taken over the runs that measured
 it; a distance looks only at features both sides have and that vary at all. The original takes square roots for
 the standard deviation and for the distance. Here a distance is kept squared (the root is monotone), and a
 standard deviation is any non-negative real whose square is the sample variance.
 */
module FeatureSpace {
  import opened Options
  import opened Sums

  /** One run: the names of its measured features, in the order they were loaded, and their raw values. */
  datatype FeatureVector = FeatureVector(names: seq<string>, values: map<string, real>) {
    /** Feature names are unique per run. */
    ghost predicate Valid() {
      && (forall name :: name in names <==> name in values)
      && forall i, j :: 0 <= i < j < |names| ==> names[i] != names[j]
    }
  }

  datatype FeatureStat = FeatureStat(mean: real, stddev: real)

  /** Statistics by feature name. */
  type Stats = map<string, FeatureStat>

  /** A position in the standardised space: z-score by feature name, undefined where nothing was measured. */
  type Point = map<string, real>

  /** A distance between points that share at least one dimension: mean of the squared differences. */
  datatype Distance = Distance(squared: real, shared: nat)

  predicate Varies(stats: Stats, name: string) {
    name in stats && stats[name].stddev > 0.0
  }

  function ZScore(s: FeatureStat, value: real): real
    requires s.stddev > 0.0
  {
    (value - s.mean) / s.stddev
  }

  /** The point of a run: its measured features that vary, standardised. */
  ghost function PointOf(v: FeatureVector, stats: Stats): Point {
    map name | name in v.values && Varies(stats, name) :: ZScore(stats[name], v.values[name])
  }

  ghost function SquaredDiffs(p: Point, q: Point): map<string, real> {
    map name | name in p && name in q :: Square(p[name] - q[name])
  }

  /** What both distance functions of the source compute, stated on points and with no order of summation. */
  ghost function DistanceSpec(p: Point, q: Point): Option<Distance> {
    var d := SquaredDiffs(p, q);
    if d == map[] then None else Some(Distance(SumVals(d) / |d| as real, |d|))
  }

  // ---- lookups ----------------------------------------------------------------------------------

  method Find(v: FeatureVector, name: string) returns (r: Option<real>)
    requires v.Valid()
    ensures r == if name in v.values then Some(v.values[name]) else None
  {
    for i := 0 to |v.names|
      invariant forall j :: 0 <= j < i ==> v.names[j] != name
    {
      if v.names[i] == name {
        return Some(v.values[name]);
      }
    }
    return None;
  }

  /** The part of a table of squared differences that a loop over these names has met. */
  ghost function Met(d: map<string, real>, names: seq<string>): map<string, real> {
    map name | name in d && name in names :: d[name]
  }

  lemma MetSkip(d: map<string, real>, names: seq<string>, i: nat)
    requires i < |names| && names[i] !in d
    ensures Met(d, names[..i + 1]) == Met(d, names[..i])
  {
    assert names[..i + 1] == names[..i] + [names[i]];
  }

  /** Add term t of feature i to a running sum and count of shared features. */
  method AddTerm(ghost d: map<string, real>, ghost names: seq<string>, ghost i: nat, t: real, sum: real, shared: nat)
      returns (sum': real, shared': nat)
    requires i < |names| && names[i] !in names[..i] && names[i] in d && t == d[names[i]]
    requires sum == SumVals(Met(d, names[..i])) && shared == |Met(d, names[..i])|
    ensures sum' == SumVals(Met(d, names[..i + 1])) && shared' == |Met(d, names[..i + 1])|
  {
    sum', shared' := sum + t, shared + 1;
    assert names[..i + 1] == names[..i] + [names[i]];
    assert Met(d, names[..i + 1]) == Met(d, names[..i])[names[i] := t];
    SumAdd(Met(d, names[..i]), names[i], t);
  }

  lemma MetAll(d: map<string, real>, names: seq<string>)
    requires forall name :: name in d ==> name in names
    ensures Met(d, names[..|names|]) == d
  {
    assert names[..|names|] == names;
  }

  /** One term of the sum in either distance function: feature i of v against a z-score of the same name. */
  method Term(v: FeatureVector, i: nat, stats: Stats, otherZ: real, ghost other: Point) returns (t: real)
    requires v.Valid() && i < |v.names| && Varies(stats, v.names[i])
    requires v.names[i] in other && other[v.names[i]] == otherZ
    ensures v.names[i] in SquaredDiffs(PointOf(v, stats), other)
    ensures t == SquaredDiffs(PointOf(v, stats), other)[v.names[i]]
  {
    var diff := ZScore(stats[v.names[i]], v.values[v.names[i]]) - otherZ;
    t := diff * diff;
  }

  /** Distance between two runs over the features both measured (nearest_neighbor_distance). */
  method NearestNeighborDistance(a: FeatureVector, b: FeatureVector, stats: Stats) returns (r: Option<Distance>)
    requires a.Valid() && b.Valid()
    ensures r == DistanceSpec(PointOf(a, stats), PointOf(b, stats))
  {
    var sumsq := 0.0;
    var shared := 0;
    ghost var d := SquaredDiffs(PointOf(a, stats), PointOf(b, stats));
    for i := 0 to |a.names|
      invariant sumsq == SumVals(Met(d, a.names[..i])) && shared == |Met(d, a.names[..i])|
    {
      var bval := Find(b, a.names[i]);
      if bval.None? || !Varies(stats, a.names[i]) {
        MetSkip(d, a.names, i);
        continue;
      }
      var t := Term(a, i, stats, ZScore(stats[a.names[i]], bval.value), PointOf(b, stats));
      sumsq, shared := AddTerm(d, a.names, i, t, sumsq, shared);
    }
    MetAll(d, a.names);
    if shared == 0 {
      return None;
    }
    return Some(Distance(sumsq / shared as real, shared));
  }

  /** Distance from a run to a centroid's defined dimensions (centroid_distance). */
  method CentroidDistance(v: FeatureVector, centroid: Point, stats: Stats) returns (r: Option<Distance>)
    requires v.Valid()
    ensures r == DistanceSpec(PointOf(v, stats), centroid)
  {
    var sumsq := 0.0;
    var shared := 0;
    ghost var d := SquaredDiffs(PointOf(v, stats), centroid);
    for i := 0 to |v.names|
      invariant sumsq == SumVals(Met(d, v.names[..i])) && shared == |Met(d, v.names[..i])|
    {
      if v.names[i] !in centroid || !Varies(stats, v.names[i]) {
        MetSkip(d, v.names, i);
        continue;
      }
      var t := Term(v, i, stats, centroid[v.names[i]], centroid);
      sumsq, shared := AddTerm(d, v.names, i, t, sumsq, shared);
    }
    MetAll(d, v.names);
    if shared == 0 {
      return None;
    }
    return Some(Distance(sumsq / shared as real, shared));
  }

  // ---- laws of the distance ---------------------------------------------------------------------

  /** A z-score counts deviations from the mean. */
  lemma ZScoreIs(s: FeatureStat, value: real)
    requires s.stddev > 0.0
    ensures s.mean + ZScore(s, value) * s.stddev == value
  {
  }

  /** The term of a feature is the raw difference of both runs in deviations, squared: the mean does not matter. */
  lemma TermIs(v: FeatureVector, w: FeatureVector, stats: Stats, name: string)
    ensures name in SquaredDiffs(PointOf(v, stats), PointOf(w, stats))
            <==> name in v.values && name in w.values && name in stats && stats[name].stddev > 0.0
    ensures name in SquaredDiffs(PointOf(v, stats), PointOf(w, stats)) ==>
              SquaredDiffs(PointOf(v, stats), PointOf(w, stats))[name] * Square(stats[name].stddev)
              == Square(v.values[name] - w.values[name])
  {
    if name in SquaredDiffs(PointOf(v, stats), PointOf(w, stats)) {
      var s, x, y := stats[name], v.values[name], w.values[name];
      hide PointOf;
      ZScoreIs(s, x);
      ZScoreIs(s, y);
      ScaledDifference(ZScore(s, x), ZScore(s, y), s.stddev);
      assert (ZScore(s, x) - ZScore(s, y)) * s.stddev == x - y;
    }
  }

  lemma ScaledDifference(x: real, y: real, k: real)
    ensures Square(x - y) * Square(k) == Square((x - y) * k)
    ensures (x - y) * k == x * k - y * k
  {
  }

  /** A distance times the number of shared features is the sum of their terms. */
  lemma DistanceIsMean(p: Point, q: Point)
    requires DistanceSpec(p, q).Some?
    ensures var d := DistanceSpec(p, q).value;
            d.shared == |SquaredDiffs(p, q)| > 0 && d.squared * d.shared as real == SumVals(SquaredDiffs(p, q))
  {
  }

  lemma DistanceSymmetric(p: Point, q: Point)
    ensures DistanceSpec(p, q) == DistanceSpec(q, p)
  {
    assert SquaredDiffs(p, q) == SquaredDiffs(q, p);
  }

  lemma {:induction false} SumOfZeros(m: map<string, real>)
    requires forall k :: k in m ==> m[k] == 0.0
    ensures SumVals(m) == 0.0
    decreases |m|
  {
    if m != map[] {
      var k :| k in m;
      SumRemove(m, k);
      SumOfZeros(m - {k});
    }
  }

  lemma {:induction false} ZeroSumOfSquares(m: map<string, real>)
    requires forall k :: k in m ==> m[k] >= 0.0
    requires SumVals(m) == 0.0
    ensures forall k :: k in m ==> m[k] == 0.0
  {
    forall k | k in m ensures m[k] == 0.0 {
      SumRemove(m, k);
      SumValsNonNegative(m - {k});
    }
  }

  lemma DistanceNonNegative(p: Point, q: Point)
    ensures DistanceSpec(p, q).Some? ==> DistanceSpec(p, q).value.squared >= 0.0
  {
    SumValsNonNegative(SquaredDiffs(p, q));
  }

  /** A distance is never negative, and it is zero exactly when the points agree on every shared dimension. */
  lemma DistanceZeroIffAgree(p: Point, q: Point)
    requires DistanceSpec(p, q).Some?
    ensures DistanceSpec(p, q).value.squared >= 0.0
    ensures DistanceSpec(p, q).value.squared == 0.0 <==> forall k :: k in p && k in q ==> p[k] == q[k]
  {
    var d := SquaredDiffs(p, q);
    SumValsNonNegative(d);
    if forall k :: k in p && k in q ==> p[k] == q[k] {
      SumOfZeros(d);
    }
    if DistanceSpec(p, q).value.squared == 0.0 {
      assert SumVals(d) == 0.0;
      ZeroSumOfSquares(d);
      forall k | k in p && k in q ensures p[k] == q[k] {
        assert d[k] == Square(p[k] - q[k]);
        SquareZero(p[k] - q[k]);
      }
    }
  }

  /** A run is at distance zero from itself, and has a distance at all exactly when some feature of it varies. */
  lemma DistanceToSelf(v: FeatureVector, stats: Stats)
    ensures var d := DistanceSpec(PointOf(v, stats), PointOf(v, stats));
            && (d.Some? <==> exists name :: name in v.values && Varies(stats, name))
            && (d.Some? ==> d.value.squared == 0.0)
  {
    var p := PointOf(v, stats);
    assert SquaredDiffs(p, p).Keys == p.Keys;
    if DistanceSpec(p, p).Some? {
      DistanceZeroIffAgree(p, p);
      var k :| k in p;
      assert k in v.values && Varies(stats, k);
    } else {
      forall name | name in v.values ensures !Varies(stats, name) {
        assert name !in p;
      }
    }
  }

  // ---- statistics -------------------------------------------------------------------------------

  ghost predicate AllValid(vs: seq<FeatureVector>) {
    forall i :: 0 <= i < |vs| ==> vs[i].Valid()
  }

  /** What one run contributes to the values of a feature. */
  function Own(v: FeatureVector, name: string): seq<real> {
    if name in v.values then [v.values[name]] else []
  }

  /** Values of one feature, in run order, over the runs that measured it. */
  function ValuesOf(vs: seq<FeatureVector>, name: string): seq<real> {
    if vs == [] then [] else ValuesOf(vs[..|vs| - 1], name) + Own(vs[|vs| - 1], name)
  }

  /** Sum of the squared deviations of the values from a given centre. */
  function SumSqDev(xs: seq<real>, centre: real): real {
    if xs == [] then 0.0 else SumSqDev(xs[..|xs| - 1], centre) + Square(xs[|xs| - 1] - centre)
  }

  function Mean(xs: seq<real>): real
    requires xs != []
  {
    Sum(xs) / |xs| as real
  }

  /** Sample variance; a feature measured by a single run is treated as not varying. */
  function Variance(xs: seq<real>): real
    requires xs != []
  {
    if |xs| >= 2 then SumSqDev(xs, Mean(xs)) / (|xs| - 1) as real else 0.0
  }

  /** Whether stats are the statistics of these runs: one entry per measured feature, mean and root of variance. */
  ghost predicate StatsOf(stats: Stats, vs: seq<FeatureVector>) {
    && (forall name :: name in stats <==> ValuesOf(vs, name) != [])
    && (forall name :: name in stats ==>
          && stats[name].mean == Mean(ValuesOf(vs, name))
          && stats[name].stddev >= 0.0
          && Square(stats[name].stddev) == Variance(ValuesOf(vs, name)))
  }

  /** One row of the statistics table while it is being accumulated; spread is stddev before its final root. */
  datatype Accumulator = Accumulator(mean: real, spread: real, count: nat)

  /** The table after also seeing value x of feature name (first pass). */
  function Tally(stats: map<string, Accumulator>, name: string, x: real): map<string, Accumulator> {
    var prior := if name in stats then stats[name] else Accumulator(0.0, 0.0, 0);
    stats[name := Accumulator(prior.mean + x, prior.spread, prior.count + 1)]
  }

  /** The table after seeing the first j features of a run (first pass). */
  function TallyRun(stats: map<string, Accumulator>, v: FeatureVector, j: nat): map<string, Accumulator>
    requires j <= |v.names| && forall name :: name in v.names ==> name in v.values
  {
    if j == 0 then stats
    else Tally(TallyRun(stats, v, j - 1), v.names[j - 1], v.values[v.names[j - 1]])
  }

  lemma {:induction false} TallyRunAt(stats: map<string, Accumulator>, v: FeatureVector, j: nat, name: string)
    requires v.Valid() && j <= |v.names|
    ensures var after := TallyRun(stats, v, j);
            && (name in after <==> name in stats || name in v.names[..j])
            && (name in after ==> after[name] == if name in v.names[..j] then Tally(stats, name, v.values[name])[name]
                                                 else stats[name])
  {
    if j > 0 {
      TallyRunAt(stats, v, j - 1, name);
      assert v.names[..j] == v.names[..j - 1] + [v.names[j - 1]];
      assert v.names[j - 1] !in v.names[..j - 1];
    }
  }

  /** Inner loop of the first pass: fold one run into the sums and counts. */
  method AddToMeans(before: map<string, Accumulator>, v: FeatureVector) returns (stats: map<string, Accumulator>)
    requires v.Valid()
    ensures forall name :: name in stats <==> name in before || name in v.values
    ensures forall name :: name in stats ==>
              stats[name] == if name in v.values then Tally(before, name, v.values[name])[name] else before[name]
  {
    stats := before;
    for j := 0 to |v.names|
      invariant stats == TallyRun(before, v, j)
    {
      stats := Tally(stats, v.names[j], v.values[v.names[j]]);
    }
    assert v.names[..|v.names|] == v.names;
    forall name {
      TallyRunAt(before, v, |v.names|, name);
    }
  }

  /** A table row after also seeing value x (second pass). */
  function Deviate(s: Accumulator, x: real): Accumulator {
    s.(spread := s.spread + Square(x - s.mean))
  }

  /** The table after seeing the first j features of a run (second pass). */
  function DeviateRun(stats: map<string, Accumulator>, v: FeatureVector, j: nat): (after: map<string, Accumulator>)
    requires j <= |v.names| && forall name :: name in v.names ==> name in v.values && name in stats
    ensures after.Keys == stats.Keys
  {
    if j == 0 then stats
    else
      var after, name := DeviateRun(stats, v, j - 1), v.names[j - 1];
      after[name := Deviate(after[name], v.values[name])]
  }

  lemma {:induction false} DeviateRunAt(stats: map<string, Accumulator>, v: FeatureVector, j: nat, name: string)
    requires v.Valid() && j <= |v.names| && name in stats
    requires forall other :: other in v.names ==> other in v.values && other in stats
    ensures DeviateRun(stats, v, j)[name]
            == if name in v.names[..j] then Deviate(stats[name], v.values[name]) else stats[name]
  {
    if j > 0 {
      DeviateRunAt(stats, v, j - 1, name);
      assert v.names[..j] == v.names[..j - 1] + [v.names[j - 1]];
      assert v.names[j - 1] !in v.names[..j - 1];
    }
  }

  /** Inner loop of the second pass: fold one run into the sums of squared deviations. */
  method AddToSpreads(before: map<string, Accumulator>, v: FeatureVector) returns (stats: map<string, Accumulator>)
    requires v.Valid() && forall name :: name in v.values ==> name in before
    ensures stats.Keys == before.Keys
    ensures forall name :: name in stats ==>
              stats[name] == if name in v.values then Deviate(before[name], v.values[name]) else before[name]
  {
    stats := before;
    for j := 0 to |v.names|
      invariant stats == DeviateRun(before, v, j)
    {
      var name := v.names[j];
      stats := stats[name := Deviate(stats[name], v.values[name])];
    }
    assert v.names[..|v.names|] == v.names;
    forall name | name in stats {
      DeviateRunAt(before, v, |v.names|, name);
    }
  }

  lemma ValuesOfSnoc(vs: seq<FeatureVector>, v: FeatureVector, name: string, centre: real)
    ensures ValuesOf(vs + [v], name) == ValuesOf(vs, name) + Own(v, name)
    ensures name in v.values ==> Sum(ValuesOf(vs + [v], name)) == Sum(ValuesOf(vs, name)) + v.values[name]
    ensures name in v.values ==>
              SumSqDev(ValuesOf(vs + [v], name), centre)
              == SumSqDev(ValuesOf(vs, name), centre) + Square(v.values[name] - centre)
  {
    assert (vs + [v])[..|vs|] == vs;
    if name in v.values {
      SumSnoc(ValuesOf(vs, name), v.values[name]);
      assert (ValuesOf(vs, name) + [v.values[name]])[..|ValuesOf(vs, name)|] == ValuesOf(vs, name);
    }
  }

  lemma {:induction false} MeasuredIsCounted(vs: seq<FeatureVector>, i: nat, name: string)
    requires i < |vs|
    requires name in vs[i].values
    ensures ValuesOf(vs, name) != []
  {
    var n := |vs| - 1;
    if i < n {
      MeasuredIsCounted(vs[..n], i, name);
    }
  }

  ghost predicate SummedAt(stats: map<string, Accumulator>, vs: seq<FeatureVector>, name: string) {
    var xs := ValuesOf(vs, name);
    if xs == [] then name !in stats
    else name in stats && stats[name] == Accumulator(Sum(xs), 0.0, |xs|)
  }

  /** The table after the first pass has seen runs vs: sums and counts. */
  ghost predicate Summed(stats: map<string, Accumulator>, vs: seq<FeatureVector>) {
    forall name :: SummedAt(stats, vs, name)
  }

  /** The table after the second pass has seen runs vs: squared deviations from the means. */
  ghost predicate Spread(stats: map<string, Accumulator>, means: map<string, Accumulator>, vs: seq<FeatureVector>) {
    stats.Keys == means.Keys && forall name :: name in stats ==> SpreadAt(stats[name], means[name], vs, name)
  }

  ghost predicate SpreadAt(now: Accumulator, mean: Accumulator, vs: seq<FeatureVector>, name: string) {
    now == mean.(spread := SumSqDev(ValuesOf(vs, name), mean.mean))
  }

  lemma SpreadNextAt(before: Accumulator, after: Accumulator, mean: Accumulator, vs: seq<FeatureVector>,
                     v: FeatureVector, name: string)
    requires SpreadAt(before, mean, vs, name)
    requires after == if name in v.values then Deviate(before, v.values[name]) else before
    ensures SpreadAt(after, mean, vs + [v], name)
  {
    ValuesOfSnoc(vs, v, name, mean.mean);
    if name !in v.values {
      assert ValuesOf(vs + [v], name) == ValuesOf(vs, name);
    }
  }

  lemma SpreadNext(before: map<string, Accumulator>, after: map<string, Accumulator>,
                   means: map<string, Accumulator>, vs: seq<FeatureVector>, i: nat)
    requires i < |vs|
    requires Spread(before, means, vs[..i]) && after.Keys == before.Keys
    requires forall name :: name in after ==>
               after[name] == if name in vs[i].values then Deviate(before[name], vs[i].values[name]) else before[name]
    ensures Spread(after, means, vs[..i + 1])
  {
    assert vs[..i + 1] == vs[..i] + [vs[i]];
    forall name | name in after ensures SpreadAt(after[name], means[name], vs[..i + 1], name) {
      SpreadNextAt(before[name], after[name], means[name], vs[..i], vs[i], name);
    }
  }

  method FirstPass(vs: seq<FeatureVector>) returns (stats: map<string, Accumulator>)
    requires AllValid(vs)
    ensures Summed(stats, vs)
  {
    stats := map[];
    for i := 0 to |vs|
      invariant Summed(stats, vs[..i])
    {
      var before := stats;
      stats := AddToMeans(stats, vs[i]);
      SummedNext(before, stats, vs, i);
    }
    assert vs[..|vs|] == vs;
  }

  lemma SummedNextAt(before: map<string, Accumulator>, after: map<string, Accumulator>, vs: seq<FeatureVector>,
                     v: FeatureVector, name: string)
    requires SummedAt(before, vs, name)
    requires name in after <==> name in before || name in v.values
    requires name in v.values ==> after[name] == Tally(before, name, v.values[name])[name]
    requires name !in v.values && name in after ==> after[name] == before[name]
    ensures SummedAt(after, vs + [v], name)
  {
    ValuesOfSnoc(vs, v, name, 0.0);
    if name !in v.values {
      assert ValuesOf(vs + [v], name) == ValuesOf(vs, name);
    }
  }

  lemma SummedNext(before: map<string, Accumulator>, after: map<string, Accumulator>, vs: seq<FeatureVector>, i: nat)
    requires i < |vs|
    requires Summed(before, vs[..i])
    requires forall name :: name in after <==> name in before || name in vs[i].values
    requires forall name :: name in after ==>
               after[name]
               == if name in vs[i].values then Tally(before, name, vs[i].values[name])[name] else before[name]
    ensures Summed(after, vs[..i + 1])
  {
    assert vs[..i + 1] == vs[..i] + [vs[i]];
    forall name: string {:trigger SummedAt(after, vs[..i + 1], name)} ensures SummedAt(after, vs[..i + 1], name) {
      assert SummedAt(before, vs[..i], name);
      SummedNextAt(before, after, vs[..i], vs[i], name);
    }
  }

  method SecondPass(vs: seq<FeatureVector>, means: map<string, Accumulator>) returns (stats: map<string, Accumulator>)
    requires AllValid(vs)
    requires forall name :: name in means ==> means[name].spread == 0.0
    requires forall i, name :: 0 <= i < |vs| && name in vs[i].values ==> name in means
    ensures Spread(stats, means, vs)
  {
    stats := means;
    for i := 0 to |vs|
      invariant Spread(stats, means, vs[..i])
    {
      ghost var before := stats;
      stats := AddToSpreads(stats, vs[i]);
      SpreadNext(before, stats, means, vs, i);
    }
    assert vs[..|vs|] == vs;
  }

  /** compute_feature_stats up to its final square root: mean, variance and count by feature name. */
  method ComputeVariances(vs: seq<FeatureVector>) returns (stats: map<string, Accumulator>)
    requires AllValid(vs)
    ensures forall name :: name in stats <==> ValuesOf(vs, name) != []
    ensures forall name :: name in stats ==>
              stats[name] == Accumulator(Mean(ValuesOf(vs, name)), Variance(ValuesOf(vs, name)), |ValuesOf(vs, name)|)
  {
    var sums := FirstPass(vs);
    forall name: string {:trigger name in sums} ensures SummedAt(sums, vs, name) {
    }
    var means := map name | name in sums :: sums[name].(mean := sums[name].mean / sums[name].count as real);
    forall i, name | 0 <= i < |vs| && name in vs[i].values ensures name in means {
      MeasuredIsCounted(vs, i, name);
    }
    stats := SecondPass(vs, means);
    ghost var spreads := stats;
    stats := map name | name in stats :: FinishVariance(stats[name]);
    forall name | name in stats
      ensures stats[name] == Accumulator(Mean(ValuesOf(vs, name)), Variance(ValuesOf(vs, name)),
                                         |ValuesOf(vs, name)|)
    {
      Finished(sums[name], means[name], spreads[name], vs, name);
    }
  }

  /** What the library's sqrt is, over the reals. */
  ghost predicate IsSquareRoot(sqrt: real -> real) {
    forall x :: x >= 0.0 ==> sqrt(x) >= 0.0 && Square(sqrt(x)) == x
  }

  lemma {:induction false} SumSqDevNonNegative(xs: seq<real>, centre: real)
    ensures SumSqDev(xs, centre) >= 0.0
  {
    if xs != [] {
      SumSqDevNonNegative(xs[..|xs| - 1], centre);
      SquareZero(xs[|xs| - 1] - centre);
    }
  }

  /** compute_feature_stats */
  method ComputeFeatureStats(vs: seq<FeatureVector>, sqrt: real -> real) returns (stats: Stats)
    requires AllValid(vs) && IsSquareRoot(sqrt)
    ensures StatsOf(stats, vs)
  {
    hide AllValid, Mean, Variance, ValuesOf, Square;
    var spreads := ComputeVariances(vs);
    stats := map name | name in spreads :: WithRoot(spreads[name], sqrt);
    forall name | name in stats
      ensures stats[name].stddev >= 0.0 && Square(stats[name].stddev) == Variance(ValuesOf(vs, name))
    {
      RootOfVariance(ValuesOf(vs, name), spreads[name], sqrt);
    }
  }

  /** A feature with fewer than two values gets no deviation. */
  function WithRoot(s: Accumulator, sqrt: real -> real): FeatureStat {
    FeatureStat(s.mean, if s.count >= 2 then sqrt(s.spread) else 0.0)
  }

  lemma RootOfVariance(xs: seq<real>, s: Accumulator, sqrt: real -> real)
    requires IsSquareRoot(sqrt) && xs != [] && s.count == |xs| && s.spread == Variance(xs)
    ensures WithRoot(s, sqrt).stddev >= 0.0 && Square(WithRoot(s, sqrt).stddev) == Variance(xs)
  {
    SumSqDevNonNegative(xs, Mean(xs));
    SquareZero(0.0);
  }

  /** The last loop of compute_feature_stats, short of taking the root. */
  function FinishVariance(s: Accumulator): Accumulator {
    s.(spread := if s.count >= 2 then s.spread / (s.count - 1) as real else 0.0)
  }

  lemma Finished(sum: Accumulator, mean: Accumulator, spread: Accumulator, vs: seq<FeatureVector>, name: string)
    requires ValuesOf(vs, name) != []
    requires sum == Accumulator(Sum(ValuesOf(vs, name)), 0.0, |ValuesOf(vs, name)|)
    requires mean == sum.(mean := sum.mean / sum.count as real)
    requires SpreadAt(spread, mean, vs, name)
    ensures FinishVariance(spread)
            == Accumulator(Mean(ValuesOf(vs, name)), Variance(ValuesOf(vs, name)), |ValuesOf(vs, name)|)
  {
  }
}
