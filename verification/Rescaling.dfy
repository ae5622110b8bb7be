/**
 Distances do not depend on the units a feature is measured in: replacing a feature x by a*x + b in every run and
 recomputing the statistics changes no distance and no count of shared features.
 */
module Rescaling {
  import opened Sums
  import opened FeatureSpace

  /** A value in other units. */
  function Line(x: real, a: real, b: real): real {
    a * x + b
  }

  function Affine(xs: seq<real>, a: real, b: real): (ys: seq<real>)
    ensures |ys| == |xs|
  {
    if xs == [] then [] else Affine(xs[..|xs| - 1], a, b) + [Line(xs[|xs| - 1], a, b)]
  }

  /** The run with feature f re-expressed in other units. */
  function Rescale(v: FeatureVector, f: string, a: real, b: real): FeatureVector {
    if f in v.values then v.(values := v.values[f := Line(v.values[f], a, b)]) else v
  }

  function RescaleAll(vs: seq<FeatureVector>, f: string, a: real, b: real): (ws: seq<FeatureVector>)
    ensures |ws| == |vs|
    ensures forall i :: 0 <= i < |vs| ==> ws[i] == Rescale(vs[i], f, a, b)
  {
    if vs == [] then []
    else RescaleAll(vs[..|vs| - 1], f, a, b) + [Rescale(vs[|vs| - 1], f, a, b)]
  }

  lemma AffineSnoc(xs: seq<real>, x: real, a: real, b: real)
    ensures Affine(xs + [x], a, b) == Affine(xs, a, b) + [Line(x, a, b)]
  {
    assert (xs + [x])[..|xs|] == xs;
  }

  lemma AffineFront(xs: seq<real>, a: real, b: real)
    requires xs != []
    ensures Affine(xs, a, b)[..|xs| - 1] == Affine(xs[..|xs| - 1], a, b)
    ensures Affine(xs, a, b)[|xs| - 1] == Line(xs[|xs| - 1], a, b)
  {
  }

  lemma OwnRescaled(v: FeatureVector, f: string, a: real, b: real, name: string)
    ensures Own(Rescale(v, f, a, b), name) == if name == f then Affine(Own(v, name), a, b) else Own(v, name)
  {
    if name in v.values {
      AffineSnoc([], v.values[name], a, b);
      assert [] + [v.values[name]] == [v.values[name]];
    }
  }

  lemma {:induction false} AffineConcat(xs: seq<real>, ys: seq<real>, a: real, b: real)
    ensures Affine(xs + ys, a, b) == Affine(xs, a, b) + Affine(ys, a, b)
  {
    if ys == [] {
      assert xs + ys == xs;
    } else {
      var front, last := ys[..|ys| - 1], ys[|ys| - 1];
      AffineConcat(xs, front, a, b);
      AffineSnoc(xs + front, last, a, b);
      AffineSnoc(front, last, a, b);
      assert ys == front + [last] && xs + ys == xs + front + [last];
    }
  }

  lemma {:induction false} ValuesRescaled(vs: seq<FeatureVector>, f: string, a: real, b: real, name: string)
    ensures ValuesOf(RescaleAll(vs, f, a, b), name)
            == if name == f then Affine(ValuesOf(vs, name), a, b) else ValuesOf(vs, name)
  {
    if vs != [] {
      var front, last := vs[..|vs| - 1], vs[|vs| - 1];
      ValuesRescaled(front, f, a, b, name);
      OwnRescaled(last, f, a, b, name);
      var ws, last' := RescaleAll(front, f, a, b), Rescale(last, f, a, b);
      assert RescaleAll(vs, f, a, b) == ws + [last'];
      ValuesOfSnoc(ws, last', name, 0.0);
      AffineConcat(ValuesOf(front, name), Own(last, name), a, b);
    }
  }

  lemma {:induction false} SumAffine(xs: seq<real>, a: real, b: real)
    ensures Sum(Affine(xs, a, b)) == Times(a, Sum(xs)) + Times(b, |xs| as real)
  {
    if xs != [] {
      var front, last := xs[..|xs| - 1], xs[|xs| - 1];
      AffineFront(xs, a, b);
      SumAffine(front, a, b);
      Distribute(a, Sum(front), last);
      Distribute(b, |front| as real, 1.0);
    }
  }

  lemma MeanAffine(xs: seq<real>, a: real, b: real)
    requires xs != []
    ensures Mean(Affine(xs, a, b)) == Line(Mean(xs), a, b)
  {
    SumAffine(xs, a, b);
    AverageOfLine(Sum(xs), |xs| as real, a, b);
  }

  lemma AverageOfLine(sum: real, n: real, a: real, b: real)
    requires n != 0.0
    ensures (Times(a, sum) + Times(b, n)) / n == Line(sum / n, a, b)
  {
    var q := sum / n;
    assert (a * q + b) * n == a * (q * n) + b * n == a * sum + b * n;
  }

  lemma ScaledSquare(x: real, c: real, a: real, b: real)
    ensures Square(Line(x, a, b) - Line(c, a, b)) == Times(a * a, Square(x - c))
  {
    assert Line(x, a, b) - Line(c, a, b) == a * (x - c);
  }

  lemma {:induction false} SumSqDevAffine(xs: seq<real>, c: real, a: real, b: real)
    ensures SumSqDev(Affine(xs, a, b), Line(c, a, b)) == Times(a * a, SumSqDev(xs, c))
  {
    if xs != [] {
      var n := |xs| - 1;
      var ys, centre := Affine(xs, a, b), Line(c, a, b);
      AffineFront(xs, a, b);
      calc {
        SumSqDev(ys, centre);
        SumSqDev(ys[..n], centre) + Square(ys[n] - centre);
        { SumSqDevAffine(xs[..n], c, a, b); }
        Times(a * a, SumSqDev(xs[..n], c)) + Square(ys[n] - centre);
        { ScaledSquare(xs[n], c, a, b); }
        Times(a * a, SumSqDev(xs[..n], c)) + Times(a * a, Square(xs[n] - c));
        { Distribute(a * a, SumSqDev(xs[..n], c), Square(xs[n] - c)); }
        Times(a * a, SumSqDev(xs, c));
      }
    }
  }

  lemma DivideScaled(k: real, d: real, n: real)
    requires n != 0.0
    ensures Times(k, d) / n == Times(k, d / n)
  {
    var q := d / n;
    assert (k * q) * n == k * (q * n) == k * d;
  }

  lemma VarianceAffine(xs: seq<real>, a: real, b: real)
    requires xs != []
    ensures Variance(Affine(xs, a, b)) == Times(a * a, Variance(xs))
  {
    MeanAffine(xs, a, b);
    SumSqDevAffine(xs, Mean(xs), a, b);
    if |xs| >= 2 {
      DivideScaled(a * a, SumSqDev(xs, Mean(xs)), (|xs| - 1) as real);
    }
  }

  function Abs(x: real): real {
    if x < 0.0 then -x else x
  }

  lemma SquareMonotone(s: real, t: real)
    requires 0.0 <= s < t
    ensures Square(s) < Square(t)
  {
    var d := t - s;
    var x, y := Times(d, t), Times(d, s);
    assert x > 0.0 && y >= 0.0;
    assert Square(t) - Square(s) == x + y;
  }

  /** Non-negative square roots are unique. */
  lemma RootUnique(s: real, t: real)
    requires s >= 0.0 && t >= 0.0 && Square(s) == Square(t)
    ensures s == t
  {
    if s < t {
      SquareMonotone(s, t);
    } else if t < s {
      SquareMonotone(t, s);
    }
  }

  lemma RootScaled(s: real, t: real, variance: real, a: real)
    requires s >= 0.0 && t >= 0.0 && Square(s) == variance && Square(t) == Times(a * a, variance)
    ensures t == Times(Abs(a), s)
  {
    var u := Abs(a) * s;
    assert u >= 0.0;
    assert Square(u) == (Abs(a) * Abs(a)) * (s * s);
    RootUnique(t, u);
  }

  /** The statistics of the re-expressed runs follow from the old ones. */
  lemma StatsRescaled(vs: seq<FeatureVector>, stats: Stats, stats': Stats, f: string, a: real, b: real, name: string)
    requires StatsOf(stats, vs) && StatsOf(stats', RescaleAll(vs, f, a, b))
    ensures name in stats <==> name in stats'
    ensures name in stats && name != f ==> stats'[name] == stats[name]
    ensures name in stats && name == f ==>
              stats'[name] == FeatureStat(Line(stats[name].mean, a, b), Times(Abs(a), stats[name].stddev))
  {
    ValuesRescaled(vs, f, a, b, name);
    var xs := ValuesOf(vs, name);
    if name in stats {
      if name == f {
        MeanAffine(xs, a, b);
        VarianceAffine(xs, a, b);
        RootScaled(stats[name].stddev, stats'[name].stddev, Variance(xs), a);
      } else {
        RootUnique(stats'[name].stddev, stats[name].stddev);
      }
    }
  }

  /** How the statistics of re-expressed runs relate to the original ones. */
  ghost predicate StatsFollow(stats: Stats, stats': Stats, f: string, a: real, b: real) {
    && stats'.Keys == stats.Keys
    && forall name :: name in stats ==>
         stats'[name] == if name == f
                         then FeatureStat(Line(stats[name].mean, a, b), Times(Abs(a), stats[name].stddev))
                         else stats[name]
  }

  lemma AllStatsRescaled(vs: seq<FeatureVector>, stats: Stats, stats': Stats, f: string, a: real, b: real)
    requires StatsOf(stats, vs) && StatsOf(stats', RescaleAll(vs, f, a, b))
    ensures StatsFollow(stats, stats', f, a, b)
  {
    forall name
      ensures name in stats <==> name in stats'
      ensures name in stats ==>
                stats'[name] == if name == f
                                then FeatureStat(Line(stats[name].mean, a, b), Times(Abs(a), stats[name].stddev))
                                else stats[name]
    {
      StatsRescaled(vs, stats, stats', f, a, b, name);
    }
  }

  /** The z-score keeps its size; a negative factor flips its sign. */
  lemma ZScoreRescaled(s: FeatureStat, x: real, a: real, b: real)
    requires s.stddev > 0.0 && a != 0.0
    ensures Times(Abs(a), s.stddev) > 0.0
    ensures ZScore(FeatureStat(Line(s.mean, a, b), Times(Abs(a), s.stddev)), Line(x, a, b))
            == if a < 0.0 then -ZScore(s, x) else ZScore(s, x)
  {
    assert Line(x, a, b) - Line(s.mean, a, b) == a * (x - s.mean);
    var d := x - s.mean;
    if a < 0.0 {
      assert (a * d) / (-a * s.stddev) == -(d / s.stddev);
    } else {
      assert (a * d) / (a * s.stddev) == d / s.stddev;
    }
  }

  lemma CoordinateRescaled(stats: Stats, stats': Stats, f: string, a: real, b: real, v: FeatureVector, name: string)
    requires StatsFollow(stats, stats', f, a, b) && a != 0.0 && name in v.values
    ensures Varies(stats, name) <==> Varies(stats', name)
    ensures Varies(stats, name) ==>
              var x := if name == f then Line(v.values[name], a, b) else v.values[name];
              var z := ZScore(stats[name], v.values[name]);
              ZScore(stats'[name], x) == if name == f && a < 0.0 then -z else z
  {
    if name in stats && name == f {
      if stats[name].stddev > 0.0 {
        ZScoreRescaled(stats[name], v.values[name], a, b);
      }
    }
  }

  /** A run keeps its point, except that a negative factor mirrors the one dimension. */
  lemma PointRescaled(stats: Stats, stats': Stats, f: string, a: real, b: real, v: FeatureVector)
    requires StatsFollow(stats, stats', f, a, b) && a != 0.0
    ensures var p, p' := PointOf(v, stats), PointOf(Rescale(v, f, a, b), stats');
            && p'.Keys == p.Keys
            && forall name :: name in p ==> p'[name] == if name == f && a < 0.0 then -p[name] else p[name]
  {
    var v' := Rescale(v, f, a, b);
    var p, p' := PointOf(v, stats), PointOf(v', stats');
    forall name | name in v.values
      ensures name in p <==> name in p'
      ensures name in p ==> p'[name] == if name == f && a < 0.0 then -p[name] else p[name]
    {
      CoordinateRescaled(stats, stats', f, a, b, v, name);
    }
  }

  /** Units are unobservable: every pairwise distance and shared count survives a change of units. */
  lemma DistanceInvariant(vs: seq<FeatureVector>, stats: Stats, stats': Stats, f: string, a: real, b: real,
                          i: nat, j: nat)
    requires i < |vs| && j < |vs| && a != 0.0
    requires StatsOf(stats, vs) && StatsOf(stats', RescaleAll(vs, f, a, b))
    ensures var ws := RescaleAll(vs, f, a, b);
            DistanceSpec(PointOf(ws[i], stats'), PointOf(ws[j], stats'))
            == DistanceSpec(PointOf(vs[i], stats), PointOf(vs[j], stats))
  {
    AllStatsRescaled(vs, stats, stats', f, a, b);
    SamePairDistance(stats, stats', f, a, b, vs[i], vs[j]);
  }

  lemma SamePairDistance(stats: Stats, stats': Stats, f: string, a: real, b: real, v: FeatureVector, w: FeatureVector)
    requires StatsFollow(stats, stats', f, a, b) && a != 0.0
    ensures DistanceSpec(PointOf(Rescale(v, f, a, b), stats'), PointOf(Rescale(w, f, a, b), stats'))
            == DistanceSpec(PointOf(v, stats), PointOf(w, stats))
  {
    PointRescaled(stats, stats', f, a, b, v);
    PointRescaled(stats, stats', f, a, b, w);
    FlippedDistance(PointOf(v, stats), PointOf(w, stats),
                    PointOf(Rescale(v, f, a, b), stats'), PointOf(Rescale(w, f, a, b), stats'), f, a < 0.0);
  }

  lemma FlippedDistance(p: Point, q: Point, p': Point, q': Point, f: string, flip: bool)
    requires p'.Keys == p.Keys && q'.Keys == q.Keys
    requires forall name :: name in p ==> p'[name] == if name == f && flip then -p[name] else p[name]
    requires forall name :: name in q ==> q'[name] == if name == f && flip then -q[name] else q[name]
    ensures DistanceSpec(p', q') == DistanceSpec(p, q)
  {
    forall name | name in p && name in q ensures Square(p'[name] - q'[name]) == Square(p[name] - q[name]) {
      SquareEven(p[name] - q[name]);
    }
    assert SquaredDiffs(p', q') == SquaredDiffs(p, q);
  }

  lemma SquareEven(x: real)
    ensures Square(-x) == Square(x)
  {
  }
}
