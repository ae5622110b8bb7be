/**
 k-means++ seeding (kmeans_plusplus_init in archetype.c): which runs become the first centroids.

 The random generator is an input: `first` is the draw behind the first index, and draws[c] is the fraction, in
 [0, 1), drawn in round c if that round draws at all.
 */
module Seeding {
  import opened Options
  import opened Sums
  import opened FeatureSpace

  /** Squared distance from a run to the nearest seed so far; Unseen while no seed shares a feature with it. */
  datatype Gap = Unseen | Gap(squared: real)

  /** All pairwise distances between runs; None where two runs share no feature. */
  type Table = seq<seq<Option<Distance>>>

  ghost predicate IsTable(table: Table) {
    && (forall i :: 0 <= i < |table| ==> |table[i]| == |table|)
    && forall i, j :: 0 <= i < |table| && 0 <= j < |table| && table[i][j].Some? ==> table[i][j].value.squared >= 0.0
  }

  /** Distances from run i to the first m runs. */
  ghost function Row(vs: seq<FeatureVector>, stats: Stats, i: nat, m: nat): (row: seq<Option<Distance>>)
    requires i < |vs| && m <= |vs|
    ensures |row| == m
  {
    if m == 0 then []
    else Row(vs, stats, i, m - 1) + [DistanceSpec(PointOf(vs[i], stats), PointOf(vs[m - 1], stats))]
  }

  ghost function Rows(vs: seq<FeatureVector>, stats: Stats, m: nat): (rows: Table)
    requires m <= |vs|
    ensures |rows| == m
  {
    if m == 0 then [] else Rows(vs, stats, m - 1) + [Row(vs, stats, m - 1, |vs|)]
  }

  ghost function TableOf(vs: seq<FeatureVector>, stats: Stats): (table: Table)
    ensures |table| == |vs|
  {
    Rows(vs, stats, |vs|)
  }

  lemma {:induction false} RowAt(vs: seq<FeatureVector>, stats: Stats, i: nat, m: nat, j: nat)
    requires i < |vs| && j < m <= |vs|
    ensures Row(vs, stats, i, m)[j] == DistanceSpec(PointOf(vs[i], stats), PointOf(vs[j], stats))
  {
    if j < m - 1 {
      RowAt(vs, stats, i, m - 1, j);
    }
  }

  lemma {:induction false} RowsAt(vs: seq<FeatureVector>, stats: Stats, m: nat, i: nat)
    requires i < m <= |vs|
    ensures Rows(vs, stats, m)[i] == Row(vs, stats, i, |vs|)
  {
    hide Row;
    if i < m - 1 {
      RowsAt(vs, stats, m - 1, i);
    }
  }

  /** The table holds the distances between the runs' points, and is well formed. */
  lemma TableAt(vs: seq<FeatureVector>, stats: Stats, i: nat, j: nat)
    requires i < |vs| && j < |vs|
    ensures |TableOf(vs, stats)[i]| == |vs|
    ensures TableOf(vs, stats)[i][j] == DistanceSpec(PointOf(vs[i], stats), PointOf(vs[j], stats))
    ensures TableOf(vs, stats)[i][j].Some? ==> TableOf(vs, stats)[i][j].value.squared >= 0.0
  {
    RowsAt(vs, stats, |vs|, i);
    RowAt(vs, stats, i, |vs|, j);
    DistanceNonNegative(PointOf(vs[i], stats), PointOf(vs[j], stats));
  }

  lemma TableWellFormed(vs: seq<FeatureVector>, stats: Stats)
    ensures IsTable(TableOf(vs, stats))
  {
    var table: Table := TableOf(vs, stats);
    forall i | 0 <= i < |table| ensures |table[i]| == |table| {
      TableAt(vs, stats, i, i);
    }
    forall i: nat, j: nat | i < |table| && j < |table| && table[i][j].Some? ensures table[i][j].value.squared >= 0.0 {
      TableAt(vs, stats, i, j);
    }
  }

  function Closer(g: Gap, d: Option<Distance>): Gap {
    match d
    case None => g
    case Some(dist) => if g.Unseen? || dist.squared < g.squared then Gap(dist.squared) else g
  }

  /** Largest known gap, zero when none is known. */
  function Largest(gaps: seq<Gap>): (m: real)
    ensures m >= 0.0
  {
    if gaps == [] then 0.0
    else
      var m, g := Largest(gaps[..|gaps| - 1]), gaps[|gaps| - 1];
      if g.Gap? && g.squared > m then g.squared else m
  }

  /** A gap as a weight: a run no seed can be compared with counts as far as the farthest comparable one. */
  function Weight(g: Gap, largest: real): real {
    if g.Unseen? then largest else g.squared
  }

  ghost function Compared(table: Table, gaps: seq<Gap>, last: nat): (r: seq<Gap>)
    requires IsTable(table) && |gaps| == |table| && last < |table|
    ensures |r| == |table|
  {
    seq(|table|, i requires 0 <= i < |table| => Closer(gaps[i], table[i][last]))
  }

  /** The weights of a round, given the gaps before it and the seed chosen last. */
  ghost function RoundWeights(table: Table, gaps: seq<Gap>, last: nat): (ws: seq<real>)
    requires IsTable(table) && |gaps| == |table| && last < |table|
    ensures |ws| == |table|
  {
    var now := Compared(table, gaps, last);
    seq(|table|, i requires 0 <= i < |table| => if i == last then 0.0 else Weight(now[i], Largest(now)))
  }

  ghost function AsGaps(ws: seq<real>): (gaps: seq<Gap>)
    ensures |gaps| == |ws|
  {
    seq(|ws|, i requires 0 <= i < |ws| => Gap(ws[i]))
  }

  predicate InRange(chosen: seq<nat>, n: nat) {
    forall j :: 0 <= j < |chosen| ==> chosen[j] < n
  }

  /** What is known of each run before the round that follows the given choices, apart from the last choice. */
  ghost function GapsBefore(table: Table, chosen: seq<nat>): (gaps: seq<Gap>)
    requires IsTable(table) && chosen != [] && InRange(chosen, |table|)
    ensures |gaps| == |table|
    decreases |chosen|
  {
    if |chosen| == 1 then seq(|table|, _ => Unseen)[chosen[0] := Gap(0.0)]
    else
      var before := chosen[..|chosen| - 1];
      AsGaps(RoundWeights(table, GapsBefore(table, before), before[|before| - 1]))
  }

  /** The weights of the round that follows the given choices. */
  ghost function Weights(table: Table, chosen: seq<nat>): (ws: seq<real>)
    requires IsTable(table) && chosen != [] && InRange(chosen, |table|)
    ensures |ws| == |table|
  {
    RoundWeights(table, GapsBefore(table, chosen), chosen[|chosen| - 1])
  }

  function Total(ws: seq<real>): real {
    SumTo(ws, |ws|)
  }

  /** Index i is where the running total of the weights first reaches r. */
  predicate Reaches(ws: seq<real>, r: real, i: nat) {
    i < |ws| && SumTo(ws, i + 1) >= r && forall m :: 1 <= m <= i ==> SumTo(ws, m) < r
  }

  /** Index i is the smallest one not chosen yet. */
  predicate FirstFree(chosen: seq<nat>, n: nat, i: nat) {
    i < n && i !in chosen && forall j :: 0 <= j < i ==> j in chosen
  }

  predicate AllTaken(chosen: seq<nat>, n: nat) {
    forall j :: 0 <= j < n ==> j in chosen
  }

  /** The point on the scale of accumulated weights that a fraction falls on. */
  function Target(draw: real, total: real): real {
    draw * total
  }

  /**
   * Whether next may follow the given choices when the runs have weights ws: by weighted draw, or by default
   * once all weights are zero.
   */
  predicate Selects(ws: seq<real>, chosen: seq<nat>, draw: real, next: nat)
    requires chosen != []
  {
    if Total(ws) <= 0.0
    then FirstFree(chosen, |ws|, next) || (AllTaken(chosen, |ws|) && next == chosen[|chosen| - 1])
    else Reaches(ws, Target(draw, Total(ws)), next)
  }

  ghost predicate Follows(table: Table, chosen: seq<nat>, draw: real, next: nat)
    requires IsTable(table) && chosen != [] && InRange(chosen, |table|)
  {
    Selects(Weights(table, chosen), chosen, draw, next)
  }

  /** The choices made from the given draws. */
  ghost predicate IsSeeding(table: Table, first: nat, draws: seq<real>, chosen: seq<nat>)
    requires IsTable(table)
    decreases |chosen|
  {
    && 1 <= |chosen| <= |draws| && table != [] && InRange(chosen, |table|)
    && var front, last := chosen[..|chosen| - 1], chosen[|chosen| - 1];
       if front == [] then last == first % |table|
       else IsSeeding(table, first, draws, front) && Follows(table, front, draws[|front|], last)
  }

  lemma {:induction false} SeedingAt(table: Table, first: nat, draws: seq<real>, chosen: seq<nat>, c: nat)
    requires IsTable(table) && IsSeeding(table, first, draws, chosen) && 1 <= c < |chosen|
    ensures Follows(table, chosen[..c], draws[c], chosen[c])
    decreases |chosen|
  {
    if c < |chosen| - 1 {
      var front := chosen[..|chosen| - 1];
      SeedingAt(table, first, draws, front, c);
      assert front[..c] == chosen[..c];
    }
  }

  ghost predicate NoDuplicates(s: seq<nat>) {
    forall i, j :: 0 <= i < j < |s| ==> s[i] != s[j]
  }

  predicate Fractions(draws: seq<real>) {
    forall c :: 0 <= c < |draws| ==> 0.0 <= draws[c] < 1.0
  }

  // ---- chosen runs weigh nothing ----------------------------------------------------------------

  ghost predicate NonNegative(ws: seq<real>) {
    forall i :: 0 <= i < |ws| ==> ws[i] >= 0.0
  }

  ghost predicate ZeroAt(ws: seq<real>, chosen: seq<nat>)
    requires InRange(chosen, |ws|)
  {
    forall j :: 0 <= j < |chosen| ==> ws[chosen[j]] == 0.0
  }

  lemma RoundKeepsZeros(table: Table, gaps: seq<Gap>, last: nat)
    requires IsTable(table) && |gaps| == |table| && last < |table|
    requires forall i :: 0 <= i < |gaps| && gaps[i].Gap? ==> gaps[i].squared >= 0.0
    ensures NonNegative(RoundWeights(table, gaps, last))
    ensures RoundWeights(table, gaps, last)[last] == 0.0
    ensures forall i :: 0 <= i < |gaps| && gaps[i] == Gap(0.0) ==> RoundWeights(table, gaps, last)[i] == 0.0
  {
  }

  lemma {:induction false} ChosenWeighNothing(table: Table, chosen: seq<nat>)
    requires IsTable(table) && chosen != [] && InRange(chosen, |table|)
    ensures NonNegative(Weights(table, chosen)) && ZeroAt(Weights(table, chosen), chosen)
    decreases |chosen|
  {
    var gaps, before := GapsBefore(table, chosen), chosen[..|chosen| - 1];
    if |chosen| > 1 {
      ChosenWeighNothing(table, before);
    }
    RoundKeepsZeros(table, gaps, chosen[|chosen| - 1]);
    forall j | 0 <= j < |chosen| - 1 ensures gaps[chosen[j]] == Gap(0.0) {
      assert before[j] == chosen[j];
    }
  }

  // ---- what a weight is -------------------------------------------------------------------------

  /** Run i is no farther from any seed it shares features with. */
  ghost predicate AtMostGaps(table: Table, chosen: seq<nat>, i: nat, w: real)
    requires IsTable(table) && InRange(chosen, |table|) && i < |table|
  {
    forall j :: 0 <= j < |chosen| && table[i][chosen[j]].Some? ==> w <= table[i][chosen[j]].value.squared
  }

  /** Some seed is at that squared distance from run i. */
  ghost predicate IsAGap(table: Table, chosen: seq<nat>, i: nat, w: real)
    requires IsTable(table) && InRange(chosen, |table|) && i < |table|
  {
    exists j :: 0 <= j < |chosen| && table[i][chosen[j]].Some? && table[i][chosen[j]].value.squared == w
  }

  /** The squared distance between a seed and the farthest of the runs it can be compared with; zero without any. */
  ghost predicate IsFarthest(table: Table, seed: nat, most: real)
    requires IsTable(table) && seed < |table|
  {
    && (forall i :: 0 <= i < |table| && i != seed && table[i][seed].Some? ==> table[i][seed].value.squared <= most)
    && (most == 0.0
        || exists i :: 0 <= i < |table| && i != seed && table[i][seed].Some? && table[i][seed].value.squared == most)
  }

  lemma {:induction false} LargestIs(gaps: seq<Gap>)
    ensures forall i :: 0 <= i < |gaps| && gaps[i].Gap? ==> gaps[i].squared <= Largest(gaps)
    ensures Largest(gaps) == 0.0 || Gap(Largest(gaps)) in gaps
  {
    if gaps != [] {
      LargestIs(gaps[..|gaps| - 1]);
    }
  }

  /** In the first round a run weighs its squared distance to the first seed; failing that, the largest of all. */
  lemma FirstWeights(table: Table, seed: nat, i: nat)
    requires IsTable(table) && seed < |table| && i < |table| && i != seed
    ensures var w := Weights(table, [seed])[i];
            if table[i][seed].Some? then w == table[i][seed].value.squared else IsFarthest(table, seed, w)
  {
    var gaps := GapsBefore(table, [seed]);
    var now := Compared(table, gaps, seed);
    assert forall k :: 0 <= k < |table| && k != seed ==>
             now[k] == if table[k][seed].Some? then Gap(table[k][seed].value.squared) else Unseen;
    assert now[seed] == Gap(0.0);
    LargestIs(now);
  }

  /** In a later round it weighs what it did before, or its squared distance to the newest seed if that is less. */
  lemma LaterWeights(table: Table, chosen: seq<nat>, i: nat)
    requires IsTable(table) && |chosen| > 1 && InRange(chosen, |table|) && i < |table| && i !in chosen
    ensures var last, before := chosen[|chosen| - 1], Weights(table, chosen[..|chosen| - 1])[i];
            Weights(table, chosen)[i]
            == if table[i][last].Some? && table[i][last].value.squared < before then table[i][last].value.squared
               else before
  {
  }

  /**
   The weight of a run not chosen yet is its squared distance to the nearest seed that it shares features with. A run
   that shares none with the first seed starts from the largest distance between that seed and any other run instead.
   */
  lemma {:induction false} WeightIsNearest(table: Table, chosen: seq<nat>, i: nat)
    requires IsTable(table) && chosen != [] && InRange(chosen, |table|) && i < |table| && i !in chosen
    ensures var w, start := Weights(table, chosen)[i], Weights(table, [chosen[0]])[i];
            && AtMostGaps(table, chosen, i, w)
            && (if table[i][chosen[0]].Some? then IsAGap(table, chosen, i, w)
                else IsFarthest(table, chosen[0], start) && w <= start && (w == start || IsAGap(table, chosen, i, w)))
    decreases |chosen|
  {
    hide Weights;
    FirstWeights(table, chosen[0], i);
    var before, last := chosen[..|chosen| - 1], chosen[|chosen| - 1];
    if before == [] {
      assert chosen == [chosen[0]];
    } else {
      WeightIsNearest(table, before, i);
      LaterWeights(table, chosen, i);
      forall j | 0 <= j < |before| ensures before[j] == chosen[j] {
      }
    }
  }

  // ---- when seeds are distinct ------------------------------------------------------------------

  lemma {:induction false} SumToGrows(ws: seq<real>, i: nat, j: nat)
    requires i <= j <= |ws| && NonNegative(ws)
    ensures 0.0 <= SumTo(ws, i) <= SumTo(ws, j)
    decreases i + j
  {
    if i < j {
      SumToGrows(ws, i, j - 1);
    } else if i > 0 {
      SumToGrows(ws, i - 1, i - 1);
    }
  }

  /** A target above zero is reached at a positive weight; a target of zero is always reached at the first run. */
  lemma ReachesPositive(ws: seq<real>, r: real, i: nat)
    requires NonNegative(ws) && Reaches(ws, r, i)
    ensures r > 0.0 ==> ws[i] > 0.0
    ensures r == 0.0 ==> i == 0
  {
    assert SumTo(ws, i + 1) == SumTo(ws, i) + ws[i];
    if i > 0 {
      assert SumTo(ws, i) < r;
      SumToGrows(ws, i, i);
    }
  }

  /** Round c draws zero although run 0 is already a seed: the draw lands on run 0 again. */
  ghost predicate WastedDraw(table: Table, draws: seq<real>, chosen: seq<nat>, c: nat)
    requires IsTable(table) && 1 <= c < |chosen| <= |draws| && InRange(chosen, |table|)
  {
    Total(Weights(table, chosen[..c])) > 0.0 && draws[c] == 0.0 && 0 in chosen[..c]
  }

  lemma {:induction false} DistinctBelow(s: seq<nat>, n: nat)
    requires NoDuplicates(s) && InRange(s, n)
    ensures |s| <= n
  {
    if s != [] {
      assert s[0] < n;
      if i :| 0 <= i < |s| && s[i] == n - 1 {
        DistinctBelow(s[..i] + s[i + 1..], n - 1);
      } else {
        DistinctBelow(s, n - 1);
      }
    }
  }

  /** Choices that cover 0..n-1 are at least n many. */
  lemma {:induction false} AllTakenTooMany(s: seq<nat>, n: nat)
    requires AllTaken(s, n)
    ensures |s| >= n
  {
    if n > 0 {
      assert n - 1 in s;
      var i :| 0 <= i < |s| && s[i] == n - 1;
      var t := s[..i] + s[i + 1..];
      forall j | 0 <= j < n - 1 ensures j in t {
        assert j in s;
        var k :| 0 <= k < |s| && s[k] == j;
        assert t[if k < i then k else k - 1] == j;
      }
      AllTakenTooMany(t, n - 1);
    }
  }

  lemma TargetSign(draw: real, total: real)
    requires 0.0 <= draw < 1.0 && total > 0.0
    ensures 0.0 <= Target(draw, total) <= total
    ensures Target(draw, total) == 0.0 <==> draw == 0.0
  {
    assert (1.0 - draw) * total > 0.0;
  }

  /** With weight left, a draw chooses run i exactly when its fraction of the total falls on the stretch of that run. */
  lemma DrawnIff(ws: seq<real>, chosen: seq<nat>, draw: real, i: nat)
    requires NonNegative(ws) && chosen != [] && Total(ws) > 0.0 && i < |ws|
    ensures Selects(ws, chosen, draw, i) <==>
              (i > 0 ==> SumTo(ws, i) < draw * Total(ws)) && draw * Total(ws) <= SumTo(ws, i + 1)
  {
    hide SumTo;
    forall m: nat | 1 <= m <= i ensures SumTo(ws, m) <= SumTo(ws, i) {
      SumToGrows(ws, m, i);
    }
  }

  lemma NoneEarlier(ws: seq<real>, r: real, i: nat, j: nat)
    requires Reaches(ws, r, i) && j < i
    ensures !Reaches(ws, r, j)
  {
    assert SumTo(ws, j + 1) < r;
  }

  /** A round has one outcome. */
  lemma SelectsOne(ws: seq<real>, chosen: seq<nat>, draw: real, i: nat, j: nat)
    requires chosen != [] && Selects(ws, chosen, draw, i) && Selects(ws, chosen, draw, j)
    ensures i == j
  {
    hide SumTo;
    if Total(ws) > 0.0 {
      if i < j {
        NoneEarlier(ws, Target(draw, Total(ws)), j, i);
      } else if j < i {
        NoneEarlier(ws, Target(draw, Total(ws)), i, j);
      }
    }
  }

  /** Seeding is reproducible: the first index and the draws determine every seed. */
  lemma {:induction false} SeedingIsDetermined(table: Table, first: nat, draws: seq<real>, s: seq<nat>, t: seq<nat>)
    requires IsTable(table) && IsSeeding(table, first, draws, s) && IsSeeding(table, first, draws, t) && |s| == |t|
    ensures s == t
    decreases |s|
  {
    hide Selects, Weights, IsTable;
    var s', t' := s[..|s| - 1], t[..|t| - 1];
    if s' != [] {
      SeedingIsDetermined(table, first, draws, s', t');
      SelectsOne(Weights(table, s'), s', draws[|s'|], s[|s'|], t[|s'|]);
    }
    assert s == s' + [s[|s'|]] && t == t' + [t[|t'|]];
  }

  lemma FreshDraw(ws: seq<real>, before: seq<nat>, draw: real, next: nat)
    requires NonNegative(ws) && before != [] && |before| < |ws| && InRange(before, |ws|) && ZeroAt(ws, before)
    requires 0.0 <= draw < 1.0 && Selects(ws, before, draw, next)
    ensures next in before <==> Total(ws) > 0.0 && draw == 0.0 && 0 in before
  {
    if Total(ws) <= 0.0 {
      if AllTaken(before, |ws|) {
        AllTakenTooMany(before, |ws|);
        assert false;
      }
    } else {
      TargetSign(draw, Total(ws));
      ReachesPositive(ws, Target(draw, Total(ws)), next);
    }
  }

  lemma FreshRound(table: Table, draws: seq<real>, chosen: seq<nat>, c: nat)
    requires IsTable(table) && 1 <= c < |chosen| <= |draws| && |chosen| <= |table| && InRange(chosen, |table|)
    requires Fractions(draws) && Follows(table, chosen[..c], draws[c], chosen[c])
    ensures chosen[c] in chosen[..c] <==> WastedDraw(table, draws, chosen, c)
  {
    ChosenWeighNothing(table, chosen[..c]);
    FreshDraw(Weights(table, chosen[..c]), chosen[..c], draws[c], chosen[c]);
  }

  lemma {:induction false} FreshSoFar(s: seq<nat>, m: nat)
    requires m <= |s| && forall c :: 1 <= c < |s| ==> s[c] !in s[..c]
    ensures NoDuplicates(s[..m])
  {
    forall i, j | 0 <= i < j < m ensures s[..m][i] != s[..m][j] {
      assert s[..j][i] == s[i];
    }
  }

  /** Seeds are distinct exactly when there are enough runs and no round draws zero while run 0 is a seed. */
  lemma SeedsDistinctIff(table: Table, first: nat, draws: seq<real>, chosen: seq<nat>)
    requires IsTable(table) && IsSeeding(table, first, draws, chosen) && Fractions(draws)
    ensures NoDuplicates(chosen) <==>
            |chosen| <= |table| && forall c :: 1 <= c < |chosen| ==> !WastedDraw(table, draws, chosen, c)
  {
    if |chosen| > |table| {
      if NoDuplicates(chosen) {
        DistinctBelow(chosen, |table|);
      }
    } else {
      forall c | 1 <= c < |chosen| ensures chosen[c] in chosen[..c] <==> WastedDraw(table, draws, chosen, c) {
        SeedingAt(table, first, draws, chosen, c);
        FreshRound(table, draws, chosen, c);
      }
      if forall c :: 1 <= c < |chosen| ==> !WastedDraw(table, draws, chosen, c) {
        FreshSoFar(chosen, |chosen|);
        assert chosen[..|chosen|] == chosen;
      }
    }
  }

  /** What a caller can check beforehand: enough runs and no zero among the draws make all seeds distinct. */
  lemma DistinctWithoutZeroDraws(table: Table, first: nat, draws: seq<real>, chosen: seq<nat>)
    requires IsTable(table) && IsSeeding(table, first, draws, chosen) && Fractions(draws)
    requires |chosen| <= |table| && forall c :: 1 <= c < |chosen| ==> draws[c] > 0.0
    ensures NoDuplicates(chosen)
  {
    hide IsTable, IsSeeding, Weights;
    SeedsDistinctIff(table, first, draws, chosen);
  }

  // ---- a seed chosen twice ----------------------------------------------------------------------

  const IPC := "ipc"

  /** A run that measured one feature. */
  function OneFeature(x: real): FeatureVector {
    FeatureVector([IPC], map[IPC := x])
  }

  function ThreeRuns(): (vs: seq<FeatureVector>)
    ensures |vs| == 3
  {
    [OneFeature(0.0), OneFeature(1.0), OneFeature(2.0)]
  }

  /** The statistics of the three runs: mean 1 and deviation 1. */
  function ThreeStats(): Stats {
    map[IPC := FeatureStat(1.0, 1.0)]
  }

  lemma PointOfOne(x: real)
    ensures PointOf(OneFeature(x), ThreeStats()) == map[IPC := x - 1.0]
  {
  }

  lemma DistanceOfOne(u: real, v: real)
    ensures DistanceSpec(map[IPC := u], map[IPC := v]) == Some(Distance(Square(u - v), 1))
  {
    hide Square;
    var d := SquaredDiffs(map[IPC := u], map[IPC := v]);
    assert d == map[IPC := Square(u - v)];
    SumOfOne(d, Square(u - v));
  }

  lemma SumOfOne(d: map<string, real>, x: real)
    requires d == map[IPC := x]
    ensures SumVals(d) == x && |d| == 1
  {
    SumRemove(d, IPC);
    assert d - {IPC} == map[];
  }

  lemma ValuesOfThree(name: string)
    ensures ValuesOf(ThreeRuns(), name) == if name == IPC then [0.0, 1.0, 2.0] else []
  {
    var vs := ThreeRuns();
    assert vs[..2] == [vs[0], vs[1]] && vs[..2][..1] == [vs[0]] && vs[..2][..1][..0] == [];
    assert ValuesOf(vs[..2][..1], name) == ValuesOf([], name) + Own(vs[0], name);
    assert ValuesOf(vs[..2], name) == ValuesOf(vs[..2][..1], name) + Own(vs[1], name);
  }

  lemma StatsOfThree()
    ensures AllValid(ThreeRuns()) && StatsOf(ThreeStats(), ThreeRuns())
  {
    hide ValuesOf, Mean, Variance;
    forall name: string {:trigger ValuesOf(ThreeRuns(), name)}
      ensures ValuesOf(ThreeRuns(), name) == if name == IPC then [0.0, 1.0, 2.0] else []
    {
      ValuesOfThree(name);
    }
    ThreeValues();
    assert Square(1.0) == 1.0;
  }

  lemma ThreeValues()
    ensures Mean([0.0, 1.0, 2.0]) == 1.0 && Variance([0.0, 1.0, 2.0]) == 1.0
  {
    var xs := [0.0, 1.0, 2.0];
    assert xs[..2] == [0.0, 1.0] && xs[..2][..1] == [0.0];
    assert Sum(xs[..2][..1]) == 0.0 && Sum(xs[..2]) == 1.0;
    assert SumSqDev(xs[..2][..1], 1.0) == 1.0 && SumSqDev(xs[..2], 1.0) == 1.0 && SumSqDev(xs, 1.0) == 2.0;
  }

  /** Weights of the second round when run 0 was chosen first. */
  lemma SecondRound(table: Table, one: real, two: real)
    requires IsTable(table) && |table| == 3 && one >= 0.0 && two >= one
    requires table[1][0] == Some(Distance(one, 1)) && table[2][0] == Some(Distance(two, 1))
    ensures Weights(table, [0]) == [0.0, one, two]
  {
    var gaps := GapsBefore(table, [0]);
    assert gaps == [Gap(0.0), Unseen, Unseen];
    var now := Compared(table, gaps, 0);
    assert now[1] == Gap(one) && now[2] == Gap(two);
  }

  /** Three runs that measured 0, 1 and 2, and a second draw of zero: run 0 is chosen twice. */
  lemma RepeatedSeed(draw0: real)
    ensures AllValid(ThreeRuns()) && StatsOf(ThreeStats(), ThreeRuns())
    ensures IsTable(TableOf(ThreeRuns(), ThreeStats()))
    ensures IsSeeding(TableOf(ThreeRuns(), ThreeStats()), 0, [draw0, 0.0], [0, 0])
  {
    StatsOfThree();
    TableWellFormed(ThreeRuns(), ThreeStats());
    ThreeDistances();
    hide AllValid, StatsOf, TableOf, Weights, IsSeeding, ThreeRuns, ThreeStats;
    var table := TableOf(ThreeRuns(), ThreeStats());
    SecondRound(table, 1.0, 4.0);
    ZeroDraw(table, draw0, Weights(table, [0]));
  }

  lemma ThreeDistances()
    ensures var table := TableOf(ThreeRuns(), ThreeStats());
            && |table| == 3 && |table[1]| == |table[2]| == 3
            && table[1][0] == Some(Distance(1.0, 1)) && table[2][0] == Some(Distance(4.0, 1))
  {
    DistanceFromFirst(1, 1.0);
    DistanceFromFirst(2, 2.0);
    hide TableOf, OneFeature;
    assert Square(1.0) == 1.0 && Square(2.0) == 4.0;
  }

  lemma DistanceFromFirst(i: nat, x: real)
    requires i < 3 && ThreeRuns()[i] == OneFeature(x) && ThreeRuns()[0] == OneFeature(0.0)
    ensures var table := TableOf(ThreeRuns(), ThreeStats());
            |table[i]| == 3 && table[i][0] == Some(Distance(Square(x), 1))
  {
    hide TableOf, PointOf, DistanceSpec, OneFeature, ThreeRuns, ThreeStats, Square;
    TableAt(ThreeRuns(), ThreeStats(), i, 0);
    PointOfOne(0.0);
    PointOfOne(x);
    DistanceOfOne(x - 1.0, 0.0 - 1.0);
    assert (x - 1.0) - (0.0 - 1.0) == x;
  }

  /** A draw of zero lands on run 0. */
  lemma ZeroDraw(table: Table, draw0: real, ws: seq<real>)
    requires IsTable(table) && table != [] && ws == Weights(table, [0]) == [0.0, 1.0, 4.0]
    ensures IsSeeding(table, 0, [draw0, 0.0], [0, 0])
  {
    hide Weights, IsTable;
    assert SumTo(ws, 1) == 0.0 && SumTo(ws, 2) == 1.0 && Total(ws) == 5.0;
    assert Target(0.0, Total(ws)) == 0.0 && Reaches(ws, 0.0, 0);
    assert [0, 0][..1] == [0];
    assert IsSeeding(table, 0, [draw0, 0.0], [0]);
  }

  // ---- the algorithm ----------------------------------------------------------------------------

  method Compare(vs: seq<FeatureVector>, stats: Stats, i: nat, last: nat) returns (d: Option<Distance>)
    requires AllValid(vs) && i < |vs| && last < |vs|
    ensures IsTable(TableOf(vs, stats)) && d == TableOf(vs, stats)[i][last]
  {
    TableWellFormed(vs, stats);
    TableAt(vs, stats, i, last);
    d := NearestNeighborDistance(vs[i], vs[last], stats);
  }

  /** First loop of a round: compare every run with the last seed, and find the largest known gap. */
  method CompareAll(vs: seq<FeatureVector>, stats: Stats, gaps: array<Gap>, last: nat, ghost table: Table)
      returns (maxFinite: real)
    requires AllValid(vs) && gaps.Length == |vs| && last < |vs| && IsTable(table) && table == TableOf(vs, stats)
    modifies gaps
    ensures gaps[..] == Compared(table, old(gaps[..]), last)
    ensures maxFinite == Largest(gaps[..])
  {
    ghost var before := gaps[..];
    maxFinite := 0.0;
    for i := 0 to gaps.Length
      invariant gaps[i..] == before[i..]
      invariant gaps[..i] == Compared(table, before, last)[..i]
      invariant maxFinite == Largest(gaps[..i])
    {
      var d := Compare(vs, stats, i, last);
      assert gaps[i] == gaps[i..][0] == before[i];
      gaps[i] := Closer(gaps[i], d);
      assert gaps[i] == Compared(table, before, last)[i];
      assert gaps[i + 1..] == before[i + 1..];
      assert gaps[..i + 1] == gaps[..i] + [gaps[i]];
      if gaps[i].Gap? && gaps[i].squared > maxFinite {
        maxFinite := gaps[i].squared;
      }
    }
    assert gaps[..gaps.Length] == gaps[..];
  }

  /** Second loop of a round, and the reset of the last seed: what is still unseen weighs as much as the largest. */
  method WeighUnseen(gaps: array<Gap>, largest: real, last: nat)
    requires last < gaps.Length
    modifies gaps
    ensures forall i :: 0 <= i < gaps.Length ==>
              gaps[i] == Gap(if i == last then 0.0 else Weight(old(gaps[..])[i], largest))
  {
    ghost var before := gaps[..];
    for i := 0 to gaps.Length
      invariant forall j :: 0 <= j < gaps.Length ==>
                              gaps[j] == if j < i then Gap(Weight(before[j], largest)) else before[j]
    {
      if gaps[i].Unseen? {
        gaps[i] := Gap(largest);
      }
    }
    gaps[last] := Gap(0.0);
  }

  /** The two update loops of a round. */
  method UpdateGaps(vs: seq<FeatureVector>, stats: Stats, gaps: array<Gap>, last: nat, ghost table: Table)
    requires AllValid(vs) && gaps.Length == |vs| && last < |vs| && IsTable(table) && table == TableOf(vs, stats)
    modifies gaps
    ensures gaps[..] == AsGaps(RoundWeights(table, old(gaps[..]), last))
  {
    var largest := CompareAll(vs, stats, gaps, last, table);
    WeighUnseen(gaps, largest, last);
  }

  /** The smallest index not among the choices; the number of runs when there is none. */
  method FirstFreeIndex(chosen: seq<nat>, n: nat) returns (i: nat)
    ensures i <= n && (forall j :: 0 <= j < i ==> j in chosen) && (i < n ==> i !in chosen)
  {
    i := 0;
    while i < n
      invariant i <= n && forall j :: 0 <= j < i ==> j in chosen
    {
      if i !in chosen {
        return;
      }
      i := i + 1;
    }
  }

  /** Walk the weights until their running total reaches r. */
  method Draw(gaps: array<Gap>, r: real, fallback: nat, ghost ws: seq<real>) returns (next: nat)
    requires gaps[..] == AsGaps(ws) && ws != [] && r <= Total(ws)
    ensures Reaches(ws, r, next)
  {
    next := fallback;
    var running := 0.0;
    for i := 0 to gaps.Length
      invariant gaps.Length == |ws|
      invariant running == SumTo(ws, i)
      invariant forall m :: 1 <= m <= i ==> SumTo(ws, m) < r
    {
      assert gaps[i] == gaps[..][i] == Gap(ws[i]);
      running := running + gaps[i].squared;
      if running >= r {
        return i;
      }
    }
    assert false;
  }

  /** The end of a round: draw by weight, or take the first free run when every weight is zero. */
  method NextSeed(gaps: array<Gap>, chosen: seq<nat>, draw: real, ghost table: Table) returns (next: nat)
    requires IsTable(table) && chosen != [] && InRange(chosen, |table|) && 0.0 <= draw < 1.0
    requires gaps[..] == AsGaps(Weights(table, chosen))
    ensures next < |table| && Follows(table, chosen, draw, next)
  {
    ghost var ws := Weights(table, chosen);
    assert gaps.Length == |gaps[..]| == |ws| == |table|;
    var total := 0.0;
    for i := 0 to gaps.Length
      invariant total == SumTo(ws, i)
    {
      assert gaps[i] == gaps[..][i] == Gap(ws[i]);
      total := total + gaps[i].squared;
    }
    if total <= 0.0 {
      var i := FirstFreeIndex(chosen, gaps.Length);
      return if i < gaps.Length then i else chosen[|chosen| - 1];
    }
    TargetSign(draw, total);
    next := Draw(gaps, Target(draw, total), chosen[|chosen| - 1], ws);
  }

  /** One round of the outer loop. */
  method Round(vs: seq<FeatureVector>, stats: Stats, gaps: array<Gap>, chosen: seq<nat>, draw: real,
               ghost table: Table) returns (next: nat)
    requires AllValid(vs) && IsTable(table) && table == TableOf(vs, stats) && 0.0 <= draw < 1.0
    requires chosen != [] && InRange(chosen, |vs|) && gaps[..] == GapsBefore(table, chosen)
    modifies gaps
    ensures next < |vs| && Follows(table, chosen, draw, next)
    ensures InRange(chosen + [next], |vs|) && gaps[..] == GapsBefore(table, chosen + [next])
  {
    assert |gaps[..]| == |table|;
    UpdateGaps(vs, stats, gaps, chosen[|chosen| - 1], table);
    next := NextSeed(gaps, chosen, draw, table);
    GapsAfter(table, chosen, next);
  }

  lemma GapsAfter(table: Table, chosen: seq<nat>, next: nat)
    requires IsTable(table) && chosen != [] && InRange(chosen, |table|) && next < |table|
    ensures InRange(chosen + [next], |table|)
    ensures GapsBefore(table, chosen + [next]) == AsGaps(Weights(table, chosen))
  {
    assert (chosen + [next])[..|chosen|] == chosen;
  }

  /** The seeds of a clustering with k clusters. */
  method KMeansPlusPlusInit(vs: seq<FeatureVector>, k: nat, stats: Stats, first: nat, draws: seq<real>)
      returns (chosen: seq<nat>)
    requires AllValid(vs) && vs != [] && k >= 1 && |draws| == k && Fractions(draws)
    ensures IsTable(TableOf(vs, stats))
    ensures |chosen| == k && IsSeeding(TableOf(vs, stats), first, draws, chosen)
    ensures k <= |vs| && (forall c :: 1 <= c < k ==> draws[c] > 0.0) ==> NoDuplicates(chosen)
  {
    ghost var table := TableOf(vs, stats);
    TableWellFormed(vs, stats);
    var gaps := new Gap[|vs|](_ => Unseen);
    chosen := [first % |vs|];
    gaps[chosen[0]] := Gap(0.0);
    for c := 1 to k
      invariant |chosen| == c && IsSeeding(table, first, draws, chosen)
      invariant gaps[..] == GapsBefore(table, chosen)
    {
      var next := Round(vs, stats, gaps, chosen, draws[c], table);
      assert (chosen + [next])[..c] == chosen;
      chosen := chosen + [next];
    }
    if k <= |vs| && forall c :: 1 <= c < k ==> draws[c] > 0.0 {
      DistinctWithoutZeroDraws(table, first, draws, chosen);
    }
  }
}
