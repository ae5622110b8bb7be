/**
 Phase detection over interval samples (phase.c): warmup until the last three samples agree, then steady and degraded
 by hysteresis around a moving baseline. The coefficient of variation is compared squared, so no square root is taken.
 */
module Phase {
  const WARMUP_WINDOW := 3
  const WARMUP_CV_MAX := 0.15
  const DEGRADED_DROP := 0.20
  const RECOVER_MARGIN := 0.10
  const PERSIST_SAMPLES := 2
  const BASELINE_EMA := 0.10

  datatype PhaseName = Warmup | Steady | Degraded

  datatype Boundary = Boundary(elapsed: real, from: PhaseName, to: PhaseName)

  datatype Sample = Sample(ipc: real, elapsed: real)

  /** The detector's fields as a value; the window holds the samples in use only. */
  datatype State = State(enabled: bool, phase: PhaseName, window: seq<real>, baseline: real, candidatePhase: PhaseName,
                         candidateStreak: nat, nsamples: nat, boundaries: seq<Boundary>)

  function Initial(enabled: bool): State {
    State(enabled, Warmup, [], 0.0, Warmup, 0, 0, [])
  }

  // ---- one update as a function -----------------------------------------------------------------

  function Mean(w: seq<real>): real
    requires |w| == WARMUP_WINDOW
  {
    (w[0] + w[1] + w[2]) / 3.0
  }

  function SquaredFrom(x: real, mean: real): real {
    (x - mean) * (x - mean)
  }

  /** The window has a positive mean and a coefficient of variation within the limit. */
  predicate Settled(w: seq<real>)
    requires |w| == WARMUP_WINDOW
  {
    var mean := Mean(w);
    && mean > 0.0
    && (SquaredFrom(w[0], mean) + SquaredFrom(w[1], mean) + SquaredFrom(w[2], mean)) / 3.0
       <= WARMUP_CV_MAX * mean * (WARMUP_CV_MAX * mean)
  }

  function Slide(w: seq<real>, ipc: real): (w': seq<real>)
    requires |w| <= WARMUP_WINDOW
    ensures |w'| == if |w| < WARMUP_WINDOW then |w| + 1 else WARMUP_WINDOW
  {
    if |w| < WARMUP_WINDOW then w + [ipc] else w[1..] + [ipc]
  }

  function Ratio(ipc: real, baseline: real): real {
    if baseline > 0.0 then ipc / baseline else 1.0
  }

  /** The phase a sample argues for. */
  function Target(phase: PhaseName, ipc: real, baseline: real): PhaseName {
    if phase == Steady && Ratio(ipc, baseline) <= 1.0 - DEGRADED_DROP then Degraded
    else if phase == Degraded && Ratio(ipc, baseline) >= 1.0 - DEGRADED_DROP + RECOVER_MARGIN then Steady
    else phase
  }

  function Commit(s: State, to: PhaseName, elapsed: real): State {
    s.(boundaries := s.boundaries + [Boundary(elapsed, s.phase, to)],
       phase := to, candidateStreak := 0, candidatePhase := to)
  }

  function StepWarmup(s: State, x: Sample): State
    requires |s.window| <= WARMUP_WINDOW
  {
    var s' := s.(window := Slide(s.window, x.ipc));
    if |s'.window| == WARMUP_WINDOW && Settled(s'.window) then
      Commit(s'.(baseline := Mean(s'.window)), Steady, x.elapsed)
    else s'
  }

  function StepRunning(s: State, x: Sample): State {
    var target := Target(s.phase, x.ipc, s.baseline);
    if target != s.phase then
      var s' := if s.candidatePhase == target then s.(candidateStreak := s.candidateStreak + 1)
                else s.(candidatePhase := target, candidateStreak := 1);
      if s'.candidateStreak >= PERSIST_SAMPLES then
        var s'' := Commit(s', target, x.elapsed);
        if target == Steady then s''.(baseline := x.ipc) else s''
      else s'
    else
      var s' := s.(candidateStreak := 0, candidatePhase := s.phase);
      if s.phase == Steady then s'.(baseline := (1.0 - BASELINE_EMA) * s.baseline + BASELINE_EMA * x.ipc) else s'
  }

  function Step(s: State, x: Sample): State
    requires |s.window| <= WARMUP_WINDOW
  {
    if !s.enabled || x.ipc < 0.0 then s
    else
      var s' := s.(nsamples := s.nsamples + 1);
      if s.phase == Warmup then StepWarmup(s', x) else StepRunning(s', x)
  }

  // ---- the detector -----------------------------------------------------------------------------

  class PhaseDetector {
    var enabled: bool
    var phase: PhaseName
    const window: array<real>
    var windowCount: nat
    var baseline: real
    var candidatePhase: PhaseName
    var candidateStreak: nat
    var nsamples: nat
    var boundaries: seq<Boundary>

    ghost predicate Valid()
      reads this
    {
      window.Length == WARMUP_WINDOW && windowCount <= WARMUP_WINDOW
    }

    ghost function Value(): (s: State)
      reads this, window
      requires Valid()
      ensures |s.window| <= WARMUP_WINDOW
    {
      State(enabled, phase, window[..windowCount], baseline, candidatePhase, candidateStreak, nsamples, boundaries)
    }

    constructor (enabled: bool)
      ensures Valid() && fresh(window) && Value() == Initial(enabled)
    {
      this.enabled, phase, candidatePhase := enabled, Warmup, Warmup;
      window := new real[WARMUP_WINDOW](_ => 0.0);
      windowCount, baseline, candidateStreak, nsamples, boundaries := 0, 0.0, 0, 0, [];
    }

    method RecordBoundary(from: PhaseName, to: PhaseName, elapsed: real)
      modifies this`boundaries
      ensures boundaries == old(boundaries) + [Boundary(elapsed, from, to)]
    {
      boundaries := boundaries + [Boundary(elapsed, from, to)];
    }

    method CommitTransition(to: PhaseName, elapsed: real)
      requires Valid()
      modifies this`boundaries, this`phase, this`candidateStreak, this`candidatePhase
      ensures Value() == Commit(old(Value()), to, elapsed)
    {
      RecordBoundary(phase, to, elapsed);
      phase := to;
      candidateStreak := 0;
      candidatePhase := to;
    }

    /** Append to the window, dropping the oldest sample when it is full. */
    method Push(ipc: real)
      requires Valid()
      modifies this`windowCount, window
      ensures Valid() && window[..windowCount] == Slide(old(window[..windowCount]), ipc)
    {
      if windowCount < WARMUP_WINDOW {
        window[windowCount] := ipc;
        windowCount := windowCount + 1;
      } else {
        window[0], window[1] := window[1], window[2];
        window[WARMUP_WINDOW - 1] := ipc;
      }
    }

    /** Whether the full window lets warmup end, and its mean. */
    method CheckWindow() returns (settled: bool, mean: real)
      requires Valid() && windowCount == WARMUP_WINDOW
      ensures settled == Settled(window[..windowCount]) && mean == Mean(window[..windowCount])
    {
      mean := 0.0;
      for i := 0 to WARMUP_WINDOW
        invariant mean == (if i > 0 then window[0] else 0.0) + (if i > 1 then window[1] else 0.0)
                          + (if i > 2 then window[2] else 0.0)
      {
        mean := mean + window[i];
      }
      mean := mean / 3.0;
      if mean <= 0.0 {
        return false, mean;
      }
      var variance := 0.0;
      for i := 0 to WARMUP_WINDOW
        invariant variance == (if i > 0 then SquaredFrom(window[0], mean) else 0.0)
                              + (if i > 1 then SquaredFrom(window[1], mean) else 0.0)
                              + (if i > 2 then SquaredFrom(window[2], mean) else 0.0)
      {
        variance := variance + SquaredFrom(window[i], mean);
      }
      variance := variance / 3.0;
      settled := variance <= WARMUP_CV_MAX * mean * (WARMUP_CV_MAX * mean);
    }

    method UpdateWarmup(ipc: real, elapsed: real)
      requires Valid()
      modifies this, window
      ensures Valid() && Value() == StepWarmup(old(Value()), Sample(ipc, elapsed))
    {
      Push(ipc);
      if windowCount == WARMUP_WINDOW {
        var settled, mean := CheckWindow();
        if settled {
          baseline := mean;
          CommitTransition(Steady, elapsed);
        }
      }
    }

    method UpdateRunning(ipc: real, elapsed: real)
      requires Valid()
      modifies this
      ensures Valid() && Value() == StepRunning(old(Value()), Sample(ipc, elapsed))
    {
      var ratio := if baseline > 0.0 then ipc / baseline else 1.0;
      var target := phase;
      if phase == Steady && ratio <= 1.0 - DEGRADED_DROP {
        target := Degraded;
      } else if phase == Degraded && ratio >= 1.0 - DEGRADED_DROP + RECOVER_MARGIN {
        target := Steady;
      }
      if target != phase {
        if candidatePhase == target {
          candidateStreak := candidateStreak + 1;
        } else {
          candidatePhase := target;
          candidateStreak := 1;
        }
        if candidateStreak >= PERSIST_SAMPLES {
          CommitTransition(target, elapsed);
          if target == Steady {
            baseline := ipc;
          }
        }
      } else {
        candidateStreak := 0;
        candidatePhase := phase;
        if phase == Steady {
          baseline := (1.0 - BASELINE_EMA) * baseline + BASELINE_EMA * ipc;
        }
      }
    }

    method Update(ipc: real, elapsed: real) returns (result: PhaseName)
      requires Valid()
      modifies this, window
      ensures Valid() && Value() == Step(old(Value()), Sample(ipc, elapsed)) && result == phase
    {
      if !enabled || ipc < 0.0 {
        return phase;
      }
      nsamples := nsamples + 1;
      if phase == Warmup {
        UpdateWarmup(ipc, elapsed);
      } else {
        UpdateRunning(ipc, elapsed);
      }
      return phase;
    }
  }

  // ---- whole runs -------------------------------------------------------------------------------

  /** The state after the first m samples. */
  ghost function Run(enabled: bool, xs: seq<Sample>, m: nat): (s: State)
    requires m <= |xs|
    ensures |s.window| <= WARMUP_WINDOW && s.enabled == enabled
  {
    if m == 0 then Initial(enabled) else Step(Run(enabled, xs, m - 1), xs[m - 1])
  }

  /** Each boundary starts in the phase the one before it ended in, the first in warmup. */
  ghost predicate Chained(bs: seq<Boundary>) {
    && (bs != [] ==> bs[0].from == Warmup && bs[0].to == Steady)
    && (forall i :: 0 < i < |bs| ==> bs[i].from == bs[i - 1].to)
    && forall i :: 0 < i < |bs| ==> (bs[i].from == Steady && bs[i].to == Degraded)
                                    || (bs[i].from == Degraded && bs[i].to == Steady)
  }

  ghost predicate Inv(s: State) {
    && |s.window| <= WARMUP_WINDOW
    && Chained(s.boundaries)
    && (if s.phase == Warmup then
          s.boundaries == [] && s.candidateStreak == 0
        else
          && s.boundaries != [] && s.boundaries[|s.boundaries| - 1].to == s.phase
          && s.baseline > 0.0
          && s.candidateStreak < PERSIST_SAMPLES
          && (s.candidateStreak == 0 ==> s.candidatePhase == s.phase)
          && s.candidatePhase != Warmup
          && s.nsamples >= 2 * |s.boundaries| + 1 + s.candidateStreak)
    && |s.window| <= s.nsamples
  }

  lemma RatioSign(ipc: real, baseline: real)
    requires baseline > 0.0 && Ratio(ipc, baseline) > 0.0
    ensures ipc > 0.0
  {
    assert ipc == Ratio(ipc, baseline) * baseline;
  }

  lemma CommitKeepsChain(s: State, to: PhaseName, elapsed: real)
    requires Chained(s.boundaries)
    requires if s.boundaries == [] then s.phase == Warmup && to == Steady
             else s.boundaries[|s.boundaries| - 1].to == s.phase
                  && ((s.phase == Steady && to == Degraded) || (s.phase == Degraded && to == Steady))
    ensures Chained(Commit(s, to, elapsed).boundaries)
  {
  }

  lemma StepKeepsInv(s: State, x: Sample)
    requires Inv(s)
    ensures Inv(Step(s, x))
  {
    if s.enabled && x.ipc >= 0.0 {
      var s' := s.(nsamples := s.nsamples + 1);
      if s.phase == Warmup {
        CommitKeepsChain(s', Steady, x.elapsed);
      } else {
        var target := Target(s.phase, x.ipc, s.baseline);
        if target == Steady && s.phase == Degraded {
          RatioSign(x.ipc, s.baseline);
        }
        if target != s.phase {
          CommitKeepsChain(s', target, x.elapsed);
        }
      }
    }
  }

  lemma {:induction false} RunKeepsInv(enabled: bool, xs: seq<Sample>, m: nat)
    requires m <= |xs|
    ensures Inv(Run(enabled, xs, m))
  {
    if m > 0 {
      RunKeepsInv(enabled, xs, m - 1);
      StepKeepsInv(Run(enabled, xs, m - 1), xs[m - 1]);
    }
  }

  /** Warmup is never re-entered and boundaries are only ever added. */
  lemma {:induction false} WarmupEndsOnce(enabled: bool, xs: seq<Sample>, m: nat, n: nat)
    requires m <= n <= |xs|
    ensures Run(enabled, xs, m).phase != Warmup ==> Run(enabled, xs, n).phase != Warmup
    ensures Run(enabled, xs, m).boundaries <= Run(enabled, xs, n).boundaries
  {
    if m < n {
      WarmupEndsOnce(enabled, xs, m, n - 1);
    }
  }

  // ---- valid samples ----------------------------------------------------------------------------

  /** The IPC values of the first m samples that a detector takes in. */
  ghost function Taken(xs: seq<Sample>, m: nat): seq<real>
    requires m <= |xs|
  {
    if m == 0 then [] else Taken(xs, m - 1) + (if xs[m - 1].ipc < 0.0 then [] else [xs[m - 1].ipc])
  }

  /** The last three values, or all of them when there are fewer. */
  ghost function LastThree(vs: seq<real>): (w: seq<real>)
    ensures |w| <= WARMUP_WINDOW
  {
    if |vs| <= WARMUP_WINDOW then vs else vs[|vs| - WARMUP_WINDOW..]
  }

  /** nsamples counts the valid samples, and during warmup the window is the last three of them. */
  lemma {:induction false} WindowIsLastThree(xs: seq<Sample>, m: nat)
    requires m <= |xs|
    ensures var s := Run(true, xs, m);
            s.nsamples == |Taken(xs, m)| && (s.phase == Warmup ==> s.window == LastThree(Taken(xs, m)))
  {
    hide Settled, StepRunning, LastThree, Slide, Mean, Commit;
    if m == 0 {
      NoneTaken();
    } else {
      WindowIsLastThree(xs, m - 1);
      WarmupEndsOnce(true, xs, m - 1, m);
      var before, x := Run(true, xs, m - 1), xs[m - 1];
      StepCounts(before, x);
      if x.ipc >= 0.0 {
        LastThreeSlides(Taken(xs, m - 1), x.ipc);
      } else {
        assert Taken(xs, m) == Taken(xs, m - 1);
      }
    }
  }

  lemma NoneTaken()
    ensures LastThree([]) == []
  {
  }

  lemma LastThreeSlides(vs: seq<real>, v: real)
    ensures LastThree(vs + [v]) == Slide(LastThree(vs), v)
  {
  }

  /** A valid sample is counted, and while warmup lasts it slides into the window. */
  lemma StepCounts(s: State, x: Sample)
    requires |s.window| <= WARMUP_WINDOW && s.enabled
    ensures var s' := Step(s, x);
            if x.ipc < 0.0 then s' == s
            else s'.nsamples == s.nsamples + 1
                 && (s.phase == s'.phase == Warmup ==> s'.window == Slide(s.window, x.ipc))
  {
    hide Settled, Slide, Mean;
  }

  /** Warmup ends with the first valid sample whose last three settle, and with their mean as baseline. */
  lemma WarmupEndsWhenSettled(xs: seq<Sample>, m: nat)
    requires m < |xs| && Run(true, xs, m).phase == Warmup && xs[m].ipc >= 0.0
    ensures var w, s := LastThree(Taken(xs, m + 1)), Run(true, xs, m + 1);
            && (s.phase == Steady <==> |w| == WARMUP_WINDOW && Settled(w))
            && (s.phase == Steady ==>
                  s.baseline == Mean(w) && s.boundaries == [Boundary(xs[m].elapsed, Warmup, Steady)])
  {
    WindowIsLastThree(xs, m);
    RunKeepsInv(true, xs, m);
    var before, after := Taken(xs, m), Taken(xs, m + 1);
    assert after == before + [xs[m].ipc];
    assert LastThree(after) == Slide(LastThree(before), xs[m].ipc);
  }

  /** n valid samples make no boundary when n < 3, and at most 1 + (n - 3) / 2 otherwise. */
  lemma BoundariesAreRare(xs: seq<Sample>, m: nat)
    requires m <= |xs|
    ensures var n, bs := |Taken(xs, m)|, Run(true, xs, m).boundaries;
            if n < 3 then bs == [] else |bs| <= 1 + (n - 3) / 2
  {
    RunKeepsInv(true, xs, m);
    WindowIsLastThree(xs, m);
  }

  // ---- what a transition rests on ---------------------------------------------------------------

  /** i and j are successive valid samples. */
  ghost predicate Successive(xs: seq<Sample>, i: nat, j: nat) {
    && i < j < |xs| && xs[i].ipc >= 0.0 && xs[j].ipc >= 0.0
    && forall k :: i < k < j ==> xs[k].ipc < 0.0
  }

  /**
   A valid sample argues for degradation when it is at most four fifths of the baseline of a steady phase, and for
   recovery when it is at least nine tenths of the baseline of a degraded one.
   */
  ghost predicate Argues(s: State, x: Sample, to: PhaseName) {
    && x.ipc >= 0.0
    && ((s.phase == Steady && to == Degraded && 10.0 * x.ipc <= 8.0 * s.baseline)
        || (s.phase == Degraded && to == Steady && 10.0 * x.ipc >= 9.0 * s.baseline))
  }

  /** The target of a running detector is the phase a sample argues for. */
  lemma ArguesForTarget(s: State, x: Sample, to: PhaseName)
    requires s.baseline > 0.0 && x.ipc >= 0.0
    ensures Argues(s, x, to) <==> to != s.phase && to == Target(s.phase, x.ipc, s.baseline)
  {
    RatioAtMost(x.ipc, s.baseline, 8.0);
    RatioAtMost(x.ipc, s.baseline, 9.0);
  }

  lemma RatioAtMost(ipc: real, baseline: real, tenths: real)
    requires baseline > 0.0
    ensures 10.0 * Ratio(ipc, baseline) <= tenths <==> 10.0 * ipc <= tenths * baseline
    ensures 10.0 * Ratio(ipc, baseline) >= tenths <==> 10.0 * ipc >= tenths * baseline
  {
    var r := Ratio(ipc, baseline);
    assert ipc == r * baseline;
    assert 10.0 * ipc - tenths * baseline == (10.0 * r - tenths) * baseline;
  }

  lemma {:induction false} DisabledStays(xs: seq<Sample>, m: nat)
    requires m <= |xs|
    ensures Run(false, xs, m) == Initial(false)
  {
    if m > 0 {
      DisabledStays(xs, m - 1);
    }
  }

  /** A pending candidate was put up by the last valid sample, and nothing has moved since. */
  lemma {:induction false} PendingWasArgued(enabled: bool, xs: seq<Sample>, m: nat)
    requires m <= |xs| && Run(enabled, xs, m).candidateStreak == 1
    ensures exists i: nat :: i < m && RestsOn(enabled, xs, i, m)
  {
    RunKeepsInv(enabled, xs, m - 1);
    var before, x := Run(enabled, xs, m - 1), xs[m - 1];
    if !enabled {
      DisabledStays(xs, m);
      assert false;
    } else if x.ipc < 0.0 {
      PendingWasArgued(enabled, xs, m - 1);
      var i: nat :| i < m - 1 && RestsOn(enabled, xs, i, m - 1);
      assert RestsOn(enabled, xs, i, m);
    } else {
      ArguesForTarget(before, x, Run(enabled, xs, m).candidatePhase);
      assert RestsOn(enabled, xs, m - 1, m);
    }
  }

  /** Sample i argued for the candidate pending before sample m, against a phase and baseline that still stand. */
  ghost predicate RestsOn(enabled: bool, xs: seq<Sample>, i: nat, m: nat)
    requires i < m <= |xs|
  {
    var then', now := Run(enabled, xs, i), Run(enabled, xs, m);
    && Argues(then', xs[i], now.candidatePhase)
    && then'.phase == now.phase && then'.baseline == now.baseline
    && forall k :: i < k < m ==> xs[k].ipc < 0.0
  }

  /**
   Every transition after warmup is committed by the second of two successive valid samples that both argue for it
   against one and the same baseline.
   */
  lemma TransitionNeedsTwo(enabled: bool, xs: seq<Sample>, m: nat)
    requires m < |xs|
    requires var s := Run(enabled, xs, m); s.phase != Warmup && Run(enabled, xs, m + 1).boundaries != s.boundaries
    ensures var s, s' := Run(enabled, xs, m), Run(enabled, xs, m + 1);
            && s'.boundaries == s.boundaries + [Boundary(xs[m].elapsed, s.phase, s'.phase)]
            && s'.baseline == (if s'.phase == Steady then xs[m].ipc else s.baseline)
            && Argues(s, xs[m], s'.phase)
            && exists i: nat :: i < m && Successive(xs, i, m) && Run(enabled, xs, i).baseline == s.baseline
                                && Argues(Run(enabled, xs, i), xs[i], s'.phase)
  {
    RunKeepsInv(enabled, xs, m);
    PendingWasArgued(enabled, xs, m);
    var i: nat :| i < m && RestsOn(enabled, xs, i, m);
    assert Successive(xs, i, m);
    ArguesForTarget(Run(enabled, xs, m), xs[m], Run(enabled, xs, m + 1).phase);
  }

  lemma {:induction false} InvalidChangesNothing(enabled: bool, xs: seq<Sample>, i: nat, m: nat)
    requires i < m <= |xs| && forall k :: i < k < m ==> xs[k].ipc < 0.0
    ensures Run(enabled, xs, m) == Run(enabled, xs, i + 1)
  {
    hide StepWarmup, StepRunning;
    if i + 1 < m {
      InvalidChangesNothing(enabled, xs, i, m - 1);
    }
  }

  /** A sample that argues for a phase commits it or puts it up as the pending candidate. */
  lemma ArguedIsPending(s: State, x: Sample, to: PhaseName)
    requires Inv(s) && s.enabled && Argues(s, x, to)
    ensures var s' := Step(s, x); s'.phase == to || (s'.candidatePhase == to && s'.candidateStreak == 1)
    ensures s.candidatePhase == to && s.candidateStreak == 1 ==>
              Step(s, x).boundaries == s.boundaries + [Boundary(x.elapsed, s.phase, to)]
  {
    ArguesForTarget(s, x, to);
  }

  /** Two successive valid samples that both argue for a phase bring it about. */
  lemma TwoSuffice(enabled: bool, xs: seq<Sample>, i: nat, m: nat, to: PhaseName)
    requires Successive(xs, i, m) && Argues(Run(enabled, xs, i), xs[i], to) && Argues(Run(enabled, xs, m), xs[m], to)
    requires Run(enabled, xs, m).phase != Warmup
    ensures var s := Run(enabled, xs, m);
            Run(enabled, xs, m + 1).boundaries == s.boundaries + [Boundary(xs[m].elapsed, s.phase, to)]
  {
    if !enabled {
      DisabledStays(xs, m);
      assert false;
    }
    RunKeepsInv(enabled, xs, i);
    RunKeepsInv(enabled, xs, m);
    InvalidChangesNothing(enabled, xs, i, m);
    assert Run(enabled, xs, i + 1) == Step(Run(enabled, xs, i), xs[i]);
    assert Run(enabled, xs, m + 1) == Step(Run(enabled, xs, m), xs[m]);
    hide Step, Inv, Run;
    ArguedIsPending(Run(enabled, xs, i), xs[i], to);
    ArguedIsPending(Run(enabled, xs, m), xs[m], to);
  }

  /** After warmup, a sample commits a transition exactly when it and the valid sample before it both argue for it. */
  lemma TransitionIff(enabled: bool, xs: seq<Sample>, m: nat, to: PhaseName)
    requires m < |xs| && Run(enabled, xs, m).phase != Warmup
    ensures var s := Run(enabled, xs, m);
            Run(enabled, xs, m + 1).boundaries == s.boundaries + [Boundary(xs[m].elapsed, s.phase, to)]
            <==> Argues(s, xs[m], to)
                 && exists i: nat :: Successive(xs, i, m) && Argues(Run(enabled, xs, i), xs[i], to)
  {
    var s, s' := Run(enabled, xs, m), Run(enabled, xs, m + 1);
    hide Run, Argues;
    if s'.boundaries == s.boundaries + [Boundary(xs[m].elapsed, s.phase, to)] {
      TransitionNeedsTwo(enabled, xs, m);
      LastBoundary(s.boundaries, Boundary(xs[m].elapsed, s.phase, to), Boundary(xs[m].elapsed, s.phase, s'.phase));
    }
    forall i: nat | Successive(xs, i, m) && Argues(Run(enabled, xs, i), xs[i], to) && Argues(s, xs[m], to)
      ensures s'.boundaries == s.boundaries + [Boundary(xs[m].elapsed, s.phase, to)]
    {
      TwoSuffice(enabled, xs, i, m, to);
    }
  }

  lemma LastBoundary(bs: seq<Boundary>, b: Boundary, c: Boundary)
    requires bs + [b] == bs + [c]
    ensures b == c
  {
    assert (bs + [b])[|bs|] == (bs + [c])[|bs|];
  }

  // ---- how the baseline moves -------------------------------------------------------------------

  /**
   After warmup, a valid steady sample that argues for nothing moves the baseline a tenth of the way to itself. Else the
   baseline only moves when a recovery is committed, and then to the sample that commits it.
   */
  lemma BaselineMoves(xs: seq<Sample>, m: nat)
    requires m < |xs| && Run(true, xs, m).phase != Warmup && xs[m].ipc >= 0.0
    ensures var x, s, s' := xs[m].ipc, Run(true, xs, m), Run(true, xs, m + 1);
            if s.phase == Steady && 10.0 * x > 8.0 * s.baseline then
              s'.phase == Steady && 10.0 * (s'.baseline - s.baseline) == x - s.baseline
            else
              s'.baseline == if s.phase == Degraded && s'.phase == Steady then x else s.baseline
  {
    RunKeepsInv(true, xs, m);
    var s := Run(true, xs, m);
    ArguesForTarget(s, xs[m], Degraded);
    ArguesForTarget(s, xs[m], Steady);
    assert Run(true, xs, m + 1) == Step(s, xs[m]);
  }

  /** Between two samples after warmup the baseline never leaves the range of its old value and the valid samples. */
  lemma {:induction false} BaselineBetween(xs: seq<Sample>, m: nat, n: nat, least: real, most: real)
    requires m <= n <= |xs| && Run(true, xs, m).phase != Warmup && least <= Run(true, xs, m).baseline <= most
    requires forall k :: m <= k < n && xs[k].ipc >= 0.0 ==> least <= xs[k].ipc <= most
    ensures Run(true, xs, n).phase != Warmup && least <= Run(true, xs, n).baseline <= most
  {
    if m < n {
      BaselineBetween(xs, m, n - 1, least, most);
      WarmupEndsOnce(true, xs, n - 1, n);
      if xs[n - 1].ipc >= 0.0 {
        BaselineMoves(xs, n - 1);
      }
    }
  }

  /** 0.9 to the n-th. */
  function Faded(n: nat): real {
    if n == 0 then 1.0 else 0.9 * Faded(n - 1)
  }

  /**
   While valid samples keep reading x, which does not argue for anything, a steady baseline closes in on x: its distance
   shrinks to nine tenths with each of them.
   */
  lemma {:induction false} BaselineConverges(xs: seq<Sample>, m: nat, n: nat, x: real)
    requires m <= n <= |xs| && Run(true, xs, m).phase == Steady && forall k :: m <= k < n ==> xs[k].ipc == x >= 0.0
    requires 10.0 * x > 8.0 * Run(true, xs, m).baseline
    ensures Run(true, xs, n).phase == Steady && 10.0 * x > 8.0 * Run(true, xs, n).baseline
    ensures Run(true, xs, n).baseline - x == Faded(n - m) * (Run(true, xs, m).baseline - x)
  {
    hide Run;
    if m < n {
      BaselineConverges(xs, m, n - 1, x);
      BaselineMoves(xs, n - 1);
      var d, f := Run(true, xs, m).baseline - x, Faded(n - 1 - m);
      assert Faded(n - m) == 0.9 * f;
      assert 0.9 * (f * d) == 0.9 * f * d;
    }
  }

  // ---- what a settled window is -----------------------------------------------------------------

  /**
   Three samples settle when their sum is positive and the squares of their differences add up to at most 0.0225 times
   the square of the sum: a coefficient of variation of at most 0.15.
   */
  lemma SettledIff(a: real, b: real, c: real)
    ensures Mean([a, b, c]) * 3.0 == a + b + c
    ensures Settled([a, b, c]) <==>
              && a + b + c > 0.0
              && (a - b) * (a - b) + (b - c) * (b - c) + (c - a) * (c - a) <= 0.0225 * ((a + b + c) * (a + b + c))
  {
    var mean := Mean([a, b, c]);
    assert 0.15 * mean * (0.15 * mean) == 0.0225 * (mean * mean);
    assert (a + b + c) * (a + b + c) == 9.0 * (mean * mean);
    SpreadAroundMean(a, b, c, mean);
  }

  /** Deviations from the mean of three numbers, squared, are a third of the squares of their differences. */
  lemma SpreadAroundMean(a: real, b: real, c: real, mean: real)
    requires 3.0 * mean == a + b + c
    ensures 3.0 * (SquaredFrom(a, mean) + SquaredFrom(b, mean) + SquaredFrom(c, mean))
            == (a - b) * (a - b) + (b - c) * (b - c) + (c - a) * (c - a)
  {
    assert c == 3.0 * mean - a - b;
  }
}
