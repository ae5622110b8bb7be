/**
 Splitting requested counter groups into passes that each fit the hardware counter budget (multipass.c). A mask is the
 set of its bit numbers. What setup_counter_groups builds for a mask is a parameter; it builds nothing for the software
 bit, so a mask is looked up without it.
 */
module Multipass {
  import opened Preflight

  const N_GROUP_NAMES := 20
  const SOFTWARE := 15

  type Setup = set<nat> -> seq<CounterGroup>

  /** Bit of the i-th entry of the group table: ascending, with a gap at bit 17. */
  function BitAt(i: nat): (bit: nat)
    ensures bit == SOFTWARE <==> i == SOFTWARE
  {
    if i < 17 then i else i + 1
  }

  /** Hardware slots a mask asks for; the software bit costs nothing. */
  function Cost(setup: Setup, mask: set<nat>): nat {
    var list := setup(mask - {SOFTWARE});
    Requested(list, |list|)
  }

  /** What a mask without the software bit costs is what preflight counts for it, and the bit adds nothing. */
  lemma SoftwareIsFree(setup: Setup, mask: set<nat>)
    requires SOFTWARE !in mask
    ensures Cost(setup, mask) == Cost(setup, mask + {SOFTWARE}) == Requested(setup(mask), |setup(mask)|)
  {
    assert mask - {SOFTWARE} == mask && mask + {SOFTWARE} - {SOFTWARE} == mask;
  }

  predicate Fits(setup: Setup, nmiRunning: bool, mask: set<nat>) {
    Cost(setup, mask) <= AvailableSlots(nmiRunning)
  }

  method Evaluate(setup: Setup, nmiRunning: bool, mask: set<nat>) returns (fits: bool)
    ensures fits == Fits(setup, nmiRunning, mask)
  {
    var r := EvaluateGroups(setup(mask - {SOFTWARE}), nmiRunning);
    return r.fits;
  }

  // ---- the plan as a function of the table entries looked at so far -----------------------------

  datatype Packing = Packing(closed: seq<set<nat>>, current: set<nat>)

  function Pack(setup: Setup, nmiRunning: bool, requested: set<nat>, m: nat): Packing {
    if m == 0 then Packing([], {})
    else
      var p := Pack(setup, nmiRunning, requested, m - 1);
      var bit := BitAt(m - 1);
      if bit !in requested then p else PackOne(setup, nmiRunning, p, bit)
  }

  function PackOne(setup: Setup, nmiRunning: bool, p: Packing, bit: nat): Packing {
    if bit == SOFTWARE then
      if p.current == {} then Packing(p.closed + [{bit}], {}) else Packing(p.closed, p.current + {bit})
    else if p.current != {} && !Fits(setup, nmiRunning, p.current + {bit}) then
      Packing(p.closed + [p.current], {bit})
    else
      Packing(p.closed, p.current + {bit})
  }

  /** All passes, counting one that is still open. */
  function Passes(p: Packing): seq<set<nat>> {
    if p.current == {} then p.closed else p.closed + [p.current]
  }

  function Plan(setup: Setup, nmiRunning: bool, requested: set<nat>): seq<set<nat>> {
    Passes(Pack(setup, nmiRunning, requested, N_GROUP_NAMES))
  }

  /** multipass_plan_build: one array slot for each requested bit is always enough. */
  method PlanBuild(setup: Setup, nmiRunning: bool, requested: set<nat>) returns (plan: seq<set<nat>>)
    ensures plan == Plan(setup, nmiRunning, requested)
  {
    hide Fits, Cost;
    var cap := |requested|;
    var passMask := new set<nat>[if cap == 0 then 1 else cap](_ => {});
    var currentMask: set<nat> := {};
    var passIdx := 0;
    for i := 0 to N_GROUP_NAMES
      invariant passIdx <= passMask.Length
      invariant Pack(setup, nmiRunning, requested, i) == Packing(passMask[..passIdx], currentMask)
    {
      EnoughRoom(setup, nmiRunning, requested, i + 1);
      var bit := BitAt(i);
      if bit !in requested {
        continue;
      }
      if bit == SOFTWARE {
        if currentMask == {} {
          passMask[passIdx] := {bit};
          passIdx := passIdx + 1;
        } else {
          currentMask := currentMask + {bit};
        }
        continue;
      }
      var fits := Evaluate(setup, nmiRunning, currentMask + {bit});
      if currentMask != {} && !fits {
        passMask[passIdx] := currentMask;
        passIdx := passIdx + 1;
        currentMask := {bit};
      } else {
        currentMask := currentMask + {bit};
      }
    }
    EnoughRoom(setup, nmiRunning, requested, N_GROUP_NAMES);
    if currentMask != {} {
      passMask[passIdx] := currentMask;
      passIdx := passIdx + 1;
    }
    return passMask[..passIdx];
  }

  // ---- partition --------------------------------------------------------------------------------

  /** Requested bits found among the first m table entries. */
  ghost function KnownRequested(requested: set<nat>, m: nat): set<nat> {
    if m == 0 then {}
    else KnownRequested(requested, m - 1) + (if BitAt(m - 1) in requested then {BitAt(m - 1)} else {})
  }

  /** The known bits are the group bits named in the table: 0 to 16 and 18 to 20. */
  lemma {:induction false} KnownMeans(requested: set<nat>, m: nat, bit: nat)
    ensures bit in KnownRequested(requested, m) <==> bit in requested && exists i: nat :: i < m && BitAt(i) == bit
  {
    if m > 0 {
      KnownMeans(requested, m - 1, bit);
      if BitAt(m - 1) == bit {
      }
    }
  }

  /** A plan is about the bits 0 to 16 and 18 to 20 of a request. */
  lemma KnownBits(requested: set<nat>, bit: nat)
    ensures bit in KnownRequested(requested, N_GROUP_NAMES) <==> bit in requested && bit <= 20 && bit != 17
  {
    KnownMeans(requested, N_GROUP_NAMES, bit);
    if bit <= 20 && bit != 17 {
      assert BitAt(if bit < 17 then bit else bit - 1) == bit;
    }
  }

  ghost function UnionOf(passes: seq<set<nat>>, n: nat): set<nat>
    requires n <= |passes|
  {
    if n == 0 then {} else UnionOf(passes, n - 1) + passes[n - 1]
  }

  ghost predicate Before(s: set<nat>, t: set<nat>) {
    forall a, b :: a in s && b in t ==> a < b
  }

  /** Every bit of an earlier pass is below every bit of a later one. */
  ghost predicate InTableOrder(passes: seq<set<nat>>) {
    forall i, j {:trigger Before(passes[i], passes[j])} :: 0 <= i < j < |passes| ==> Before(passes[i], passes[j])
  }

  ghost predicate NoneEmpty(passes: seq<set<nat>>) {
    forall i :: 0 <= i < |passes| ==> passes[i] != {}
  }

  /** A pass fits, or has no two hardware groups. */
  ghost predicate FitsOrAlone(setup: Setup, nmiRunning: bool, pass: set<nat>) {
    Fits(setup, nmiRunning, pass) || |pass - {SOFTWARE}| <= 1
  }

  ghost predicate GoodPasses(setup: Setup, nmiRunning: bool, passes: seq<set<nat>>) {
    && NoneEmpty(passes) && InTableOrder(passes)
    && forall i :: 0 <= i < |passes| ==> FitsOrAlone(setup, nmiRunning, passes[i])
  }

  lemma {:induction false} UnionPrefix(passes: seq<set<nat>>, more: seq<set<nat>>, n: nat)
    requires n <= |passes|
    ensures UnionOf(passes + more, n) == UnionOf(passes, n)
  {
    if n > 0 {
      UnionPrefix(passes, more, n - 1);
    }
  }

  lemma UnionSnoc(passes: seq<set<nat>>, last: set<nat>)
    ensures UnionOf(passes + [last], |passes| + 1) == UnionOf(passes, |passes|) + last
  {
    UnionPrefix(passes, [last], |passes|);
  }

  lemma {:induction false} InUnion(passes: seq<set<nat>>, n: nat, i: nat)
    requires i < n <= |passes|
    ensures passes[i] <= UnionOf(passes, n)
  {
    if i < n - 1 {
      InUnion(passes, n - 1, i);
    }
  }

  lemma {:induction false} KnownBelow(requested: set<nat>, m: nat)
    ensures forall b :: b in KnownRequested(requested, m) ==> b < BitAt(m) && b in requested
  {
    if m > 0 {
      KnownBelow(requested, m - 1);
    }
  }

  /** Packing up to a table entry: the passes so far hold the requested bits so far, well packed. */
  ghost predicate PackedWell(setup: Setup, nmiRunning: bool, known: set<nat>, p: Packing) {
    var passes := Passes(p);
    && GoodPasses(setup, nmiRunning, passes)
    && UnionOf(passes, |passes|) == known
    && |passes| <= |known|
    && (p.current == {} ==> p.closed == [] || p.closed == [{SOFTWARE}])
  }

  lemma AppendGood(setup: Setup, nmiRunning: bool, passes: seq<set<nat>>, bit: nat)
    requires GoodPasses(setup, nmiRunning, passes)
    requires forall b :: b in UnionOf(passes, |passes|) ==> b < bit
    ensures GoodPasses(setup, nmiRunning, passes + [{bit}])
  {
    var after := passes + [{bit}];
    assert {bit} - {SOFTWARE} <= {bit};
    SizeOfSubset({bit} - {SOFTWARE}, {bit});
    forall i, j | 0 <= i < j < |after|
      ensures Before(after[i], after[j])
    {
      InUnion(passes, |passes|, i);
      if j < |passes| {
        assert Before(passes[i], passes[j]);
      }
    }
  }

  lemma ExtendGood(setup: Setup, nmiRunning: bool, front: seq<set<nat>>, last: set<nat>, bit: nat)
    requires GoodPasses(setup, nmiRunning, front + [last]) && FitsOrAlone(setup, nmiRunning, last + {bit})
    requires forall b :: b in UnionOf(front, |front|) ==> b < bit
    ensures GoodPasses(setup, nmiRunning, front + [last + {bit}])
  {
    var before, after := front + [last], front + [last + {bit}];
    forall i | 0 <= i < |after|
      ensures FitsOrAlone(setup, nmiRunning, after[i]) && after[i] != {}
    {
      assert i < |front| ==> after[i] == before[i];
    }
    forall i, j | 0 <= i < j < |after|
      ensures Before(after[i], after[j])
    {
      assert Before(before[i], before[j]);
      InUnion(front, |front|, i);
    }
  }

  lemma SizeOfSubset(a: set<nat>, b: set<nat>)
    requires a <= b
    ensures |a| <= |b|
  {
    assert b == a + (b - a);
  }

  lemma AppendWell(setup: Setup, nmiRunning: bool, known: set<nat>, p: Packing, bit: nat, q: Packing)
    requires PackedWell(setup, nmiRunning, known, p) && forall b :: b in known ==> b < bit
    requires Passes(q) == Passes(p) + [{bit}] && (q.current == {} ==> q.closed == [{SOFTWARE}])
    ensures PackedWell(setup, nmiRunning, known + {bit}, q)
  {
    AppendGood(setup, nmiRunning, Passes(p), bit);
    UnionSnoc(Passes(p), {bit});
    assert |known + {bit}| == |known| + 1;
  }

  lemma ExtendWell(setup: Setup, nmiRunning: bool, known: set<nat>, p: Packing, bit: nat)
    requires PackedWell(setup, nmiRunning, known, p) && forall b :: b in known ==> b < bit
    requires p.current != {} && FitsOrAlone(setup, nmiRunning, p.current + {bit})
    ensures PackedWell(setup, nmiRunning, known + {bit}, Packing(p.closed, p.current + {bit}))
  {
    hide GoodPasses, FitsOrAlone, UnionOf;
    UnionSnoc(p.closed, p.current);
    UnionSnoc(p.closed, p.current + {bit});
    ExtendGood(setup, nmiRunning, p.closed, p.current, bit);
    assert |known + {bit}| == |known| + 1;
  }

  lemma PackOneWell(setup: Setup, nmiRunning: bool, known: set<nat>, p: Packing, bit: nat)
    requires PackedWell(setup, nmiRunning, known, p) && forall b :: b in known ==> b < bit
    ensures PackedWell(setup, nmiRunning, known + {bit}, PackOne(setup, nmiRunning, p, bit))
  {
    if p.current == {} {
      assert p.closed == [{SOFTWARE}] ==> SOFTWARE in UnionOf(p.closed, 1);
      AppendWell(setup, nmiRunning, known, p, bit, PackOne(setup, nmiRunning, p, bit));
    } else if bit == SOFTWARE {
      assert FitsOrAlone(setup, nmiRunning, Passes(p)[|p.closed|]);
      assert (p.current + {SOFTWARE}) - {SOFTWARE} == p.current - {SOFTWARE};
      ExtendWell(setup, nmiRunning, known, p, bit);
    } else if Fits(setup, nmiRunning, p.current + {bit}) {
      ExtendWell(setup, nmiRunning, known, p, bit);
    } else {
      AppendWell(setup, nmiRunning, known, p, bit, Packing(p.closed + [p.current], {bit}));
    }
  }

  lemma {:induction false} PackWell(setup: Setup, nmiRunning: bool, requested: set<nat>, m: nat)
    ensures PackedWell(setup, nmiRunning, KnownRequested(requested, m), Pack(setup, nmiRunning, requested, m))
  {
    hide PackedWell, PackOne;
    if m == 0 {
      EmptyWell(setup, nmiRunning);
      assert KnownRequested(requested, 0) == {};
    } else {
      PackWell(setup, nmiRunning, requested, m - 1);
      KnownBelow(requested, m - 1);
      var bit, known := BitAt(m - 1), KnownRequested(requested, m - 1);
      if bit in requested {
        PackOneWell(setup, nmiRunning, known, Pack(setup, nmiRunning, requested, m - 1), bit);
      } else {
        assert KnownRequested(requested, m) == known;
      }
    }
  }

  lemma EmptyWell(setup: Setup, nmiRunning: bool)
    ensures PackedWell(setup, nmiRunning, {}, Packing([], {}))
  {
  }

  lemma EnoughRoom(setup: Setup, nmiRunning: bool, requested: set<nat>, m: nat)
    ensures |Passes(Pack(setup, nmiRunning, requested, m))| <= |requested|
  {
    PackWell(setup, nmiRunning, requested, m);
    KnownBelow(requested, m);
    SizeOfSubset(KnownRequested(requested, m), requested);
  }

  /**
   The passes partition the known requested bits: none is empty, they are disjoint and in table order, together they
   are exactly the requested bits the table knows, and each fits the budget or holds one hardware group.
   */
  lemma PlanPartitions(setup: Setup, nmiRunning: bool, requested: set<nat>)
    ensures var plan := Plan(setup, nmiRunning, requested);
            && NoneEmpty(plan) && InTableOrder(plan) && |plan| <= |requested|
            && (forall i, j :: 0 <= i < j < |plan| ==> plan[i] !! plan[j])
            && UnionOf(plan, |plan|) == KnownRequested(requested, N_GROUP_NAMES)
            && forall i :: 0 <= i < |plan| ==> FitsOrAlone(setup, nmiRunning, plan[i])
  {
    PackWell(setup, nmiRunning, requested, N_GROUP_NAMES);
    EnoughRoom(setup, nmiRunning, requested, N_GROUP_NAMES);
    var plan := Plan(setup, nmiRunning, requested);
    forall i, j | 0 <= i < j < |plan|
      ensures plan[i] !! plan[j]
    {
      assert Before(plan[i], plan[j]);
    }
  }

  // ---- how many passes --------------------------------------------------------------------------

  /** Sum of the single-group costs of the hardware groups of a mask, over the first m table entries. */
  ghost function Weight(setup: Setup, mask: set<nat>, m: nat): nat {
    if m == 0 then 0
    else
      var bit := BitAt(m - 1);
      Weight(setup, mask, m - 1) + (if bit != SOFTWARE && bit in mask then Cost(setup, {bit}) else 0)
  }

  /** No two groups share a counter: masks without a common bit cost together what they cost one by one. */
  ghost predicate Additive(setup: Setup, requested: set<nat>) {
    forall a: set<nat>, b: set<nat> {:trigger Cost(setup, a), Cost(setup, b)} ::
      a + b <= requested && a !! b ==> Cost(setup, a + b) == Cost(setup, a) + Cost(setup, b)
  }

  /** Masks of these bits cost what they weigh. */
  ghost predicate CostsWeigh(setup: Setup, known: set<nat>) {
    forall mask: set<nat> {:trigger Cost(setup, mask)} ::
      mask <= known ==> Cost(setup, mask) == Weight(setup, mask, N_GROUP_NAMES)
  }

  /** Another way to run the known requested groups, with every pass within budget. */
  ghost predicate IsFittingPlan(setup: Setup, nmiRunning: bool, requested: set<nat>, other: seq<set<nat>>) {
    && UnionOf(other, |other|) == KnownRequested(requested, N_GROUP_NAMES)
    && forall i :: 0 <= i < |other| ==> Fits(setup, nmiRunning, other[i])
  }

  ghost function WeightOf(setup: Setup, passes: seq<set<nat>>, n: nat): nat
    requires n <= |passes|
  {
    if n == 0 then 0 else WeightOf(setup, passes, n - 1) + Weight(setup, passes[n - 1], N_GROUP_NAMES)
  }

  lemma {:induction false} WeightOfUnion(setup: Setup, a: set<nat>, b: set<nat>, m: nat)
    ensures Weight(setup, a + b, m) <= Weight(setup, a, m) + Weight(setup, b, m)
    ensures a !! b ==> Weight(setup, a + b, m) == Weight(setup, a, m) + Weight(setup, b, m)
    ensures Weight(setup, a, m) <= Weight(setup, a + b, m)
  {
    if m > 0 {
      WeightOfUnion(setup, a, b, m - 1);
    }
  }

  lemma {:induction false} WeightOfNone(setup: Setup, m: nat)
    ensures Weight(setup, {}, m) == 0
  {
    if m > 0 {
      WeightOfNone(setup, m - 1);
    }
  }

  /** A bit that no table entry before m has does not count there. */
  lemma {:induction false} WeightWithout(setup: Setup, mask: set<nat>, bit: nat, m: nat)
    requires forall i: nat :: i < m ==> BitAt(i) != bit
    ensures Weight(setup, mask - {bit}, m) == Weight(setup, mask, m)
  {
    if m > 0 {
      WeightWithout(setup, mask, bit, m - 1);
    }
  }

  lemma NothingCosts(setup: Setup, requested: set<nat>)
    requires Additive(setup, requested)
    ensures Cost(setup, {}) == Cost(setup, {SOFTWARE}) == 0
  {
    var none: set<nat> := {};
    assert none + none == none && {SOFTWARE} - {SOFTWARE} == none - {SOFTWARE};
    assert Cost(setup, none + none) == Cost(setup, none) + Cost(setup, none);
  }

  lemma CostOfBoth(setup: Setup, requested: set<nat>, a: set<nat>, b: set<nat>)
    requires Additive(setup, requested) && a + b <= requested && a !! b
    ensures Cost(setup, a + b) == Cost(setup, a) + Cost(setup, b)
  {
    hide Cost;
  }

  lemma {:induction false} CostIsWeight(setup: Setup, requested: set<nat>, mask: set<nat>, m: nat)
    requires Additive(setup, requested) && mask <= KnownRequested(requested, m) && mask <= requested
    ensures Cost(setup, mask) == Weight(setup, mask, m)
  {
    hide Cost, Additive;
    NothingCosts(setup, requested);
    if m == 0 {
      assert mask == {};
    } else {
      var bit := BitAt(m - 1);
      CostIsWeight(setup, requested, mask - {bit}, m - 1);
      WeightWithout(setup, mask, bit, m - 1);
      if bit in mask {
        assert (mask - {bit}) + {bit} == mask;
        CostOfBoth(setup, requested, mask - {bit}, {bit});
      } else {
        assert mask - {bit} == mask;
      }
    }
  }

  lemma AdditiveWeighs(setup: Setup, requested: set<nat>)
    requires Additive(setup, requested)
    ensures CostsWeigh(setup, KnownRequested(requested, N_GROUP_NAMES))
  {
    hide Additive, Weight, KnownRequested;
    KnownBelow(requested, N_GROUP_NAMES);
    forall mask: set<nat> {:trigger Cost(setup, mask)} | mask <= KnownRequested(requested, N_GROUP_NAMES)
      ensures Cost(setup, mask) == Weight(setup, mask, N_GROUP_NAMES)
    {
      CostIsWeight(setup, requested, mask, N_GROUP_NAMES);
    }
  }

  /** Passes of a cover weigh at least what they cover; in table order, exactly that. */
  lemma {:induction false} WeightCovered(setup: Setup, passes: seq<set<nat>>, n: nat)
    requires n <= |passes|
    ensures Weight(setup, UnionOf(passes, n), N_GROUP_NAMES) <= WeightOf(setup, passes, n)
    ensures InTableOrder(passes) ==> Weight(setup, UnionOf(passes, n), N_GROUP_NAMES) == WeightOf(setup, passes, n)
  {
    if n == 0 {
      WeightOfNone(setup, N_GROUP_NAMES);
    } else {
      WeightCovered(setup, passes, n - 1);
      WeightOfUnion(setup, UnionOf(passes, n - 1), passes[n - 1], N_GROUP_NAMES);
      if InTableOrder(passes) {
        UnionBelow(passes, n - 1);
      }
    }
  }

  lemma {:induction false} UnionBelow(passes: seq<set<nat>>, n: nat)
    requires n < |passes| && InTableOrder(passes)
    ensures forall m :: n <= m < |passes| ==> UnionOf(passes, n) !! passes[m]
  {
    if n > 0 {
      UnionBelow(passes, n - 1);
      forall m | n <= m < |passes|
        ensures UnionOf(passes, n) !! passes[m]
      {
        assert Before(passes[n - 1], passes[m]);
      }
    }
  }

  /** Two neighbouring passes of next-fit packing would not fit in one. */
  ghost predicate TightAt(setup: Setup, nmiRunning: bool, passes: seq<set<nat>>, i: nat)
    requires i + 1 < |passes|
  {
    Weight(setup, passes[i], N_GROUP_NAMES) + Weight(setup, passes[i + 1], N_GROUP_NAMES) > AvailableSlots(nmiRunning)
  }

  /** Every pass but a leading software-only one is tight against its successor. */
  ghost predicate Tight(setup: Setup, nmiRunning: bool, passes: seq<set<nat>>) {
    forall i: nat :: i + 1 < |passes| ==> (i == 0 && passes[0] == {SOFTWARE}) || TightAt(setup, nmiRunning, passes, i)
  }

  /** Opening a pass for a group that did not fit keeps neighbours tight. */
  lemma AppendTight(setup: Setup, nmiRunning: bool, front: seq<set<nat>>, last: set<nat>, bit: nat)
    requires Tight(setup, nmiRunning, front + [last])
    requires Weight(setup, last + {bit}, N_GROUP_NAMES) > AvailableSlots(nmiRunning)
    ensures Tight(setup, nmiRunning, front + [last] + [{bit}])
  {
    var before, after := front + [last], front + [last] + [{bit}];
    WeightOfUnion(setup, last, {bit}, N_GROUP_NAMES);
    forall i: nat | i + 1 < |after|
      ensures (i == 0 && after[0] == {SOFTWARE}) || TightAt(setup, nmiRunning, after, i)
    {
      assert i + 1 < |before| ==> (i == 0 && before[0] == {SOFTWARE}) || TightAt(setup, nmiRunning, before, i);
    }
  }

  /** Growing the last pass keeps neighbours tight. */
  lemma ExtendTight(setup: Setup, nmiRunning: bool, front: seq<set<nat>>, last: set<nat>, bit: nat)
    requires Tight(setup, nmiRunning, front + [last])
    ensures Tight(setup, nmiRunning, front + [last + {bit}])
  {
    var before, after := front + [last], front + [last + {bit}];
    WeightOfUnion(setup, last, {bit}, N_GROUP_NAMES);
    forall i: nat | i + 1 < |after|
      ensures (i == 0 && after[0] == {SOFTWARE}) || TightAt(setup, nmiRunning, after, i)
    {
      assert (i == 0 && before[0] == {SOFTWARE}) || TightAt(setup, nmiRunning, before, i);
    }
  }

  lemma PackOneTight(setup: Setup, nmiRunning: bool, requested: set<nat>, known: set<nat>, p: Packing, bit: nat)
    requires CostsWeigh(setup, requested) && PackedWell(setup, nmiRunning, known, p)
    requires known <= requested && bit in requested && bit !in known
    requires Tight(setup, nmiRunning, Passes(p))
    ensures Tight(setup, nmiRunning, Passes(PackOne(setup, nmiRunning, p, bit)))
  {
    if p.current != {} {
      UnionSnoc(p.closed, p.current);
      if bit == SOFTWARE || Fits(setup, nmiRunning, p.current + {bit}) {
        ExtendTight(setup, nmiRunning, p.closed, p.current, bit);
      } else {
        assert p.current + {bit} <= requested;
        AppendTight(setup, nmiRunning, p.closed, p.current, bit);
      }
    }
  }

  lemma NothingTight(setup: Setup, nmiRunning: bool)
    ensures Tight(setup, nmiRunning, Passes(Packing([], {})))
  {
  }

  lemma {:induction false} KnownGrows(requested: set<nat>, m: nat, n: nat)
    requires m <= n
    ensures KnownRequested(requested, m) <= KnownRequested(requested, n)
  {
    if m < n {
      KnownGrows(requested, m, n - 1);
    }
  }

  lemma {:induction false} PackTight(setup: Setup, nmiRunning: bool, requested: set<nat>, m: nat)
    requires Additive(setup, requested) && m <= N_GROUP_NAMES
    ensures Tight(setup, nmiRunning, Passes(Pack(setup, nmiRunning, requested, m)))
  {
    hide Additive, CostsWeigh, Tight, PackedWell, PackOne, Passes, KnownRequested;
    if m == 0 {
      NothingTight(setup, nmiRunning);
    } else {
      PackTight(setup, nmiRunning, requested, m - 1);
      PackWell(setup, nmiRunning, requested, m - 1);
      KnownBelow(requested, m - 1);
      if BitAt(m - 1) in requested {
        var known := KnownRequested(requested, N_GROUP_NAMES);
        AdditiveWeighs(setup, requested);
        KnownGrows(requested, m - 1, N_GROUP_NAMES);
        KnownMeans(requested, N_GROUP_NAMES, BitAt(m - 1));
        PackOneTight(setup, nmiRunning, known, KnownRequested(requested, m - 1),
                     Pack(setup, nmiRunning, requested, m - 1), BitAt(m - 1));
      }
    }
  }

  /** Tight pairs each weigh more than the budget. */
  lemma {:induction false} PairsAreHeavy(setup: Setup, nmiRunning: bool, passes: seq<set<nat>>, from: nat, n: nat)
    requires from <= n <= |passes|
    requires forall i: nat :: from <= i && i + 1 < |passes| ==> TightAt(setup, nmiRunning, passes, i)
    ensures (n - from) / 2 * (AvailableSlots(nmiRunning) + 1) <= WeightOf(setup, passes, n)
  {
    if n - from >= 2 {
      PairsAreHeavy(setup, nmiRunning, passes, from, n - 2);
      assert TightAt(setup, nmiRunning, passes, n - 2);
      assert WeightOf(setup, passes, n) == WeightOf(setup, passes, n - 2)
                                           + Weight(setup, passes[n - 2], N_GROUP_NAMES)
                                           + Weight(setup, passes[n - 1], N_GROUP_NAMES);
    }
  }

  lemma {:induction false} FittingIsLight(setup: Setup, nmiRunning: bool, known: set<nat>, other: seq<set<nat>>,
                                          n: nat)
    requires n <= |other| && CostsWeigh(setup, known)
    requires forall i :: 0 <= i < |other| ==> other[i] <= known && Fits(setup, nmiRunning, other[i])
    ensures WeightOf(setup, other, n) <= n * AvailableSlots(nmiRunning)
  {
    if n > 0 {
      FittingIsLight(setup, nmiRunning, known, other, n - 1);
      assert Cost(setup, other[n - 1]) == Weight(setup, other[n - 1], N_GROUP_NAMES);
    }
  }

  /** The known groups of a mask weigh no more than any plan of fitting passes has room for. */
  lemma RoomInFittingPlan(setup: Setup, nmiRunning: bool, requested: set<nat>, other: seq<set<nat>>)
    requires Additive(setup, requested) && IsFittingPlan(setup, nmiRunning, requested, other)
    ensures Weight(setup, KnownRequested(requested, N_GROUP_NAMES), N_GROUP_NAMES)
            <= |other| * AvailableSlots(nmiRunning)
  {
    var known := KnownRequested(requested, N_GROUP_NAMES);
    AdditiveWeighs(setup, requested);
    forall i | 0 <= i < |other|
      ensures other[i] <= known
    {
      InUnion(other, |other|, i);
    }
    WeightCovered(setup, other, |other|);
    FittingIsLight(setup, nmiRunning, known, other, |other|);
  }

  /** Tight passes that cover the known groups weigh more than half as many budgets. */
  lemma TightIsHeavy(setup: Setup, nmiRunning: bool, known: set<nat>, passes: seq<set<nat>>, from: nat)
    requires InTableOrder(passes) && Tight(setup, nmiRunning, passes) && UnionOf(passes, |passes|) == known
    requires from <= |passes| && (from == 0 ==> passes != [] && passes[0] != {SOFTWARE})
    ensures (|passes| - from) / 2 * (AvailableSlots(nmiRunning) + 1) <= Weight(setup, known, N_GROUP_NAMES)
  {
    PairsAreHeavy(setup, nmiRunning, passes, from, |passes|);
    WeightCovered(setup, passes, |passes|);
  }

  lemma TightIsShort(setup: Setup, nmiRunning: bool, requested: set<nat>, plan: seq<set<nat>>, other: seq<set<nat>>)
    requires Additive(setup, requested) && IsFittingPlan(setup, nmiRunning, requested, other)
    requires InTableOrder(plan) && Tight(setup, nmiRunning, plan) && plan != [] && other != []
    requires UnionOf(plan, |plan|) == KnownRequested(requested, N_GROUP_NAMES)
    ensures |plan| < 2 * |other| + (if plan[0] == {SOFTWARE} then 1 else 0)
  {
    hide Weight, Additive, Tight, InTableOrder, KnownRequested, UnionOf, Fits, AvailableSlots;
    var known := UnionOf(plan, |plan|);
    var from := if plan[0] == {SOFTWARE} then 1 else 0;
    TightIsHeavy(setup, nmiRunning, known, plan, from);
    RoomInFittingPlan(setup, nmiRunning, requested, other);
    HalfIsFewer((|plan| - from) / 2, |other|, AvailableSlots(nmiRunning), Weight(setup, known, N_GROUP_NAMES));
  }

  /**
   When costs add up, the plan has fewer than twice as many passes as any plan whose passes all fit, not counting a
   leading pass of software counters alone.
   */
  lemma PlanIsShort(setup: Setup, nmiRunning: bool, requested: set<nat>, other: seq<set<nat>>)
    requires Additive(setup, requested) && IsFittingPlan(setup, nmiRunning, requested, other)
    requires KnownRequested(requested, N_GROUP_NAMES) != {}
    ensures var plan := Plan(setup, nmiRunning, requested);
            plan != [] && |plan| < 2 * |other| + (if plan[0] == {SOFTWARE} then 1 else 0)
  {
    PlanPartitions(setup, nmiRunning, requested);
    PackTight(setup, nmiRunning, requested, N_GROUP_NAMES);
    TightIsShort(setup, nmiRunning, requested, Plan(setup, nmiRunning, requested), other);
  }

  /** Two neighbouring passes of a plan never fit in one, unless the first is software counters alone at the front. */
  lemma NeighboursDoNotFit(setup: Setup, nmiRunning: bool, requested: set<nat>, i: nat)
    requires Additive(setup, requested) && i + 1 < |Plan(setup, nmiRunning, requested)|
    ensures var plan := Plan(setup, nmiRunning, requested);
            (i == 0 && plan[0] == {SOFTWARE}) || !Fits(setup, nmiRunning, plan[i] + plan[i + 1])
  {
    hide Plan, Pack, KnownRequested, Additive, CostsWeigh, UnionOf, FitsOrAlone, InTableOrder, Fits, Tight, NoneEmpty;
    var plan, known := Plan(setup, nmiRunning, requested), KnownRequested(requested, N_GROUP_NAMES);
    PlanPartitions(setup, nmiRunning, requested);
    PlanIsTight(setup, nmiRunning, requested);
    AdditiveWeighs(setup, requested);
    InUnion(plan, |plan|, i);
    InUnion(plan, |plan|, i + 1);
    if i > 0 || plan[0] != {SOFTWARE} {
      TightMeans(setup, nmiRunning, known, plan, i);
    }
  }

  lemma PlanIsTight(setup: Setup, nmiRunning: bool, requested: set<nat>)
    requires Additive(setup, requested)
    ensures Tight(setup, nmiRunning, Plan(setup, nmiRunning, requested))
  {
    PackTight(setup, nmiRunning, requested, N_GROUP_NAMES);
  }

  lemma TightMeans(setup: Setup, nmiRunning: bool, known: set<nat>, plan: seq<set<nat>>, i: nat)
    requires CostsWeigh(setup, known) && Tight(setup, nmiRunning, plan) && InTableOrder(plan)
    requires i + 1 < |plan| && plan[i] <= known && plan[i + 1] <= known && (i > 0 || plan[0] != {SOFTWARE})
    ensures !Fits(setup, nmiRunning, plan[i] + plan[i + 1])
  {
    hide CostsWeigh, Cost, Weight;
    assert Before(plan[i], plan[i + 1]) && TightAt(setup, nmiRunning, plan, i);
    WeightOfUnion(setup, plan[i], plan[i + 1], N_GROUP_NAMES);
    CostWeighs(setup, known, plan[i] + plan[i + 1]);
  }

  lemma CostWeighs(setup: Setup, known: set<nat>, mask: set<nat>)
    requires CostsWeigh(setup, known) && mask <= known
    ensures Cost(setup, mask) == Weight(setup, mask, N_GROUP_NAMES)
  {
    hide Cost, Weight;
  }

  lemma HalfIsFewer(pairs: nat, k: nat, slots: nat, weight: nat)
    requires pairs * (slots + 1) <= weight <= k * slots && k > 0
    ensures pairs < k
  {
    assert pairs * (slots + 1) == pairs * slots + pairs;
    assert (k - pairs) * slots == k * slots - pairs * slots;
    if pairs > 0 {
      FactorIsPositive(k - pairs, slots);
    }
  }

  lemma FactorIsPositive(x: int, y: nat)
    requires x * y > 0
    ensures x > 0
  {
  }

  // ---- when software counters get a pass of their own -------------------------------------------

  lemma {:induction false} NothingBelow(setup: Setup, nmiRunning: bool, requested: set<nat>, m: nat)
    requires m <= SOFTWARE && forall b: nat :: b < SOFTWARE ==> b !in requested
    ensures Pack(setup, nmiRunning, requested, m) == Packing([], {})
  {
    if m > 0 {
      NothingBelow(setup, nmiRunning, requested, m - 1);
    }
  }

  lemma {:induction false} ClosedStays(setup: Setup, nmiRunning: bool, requested: set<nat>, m: nat, n: nat)
    requires m <= n
    ensures Pack(setup, nmiRunning, requested, m).closed <= Pack(setup, nmiRunning, requested, n).closed
  {
    if m < n {
      ClosedStays(setup, nmiRunning, requested, m, n - 1);
    }
  }

  /** Software counters run in a pass of their own exactly when they are requested and no earlier group is. */
  lemma SoftwareAloneIff(setup: Setup, nmiRunning: bool, requested: set<nat>)
    ensures var plan := Plan(setup, nmiRunning, requested);
            (plan != [] && plan[0] == {SOFTWARE})
            <==> SOFTWARE in requested && forall b: nat :: b < SOFTWARE ==> b !in requested
  {
    var plan := Plan(setup, nmiRunning, requested);
    if SOFTWARE in requested && forall b: nat :: b < SOFTWARE ==> b !in requested {
      NothingBelow(setup, nmiRunning, requested, SOFTWARE);
      assert Pack(setup, nmiRunning, requested, SOFTWARE + 1) == Packing([{SOFTWARE}], {});
      ClosedStays(setup, nmiRunning, requested, SOFTWARE + 1, N_GROUP_NAMES);
    }
    if plan != [] && plan[0] == {SOFTWARE} {
      PlanPartitions(setup, nmiRunning, requested);
      KnownBelow(requested, N_GROUP_NAMES);
      InUnion(plan, |plan|, 0);
      forall b: nat | b < SOFTWARE
        ensures b !in requested
      {
        NotBeforeFirst(requested, plan, b);
      }
    }
  }

  lemma NotBeforeFirst(requested: set<nat>, plan: seq<set<nat>>, b: nat)
    requires plan != [] && plan[0] == {SOFTWARE} && InTableOrder(plan) && b < SOFTWARE
    requires UnionOf(plan, |plan|) == KnownRequested(requested, N_GROUP_NAMES)
    ensures b !in requested
  {
    KnownMeans(requested, N_GROUP_NAMES, b);
    assert BitAt(b) == b;
    forall i | 0 <= i < |plan|
      ensures b !in plan[i]
    {
      if i > 0 {
        assert Before(plan[0], plan[i]) && SOFTWARE in plan[0];
      }
    }
    if b in requested {
      InSome(plan, |plan|, b);
      assert false;
    }
  }

  lemma {:induction false} InSome(passes: seq<set<nat>>, n: nat, b: nat)
    requires n <= |passes| && b in UnionOf(passes, n)
    ensures exists i :: 0 <= i < n && b in passes[i]
  {
    if b !in passes[n - 1] {
      InSome(passes, n - 1, b);
    }
  }

  lemma SoftwareAndFloatKnown()
    ensures KnownRequested({SOFTWARE, SOFTWARE + 1}, N_GROUP_NAMES) == {SOFTWARE, SOFTWARE + 1}
  {
    var requested := {SOFTWARE, SOFTWARE + 1};
    KnownBelow(requested, N_GROUP_NAMES);
    assert BitAt(15) == 15 && BitAt(16) == 16;
    KnownMeans(requested, N_GROUP_NAMES, SOFTWARE);
    KnownMeans(requested, N_GROUP_NAMES, SOFTWARE + 1);
  }

  /** The extra pass is real: for software and float counters the plan has two passes though one would fit. */
  lemma SoftwareFirstCostsAPass(setup: Setup, nmiRunning: bool)
    requires Fits(setup, nmiRunning, {SOFTWARE, SOFTWARE + 1})
    ensures var requested := {SOFTWARE, SOFTWARE + 1};
            && IsFittingPlan(setup, nmiRunning, requested, [requested])
            && |Plan(setup, nmiRunning, requested)| == 2
  {
    var requested := {SOFTWARE, SOFTWARE + 1};
    SoftwareAndFloatKnown();
    assert UnionOf([requested], 1) == requested;
    PlanPartitions(setup, nmiRunning, requested);
    SoftwareAloneIff(setup, nmiRunning, requested);
    TwoPasses(Plan(setup, nmiRunning, requested));
  }

  lemma TwoPasses(plan: seq<set<nat>>)
    requires UnionOf(plan, |plan|) == {SOFTWARE, SOFTWARE + 1} && |plan| <= |{SOFTWARE, SOFTWARE + 1}|
    requires plan != [] ==> plan[0] == {SOFTWARE}
    ensures |plan| == 2
  {
    assert |{SOFTWARE, SOFTWARE + 1}| == 2;
    assert SOFTWARE + 1 in UnionOf(plan, |plan|);
  }

  /**
   When costs add up and all known groups asked for fit in one pass, the plan is that pass; or two passes when software
   counters come first and another group follows.
   */
  lemma OnePassIff(setup: Setup, nmiRunning: bool, requested: set<nat>)
    requires Additive(setup, requested)
    requires var known := KnownRequested(requested, N_GROUP_NAMES); known != {} && Fits(setup, nmiRunning, known)
    ensures var known := KnownRequested(requested, N_GROUP_NAMES);
            var alone := SOFTWARE in requested && forall b: nat :: b < SOFTWARE ==> b !in requested;
            |Plan(setup, nmiRunning, requested)| == if alone && known != {SOFTWARE} then 2 else 1
  {
    var known, plan := KnownRequested(requested, N_GROUP_NAMES), Plan(setup, nmiRunning, requested);
    OneInUnion(known);
    PlanIsShort(setup, nmiRunning, requested, [known]);
    SoftwareAloneIff(setup, nmiRunning, requested);
    PlanPartitions(setup, nmiRunning, requested);
    hide Plan, KnownRequested, Additive, Fits, FitsOrAlone, InTableOrder;
    if |plan| == 1 {
      assert plan == [plan[0]];
      OneInUnion(plan[0]);
    } else if plan[0] == {SOFTWARE} {
      MoreThanFirst(plan);
    }
  }

  lemma OneInUnion(pass: set<nat>)
    ensures UnionOf([pass], 1) == pass
  {
  }

  /** Disjoint non-empty passes hold more than the first of them. */
  lemma MoreThanFirst(plan: seq<set<nat>>)
    requires |plan| > 1 && NoneEmpty(plan) && plan[0] !! plan[1]
    ensures UnionOf(plan, |plan|) != plan[0]
  {
    InUnion(plan, |plan|, 1);
    assert plan[1] != {};
    var b :| b in plan[1];
    assert b !in plan[0];
  }
}
