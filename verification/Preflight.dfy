/**
 Will the requested counters fit the general-purpose hardware counter slots (preflight.c)? The groups that compete for
 the slots are inserted one by one into a list kept in descending order; when the total is over budget, groups are
 suggested for dropping from the front of that list.
 */
module Preflight {
  datatype CounterType = Raw | HwCache | Software | Other

  /** One counter group; devices holds the device type of each of its counters. */
  datatype CounterGroup = CounterGroup(name: string, mask: set<nat>, typeId: CounterType, devices: seq<CounterType>)

  datatype Usage = Usage(name: string, mask: set<nat>, count: nat)

  /** General-purpose slots of a core; a running NMI watchdog takes one of them. */
  const CORE_SLOTS := 6

  function AvailableSlots(nmiRunning: bool): (slots: nat)
    ensures slots + (if nmiRunning then 1 else 0) == CORE_SLOTS
  {
    if nmiRunning then 5 else 6
  }

  // ---- what a group uses ------------------------------------------------------------------------

  function RawDevices(devices: seq<CounterType>, m: nat): (n: nat)
    requires m <= |devices|
    ensures n <= m
  {
    if m == 0 then 0 else RawDevices(devices, m - 1) + (if devices[m - 1] == Raw then 1 else 0)
  }

  /**
   * Slots a group competes for: all counters of a cache group, the raw-device counters of a raw group,
   * otherwise none.
   */
  function SlotsOf(g: CounterGroup): nat {
    match g.typeId
    case HwCache => |g.devices|
    case Raw => RawDevices(g.devices, |g.devices|)
    case _ => 0
  }

  /** Counter i of a group takes a slot. */
  predicate TakesSlot(g: CounterGroup, i: nat)
    requires i < |g.devices|
  {
    g.typeId == HwCache || (g.typeId == Raw && g.devices[i] == Raw)
  }

  ghost function SlotTakers(g: CounterGroup, m: nat): set<nat>
    requires m <= |g.devices|
  {
    set i: nat | i < m && TakesSlot(g, i)
  }

  lemma TakersNext(g: CounterGroup, m: nat)
    requires m < |g.devices|
    ensures |SlotTakers(g, m + 1)| == |SlotTakers(g, m)| + (if TakesSlot(g, m) then 1 else 0)
  {
    hide TakesSlot;
    assert SlotTakers(g, m + 1) == if TakesSlot(g, m) then SlotTakers(g, m) + {m} else SlotTakers(g, m);
  }

  lemma {:induction false} TakersBelow(g: CounterGroup, m: nat)
    requires m <= |g.devices|
    ensures |SlotTakers(g, m)|
            == if g.typeId == HwCache then m else if g.typeId == Raw then RawDevices(g.devices, m) else 0
  {
    if m == 0 {
      assert SlotTakers(g, 0) == {};
    } else {
      hide SlotTakers;
      TakersBelow(g, m - 1);
      TakersNext(g, m - 1);
    }
  }

  /** A group needs as many slots as it has counters that take one. */
  lemma SlotsAreTakers(g: CounterGroup)
    ensures SlotsOf(g) == |SlotTakers(g, |g.devices|)|
  {
    TakersBelow(g, |g.devices|);
  }

  /** The usage records of the first m groups, in list order; a group that needs no slot has none. */
  function Usages(list: seq<CounterGroup>, m: nat): (us: seq<Usage>)
    requires m <= |list|
  {
    if m == 0 then []
    else
      var g := list[m - 1];
      Usages(list, m - 1) + (if SlotsOf(g) == 0 then [] else [Usage(g.name, g.mask, SlotsOf(g))])
  }

  lemma UsagesNext(list: seq<CounterGroup>, m: nat)
    requires m < |list|
    ensures var g := list[m];
            Usages(list, m + 1)
            == if SlotsOf(g) == 0 then Usages(list, m) else Usages(list, m) + [Usage(g.name, g.mask, SlotsOf(g))]
  {
  }

  /** Slots requested by the first m groups. */
  function Requested(list: seq<CounterGroup>, m: nat): nat
    requires m <= |list|
  {
    if m == 0 then 0 else Requested(list, m - 1) + SlotsOf(list[m - 1])
  }

  method CountSlots(g: CounterGroup) returns (count: nat)
    ensures count == SlotsOf(g)
  {
    count := 0;
    if g.typeId == HwCache {
      count := |g.devices|;
    } else if g.typeId == Raw {
      for i := 0 to |g.devices|
        invariant count == RawDevices(g.devices, i)
      {
        if g.devices[i] == Raw {
          count := count + 1;
        }
      }
    }
  }

  // ---- descending order and stability -----------------------------------------------------------

  ghost predicate Descending(us: seq<Usage>) {
    forall i, j :: 0 <= i < j < |us| ==> us[i].count >= us[j].count
  }

  /** The records among the first m that use exactly c slots, in order. */
  function Level(us: seq<Usage>, m: nat, c: nat): seq<Usage>
    requires m <= |us|
  {
    if m == 0 then [] else Level(us, m - 1, c) + (if us[m - 1].count == c then [us[m - 1]] else [])
  }

  function Total(us: seq<Usage>, m: nat): nat
    requires m <= |us|
  {
    if m == 0 then 0 else Total(us, m - 1) + us[m - 1].count
  }

  /** The stable descending sort of us: descending, and each level lists the same records in the same order. */
  ghost predicate IsStableSort(sorted: seq<Usage>, us: seq<Usage>) {
    && Descending(sorted)
    && |sorted| == |us|
    && forall c: nat {:trigger Level(sorted, |sorted|, c)} :: Level(sorted, |sorted|, c) == Level(us, |us|, c)
  }

  lemma {:induction false} LevelJoin(us: seq<Usage>, vs: seq<Usage>, m: nat, c: nat)
    requires m <= |vs|
    ensures Level(us + vs, |us| + m, c) == Level(us, |us|, c) + Level(vs, m, c)
  {
    if m == 0 {
      LevelPrefix(us, vs, |us|, c);
    } else {
      LevelJoin(us, vs, m - 1, c);
    }
  }

  lemma {:induction false} LevelPrefix(us: seq<Usage>, vs: seq<Usage>, m: nat, c: nat)
    requires m <= |us|
    ensures Level(us + vs, m, c) == Level(us, m, c)
  {
    if m > 0 {
      LevelPrefix(us, vs, m - 1, c);
    }
  }

  lemma {:induction false} LevelAbsent(us: seq<Usage>, m: nat, c: nat)
    requires m <= |us| && forall i :: 0 <= i < m ==> us[i].count != c
    ensures Level(us, m, c) == []
  {
    if m > 0 {
      LevelAbsent(us, m - 1, c);
    }
  }

  /** Splitting a list at a record u splits each of its levels. */
  lemma LevelAround(front: seq<Usage>, u: Usage, back: seq<Usage>, c: nat)
    ensures var after := front + [u] + back;
            Level(after, |after|, c)
            == Level(front, |front|, c) + (if u.count == c then [u] else []) + Level(back, |back|, c)
  {
    assert front + [u] + back == front + ([u] + back);
    LevelJoin(front, [u] + back, |[u] + back|, c);
    LevelJoin([u], back, |back|, c);
    assert Level([u], 1, c) == Level([u], 0, c) + (if u.count == c then [u] else []);
  }

  /** Putting u behind everything at least as large and before everything smaller keeps levels in arrival order. */
  lemma InsertedIsStable(sorted: seq<Usage>, us: seq<Usage>, u: Usage, at: nat)
    requires IsStableSort(sorted, us) && at <= |sorted|
    requires forall i :: 0 <= i < at ==> sorted[i].count >= u.count
    requires forall i :: at <= i < |sorted| ==> sorted[i].count < u.count
    ensures IsStableSort(sorted[..at] + [u] + sorted[at..], us + [u])
  {
    var after := sorted[..at] + [u] + sorted[at..];
    forall c: nat
      ensures Level(after, |after|, c) == Level(us + [u], |us + [u]|, c)
    {
      InsertedLevel(sorted, us, u, at, c);
    }
  }

  lemma InsertedLevel(sorted: seq<Usage>, us: seq<Usage>, u: Usage, at: nat, c: nat)
    requires at <= |sorted| && Level(sorted, |sorted|, c) == Level(us, |us|, c)
    requires forall i :: at <= i < |sorted| ==> sorted[i].count < u.count
    ensures var after := sorted[..at] + [u] + sorted[at..];
            Level(after, |after|, c) == Level(us + [u], |us + [u]|, c)
  {
    var front, back := sorted[..at], sorted[at..];
    LevelAround(front, u, back, c);
    LevelJoin(front, back, |back|, c);
    assert sorted == front + back;
    LevelAround(us, u, [], c);
    assert us + [u] + [] == us + [u];
    if u.count == c {
      LevelAbsent(back, |back|, c);
    }
  }

  // ---- evaluation -------------------------------------------------------------------------------

  class Result {
    var requested: nat
    var available: nat
    var nmiWatchdogActive: bool
    var fits: bool
    var groups: seq<Usage>

    constructor (nmiRunning: bool)
      ensures requested == 0 && available == AvailableSlots(nmiRunning)
      ensures nmiWatchdogActive == nmiRunning && !fits && groups == []
    {
      nmiWatchdogActive, available := nmiRunning, AvailableSlots(nmiRunning);
      requested, fits, groups := 0, false, [];
    }

    /** Insert one usage record, behind every record that uses at least as much. */
    method Insert(u: Usage, ghost us: seq<Usage>)
      requires IsStableSort(groups, us)
      modifies this`groups
      ensures IsStableSort(groups, us + [u])
    {
      if groups == [] || groups[0].count < u.count {
        InsertedIsStable(groups, us, u, 0);
        assert groups[..0] + [u] + groups[0..] == [u] + groups;
        groups := [u] + groups;
      } else {
        var prev := 0;
        while prev + 1 < |groups| && groups[prev + 1].count >= u.count
          invariant prev < |groups|
          invariant forall i :: 0 <= i <= prev ==> groups[i].count >= u.count
        {
          prev := prev + 1;
        }
        InsertedIsStable(groups, us, u, prev + 1);
        groups := groups[..prev + 1] + [u] + groups[prev + 1..];
      }
    }

    /** Suggest groups to drop, largest first, until the rest fit. */
    method SuggestDrops() returns (drops: seq<Usage>)
      requires Descending(groups) && requested == Total(groups, |groups|)
      ensures |drops| <= |groups| && drops == groups[..|drops|]
      ensures requested - Total(groups, |drops|) <= available
      ensures forall chosen: set<nat> ::
                InRange(chosen, |groups|) && requested - ChosenTotal(groups, |groups|, chosen) <= available
                ==> |drops| <= |chosen|
    {
      var remaining := requested - available;
      var u := 0;
      drops := [];
      while u < |groups| && remaining > 0
        invariant u <= |groups| && drops == groups[..u]
        invariant remaining == requested - available - Total(groups, u)
        invariant u > 0 ==> requested - Total(groups, u - 1) > available
      {
        drops := drops + [groups[u]];
        remaining := remaining - groups[u].count;
        u := u + 1;
      }
      forall chosen: set<nat> | InRange(chosen, |groups|)
                                && requested - ChosenTotal(groups, |groups|, chosen) <= available
        ensures u <= |chosen|
      {
        LargestFirstIsBest(groups, |groups|, chosen);
        if |chosen| < u {
          TotalGrows(groups, |chosen|, u - 1);
        }
      }
    }
  }

  /** Evaluate a list of counter groups. */
  method EvaluateGroups(list: seq<CounterGroup>, nmiRunning: bool) returns (r: Result)
    ensures fresh(r) && r.nmiWatchdogActive == nmiRunning && r.available == AvailableSlots(nmiRunning)
    ensures r.requested == Requested(list, |list|) && r.fits == (r.requested <= r.available)
    ensures IsStableSort(r.groups, Usages(list, |list|)) && r.requested == Total(r.groups, |r.groups|)
  {
    r := new Result(nmiRunning);
    for i := 0 to |list|
      invariant fresh(r) && r.nmiWatchdogActive == nmiRunning && r.available == AvailableSlots(nmiRunning)
      invariant r.requested == Requested(list, i)
      invariant IsStableSort(r.groups, Usages(list, i))
    {
      var count := CountSlots(list[i]);
      UsagesNext(list, i);
      if count != 0 {
        r.Insert(Usage(list[i].name, list[i].mask, count), Usages(list, i));
        r.requested := r.requested + count;
      }
    }
    r.fits := r.requested <= r.available;
    RequestedIsTotal(list, |list|);
    SortKeepsTotal(r.groups, Usages(list, |list|));
  }

  // ---- the slots requested are the sum of the listed groups -------------------------------------

  lemma {:induction false} RequestedIsTotal(list: seq<CounterGroup>, m: nat)
    requires m <= |list|
    ensures Total(Usages(list, m), |Usages(list, m)|) == Requested(list, m)
  {
    if m > 0 {
      RequestedIsTotal(list, m - 1);
      UsagesNext(list, m - 1);
      var g, us := list[m - 1], Usages(list, m - 1);
      if SlotsOf(g) != 0 {
        var u := Usage(g.name, g.mask, SlotsOf(g));
        TotalPrefix(us, [u], |us|);
        assert Total(us + [u], |us| + 1) == Total(us + [u], |us|) + u.count;
      }
    }
  }

  lemma {:induction false} TotalPrefix(us: seq<Usage>, vs: seq<Usage>, m: nat)
    requires m <= |us|
    ensures Total(us + vs, m) == Total(us, m)
  {
    if m > 0 {
      TotalPrefix(us, vs, m - 1);
    }
  }

  /** Slots used by the records that use at most c each. */
  function TotalUpTo(us: seq<Usage>, m: nat, c: int): nat
    requires m <= |us|
  {
    if m == 0 then 0 else TotalUpTo(us, m - 1, c) + (if us[m - 1].count <= c then us[m - 1].count else 0)
  }

  lemma {:induction false} TotalUpToNext(us: seq<Usage>, m: nat, c: nat)
    requires m <= |us|
    ensures TotalUpTo(us, m, c) == TotalUpTo(us, m, c - 1) + |Level(us, m, c)| * c
  {
    if m > 0 {
      TotalUpToNext(us, m - 1, c);
      if us[m - 1].count == c {
        assert |Level(us, m, c)| == |Level(us, m - 1, c)| + 1;
        assert (|Level(us, m - 1, c)| + 1) * c == |Level(us, m - 1, c)| * c + c;
      }
    }
  }

  lemma {:induction false} NothingBelowZero(us: seq<Usage>, m: nat)
    requires m <= |us|
    ensures TotalUpTo(us, m, -1) == 0
  {
    if m > 0 {
      NothingBelowZero(us, m - 1);
    }
  }

  lemma {:induction false} SameUpTo(us: seq<Usage>, vs: seq<Usage>, c: nat)
    requires forall d: nat {:trigger Level(us, |us|, d)} :: Level(us, |us|, d) == Level(vs, |vs|, d)
    ensures TotalUpTo(us, |us|, c) == TotalUpTo(vs, |vs|, c)
  {
    TotalUpToNext(us, |us|, c);
    TotalUpToNext(vs, |vs|, c);
    if c == 0 {
      NothingBelowZero(us, |us|);
      NothingBelowZero(vs, |vs|);
    } else {
      SameUpTo(us, vs, c - 1);
    }
    assert Level(us, |us|, c) == Level(vs, |vs|, c);
  }

  lemma {:induction false} AllUpTo(us: seq<Usage>, m: nat, c: nat)
    requires m <= |us| && Total(us, m) <= c
    ensures TotalUpTo(us, m, c) == Total(us, m)
  {
    if m > 0 {
      AllUpTo(us, m - 1, c);
    }
  }

  lemma SortKeepsTotal(sorted: seq<Usage>, us: seq<Usage>)
    requires IsStableSort(sorted, us)
    ensures Total(sorted, |sorted|) == Total(us, |us|)
  {
    var c := Total(sorted, |sorted|) + Total(us, |us|);
    SameUpTo(sorted, us, c);
    AllUpTo(sorted, |sorted|, c);
    AllUpTo(us, |us|, c);
  }

  // ---- no choice of groups does better than the largest ones ------------------------------------

  ghost predicate InRange(chosen: set<nat>, n: nat) {
    forall i :: i in chosen ==> i < n
  }

  /** Slots freed by dropping the groups at the chosen positions below m. */
  ghost function ChosenTotal(us: seq<Usage>, m: nat, chosen: set<nat>): nat
    requires m <= |us|
  {
    if m == 0 then 0 else ChosenTotal(us, m - 1, chosen) + (if m - 1 in chosen then us[m - 1].count else 0)
  }

  lemma {:induction false} TotalGrows(us: seq<Usage>, m: nat, n: nat)
    requires m <= n <= |us|
    ensures Total(us, m) <= Total(us, n)
  {
    if m < n {
      TotalGrows(us, m, n - 1);
    }
  }

  lemma {:induction false} ChosenWithout(us: seq<Usage>, m: nat, chosen: set<nat>, i: nat)
    requires m <= |us| && m <= i
    ensures ChosenTotal(us, m, chosen - {i}) == ChosenTotal(us, m, chosen)
  {
    if m > 0 {
      ChosenWithout(us, m - 1, chosen, i);
    }
  }

  lemma {:induction false} SizeWithin(chosen: set<nat>, n: nat)
    requires InRange(chosen, n)
    ensures |chosen| <= n
  {
    if n == 0 {
      assert chosen == {};
    } else {
      SizeWithin(chosen - {n - 1}, n - 1);
      assert |chosen| <= |chosen - {n - 1}| + 1;
    }
  }

  /** In a descending list, no k groups free more slots than the first k. */
  lemma {:induction false} LargestFirstIsBest(us: seq<Usage>, m: nat, chosen: set<nat>)
    requires m <= |us| && Descending(us) && InRange(chosen, m)
    ensures |chosen| <= m && ChosenTotal(us, m, chosen) <= Total(us, |chosen|)
  {
    SizeWithin(chosen, m);
    if m > 0 {
      var rest := chosen - {m - 1};
      LargestFirstIsBest(us, m - 1, rest);
      ChosenWithout(us, m - 1, chosen, m - 1);
      if m - 1 !in chosen {
        assert rest == chosen;
      }
    }
  }
}
