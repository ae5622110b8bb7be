/**
 What merging two process trees keeps (proctree.c): every node of either run appears exactly once, under its own
 parent, and children of one comm are paired in order of occurrence.
 */
module DiffLaws {
  import opened CommGroups
  import opened JsonReader
  import opened Options
  import opened ProcDiff

  // ---- counting nodes of a run ------------------------------------------------------------------

  /** How many nodes of the tree under j are equal to v. */
  ghost function NodeCount(j: Json, v: Json): nat
    decreases j, 1
  {
    (if j == v then 1 else 0) + NodeCountKids(j, |Kids(j)|, v)
  }

  ghost function NodeCountKids(j: Json, m: nat, v: Json): nat
    requires m <= |Kids(j)|
    decreases j, 0, m
  {
    if m == 0 then 0
    else
      KidInside(j, m - 1);
      NodeCountKids(j, m - 1, v) + NodeCount(Kids(j)[m - 1], v)
  }

  /** Ways to count a child: whether it is v, or the nodes equal to v in the tree under it. */
  datatype Weight = Is(v: Json) | Under(v: Json)

  ghost function Weigh(w: Weight, j: Json): nat {
    match w
    case Is(v) => if j == v then 1 else 0
    case Under(v) => NodeCount(j, v)
  }

  ghost function WeighOne(w: Weight, o: Option<Json>): nat {
    if o.Some? then Weigh(w, o.value) else 0
  }

  ghost function WeighItems(w: Weight, items: seq<Json>, m: nat): nat
    requires m <= |items|
  {
    if m == 0 then 0 else WeighItems(w, items, m - 1) + Weigh(w, items[m - 1])
  }

  lemma {:induction false} KidsWeighed(j: Json, m: nat, v: Json)
    requires m <= |Kids(j)|
    ensures NodeCountKids(j, m, v) == WeighItems(Under(v), Kids(j), m)
  {
    hide Kids;
    if m > 0 {
      KidsWeighed(j, m - 1, v);
    }
  }

  // ---- sides of pairs ---------------------------------------------------------------------------

  function Side(p: Pair, left: bool): Option<Json> {
    if left then p.a else p.b
  }

  ghost function WeighSide(w: Weight, ps: seq<Pair>, m: nat, left: bool): nat
    requires m <= |ps|
  {
    if m == 0 then 0 else WeighSide(w, ps, m - 1, left) + WeighOne(w, Side(ps[m - 1], left))
  }

  lemma {:induction false} WeighSidePrefix(w: Weight, ps: seq<Pair>, qs: seq<Pair>, m: nat, left: bool)
    requires m <= |ps|
    ensures WeighSide(w, ps + qs, m, left) == WeighSide(w, ps, m, left)
  {
    hide WeighOne;
    if m > 0 {
      WeighSidePrefix(w, ps, qs, m - 1, left);
    }
  }

  /** Zipping keeps the weight of either list. */
  lemma {:induction false} ZipWeight(w: Weight, a: seq<Json>, b: seq<Json>, n: nat, left: bool)
    ensures var items := if left then a else b;
            WeighSide(w, Zip(a, b, n), n, left) == WeighItems(w, items, if n <= |items| then n else |items|)
  {
    hide Weigh;
    if n > 0 {
      ZipWeight(w, a, b, n - 1, left);
      var last := Pair(ItemAt(a, n - 1), ItemAt(b, n - 1), n - 1);
      WeighSidePrefix(w, Zip(a, b, n - 1), [last], n - 1, left);
      assert Zip(a, b, n) == Zip(a, b, n - 1) + [last];
    }
  }

  /** The weight of the pairs of one comm, on one side. */
  ghost function CommWeight(w: Weight, ps: seq<Pair>, m: nat, comm: string, left: bool): nat
    requires m <= |ps|
  {
    var qs := PairsOfComm(ps, m, comm);
    WeighSide(w, qs, |qs|, left)
  }

  lemma CommWeightNext(w: Weight, ps: seq<Pair>, m: nat, comm: string, left: bool)
    requires m < |ps|
    ensures CommWeight(w, ps, m + 1, comm, left)
            == CommWeight(w, ps, m, comm, left)
               + (if PairComm(ps[m]) == comm then WeighOne(w, Side(ps[m], left)) else 0)
  {
    hide WeighOne, PairComm;
    var qs := PairsOfComm(ps, m, comm);
    WeighSidePrefix(w, qs, [ps[m]], |qs|, left);
    assert PairsOfComm(ps, m + 1, comm) == if PairComm(ps[m]) == comm then qs + [ps[m]] else qs;
  }

  /** The weight of the pairs of the first g comms of a table. */
  ghost function TableWeight(w: Weight, t: seq<Group>, g: nat, ps: seq<Pair>, m: nat, left: bool): nat
    requires g <= |t| && m <= |ps|
  {
    if g == 0 then 0 else TableWeight(w, t, g - 1, ps, m, left) + CommWeight(w, ps, m, t[g - 1].comm, left)
  }

  lemma {:induction false} TableWeightNext(w: Weight, t: seq<Group>, g: nat, ps: seq<Pair>, m: nat, left: bool)
    requires g <= |t| && m < |ps| && forall i, j :: 0 <= i < j < |t| ==> t[i].comm != t[j].comm
    ensures TableWeight(w, t, g, ps, m + 1, left)
            == TableWeight(w, t, g, ps, m, left)
               + (if FindGroup(t, PairComm(ps[m]), 0) < g then WeighOne(w, Side(ps[m], left)) else 0)
  {
    hide WeighOne, PairComm, CommWeight;
    if g > 0 {
      TableWeightNext(w, t, g - 1, ps, m, left);
      CommWeightNext(w, ps, m, t[g - 1].comm, left);
      FoundAt(t, g - 1);
      FindNext(t, PairComm(ps[m]), g);
    }
  }

  lemma {:induction false} NoTableWeight(w: Weight, t: seq<Group>, g: nat, ps: seq<Pair>, left: bool)
    requires g <= |t|
    ensures TableWeight(w, t, g, ps, 0, left) == 0
  {
    if g > 0 {
      NoTableWeight(w, t, g - 1, ps, left);
    }
  }

  /** When every pair with this side has a group, the groups together weigh what the pairs do. */
  lemma {:induction false} TableWeighsAll(w: Weight, t: seq<Group>, ps: seq<Pair>, m: nat, left: bool)
    requires m <= |ps| && forall i, j :: 0 <= i < j < |t| ==> t[i].comm != t[j].comm
    requires forall i :: 0 <= i < m && Side(ps[i], left).Some? ==> FindGroup(t, PairComm(ps[i]), 0) < |t|
    ensures TableWeight(w, t, |t|, ps, m, left) == WeighSide(w, ps, m, left)
  {
    hide PairComm, CommWeight, Weigh;
    if m == 0 {
      NoTableWeight(w, t, |t|, ps, left);
    } else {
      TableWeighsAll(w, t, ps, m - 1, left);
      TableWeightNext(w, t, |t|, ps, m - 1, left);
    }
  }

  // ---- the groups of a side weigh what its children do ------------------------------------------

  ghost function GroupsWeight(w: Weight, t: seq<Group>, g: nat): nat
    requires g <= |t|
  {
    if g == 0 then 0 else GroupsWeight(w, t, g - 1) + WeighItems(w, t[g - 1].items, |t[g - 1].items|)
  }

  lemma {:induction false} WeighItemsPrefix(w: Weight, items: seq<Json>, more: seq<Json>, m: nat)
    requires m <= |items|
    ensures WeighItems(w, items + more, m) == WeighItems(w, items, m)
  {
    hide Weigh;
    if m > 0 {
      WeighItemsPrefix(w, items, more, m - 1);
    }
  }

  lemma WeighItemsSnoc(w: Weight, items: seq<Json>, j: Json)
    ensures WeighItems(w, items + [j], |items| + 1) == WeighItems(w, items, |items|) + Weigh(w, j)
  {
    hide Weigh;
    WeighItemsPrefix(w, items, [j], |items|);
  }

  lemma {:induction false} GroupsWeightPrefix(w: Weight, t: seq<Group>, more: seq<Group>, g: nat)
    requires g <= |t|
    ensures GroupsWeight(w, t + more, g) == GroupsWeight(w, t, g)
  {
    hide WeighItems;
    if g > 0 {
      GroupsWeightPrefix(w, t, more, g - 1);
    }
  }

  /** One more child in group k adds its weight. */
  lemma {:induction false} GroupGrows(w: Weight, t: seq<Group>, k: nat, j: Json, g: nat)
    requires k < |t| && g <= |t|
    ensures GroupsWeight(w, t[k := t[k].(items := t[k].items + [j])], g)
            == GroupsWeight(w, t, g) + (if k < g then Weigh(w, j) else 0)
  {
    hide Weigh;
    if g > 0 {
      GroupGrows(w, t, k, j, g - 1);
      WeighItemsSnoc(w, t[k].items, j);
    }
  }

  lemma {:induction false} GroupsWeighKids(w: Weight, kids: seq<Json>, m: nat)
    requires m <= |kids|
    ensures GroupsWeight(w, Groups(kids, m), |Groups(kids, m)|) == WeighItems(w, kids, m)
  {
    hide Weigh, Comm;
    if m > 0 {
      GroupsWeighKids(w, kids, m - 1);
      var t, child := Groups(kids, m - 1), kids[m - 1];
      var k := FindGroup(t, Comm(child), 0);
      if k < |t| {
        GroupGrows(w, t, k, child, |t|);
      } else {
        var g := Group(Comm(child), [child]);
        GroupsWeightPrefix(w, t, [g], |t|);
        WeighItemsSnoc(w, [], child);
        assert [] + [child] == [child];
        assert Groups(kids, m) == t + [g];
      }
    }
  }

  /** Group by group, the pairs weigh what the groups do. */
  lemma {:induction false} TableIsGroups(w: Weight, t: seq<Group>, g: nat, a: seq<Json>, b: seq<Json>, left: bool)
    requires g <= |t| && IsTable(t, if left then a else b, |if left then a else b|)
    ensures TableWeight(w, t, g, PairsOf(a, b), |PairsOf(a, b)|, left) == GroupsWeight(w, t, g)
  {
    hide PairsOf, OfComm, Weigh, Comm, IsTable;
    if g > 0 {
      TableIsGroups(w, t, g - 1, a, b, left);
      var c := t[g - 1].comm;
      var ia, ib := OfComm(a, |a|, c), OfComm(b, |b|, c);
      TableGroup(t, if left then a else b, g - 1);
      PairsMatchByOccurrence(a, b, c);
      ZipWeight(w, ia, ib, Longer(ia, ib), left);
    }
  }

  /** On either side, the pairs weigh exactly what the children do. */
  lemma SideSum(w: Weight, a: seq<Json>, b: seq<Json>, left: bool)
    ensures var kids := if left then a else b;
            WeighSide(w, PairsOf(a, b), |PairsOf(a, b)|, left) == WeighItems(w, kids, |kids|)
  {
    hide PairsOf, Weigh, Comm, Groups, WeighSide, WeighItems;
    var kids, ps := if left then a else b, PairsOf(a, b);
    var t := Groups(kids, |kids|);
    GroupsAreTable(kids, |kids|);
    forall i | 0 <= i < |ps| && Side(ps[i], left).Some?
      ensures FindGroup(t, PairComm(ps[i]), 0) < |t|
    {
      PairSides(a, b, i);
      KidHasGroup(t, kids, Side(ps[i], left).value);
    }
    TableWeighsAll(w, t, ps, |ps|, left);
    TableIsGroups(w, t, |t|, a, b, left);
    GroupsWeighKids(w, kids, |kids|);
  }

  lemma KidHasGroup(t: seq<Group>, kids: seq<Json>, kid: Json)
    requires IsTable(t, kids, |kids|) && kid in kids
    ensures FindGroup(t, Comm(kid), 0) < |t|
  {
    hide Comm, OfComm;
    var k :| 0 <= k < |kids| && kids[k] == kid;
  }

  // ---- conservation over the whole tree ---------------------------------------------------------

  function NodeSide(n: DiffNode, left: bool): Option<Json> {
    if left then n.a else n.b
  }

  /** How many nodes of a diff tree have v on a side. */
  ghost function SideCount(n: DiffNode, left: bool, v: Json): nat
    decreases n, 0
  {
    (if NodeSide(n, left) == Some(v) then 1 else 0) + SideCountAll(n.children, |n.children|, left, v)
  }

  ghost function SideCountAll(ns: seq<DiffNode>, m: nat, left: bool, v: Json): nat
    requires m <= |ns|
    decreases ns, m
  {
    if m == 0 then 0 else SideCountAll(ns, m - 1, left, v) + SideCount(ns[m - 1], left, v)
  }

  lemma {:induction false} SideCountPrefix(ns: seq<DiffNode>, more: seq<DiffNode>, m: nat, left: bool, v: Json)
    requires m <= |ns|
    ensures SideCountAll(ns + more, m, left, v) == SideCountAll(ns, m, left, v)
  {
    if m > 0 {
      SideCountPrefix(ns, more, m - 1, left, v);
    }
  }

  /** Every node of run A is on exactly as many a-sides as it occurs in run A, and likewise for run B. */
  lemma {:induction false} SidesConserved(a: Option<Json>, b: Option<Json>, parentPath: string, occurrence: nat,
                                          threshold: real, left: bool, v: Json)
    ensures SideCount(Merge(a, b, parentPath, occurrence, threshold), left, v)
            == WeighOne(Under(v), if left then a else b)
    decreases HeightOf(a) + HeightOf(b), 1, 0
  {
    hide PairsOf, HeightOf, SideComm, PathOf, Deltas, Changed, Kids;
    var ps, path := PairsOf(KidsOf(a), KidsOf(b)), PathOf(parentPath, SideComm(a, b), occurrence);
    var side := if left then a else b;
    PairsAreLower(a, b);
    AllConserved(ps, |ps|, path, threshold, HeightOf(a) + HeightOf(b), left, v);
    SideSum(Under(v), KidsOf(a), KidsOf(b), left);
    if side.Some? {
      KidsWeighed(side.value, |Kids(side.value)|, v);
    }
  }

  lemma {:induction false} AllConserved(ps: seq<Pair>, m: nat, path: string, threshold: real, h: nat, left: bool,
                                        v: Json)
    requires m <= |ps| && Lower(ps, h)
    ensures SideCountAll(MergeAll(ps, m, path, threshold, h), m, left, v) == WeighSide(Under(v), ps, m, left)
    decreases h, 0, m
  {
    hide HeightOf, Merge, WeighOne, SideCount;
    if m > 0 {
      AllConserved(ps, m - 1, path, threshold, h, left, v);
      var p := ps[m - 1];
      SidesConserved(p.a, p.b, path, p.occurrence, threshold, left, v);
      SideCountPrefix(MergeAll(ps, m - 1, path, threshold, h),
                      [Merge(p.a, p.b, path, p.occurrence, threshold)], m - 1, left, v);
    }
  }

  // ---- parentage and pairing --------------------------------------------------------------------

  lemma {:induction false} MergeAllAt(ps: seq<Pair>, m: nat, path: string, threshold: real, h: nat, i: nat)
    requires i < m <= |ps| && Lower(ps, h)
    ensures MergeAll(ps, m, path, threshold, h)[i] == Merge(ps[i].a, ps[i].b, path, ps[i].occurrence, threshold)
  {
    hide HeightOf, Merge;
    if i < m - 1 {
      MergeAllAt(ps, m - 1, path, threshold, h, i);
    }
  }

  /** How many of the first m nodes have v on a side. */
  ghost function ChildSides(ns: seq<DiffNode>, m: nat, left: bool, v: Json): nat
    requires m <= |ns|
  {
    if m == 0 then 0 else ChildSides(ns, m - 1, left, v) + (if NodeSide(ns[m - 1], left) == Some(v) then 1 else 0)
  }

  lemma {:induction false} ChildSidesWeighed(ps: seq<Pair>, m: nat, ns: seq<DiffNode>, left: bool, v: Json)
    requires m <= |ps| == |ns| && forall i :: 0 <= i < |ps| ==> ns[i].a == ps[i].a && ns[i].b == ps[i].b
    ensures ChildSides(ns, m, left, v) == WeighSide(Is(v), ps, m, left)
  {
    if m > 0 {
      ChildSidesWeighed(ps, m - 1, ns, left, v);
    }
  }

  /** Children of a merged node are themselves merges of its pairs. */
  lemma ChildrenAreMerges(a: Option<Json>, b: Option<Json>, parentPath: string, occurrence: nat, threshold: real)
    ensures var n, ps := Merge(a, b, parentPath, occurrence, threshold), PairsOf(KidsOf(a), KidsOf(b));
            && |n.children| == |ps|
            && forall i :: 0 <= i < |ps| ==>
                 n.children[i] == Merge(ps[i].a, ps[i].b, n.path, ps[i].occurrence, threshold)
  {
    var n, ps := Merge(a, b, parentPath, occurrence, threshold), PairsOf(KidsOf(a), KidsOf(b));
    PairsAreLower(a, b);
    hide PairsOf, HeightOf, SideComm, PathOf, Deltas, Changed;
    forall i | 0 <= i < |ps|
      ensures n.children[i] == Merge(ps[i].a, ps[i].b, n.path, ps[i].occurrence, threshold)
    {
      MergeAllAt(ps, |ps|, n.path, threshold, HeightOf(a) + HeightOf(b), i);
    }
  }

  /** Parentage: on either side, the children of a merged node have exactly the children of its own side. */
  lemma ParentageKept(a: Option<Json>, b: Option<Json>, parentPath: string, occurrence: nat, threshold: real,
                      left: bool, v: Json)
    ensures var n, kids := Merge(a, b, parentPath, occurrence, threshold), KidsOf(if left then a else b);
            ChildSides(n.children, |n.children|, left, v) == WeighItems(Is(v), kids, |kids|)
  {
    hide PairsOf, Merge, Kids;
    var n, ps := Merge(a, b, parentPath, occurrence, threshold), PairsOf(KidsOf(a), KidsOf(b));
    ChildrenAreMerges(a, b, parentPath, occurrence, threshold);
    forall i | 0 <= i < |ps|
      ensures n.children[i].a == ps[i].a && n.children[i].b == ps[i].b
    {
      MergedSides(ps[i].a, ps[i].b, n.path, ps[i].occurrence, threshold);
    }
    ChildSidesWeighed(ps, |ps|, n.children, left, v);
    SideSum(Is(v), KidsOf(a), KidsOf(b), left);
  }

  lemma MergedSides(a: Option<Json>, b: Option<Json>, parentPath: string, occurrence: nat, threshold: real)
    ensures var n := Merge(a, b, parentPath, occurrence, threshold);
            && n.a == a && n.b == b && n.comm == SideComm(a, b) && n.path == PathOf(parentPath, n.comm, occurrence)
            && n.status == StatusOf(a, b) && n.changed == Changed(a, b, threshold) && n.delta == Deltas(a, b, N_METRICS)
  {
    hide PairsOf, HeightOf, SideComm, PathOf, Deltas, Changed;
  }

  // ---- what a node says of its two sides --------------------------------------------------------

  function Apart(x: real, y: real): real {
    if x < y then y - x else x - y
  }

  /** How much a cpu time, zero where it is missing, differs between two nodes. */
  function TimeApart(a: Json, b: Json, key: string): real {
    Apart(GetNumber(a, key, 0.0), GetNumber(b, key, 0.0))
  }

  /** What run A read and the delta make what run B read, and changed compares the cpu times of both. */
  ghost predicate TellsMatched(n: DiffNode, a: Json, b: Json, threshold: real) {
    && (forall i :: 0 <= i < |DIFF_METRICS| ==>
          |n.delta| == |DIFF_METRICS|
          && GetNumber(a, DIFF_METRICS[i], 0.0) + n.delta[i] == GetNumber(b, DIFF_METRICS[i], 0.0))
    && (n.changed <==> TimeApart(a, b, "utime_seconds") + TimeApart(a, b, "stime_seconds") > threshold)
  }

  /** A node that has both sides tells how they differ; one with a single side tells which run it is missing in. */
  ghost predicate Tells(n: DiffNode, threshold: real) {
    && (n.status == Matched <==> n.a.Some? && n.b.Some?)
    && (n.status == Removed <==> n.a.Some? && n.b.None?)
    && (if n.status == Matched then TellsMatched(n, n.a.value, n.b.value, threshold)
        else !n.changed && forall i :: 0 <= i < |n.delta| ==> n.delta[i] == 0.0)
  }

  ghost predicate AllTell(n: DiffNode, threshold: real) {
    Tells(n, threshold) && forall i :: 0 <= i < |n.children| ==> AllTell(n.children[i], threshold)
  }

  lemma {:induction false} DeltaAt(a: Option<Json>, b: Option<Json>, m: nat, i: nat)
    requires i < m <= N_METRICS
    ensures if a.Some? && b.Some?
            then GetNumber(a.value, DIFF_METRICS[i], 0.0) + Deltas(a, b, m)[i]
                 == GetNumber(b.value, DIFF_METRICS[i], 0.0)
            else Deltas(a, b, m)[i] == 0.0
  {
    if i < m - 1 {
      DeltaAt(a, b, m - 1, i);
    }
  }

  lemma MergedTells(a: Option<Json>, b: Option<Json>, parentPath: string, occurrence: nat, threshold: real)
    ensures Tells(Merge(a, b, parentPath, occurrence, threshold), threshold)
  {
    MergedSides(a, b, parentPath, occurrence, threshold);
    hide Merge, Deltas, GetNumber;
    forall i | 0 <= i < |DIFF_METRICS|
      ensures if a.Some? && b.Some?
              then GetNumber(a.value, DIFF_METRICS[i], 0.0) + Deltas(a, b, N_METRICS)[i]
                   == GetNumber(b.value, DIFF_METRICS[i], 0.0)
              else Deltas(a, b, N_METRICS)[i] == 0.0
    {
      DeltaAt(a, b, N_METRICS, i);
    }
    assert DIFF_METRICS[UTIME] == "utime_seconds" && DIFF_METRICS[STIME] == "stime_seconds";
  }

  /** Every node of a diff tells so of its own sides. */
  lemma {:induction false} DiffTells(a: Option<Json>, b: Option<Json>, parentPath: string, occurrence: nat,
                                     threshold: real)
    ensures AllTell(Merge(a, b, parentPath, occurrence, threshold), threshold)
    decreases HeightOf(a) + HeightOf(b)
  {
    hide Merge, PairsOf, HeightOf, Tells;
    var n, ps := Merge(a, b, parentPath, occurrence, threshold), PairsOf(KidsOf(a), KidsOf(b));
    MergedTells(a, b, parentPath, occurrence, threshold);
    ChildrenAreMerges(a, b, parentPath, occurrence, threshold);
    PairsAreLower(a, b);
    forall i | 0 <= i < |n.children|
      ensures AllTell(n.children[i], threshold)
    {
      DiffTells(ps[i].a, ps[i].b, n.path, ps[i].occurrence, threshold);
    }
  }
}
