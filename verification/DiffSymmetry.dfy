/**
 Diffing the other way round, diffing a tree with itself, and the topmost changes (proctree.c).
 */
module DiffSymmetry {
  import opened CommGroups
  import opened Decimals
  import opened JsonReader
  import opened Options
  import opened ProcDiff
  import DiffLaws

  // ---- nodes of one comm ------------------------------------------------------------------------

  /** Those of the first m nodes that are of a comm, in order. */
  function NodesOfComm(ns: seq<DiffNode>, m: nat, comm: string): (r: seq<DiffNode>)
    requires m <= |ns|
    ensures forall n :: n in r ==> n in ns
  {
    if m == 0 then []
    else NodesOfComm(ns, m - 1, comm) + (if ns[m - 1].comm == comm then [ns[m - 1]] else [])
  }

  function MergeOf(p: Pair, path: string, threshold: real): DiffNode {
    Merge(p.a, p.b, path, p.occurrence, threshold)
  }

  /** Nodes that are the merges of pairs, one by one. */
  ghost predicate AreMerges(ns: seq<DiffNode>, ps: seq<Pair>, path: string, threshold: real) {
    |ns| == |ps| && forall i :: 0 <= i < |ps| ==> ns[i] == MergeOf(ps[i], path, threshold)
  }

  lemma CommOfMerge(p: Pair, path: string, threshold: real)
    ensures MergeOf(p, path, threshold).comm == PairComm(p)
  {
  }

  lemma {:induction false} FilteredMerges(ns: seq<DiffNode>, ps: seq<Pair>, m: nat, comm: string, path: string,
                                          threshold: real)
    requires AreMerges(ns, ps, path, threshold) && m <= |ps|
    ensures AreMerges(NodesOfComm(ns, m, comm), PairsOfComm(ps, m, comm), path, threshold)
  {
    hide MergeOf, PairComm;
    if m > 0 {
      FilteredMerges(ns, ps, m - 1, comm, path, threshold);
      CommOfMerge(ps[m - 1], path, threshold);
    }
  }

  /** The children of a comm are the merges of the i-th children of that comm on both sides. */
  lemma ChildrenPairedByOccurrence(a: Option<Json>, b: Option<Json>, parentPath: string, occurrence: nat,
                                   threshold: real, comm: string)
    ensures var n, ka, kb := Merge(a, b, parentPath, occurrence, threshold), KidsOf(a), KidsOf(b);
            AreMerges(NodesOfComm(n.children, |n.children|, comm),
                      ZipAll(OfComm(ka, |ka|, comm), OfComm(kb, |kb|, comm)), n.path, threshold)
  {
    hide PairsOf, Merge, Kids;
    var n, ps := Merge(a, b, parentPath, occurrence, threshold), PairsOf(KidsOf(a), KidsOf(b));
    DiffLaws.ChildrenAreMerges(a, b, parentPath, occurrence, threshold);
    FilteredMerges(n.children, ps, |ps|, comm, n.path, threshold);
    PairsMatchByOccurrence(KidsOf(a), KidsOf(b), comm);
  }

  /** The k-th child of a comm has the comm behind its parent's path, and k behind that unless it is zero. */
  lemma PathOfChild(a: Option<Json>, b: Option<Json>, parentPath: string, occurrence: nat, threshold: real,
                    comm: string, k: nat)
    requires var n := Merge(a, b, parentPath, occurrence, threshold);
             k < |NodesOfComm(n.children, |n.children|, comm)|
    ensures var n := Merge(a, b, parentPath, occurrence, threshold);
            NodesOfComm(n.children, |n.children|, comm)[k].path
            == n.path + "/" + comm + (if k == 0 then "" else "#" + Decimal(k))
  {
    hide Merge, Kids, SideComm, Decimal;
    var fa, fb := OfComm(KidsOf(a), |KidsOf(a)|, comm), OfComm(KidsOf(b), |KidsOf(b)|, comm);
    ChildrenPairedByOccurrence(a, b, parentPath, occurrence, threshold, comm);
    ZipAt(fa, fb, Longer(fa, fb), k);
    ZippedPair(a, b, comm, k);
    DiffLaws.MergedSides(ItemAt(fa, k), ItemAt(fb, k), Merge(a, b, parentPath, occurrence, threshold).path, k,
                         threshold);
  }

  /** So children of one comm have different paths. */
  lemma PathsTellApart(a: Option<Json>, b: Option<Json>, parentPath: string, occurrence: nat, threshold: real,
                       comm: string, j: nat, k: nat)
    requires var n := Merge(a, b, parentPath, occurrence, threshold);
             j < k < |NodesOfComm(n.children, |n.children|, comm)|
    ensures var n := Merge(a, b, parentPath, occurrence, threshold);
            var ns := NodesOfComm(n.children, |n.children|, comm);
            ns[j].path != ns[k].path
  {
    hide Merge, NodesOfComm, Decimal;
    var n := Merge(a, b, parentPath, occurrence, threshold);
    PathOfChild(a, b, parentPath, occurrence, threshold, comm, j);
    PathOfChild(a, b, parentPath, occurrence, threshold, comm, k);
    NumbersDiffer(n.path + "/" + comm, j, k);
  }

  lemma NumbersDiffer(front: string, j: nat, k: nat)
    requires j < k
    ensures front + (if j == 0 then "" else "#" + Decimal(j)) != front + "#" + Decimal(k)
  {
    hide Decimal;
    var s, t := front + (if j == 0 then "" else "#" + Decimal(j)), front + "#" + Decimal(k);
    if s == t {
      var p := |front| + 1;
      assert s[p..] == t[p..] == Decimal(k);
      assert s[p..] == Decimal(j);
      DecimalIsItself(j, k);
    }
  }

  /** A number is told by its digits. */
  lemma DecimalIsItself(j: nat, k: nat)
    requires Decimal(j) == Decimal(k)
    ensures j == k
  {
    hide Decimal;
    var t := Decimal(k);
    assert t[0..|t|] == t;
    DecimalAt(t, 0, j);
    DecimalAt(t, 0, k);
  }

  // ---- diffing the other way round --------------------------------------------------------------

  function Flip(s: Status): Status {
    match s
    case Matched => Matched
    case Removed => Added
    case Added => Removed
  }

  ghost predicate Negated(ds: seq<real>, es: seq<real>) {
    |ds| == |es| && forall i :: 0 <= i < |ds| ==> es[i] == -ds[i]
  }

  ghost predicate SwapsHere(x: DiffNode, y: DiffNode) {
    && y.a == x.b && y.b == x.a
    && y.status == Flip(x.status) && y.changed == x.changed && Negated(x.delta, y.delta)
  }

  ghost predicate SameName(x: DiffNode, y: DiffNode) {
    y.path == x.path && y.comm == x.comm
  }

  /**
   y is x with the runs exchanged, up to the order of children of different comms: the i-th child of a comm swaps with
   the i-th child of that comm. With named, every node also keeps its path.
   */
  ghost predicate Swaps(x: DiffNode, y: DiffNode, named: bool) {
    && SwapsHere(x, y) && (named ==> SameName(x, y))
    && forall comm: string {:trigger NodesOfComm(x.children, |x.children|, comm)} ::
         var xs, ys := NodesOfComm(x.children, |x.children|, comm), NodesOfComm(y.children, |y.children|, comm);
         |xs| == |ys| && forall i :: 0 <= i < |xs| ==> xs[i] in x.children && Swaps(xs[i], ys[i], named)
  }

  lemma {:induction false} DeltasNegated(a: Option<Json>, b: Option<Json>, m: nat)
    requires m <= N_METRICS
    ensures Negated(Deltas(a, b, m), Deltas(b, a, m))
  {
    hide Metric;
    if m > 0 {
      DeltasNegated(a, b, m - 1);
    }
  }

  lemma MergeSwapsHere(a: Option<Json>, b: Option<Json>, p: string, o: nat, q: string, o': nat, threshold: real)
    requires a.Some? || b.Some?
    ensures SwapsHere(Merge(a, b, p, o, threshold), Merge(b, a, q, o', threshold))
  {
    DeltasNegated(a, b, N_METRICS);
    DiffLaws.MergedSides(a, b, p, o, threshold);
    DiffLaws.MergedSides(b, a, q, o', threshold);
    hide Merge, Deltas, SideComm, PathOf;
  }

  /** Nodes of the same comm, parent path and occurrence have the same path. */
  lemma MergeSameName(a: Option<Json>, b: Option<Json>, p: string, o: nat, threshold: real)
    ensures SameName(Merge(a, b, p, o, threshold), Merge(b, a, p, o, threshold)) <==> SideComm(a, b) == SideComm(b, a)
  {
    DiffLaws.MergedSides(a, b, p, o, threshold);
    DiffLaws.MergedSides(b, a, p, o, threshold);
    hide Merge, Deltas, SideComm, PathOf, Changed;
  }

  /** The i-th pair of a comm is lower than the nodes it comes from, and its sides agree on the comm. */
  lemma ZippedPair(a: Option<Json>, b: Option<Json>, comm: string, i: nat)
    requires var fa, fb := OfComm(KidsOf(a), |KidsOf(a)|, comm), OfComm(KidsOf(b), |KidsOf(b)|, comm);
             i < Longer(fa, fb)
    ensures var fa, fb := OfComm(KidsOf(a), |KidsOf(a)|, comm), OfComm(KidsOf(b), |KidsOf(b)|, comm);
            var ca, cb := ItemAt(fa, i), ItemAt(fb, i);
            && (ca.Some? || cb.Some?) && SideComm(ca, cb) == SideComm(cb, ca) == comm
            && HeightOf(ca) + HeightOf(cb) < HeightOf(a) + HeightOf(b)
  {
    hide Kids, Comm, OfComm, Height;
    var ka, kb := KidsOf(a), KidsOf(b);
    var fa, fb := OfComm(ka, |ka|, comm), OfComm(kb, |kb|, comm);
    AllOfComm(ka, |ka|, comm);
    AllOfComm(kb, |kb|, comm);
    OfCommInKids(ka, |ka|, comm);
    OfCommInKids(kb, |kb|, comm);
    if i < |fa| {
      KidIsLowerThan(a, fa[i]);
    }
    if i < |fb| {
      KidIsLowerThan(b, fb[i]);
    }
  }

  /** Merging B with A swaps merging A with B, whatever the paths; named when both go under one path. */
  lemma {:induction false} MergeSwaps(a: Option<Json>, b: Option<Json>, p: string, o: nat, q: string, o': nat,
                                      threshold: real, named: bool)
    requires a.Some? || b.Some?
    requires named ==> p == q && o == o' && SideComm(a, b) == SideComm(b, a)
    ensures Swaps(Merge(a, b, p, o, threshold), Merge(b, a, q, o', threshold), named)
    decreases HeightOf(a) + HeightOf(b)
  {
    hide Merge, Kids, SideComm, HeightOf, SwapsHere;
    var x, y := Merge(a, b, p, o, threshold), Merge(b, a, q, o', threshold);
    MergeSwapsHere(a, b, p, o, q, o', threshold);
    if named {
      MergeSameName(a, b, p, o, threshold);
    }
    forall comm: string {:trigger NodesOfComm(x.children, |x.children|, comm)}
      ensures var xs, ys := NodesOfComm(x.children, |x.children|, comm), NodesOfComm(y.children, |y.children|, comm);
              |xs| == |ys| && forall i :: 0 <= i < |xs| ==> xs[i] in x.children && Swaps(xs[i], ys[i], named)
    {
      var ka, kb := KidsOf(a), KidsOf(b);
      var fa, fb := OfComm(ka, |ka|, comm), OfComm(kb, |kb|, comm);
      ChildrenPairedByOccurrence(a, b, p, o, threshold, comm);
      ChildrenPairedByOccurrence(b, a, q, o', threshold, comm);
      var xs, ys := NodesOfComm(x.children, |x.children|, comm), NodesOfComm(y.children, |y.children|, comm);
      forall i | 0 <= i < |xs|
        ensures xs[i] in x.children && Swaps(xs[i], ys[i], named)
      {
        ZipAt(fa, fb, Longer(fa, fb), i);
        ZipAt(fb, fa, Longer(fb, fa), i);
        ZippedPair(a, b, comm, i);
        MergeSwaps(ItemAt(fa, i), ItemAt(fb, i), x.path, i, y.path, i, threshold, named);
      }
    }
  }

  /**
   Exchanging the runs exchanges the sides, added with removed, and the sign of every delta, for every two trees and
   under any paths. Only a merge of nothing with nothing does not swap: it counts as added both ways.
   */
  lemma MergeSwapsIff(a: Option<Json>, b: Option<Json>, p: string, o: nat, q: string, o': nat, threshold: real)
    ensures Swaps(Merge(a, b, p, o, threshold), Merge(b, a, q, o', threshold), false) <==> a.Some? || b.Some?
  {
    if a.Some? || b.Some? {
      MergeSwaps(a, b, p, o, q, o', threshold, false);
    } else {
      DiffLaws.MergedSides(a, b, p, o, threshold);
      DiffLaws.MergedSides(b, a, q, o', threshold);
    }
  }

  /** Paths are kept as well exactly when both roots go by the same comm: every path starts with the root's comm. */
  lemma MergeSwapsNamedIff(a: Option<Json>, b: Option<Json>, p: string, o: nat, threshold: real)
    requires a.Some? || b.Some?
    ensures Swaps(Merge(a, b, p, o, threshold), Merge(b, a, p, o, threshold), true)
            <==> SideComm(a, b) == SideComm(b, a)
  {
    MergeSameName(a, b, p, o, threshold);
    if SideComm(a, b) == SideComm(b, a) {
      MergeSwaps(a, b, p, o, p, o, threshold, true);
    }
  }

  // ---- diffing a tree with itself ---------------------------------------------------------------

  /** Every node is matched with itself, with zero deltas, and counts as changed only for a negative threshold. */
  ghost predicate AllSame(n: DiffNode, threshold: real) {
    && n.status == Matched && n.a == n.b && n.a.Some?
    && (forall i :: 0 <= i < |n.delta| ==> n.delta[i] == 0.0)
    && (n.changed <==> threshold < 0.0)
    && forall i :: 0 <= i < |n.children| ==> AllSame(n.children[i], threshold)
  }

  lemma {:induction false} NoDeltas(j: Json, m: nat)
    requires m <= N_METRICS
    ensures forall i :: 0 <= i < m ==> Deltas(Some(j), Some(j), m)[i] == 0.0
  {
    hide Metric;
    if m > 0 {
      NoDeltas(j, m - 1);
    }
  }

  lemma {:induction false} SelfDiff(j: Json, parentPath: string, occurrence: nat, threshold: real)
    ensures AllSame(Merge(Some(j), Some(j), parentPath, occurrence, threshold), threshold)
    decreases Height(j)
  {
    var n, kids := Merge(Some(j), Some(j), parentPath, occurrence, threshold), Kids(j);
    var ps := PairsOf(kids, kids);
    DiffLaws.ChildrenAreMerges(Some(j), Some(j), parentPath, occurrence, threshold);
    DiffLaws.MergedSides(Some(j), Some(j), parentPath, occurrence, threshold);
    NoDeltas(j, N_METRICS);
    assert n.changed <==> threshold < 0.0;
    hide PairsOf, Merge, Kids, Deltas, Changed, SideComm, PathOf, Height;
    forall i | 0 <= i < |n.children|
      ensures AllSame(n.children[i], threshold)
    {
      SelfPairs(kids, i);
      PairSides(kids, kids, i);
      KidIsLowerThan(Some(j), ps[i].a.value);
      HeightOfSome(j);
      SelfDiff(ps[i].a.value, n.path, ps[i].occurrence, threshold);
    }
  }

  lemma HeightOfSome(j: Json)
    ensures HeightOf(Some(j)) == Height(j)
  {
  }

  // ---- topmost changes --------------------------------------------------------------------------

  /** Added nodes with no added or removed node above them, in order. */
  function TopAdded(n: DiffNode): seq<DiffNode>
    decreases n, 0
  {
    match n.status
    case Added => [n]
    case Removed => []
    case Matched => TopAddedAll(n.children, |n.children|)
  }

  function TopAddedAll(ns: seq<DiffNode>, m: nat): seq<DiffNode>
    requires m <= |ns|
    decreases ns, m
  {
    if m == 0 then [] else TopAddedAll(ns, m - 1) + TopAdded(ns[m - 1])
  }

  function TopRemoved(n: DiffNode): seq<DiffNode>
    decreases n, 0
  {
    match n.status
    case Added => []
    case Removed => [n]
    case Matched => TopRemovedAll(n.children, |n.children|)
  }

  function TopRemovedAll(ns: seq<DiffNode>, m: nat): seq<DiffNode>
    requires m <= |ns|
    decreases ns, m
  {
    if m == 0 then [] else TopRemovedAll(ns, m - 1) + TopRemoved(ns[m - 1])
  }

  /** collect_topmost_changes */
  method CollectTopmost(dn: DiffNode, added: seq<DiffNode>, removed: seq<DiffNode>)
    returns (added': seq<DiffNode>, removed': seq<DiffNode>)
    ensures added' == added + TopAdded(dn) && removed' == removed + TopRemoved(dn)
    decreases dn
  {
    added', removed' := added, removed;
    if dn.status == Added {
      return added + [dn], removed;
    }
    if dn.status == Removed {
      return added, removed + [dn];
    }
    for i := 0 to |dn.children|
      invariant added' == added + TopAddedAll(dn.children, i)
      invariant removed' == removed + TopRemovedAll(dn.children, i)
    {
      ghost var ns := dn.children;
      assert added + TopAddedAll(ns, i) + TopAdded(ns[i]) == added + (TopAddedAll(ns, i) + TopAdded(ns[i]));
      assert removed + TopRemovedAll(ns, i) + TopRemoved(ns[i]) == removed + (TopRemovedAll(ns, i) + TopRemoved(ns[i]));
      added', removed' := CollectTopmost(dn.children[i], added', removed');
    }
  }

  /** Nodes in the diff tree under n, itself included. */
  ghost function Total(n: DiffNode): nat
    decreases n, 0
  {
    1 + TotalAll(n.children, |n.children|)
  }

  ghost function TotalAll(ns: seq<DiffNode>, m: nat): nat
    requires m <= |ns|
    decreases ns, m
  {
    if m == 0 then 0 else TotalAll(ns, m - 1) + Total(ns[m - 1])
  }

  lemma {:induction false} TotalJoin(ns: seq<DiffNode>, ms: seq<DiffNode>, m: nat)
    requires m <= |ms|
    ensures TotalAll(ns + ms, |ns| + m) == TotalAll(ns, |ns|) + TotalAll(ms, m)
  {
    if m == 0 {
      TotalPrefix(ns, ms, |ns|);
    } else {
      TotalJoin(ns, ms, m - 1);
    }
  }

  lemma {:induction false} TotalPrefix(ns: seq<DiffNode>, ms: seq<DiffNode>, m: nat)
    requires m <= |ns|
    ensures TotalAll(ns + ms, m) == TotalAll(ns, m)
  {
    if m > 0 {
      TotalPrefix(ns, ms, m - 1);
    }
  }

  /** Under an added node everything is added, under a removed node everything removed. */
  ghost predicate Uniform(n: DiffNode, s: Status) {
    n.status == s && forall i :: 0 <= i < |n.children| ==> Uniform(n.children[i], s)
  }

  lemma {:induction false} OneSidedIsUniform(a: Option<Json>, b: Option<Json>, parentPath: string, occurrence: nat,
                                             threshold: real)
    requires a.None? != b.None?
    ensures Uniform(Merge(a, b, parentPath, occurrence, threshold), if a.None? then Added else Removed)
    decreases HeightOf(a) + HeightOf(b)
  {
    hide PairsOf, Merge, Kids, Deltas, Changed, SideComm, PathOf, Height;
    var n, ps := Merge(a, b, parentPath, occurrence, threshold), PairsOf(KidsOf(a), KidsOf(b));
    DiffLaws.ChildrenAreMerges(a, b, parentPath, occurrence, threshold);
    DiffLaws.MergedSides(a, b, parentPath, occurrence, threshold);
    PairsAreLower(a, b);
    forall i | 0 <= i < |n.children|
      ensures Uniform(n.children[i], if a.None? then Added else Removed)
    {
      PairSides(KidsOf(a), KidsOf(b), i);
      OneSidedIsUniform(ps[i].a, ps[i].b, n.path, ps[i].occurrence, threshold);
    }
  }

  lemma {:induction false} NothingMatchedIn(n: DiffNode, s: Status)
    requires Uniform(n, s) && s != Matched
    ensures MatchedIn(n) == []
    decreases n, 0
  {
    NothingMatchedInAll(n.children, |n.children|, s);
  }

  lemma {:induction false} NothingMatchedInAll(ns: seq<DiffNode>, m: nat, s: Status)
    requires m <= |ns| && s != Matched && forall i :: 0 <= i < |ns| ==> Uniform(ns[i], s)
    ensures MatchedInAll(ns, m) == []
    decreases ns, m
  {
    if m > 0 {
      NothingMatchedInAll(ns, m - 1, s);
      NothingMatchedIn(ns[m - 1], s);
    }
  }

  /** Each node of the diff is matched or under exactly one topmost added or removed node. */
  ghost predicate Split(n: DiffNode) {
    Total(n) == |MatchedIn(n)| + TotalAll(TopAdded(n), |TopAdded(n)|) + TotalAll(TopRemoved(n), |TopRemoved(n)|)
  }

  lemma {:induction false} AllSplit(ns: seq<DiffNode>, m: nat)
    requires m <= |ns| && forall i :: 0 <= i < |ns| ==> Split(ns[i])
    ensures var added, removed := TopAddedAll(ns, m), TopRemovedAll(ns, m);
            TotalAll(ns, m) == |MatchedInAll(ns, m)| + TotalAll(added, |added|) + TotalAll(removed, |removed|)
  {
    hide MatchedIn, TopAdded, TopRemoved, Total;
    if m > 0 {
      AllSplit(ns, m - 1);
      assert Split(ns[m - 1]);
      hide Split;
      TotalsJoin(TopAddedAll(ns, m - 1), TopAdded(ns[m - 1]));
      TotalsJoin(TopRemovedAll(ns, m - 1), TopRemoved(ns[m - 1]));
    }
  }

  lemma TotalsJoin(ns: seq<DiffNode>, ms: seq<DiffNode>)
    ensures TotalAll(ns + ms, |ns + ms|) == TotalAll(ns, |ns|) + TotalAll(ms, |ms|)
  {
    hide TotalAll;
    TotalJoin(ns, ms, |ms|);
  }

  lemma OnlyOne(n: DiffNode)
    ensures TotalAll([n], 1) == Total(n) && TotalAll([], 0) == 0
  {
    assert TotalAll([n], 0) == 0;
  }

  lemma {:induction false} TopmostSplit(a: Option<Json>, b: Option<Json>, parentPath: string, occurrence: nat,
                                        threshold: real)
    requires a.Some? || b.Some?
    ensures Split(Merge(a, b, parentPath, occurrence, threshold))
    decreases HeightOf(a) + HeightOf(b)
  {
    hide PairsOf, Merge, Kids, Deltas, Changed, SideComm, PathOf, Height;
    var n, ps := Merge(a, b, parentPath, occurrence, threshold), PairsOf(KidsOf(a), KidsOf(b));
    DiffLaws.ChildrenAreMerges(a, b, parentPath, occurrence, threshold);
    DiffLaws.MergedSides(a, b, parentPath, occurrence, threshold);
    PairsAreLower(a, b);
    OnlyOne(n);
    if a.None? || b.None? {
      OneSidedIsUniform(a, b, parentPath, occurrence, threshold);
      NothingMatchedIn(n, n.status);
    } else {
      forall i | 0 <= i < |n.children|
        ensures Split(n.children[i])
      {
        PairSides(KidsOf(a), KidsOf(b), i);
        TopmostSplit(ps[i].a, ps[i].b, n.path, ps[i].occurrence, threshold);
      }
      AllSplit(n.children, |n.children|);
    }
  }

  // ---- no difference ----------------------------------------------------------------------------

  /** Every node is matched and unchanged. */
  ghost predicate AllUnchanged(n: DiffNode) {
    n.status == Matched && !n.changed && forall i :: 0 <= i < |n.children| ==> AllUnchanged(n.children[i])
  }

  ghost predicate NoneChanged(ns: seq<DiffNode>) {
    forall i :: 0 <= i < |ns| ==> !ns[i].changed
  }

  ghost predicate NoDifference(n: DiffNode) {
    TopAdded(n) == [] && TopRemoved(n) == [] && NoneChanged(MatchedIn(n))
  }

  /** What run_diff reports as no difference is that every node is matched and unchanged. */
  lemma {:induction false} NoDifferenceIff(n: DiffNode)
    ensures NoDifference(n) <==> AllUnchanged(n)
    decreases n, 0
  {
    if n.status == Matched {
      NoDifferenceInAllIff(n.children, |n.children|);
      NoneChangedJoin([n], MatchedInAll(n.children, |n.children|));
      assert MatchedIn(n) == [n] + MatchedInAll(n.children, |n.children|);
      assert NoneChanged([n]) <==> !n.changed by {
        assert [n][0] == n;
      }
    }
  }

  lemma NoneChangedJoin(ns: seq<DiffNode>, ms: seq<DiffNode>)
    ensures NoneChanged(ns + ms) <==> NoneChanged(ns) && NoneChanged(ms)
  {
    if NoneChanged(ns + ms) {
      assert forall i :: 0 <= i < |ns| ==> (ns + ms)[i] == ns[i];
      assert forall i :: 0 <= i < |ms| ==> (ns + ms)[|ns| + i] == ms[i];
    }
  }

  lemma {:induction false} NoDifferenceInAllIff(ns: seq<DiffNode>, m: nat)
    requires m <= |ns|
    ensures TopAddedAll(ns, m) == [] && TopRemovedAll(ns, m) == [] && NoneChanged(MatchedInAll(ns, m))
            <==> forall i :: 0 <= i < m ==> AllUnchanged(ns[i])
    decreases ns, m
  {
    hide AllUnchanged, MatchedIn, TopAdded, TopRemoved;
    if m > 0 {
      NoDifferenceInAllIff(ns, m - 1);
      NoDifferenceIff(ns[m - 1]);
      NoneChangedJoin(MatchedInAll(ns, m - 1), MatchedIn(ns[m - 1]));
    }
  }

  /** The exit status of a diff: whether anything was added, removed, or matched and changed. */
  method RunDiff(treeA: Option<Json>, treeB: Option<Json>, threshold: real) returns (anyDiff: bool)
    ensures anyDiff == !AllUnchanged(Merge(treeA, treeB, "", 0, threshold))
  {
    hide Merge, MatchedIn, TopAdded, TopRemoved, AllUnchanged;
    var root, flat := MergeNodes(treeA, treeB, "", 0, threshold, []);
    var anyChanged := false;
    for i := 0 to |flat|
      invariant anyChanged == !NoneChanged(flat[..i])
    {
      assert flat[..i + 1] == flat[..i] + [flat[i]];
      NoneChangedJoin(flat[..i], [flat[i]]);
      if flat[i].changed {
        anyChanged := true;
      }
    }
    assert flat[..|flat|] == flat == MatchedIn(root);
    var added, removed := CollectTopmost(root, [], []);
    NoDifferenceIff(root);
    return anyChanged || |added| > 0 || |removed| > 0;
  }
}
