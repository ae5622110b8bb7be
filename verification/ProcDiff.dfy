/**
 Merging two process trees into a diff tree (proctree.c). Every node of the diff has the node of run A, of run B, or
 both; children are paired as CommGroups says.
 */
module ProcDiff {
  import opened CommGroups
  import opened Decimals
  import opened JsonReader
  import opened Options

  const UTIME := 0
  const STIME := 1

  const DIFF_METRICS: seq<string> := [
    "utime_seconds", "stime_seconds", "futex_wait_seconds", "io_read_wait_seconds", "io_write_wait_seconds",
    "io_read_bytes", "io_write_bytes", "sched_rundelay_seconds", "connect_seconds", "nanosleep_seconds",
    "wait_seconds", "poll_seconds"]

  const N_METRICS := 12

  datatype Status = Matched | Removed | Added

  datatype DiffNode = DiffNode(path: string, comm: string, a: Option<Json>, b: Option<Json>, status: Status,
                               changed: bool, delta: seq<real>, children: seq<DiffNode>)

  // ---- heights, for termination -----------------------------------------------------------------

  function Height(j: Json): (h: nat)
    ensures h > 0
    decreases j, 1
  {
    1 + HeightOfAll(j, |Kids(j)|)
  }

  function HeightOfAll(j: Json, m: nat): nat
    requires m <= |Kids(j)|
    decreases j, 0, m
  {
    if m == 0 then 0
    else
      KidInside(j, m - 1);
      var h, rest := Height(Kids(j)[m - 1]), HeightOfAll(j, m - 1);
      if h > rest then h else rest
  }

  lemma KidInside(j: Json, i: nat)
    requires i < |Kids(j)|
    ensures Kids(j)[i] < j
  {
    var v := ObjectGet(j, "children").value;
    var k :| 0 <= k < |j.members| && j.members[k] == Member("children", v);
    assert v.items[i] < v < j.members[k] < j;
  }

  lemma {:induction false} KidIsLower(j: Json, i: nat, m: nat)
    requires i < m <= |Kids(j)|
    ensures Height(Kids(j)[i]) <= HeightOfAll(j, m)
  {
    if i < m - 1 {
      KidIsLower(j, i, m - 1);
    }
  }

  function KidsOf(o: Option<Json>): seq<Json> {
    if o.Some? then Kids(o.value) else []
  }

  function HeightOf(o: Option<Json>): nat {
    if o.Some? then Height(o.value) else 0
  }

  lemma KidIsLowerThan(o: Option<Json>, kid: Json)
    requires kid in KidsOf(o)
    ensures Height(kid) < HeightOf(o)
  {
    hide Kids;
    var i :| 0 <= i < |KidsOf(o)| && KidsOf(o)[i] == kid;
    KidIsLower(o.value, i, |Kids(o.value)|);
  }

  /** Every child pair is lower than the pair it comes from. */
  ghost predicate Lower(ps: seq<Pair>, h: nat) {
    forall i :: 0 <= i < |ps| ==> HeightOf(ps[i].a) + HeightOf(ps[i].b) < h
  }

  lemma PairsAreLower(a: Option<Json>, b: Option<Json>)
    ensures Lower(PairsOf(KidsOf(a), KidsOf(b)), HeightOf(a) + HeightOf(b))
  {
    hide PairsOf, Height, Comm, PairComm, Kids;
    var ps := PairsOf(KidsOf(a), KidsOf(b));
    forall i | 0 <= i < |ps|
      ensures HeightOf(ps[i].a) + HeightOf(ps[i].b) < HeightOf(a) + HeightOf(b)
    {
      PairSides(KidsOf(a), KidsOf(b), i);
      if ps[i].a.Some? {
        KidIsLowerThan(a, ps[i].a.value);
      }
      if ps[i].b.Some? {
        KidIsLowerThan(b, ps[i].b.value);
      }
    }
  }

  // ---- the merge as a function ------------------------------------------------------------------

  function Metric(j: Json, i: nat): real
    requires i < N_METRICS
  {
    GetNumber(j, DIFF_METRICS[i], 0.0)
  }

  /** Side B less side A, metric by metric, for two matched nodes. */
  function Deltas(a: Option<Json>, b: Option<Json>, m: nat): (ds: seq<real>)
    requires m <= N_METRICS
    ensures |ds| == m
  {
    if m == 0 then []
    else Deltas(a, b, m - 1)
         + [if a.Some? && b.Some? then Metric(b.value, m - 1) - Metric(a.value, m - 1) else 0.0]
  }

  function Abs(x: real): real {
    if x < 0.0 then -x else x
  }

  function StatusOf(a: Option<Json>, b: Option<Json>): Status {
    if a.Some? && b.Some? then Matched else if a.Some? then Removed else Added
  }

  function Changed(a: Option<Json>, b: Option<Json>, threshold: real): bool {
    var ds := Deltas(a, b, N_METRICS);
    a.Some? && b.Some? && Abs(ds[UTIME]) + Abs(ds[STIME]) > threshold
  }

  function PathOf(parentPath: string, comm: string, occurrence: nat): string {
    parentPath + "/" + comm + (if occurrence > 0 then "#" + Decimal(occurrence) else "")
  }

  function Merge(a: Option<Json>, b: Option<Json>, parentPath: string, occurrence: nat, threshold: real): DiffNode
    decreases HeightOf(a) + HeightOf(b), 1, 0
  {
    var comm := SideComm(a, b);
    var path := PathOf(parentPath, comm, occurrence);
    var ps := PairsOf(KidsOf(a), KidsOf(b));
    PairsAreLower(a, b);
    DiffNode(path, comm, a, b, StatusOf(a, b), Changed(a, b, threshold), Deltas(a, b, N_METRICS),
             MergeAll(ps, |ps|, path, threshold, HeightOf(a) + HeightOf(b)))
  }

  /** The merged nodes of the first m pairs; h bounds their heights. */
  function MergeAll(ps: seq<Pair>, m: nat, path: string, threshold: real, ghost h: nat): (ns: seq<DiffNode>)
    requires m <= |ps| && Lower(ps, h)
    ensures |ns| == m
    decreases h, 0, m
  {
    if m == 0 then []
    else MergeAll(ps, m - 1, path, threshold, h)
         + [Merge(ps[m - 1].a, ps[m - 1].b, path, ps[m - 1].occurrence, threshold)]
  }

  /** The matched nodes of a diff tree, each before those under it. */
  function MatchedIn(n: DiffNode): seq<DiffNode>
    decreases n, 0
  {
    (if n.status == Matched then [n] else []) + MatchedInAll(n.children, |n.children|)
  }

  function MatchedInAll(ns: seq<DiffNode>, m: nat): seq<DiffNode>
    requires m <= |ns|
    decreases ns, m
  {
    if m == 0 then [] else MatchedInAll(ns, m - 1) + MatchedIn(ns[m - 1])
  }

  lemma {:induction false} MatchedInPrefix(ns: seq<DiffNode>, ms: seq<DiffNode>, m: nat)
    requires m <= |ns|
    ensures MatchedInAll(ns + ms, m) == MatchedInAll(ns, m)
  {
    if m > 0 {
      MatchedInPrefix(ns, ms, m - 1);
    }
  }

  // ---- the merge as the program does it ---------------------------------------------------------

  method ComputeDeltas(a: Json, b: Json) returns (ds: seq<real>)
    ensures ds == Deltas(Some(a), Some(b), N_METRICS)
  {
    ds := [];
    for i := 0 to N_METRICS
      invariant ds == Deltas(Some(a), Some(b), i)
    {
      ds := ds + [GetNumber(b, DIFF_METRICS[i], 0.0) - GetNumber(a, DIFF_METRICS[i], 0.0)];
    }
  }

  /** Status, and for matched nodes the deltas and whether cpu time moved by more than the threshold. */
  method Compare(a: Option<Json>, b: Option<Json>, threshold: real)
    returns (status: Status, delta: seq<real>, changed: bool)
    ensures status == StatusOf(a, b) && delta == Deltas(a, b, N_METRICS) && changed == Changed(a, b, threshold)
  {
    delta, changed := Deltas(a, b, N_METRICS), false;
    if a.Some? && b.Some? {
      status := Matched;
      delta := ComputeDeltas(a.value, b.value);
      changed := Abs(delta[UTIME]) + Abs(delta[STIME]) > threshold;
    } else if a.Some? {
      status := Removed;
    } else {
      status := Added;
    }
  }

  /** merge_nodes: matched nodes are also put on the flat list, before the nodes under them. */
  method MergeNodes(a: Option<Json>, b: Option<Json>, parentPath: string, occurrence: nat, threshold: real,
                    flat: seq<DiffNode>)
    returns (node: DiffNode, flat': seq<DiffNode>)
    ensures node == Merge(a, b, parentPath, occurrence, threshold) && flat' == flat + MatchedIn(node)
    decreases HeightOf(a) + HeightOf(b), 1
  {
    var comm := SideComm(a, b);
    var path := PathOf(parentPath, comm, occurrence);
    var status, delta, changed := Compare(a, b, threshold);
    hide PairsOf, MatchedIn, MatchedInAll, Deltas, Changed, StatusOf, SideComm, PathOf, Kids;
    var pairs := PairChildren(KidsOf(a), KidsOf(b));
    PairsAreLower(a, b);
    var children, under := MergeChildren(pairs, path, threshold, HeightOf(a) + HeightOf(b));
    node := DiffNode(path, comm, a, b, status, changed, delta, children);
    flat' := flat + (if status == Matched then [node] else []) + under;
    FlatOf(node);
    assert flat + ((if status == Matched then [node] else []) + under) == flat';
  }

  method MergeChildren(pairs: seq<Pair>, path: string, threshold: real, ghost h: nat)
    returns (children: seq<DiffNode>, under: seq<DiffNode>)
    requires Lower(pairs, h)
    ensures children == MergeAll(pairs, |pairs|, path, threshold, h)
    ensures under == MatchedInAll(children, |children|)
    decreases h, 0
  {
    hide Merge, MatchedIn, HeightOf;
    children, under := [], [];
    for i := 0 to |pairs|
      invariant children == MergeAll(pairs, i, path, threshold, h) && under == MatchedInAll(children, i)
    {
      var child, under' := MergeNodes(pairs[i].a, pairs[i].b, path, pairs[i].occurrence, threshold, under);
      MatchedInPrefix(children, [child], i);
      children, under := children + [child], under';
    }
  }

  lemma FlatOf(n: DiffNode)
    ensures MatchedIn(n) == (if n.status == Matched then [n] else []) + MatchedInAll(n.children, |n.children|)
  {
  }
}
