/**
 Replaying a process-tree log onto real nodes (proctree.c): lookup, fork, exit and the walk over sibling links. The
 ghost forest says what the links stand for; every handler keeps both in step.
 */
module ProcReplay {
  import opened Forest
  import opened Options
  import opened ProcTable

  // ---- what the links of the nodes say ----------------------------------------------------------

  type Ref = ProcessInfo?

  /** The link fields of all nodes, by number. */
  datatype Fields = Fields(parent: seq<Ref>, children: seq<Ref>, older: seq<Ref>, younger: seq<Ref>)

  ghost function FieldsOf(nodes: seq<ProcessInfo>): (fs: Fields)
    reads nodes
    ensures |fs.parent| == |fs.children| == |fs.older| == |fs.younger| == |nodes|
    ensures forall i :: 0 <= i < |nodes| ==> fs.parent[i] == nodes[i].parent && fs.children[i] == nodes[i].children
    ensures forall i :: 0 <= i < |nodes| ==> fs.older[i] == nodes[i].olderSibling
    ensures forall i :: 0 <= i < |nodes| ==> fs.younger[i] == nodes[i].youngerSibling
  {
    Fields(seq(|nodes|, i requires 0 <= i < |nodes| reads nodes => nodes[i].parent),
           seq(|nodes|, i requires 0 <= i < |nodes| reads nodes => nodes[i].children),
           seq(|nodes|, i requires 0 <= i < |nodes| reads nodes => nodes[i].olderSibling),
           seq(|nodes|, i requires 0 <= i < |nodes| reads nodes => nodes[i].youngerSibling))
  }

  ghost function NodeOf(nodes: seq<ProcessInfo>, i: Option<nat>): Ref {
    if i == None || i.value >= |nodes| then null else nodes[i.value]
  }

  /** Child k of a list of children, null beyond either end. */
  ghost function KidAt(nodes: seq<ProcessInfo>, kids: seq<nat>, k: int): Ref {
    if 0 <= k < |kids| && kids[k] < |nodes| then nodes[kids[k]] else null
  }

  /** Older and younger links run through the list in opposite directions, and end where it ends. */
  ghost predicate Siblings(nodes: seq<ProcessInfo>, fs: Fields, kids: seq<nat>)
    requires |fs.older| == |fs.younger| == |nodes|
  {
    forall k :: 0 <= k < |kids| && kids[k] < |nodes| ==>
                  && fs.older[kids[k]] == KidAt(nodes, kids, k + 1)
                  && fs.younger[kids[k]] == KidAt(nodes, kids, k - 1)
  }

  ghost predicate Sized(nodes: seq<ProcessInfo>, fs: Fields, f: Forest) {
    && |fs.parent| == |fs.children| == |fs.older| == |fs.younger| == |nodes|
    && |f.parents| == |f.kids| == |nodes|
  }

  ghost predicate LinkedAt(nodes: seq<ProcessInfo>, fs: Fields, f: Forest, i: nat)
    requires Sized(nodes, fs, f) && i < |nodes|
  {
    && fs.parent[i] == NodeOf(nodes, f.parents[i])
    && fs.children[i] == KidAt(nodes, f.kids[i], 0)
    && (f.parents[i] == None ==> fs.older[i] == fs.younger[i] == null)
    && Siblings(nodes, fs, f.kids[i])
  }

  /** The link fields are exactly what the forest says. */
  ghost predicate Links(nodes: seq<ProcessInfo>, fs: Fields, f: Forest) {
    && Sized(nodes, fs, f)
    && (forall i, j :: 0 <= i < j < |nodes| ==> nodes[i] != nodes[j])
    && forall i :: 0 <= i < |nodes| ==> LinkedAt(nodes, fs, f, i)
  }

  function FieldsWithNew(fs: Fields): Fields {
    Fields(fs.parent + [null], fs.children + [null], fs.older + [null], fs.younger + [null])
  }

  /** A new process is linked to nothing and nothing to it. */
  lemma LinksWithNew(nodes: seq<ProcessInfo>, fs: Fields, f: Forest, node: ProcessInfo, pid: nat)
    requires WellFormed(f) && Links(nodes, fs, f) && node !in nodes && pid !in f.live
    ensures Links(nodes + [node], FieldsWithNew(fs), Ensure(f, pid))
  {
    var more, gs, g := nodes + [node], FieldsWithNew(fs), Ensure(f, pid);
    forall i | 0 <= i < |nodes|
      ensures LinkedAt(more, gs, g, i)
    {
      assert KidsAre(f.parents, f.kids[i], i);
      LinkedWithNew(nodes, fs, f, node, pid, i);
    }
    assert LinkedAt(more, gs, g, |nodes|);
  }

  lemma LinkedWithNew(nodes: seq<ProcessInfo>, fs: Fields, f: Forest, node: ProcessInfo, pid: nat, i: nat)
    requires WellFormed(f) && Sized(nodes, fs, f) && i < |nodes| && LinkedAt(nodes, fs, f, i) && pid !in f.live
    ensures LinkedAt(nodes + [node], FieldsWithNew(fs), Ensure(f, pid), i)
  {
    var kids, more := f.kids[i], nodes + [node];
    assert KidsAre(f.parents, kids, i);
    forall k: int
      ensures KidAt(more, kids, k) == KidAt(nodes, kids, k)
    {
    }
  }

  /** The fields after the youngest child of p is made to be c. */
  function Relinked(nodes: seq<ProcessInfo>, fs: Fields, kids: seq<nat>, p: nat, c: nat): Fields
    requires |fs.parent| == |fs.children| == |fs.older| == |fs.younger| == |nodes| && p < |nodes| && c < |nodes|
    requires forall k :: 0 <= k < |kids| ==> kids[k] < |nodes|
  {
    Fields(fs.parent[c := nodes[p]], fs.children[p := nodes[c]],
           if kids == [] then fs.older else fs.older[c := nodes[kids[0]]],
           if kids == [] then fs.younger else fs.younger[kids[0] := nodes[c]])
  }

  lemma LinksAfterAttach(nodes: seq<ProcessInfo>, fs: Fields, f: Forest, p: nat, c: nat)
    requires WellFormed(f) && Links(nodes, fs, f) && p < |nodes| && c < |nodes| && f.parents[c] == None
    requires forall k :: 0 <= k < |f.kids[p]| ==> f.kids[p][k] < |nodes|
    ensures Links(nodes, Relinked(nodes, fs, f.kids[p], p, c), Attach(f, p, c))
  {
    assert KidsAre(f.parents, f.kids[p], p);
    forall i | 0 <= i < |nodes|
      ensures LinkedAt(nodes, Relinked(nodes, fs, f.kids[p], p, c), Attach(f, p, c), i)
    {
      SiblingsAfterAttach(nodes, fs, f, p, c, i);
      LinkedAfterAttach(nodes, fs, f, p, c, i);
    }
  }

  lemma LinkedAfterAttach(nodes: seq<ProcessInfo>, fs: Fields, f: Forest, p: nat, c: nat, i: nat)
    requires WellFormed(f) && Sized(nodes, fs, f) && p < |nodes| && c < |nodes| && f.parents[c] == None && i < |nodes|
    requires forall k :: 0 <= k < |f.kids[p]| ==> f.kids[p][k] < |nodes|
    requires f.kids[p] != [] ==> f.parents[f.kids[p][0]] == Some(p)
    requires LinkedAt(nodes, fs, f, i)
    requires Siblings(nodes, Relinked(nodes, fs, f.kids[p], p, c), Attach(f, p, c).kids[i])
    ensures LinkedAt(nodes, Relinked(nodes, fs, f.kids[p], p, c), Attach(f, p, c), i)
  {
    hide Siblings, WellFormed;
  }

  lemma SiblingsAfterAttach(nodes: seq<ProcessInfo>, fs: Fields, f: Forest, p: nat, c: nat, i: nat)
    requires WellFormed(f) && Links(nodes, fs, f) && p < |nodes| && c < |nodes| && f.parents[c] == None
    requires forall k :: 0 <= k < |f.kids[p]| ==> f.kids[p][k] < |nodes|
    requires i < |nodes|
    ensures Siblings(nodes, Relinked(nodes, fs, f.kids[p], p, c), Attach(f, p, c).kids[i])
  {
    var gs, kids := Relinked(nodes, fs, f.kids[p], p, c), f.kids[p];
    assert LinkedAt(nodes, fs, f, c) && LinkedAt(nodes, fs, f, i) && KidsAre(f.parents, kids, p);
    assert forall k :: 0 <= k < |kids| ==> kids[k] != c;
    hide Siblings, WellFormed, KidsAre;
    if i == p {
      YoungestFirst(nodes, fs, gs, kids, c);
    } else {
      OthersStay(nodes, fs, gs, f, p, c, i);
    }
  }

  /** One more child in front of a list of linked children. */
  lemma YoungestFirst(nodes: seq<ProcessInfo>, fs: Fields, gs: Fields, kids: seq<nat>, c: nat)
    requires |fs.older| == |fs.younger| == |gs.older| == |gs.younger| == |nodes| && c < |nodes|
    requires (forall k :: 0 <= k < |kids| ==> kids[k] < |nodes| && kids[k] != c) && Distinct(kids)
    requires Siblings(nodes, fs, kids) && fs.younger[c] == fs.older[c] == null
    requires gs.older == if kids == [] then fs.older else fs.older[c := nodes[kids[0]]]
    requires gs.younger == if kids == [] then fs.younger else fs.younger[kids[0] := nodes[c]]
    ensures Siblings(nodes, gs, [c] + kids)
  {
    var more := [c] + kids;
    forall k | 0 <= k < |more|
      ensures gs.older[more[k]] == KidAt(nodes, more, k + 1) && gs.younger[more[k]] == KidAt(nodes, more, k - 1)
    {
      if k > 0 {
        assert more[k] == kids[k - 1] && fs.older[kids[k - 1]] == KidAt(nodes, kids, k);
        assert fs.younger[kids[k - 1]] == KidAt(nodes, kids, k - 2);
      }
    }
  }

  /** The children of another process keep their links. */
  lemma OthersStay(nodes: seq<ProcessInfo>, fs: Fields, gs: Fields, f: Forest, p: nat, c: nat, i: nat)
    requires p < |nodes| && c < |nodes| && i < |nodes| && i != p
    requires WellFormed(f) && Sized(nodes, fs, f) && Siblings(nodes, fs, f.kids[i]) && f.parents[c] == None
    requires |gs.older| == |gs.younger| == |nodes|
    requires forall k :: 0 <= k < |nodes| && k != c ==> gs.older[k] == fs.older[k]
    requires forall k :: 0 <= k < |nodes| && (f.kids[p] == [] || k != f.kids[p][0]) ==> gs.younger[k] == fs.younger[k]
    ensures Siblings(nodes, gs, f.kids[i])
  {
    assert KidsAre(f.parents, f.kids[i], i) && KidsAre(f.parents, f.kids[p], p);
  }

  /** Make child the youngest child of parent. */
  method LinkChild(child: ProcessInfo, parent: ProcessInfo)
    requires child.parent == null && child.olderSibling == null && parent.children != child
    modifies child`parent, child`olderSibling, parent`children
    modifies (if parent.children == null then {} else {parent.children})`youngerSibling
    ensures child.parent == parent && parent.children == child && child.olderSibling == old(parent.children)
    ensures old(parent.children) != null ==> old(parent.children).youngerSibling == child
  {
    child.parent := parent;
    if parent.children != null {
      child.olderSibling := parent.children;
      child.olderSibling.youngerSibling := child;
    }
    parent.children := child;
  }

  /** Attaching a node changes exactly the fields it should. */
  method AttachNode(ghost nodes: seq<ProcessInfo>, ghost f: Forest, ghost p: nat, ghost c: nat,
                    child: ProcessInfo, parent: ProcessInfo)
    requires WellFormed(f) && Links(nodes, FieldsOf(nodes), f) && p < |nodes| && c < |nodes|
    requires child == nodes[c] && parent == nodes[p] && f.parents[c] == None
    modifies nodes
    ensures Links(nodes, FieldsOf(nodes), Attach(f, p, c))
  {
    ghost var fs, kids := FieldsOf(nodes), f.kids[p];
    assert LinkedAt(nodes, fs, f, c) && LinkedAt(nodes, fs, f, p) && KidsAre(f.parents, kids, p);
    LinksAfterAttach(nodes, fs, f, p, c);
    ghost var gs := Relinked(nodes, fs, kids, p, c);
    assert kids != [] ==> kids[0] != c;
    hide WellFormed, LinkedAt, KidsAre, Siblings;
    LinkChild(child, parent);
    ghost var now := FieldsOf(nodes);
    assert now.parent == gs.parent;
    assert now.children == gs.children;
    assert now.older == gs.older;
    assert now.younger == gs.younger;
    assert now == gs;
  }

  // ---- the handlers -----------------------------------------------------------------------------

  ghost predicate Named(nodes: seq<ProcessInfo>, pids: seq<nat>) {
    |nodes| == |pids| && forall i :: 0 <= i < |nodes| ==> nodes[i].pid == pids[i]
  }

  /** The table finds the node of every running process. */
  ghost predicate Tabled(running: map<nat, ProcessInfo>, nodes: seq<ProcessInfo>, live: map<nat, nat>) {
    && running.Keys == live.Keys
    && forall pid :: pid in live ==> live[pid] < |nodes| && running[pid] == nodes[live[pid]]
  }

  /** Names, table and root of the real nodes are those of the forest. */
  ghost predicate InStep(nodes: seq<ProcessInfo>, running: map<nat, ProcessInfo>, root: Ref, f: Forest) {
    && WellFormed(f) && Named(nodes, f.pids) && Tabled(running, nodes, f.live)
    && root == NodeOf(nodes, f.root)
  }

  lemma InStepAfterAdd(nodes: seq<ProcessInfo>, running: map<nat, ProcessInfo>, root: Ref, f: Forest,
                       node: ProcessInfo)
    requires InStep(nodes, running, root, f) && node.pid !in f.live
    ensures InStep(nodes + [node], running[node.pid := node], root, Ensure(f, node.pid))
  {
    EnsureKeepsWellFormed(f, node.pid);
  }

  lemma LinksAfterAdd(nodes: seq<ProcessInfo>, fs: Fields, running: map<nat, ProcessInfo>, root: Ref, f: Forest,
                      node: ProcessInfo)
    requires InStep(nodes, running, root, f) && Links(nodes, fs, f) && node !in nodes && node.pid !in f.live
    ensures Links(nodes + [node], FieldsWithNew(fs), Ensure(f, node.pid))
  {
    LinksWithNew(nodes, fs, f, node, node.pid);
  }

  lemma InStepAfterRoot(nodes: seq<ProcessInfo>, running: map<nat, ProcessInfo>, root: Ref, f: Forest, pid: nat)
    requires InStep(nodes, running, root, f) && pid in f.live
    ensures f.live[pid] < |nodes|
    ensures InStep(nodes, running, nodes[f.live[pid]], f.(root := Some(f.live[pid])))
  {
  }

  lemma InStepAfterAttach(nodes: seq<ProcessInfo>, running: map<nat, ProcessInfo>, root: Ref, f: Forest,
                          p: nat, c: nat)
    requires InStep(nodes, running, root, f) && p < |nodes| && c < |nodes|
    ensures InStep(nodes, running, root, Attach(f, p, c))
  {
    AttachKeepsWellFormed(f, p, c);
  }

  lemma InStepAfterExit(nodes: seq<ProcessInfo>, running: map<nat, ProcessInfo>, root: Ref, f: Forest, pid: nat)
    requires InStep(nodes, running, root, f)
    ensures InStep(nodes, running - {pid}, root, f.(live := f.live - {pid}))
    ensures pid !in running ==> running - {pid} == running
  {
  }

  lemma FoundNode(nodes: seq<ProcessInfo>, running: map<nat, ProcessInfo>, root: Ref, f: Forest, pid: nat)
    requires InStep(nodes, running, root, f)
    ensures pid in running <==> pid in f.live
    ensures pid in f.live ==> f.live[pid] < |nodes| == |f.pids| && running[pid] == nodes[f.live[pid]]
  {
  }

  class Replay {
    const table: Table
    var rootProcess: ProcessInfo?
    ghost var nodes: seq<ProcessInfo>
    ghost var forest: Forest

    ghost predicate Valid()
      reads this, table, table.buckets, table.entries, nodes
    {
      && table.Valid() && InStep(nodes, table.running, rootProcess, forest) && Links(nodes, FieldsOf(nodes), forest)
      && table.totalProcesses == |nodes|
    }

    constructor ()
      ensures Valid() && forest == Empty() && fresh(table) && fresh(table.buckets) && table.entries == {}
    {
      table := new Table();
      rootProcess, nodes, forest := null, [], Empty();
    }

    /** lookup_pid with insert, on the table and the forest together. */
    method EnsureProcess(pid: nat) returns (node: ProcessInfo)
      requires Valid()
      modifies this`nodes, this`forest, table, table.buckets, table.entries
      ensures Valid() && forest == Ensure(old(forest), pid)
      ensures forest.live[pid] < |nodes| && node == nodes[forest.live[pid]]
      ensures fresh(table.entries - old(table.entries)) && old(nodes) <= nodes
      ensures forall n :: n in nodes && n !in old(nodes) ==> fresh(n)
    {
      hide InStep, Links, Table.Shape, FieldsOf, WellFormed;
      ghost var fs := FieldsOf(nodes);
      FoundNode(nodes, table.running, rootProcess, forest, pid);
      var entry := table.LookupPid(pid, true);
      node := entry.pinfo;
      assert FieldsOf(nodes) == fs;
      if pid !in forest.live {
        LinksAfterAdd(nodes, fs, old(table.running), rootProcess, forest, node);
        InStepAfterAdd(nodes, old(table.running), rootProcess, forest, node);
        NewFields(nodes, node, pid);
        nodes := nodes + [node];
        forest := Ensure(forest, pid);
      }
      FoundNode(nodes, table.running, rootProcess, forest, pid);
    }

    method HandleRoot(pid: nat)
      requires Valid()
      modifies this, table, table.buckets, table.entries
      ensures Valid() && forest == Step(old(forest), Root(pid))
      ensures fresh(table.entries - old(table.entries)) && forall n :: n in nodes && n !in old(nodes) ==> fresh(n)
    {
      hide InStep, Links, Table.Shape, FieldsOf;
      AllWellFormed(nodes, table.running, rootProcess, forest);
      hide WellFormed;
      var node := EnsureProcess(pid);
      InStepAfterRoot(nodes, table.running, rootProcess, forest, pid);
      LinksSame(nodes, FieldsOf(nodes), forest, forest.(root := Some(forest.live[pid])));
      rootProcess := node;
      forest := forest.(root := Some(forest.live[pid]));
    }

    /** The two lookups of a fork, the child's first. */
    method EnsureBoth(childPid: nat, pid: nat) returns (pinfo: ProcessInfo, parentPinfo: ProcessInfo)
      requires Valid()
      modifies this`nodes, this`forest, table, table.buckets, table.entries
      ensures Valid() && forest == Ensure(Ensure(old(forest), childPid), pid)
      ensures forest.live[childPid] < |nodes| && pinfo == nodes[forest.live[childPid]]
      ensures forest.live[pid] < |nodes| && parentPinfo == nodes[forest.live[pid]]
      ensures fresh(table.entries - old(table.entries))
      ensures forall n :: n in nodes ==> n in old(nodes) || fresh(n)
    {
      hide InStep, Links, Table.Shape, FieldsOf, WellFormed;
      pinfo := EnsureProcess(childPid);
      assert forall n :: n in nodes ==> n in old(nodes) || fresh(n);
      parentPinfo := EnsureProcess(pid);
    }

    /** The part of a fork that links the nodes, unless the child has a parent already. */
    method LinkUnlessParented(pinfo: ProcessInfo, parentPinfo: ProcessInfo, ghost p: nat, ghost c: nat)
      requires Valid() && p < |nodes| && c < |nodes| && pinfo == nodes[c] && parentPinfo == nodes[p]
      modifies this`forest, nodes
      ensures WellFormed(old(forest)) && p < |old(forest).pids| && c < |old(forest).pids|
      ensures Valid() && forest == Attach(old(forest), p, c)
    {
      hide InStep, Links, Table.Valid, FieldsOf, Attach, KidsAre, NodeOf, KidAt;
      AllWellFormed(nodes, table.running, rootProcess, forest);
      ParentSet(nodes, FieldsOf(nodes), table.running, rootProcess, forest, p, c);
      hide WellFormed;
      if pinfo.parent == null {
        InStepAfterAttach(nodes, table.running, rootProcess, forest, p, c);
        AttachNode(nodes, forest, p, c, pinfo, parentPinfo);
      }
      forest := Attach(forest, p, c);
    }

    /** A fork gives the child its parent, unless it has one; both are added when they are not running. */
    method HandleFork(pid: nat, childPid: nat)
      requires Valid()
      modifies this`nodes, this`forest, table, table.buckets, table.entries, nodes
      ensures Valid() && forest == Step(old(forest), Fork(pid, childPid))
      ensures fresh(table.entries - old(table.entries)) && forall n :: n in nodes ==> n in old(nodes) || fresh(n)
    {
      hide InStep, Links, Table.Valid, FieldsOf, Attach;
      AllWellFormed(nodes, table.running, rootProcess, forest);
      StepOfFork(forest, pid, childPid);
      hide WellFormed, Step, Ensure;
      var pinfo, parentPinfo := EnsureBoth(childPid, pid);
      assert forall i :: 0 <= i < |nodes| ==> nodes[i] in old(nodes) || fresh(nodes[i]);
      LinkUnlessParented(pinfo, parentPinfo, forest.live[pid], forest.live[childPid]);
    }

    method HandleExit(pid: nat)
      requires Valid()
      modifies this`forest, table, table.buckets, table.entries
      ensures Valid() && forest == Step(old(forest), Exit(pid)) && table.entries >= old(table.entries)
      ensures fresh(table.entries - old(table.entries))
    {
      hide InStep, Links, Table.Valid, FieldsOf;
      AllWellFormed(nodes, table.running, rootProcess, forest);
      hide WellFormed;
      ghost var running := table.running;
      InStepAfterExit(nodes, running, rootProcess, forest, pid);
      LinksSame(nodes, FieldsOf(nodes), forest, forest.(live := forest.live - {pid}));
      var entry := table.LookupPid(pid, false);
      if entry != null {
        var found := table.RemovePid(pid);
      }
      forest := forest.(live := forest.live - {pid});
    }

    /** Feed a whole log to the handlers. */
    method ReplayLog(log: seq<Event>)
      requires Valid() && forest == Empty()
      modifies this, table, table.buckets, table.entries, nodes
      ensures Valid() && forest == Run(log, |log|)
    {
      hide InStep, Links, Table.Valid, FieldsOf, WellFormed;
      for i := 0 to |log|
        invariant Valid() && forest == Run(log, i)
        invariant fresh(table.entries - old(table.entries))
        invariant forall k :: 0 <= k < |nodes| ==> nodes[k] in old(nodes) || fresh(nodes[k])
      {
        Handle(log[i]);
      }
    }

    /** One line of the log. */
    method Handle(e: Event)
      requires Valid()
      modifies this, table, table.buckets, table.entries, nodes
      ensures Valid() && WellFormed(old(forest)) && forest == Step(old(forest), e)
      ensures fresh(table.entries - old(table.entries))
      ensures forall k :: 0 <= k < |nodes| ==> nodes[k] in old(nodes) || fresh(nodes[k])
    {
      hide InStep, Links, Table.Valid, FieldsOf;
      AllWellFormed(nodes, table.running, rootProcess, forest);
      hide WellFormed, Step;
      match e {
        case Root(pid) => HandleRoot(pid);
        case Fork(pid, child) => HandleFork(pid, child);
        case Exit(pid) => HandleExit(pid);
      }
    }

    /** print_tree: visit a process, then its children from the eldest on. */
    method PrintTree(pinfo: ProcessInfo, ghost x: nat) returns (visited: seq<ProcessInfo>)
      requires Valid() && WellFormed(forest) && x < |nodes| == |forest.pids| && !OnCycle(forest, x) && pinfo == nodes[x]
      ensures visited == Objects(nodes, Walk(forest, x))
      decreases Below(forest, x), 1
    {
      hide InStep, Table.Valid, OnCycle, WellFormed, Links, Objects, KidAt, Walk, WalkKids, Below, FieldsOf;
      FirstKid(nodes, forest, x);
      WalkStarts(nodes, forest, x);
      if pinfo.children == null {
        NoKids(nodes, forest, x);
        return [pinfo];
      }
      var eldest := FindEldest(pinfo.children, x);
      visited := PrintSiblings(eldest, x);
      visited := [pinfo] + visited;
    }

    /** The children of x from the eldest on, by the younger links. */
    method PrintSiblings(eldest: ProcessInfo, ghost x: nat) returns (visited: seq<ProcessInfo>)
      requires Valid() && WellFormed(forest) && x < |nodes| == |forest.pids| && !OnCycle(forest, x)
      requires eldest == KidAt(nodes, forest.kids[x], |forest.kids[x]| - 1)
      ensures visited == Objects(nodes, WalkKids(forest, x, |forest.kids[x]|))
      decreases Below(forest, x), 0
    {
      hide InStep, Table.Valid, Below, OnCycle, Links, Objects, KidAt, Remaining, Walk, WalkKids, KidsAre, FieldsOf;
      ghost var kids, m := forest.kids[x], |forest.kids[x]|;
      hide WellFormed;
      AllRemain(nodes, forest, x);
      visited := [];
      var next: ProcessInfo? := eldest;
      while next != null
        invariant 0 <= m <= |kids| && next == KidAt(nodes, kids, m - 1) && Remaining(nodes, forest, x, m, visited)
        decreases m
      {
        KidExists(nodes, kids, m - 1);
        KidIsBelow(forest, x, kids[m - 1]);
        KidLinks(nodes, forest, x, m - 1);
        var under := PrintTree(next, kids[m - 1]);
        FewerRemain(nodes, forest, x, m, visited, under);
        visited, next, m := visited + under, next.youngerSibling, m - 1;
      }
      NoKid(nodes, forest, x, m - 1);
      NoneRemain(nodes, forest, x, visited);
    }

    /** Follow older siblings from the youngest child to the eldest. */
    method FindEldest(youngest: ProcessInfo, ghost x: nat) returns (eldest: ProcessInfo)
      requires Valid() && WellFormed(forest) && x < |nodes| == |forest.pids|
      requires youngest == KidAt(nodes, forest.kids[x], 0)
      ensures eldest == KidAt(nodes, forest.kids[x], |forest.kids[x]| - 1)
    {
      ghost var kids, m := forest.kids[x], 1;
      hide InStep, Table.Valid, Links, WellFormed, KidAt;
      eldest := youngest;
      KidExists(nodes, kids, 0);
      KidLinks(nodes, forest, x, 0);
      while eldest.olderSibling != null
        invariant 1 <= m <= |kids| && eldest == KidAt(nodes, kids, m - 1)
        invariant eldest.olderSibling == KidAt(nodes, kids, m)
        decreases |kids| - m
      {
        eldest := eldest.olderSibling;
        KidExists(nodes, kids, m);
        KidLinks(nodes, forest, x, m);
        m := m + 1;
      }
      NoKid(nodes, forest, x, m);
    }
  }

  /** The nodes with the given numbers. */
  ghost function Objects(nodes: seq<ProcessInfo>, ids: seq<nat>): (os: seq<Ref>) {
    seq(|ids|, k requires 0 <= k < |ids| => NodeOf(nodes, Some(ids[k])))
  }

  lemma ObjectsJoin(nodes: seq<ProcessInfo>, s: seq<nat>, t: seq<nat>)
    ensures Objects(nodes, s + t) == Objects(nodes, s) + Objects(nodes, t)
  {
  }

  lemma NoKids(nodes: seq<ProcessInfo>, f: Forest, x: nat)
    requires WellFormed(f) && x < |f.pids| && !OnCycle(f, x)
    ensures Objects(nodes, WalkKids(f, x, 0)) == []
  {
  }

  lemma WalkStarts(nodes: seq<ProcessInfo>, f: Forest, x: nat)
    requires WellFormed(f) && x < |nodes| == |f.pids| && !OnCycle(f, x)
    ensures [nodes[x]] + Objects(nodes, WalkKids(f, x, |f.kids[x]|)) == Objects(nodes, Walk(f, x))
  {
    ObjectsJoin(nodes, [x], WalkKids(f, x, |f.kids[x]|));
    assert Objects(nodes, [x]) == [nodes[x]];
  }

  /** What was visited so far, followed by the walks of the first m children, are the walks of all children. */
  ghost predicate Remaining(nodes: seq<ProcessInfo>, f: Forest, x: nat, m: nat, visited: seq<ProcessInfo>)
    requires WellFormed(f) && x < |f.pids| && !OnCycle(f, x) && m <= |f.kids[x]|
  {
    visited + Objects(nodes, WalkKids(f, x, m)) == Objects(nodes, WalkKids(f, x, |f.kids[x]|))
  }

  lemma AllRemain(nodes: seq<ProcessInfo>, f: Forest, x: nat)
    requires WellFormed(f) && x < |f.pids| && !OnCycle(f, x)
    ensures Remaining(nodes, f, x, |f.kids[x]|, [])
  {
  }

  lemma FewerRemain(nodes: seq<ProcessInfo>, f: Forest, x: nat, m: nat, visited: seq<ProcessInfo>,
                    under: seq<ProcessInfo>)
    requires WellFormed(f) && x < |f.pids| && !OnCycle(f, x) && 0 < m <= |f.kids[x]| && f.kids[x][m - 1] < |f.pids|
    requires Remaining(nodes, f, x, m, visited)
    requires !OnCycle(f, f.kids[x][m - 1]) && under == Objects(nodes, Walk(f, f.kids[x][m - 1]))
    ensures Remaining(nodes, f, x, m - 1, visited + under)
  {
    hide Objects;
    var rest := Objects(nodes, WalkKids(f, x, m - 1));
    KidIsBelow(f, x, f.kids[x][m - 1]);
    ObjectsJoin(nodes, Walk(f, f.kids[x][m - 1]), WalkKids(f, x, m - 1));
    assert visited + (under + rest) == visited + under + rest;
  }

  lemma NoneRemain(nodes: seq<ProcessInfo>, f: Forest, x: nat, visited: seq<ProcessInfo>)
    requires WellFormed(f) && x < |f.pids| && !OnCycle(f, x) && Remaining(nodes, f, x, 0, visited)
    ensures visited == Objects(nodes, WalkKids(f, x, |f.kids[x]|))
  {
    assert visited + Objects(nodes, []) == visited;
  }

  lemma FirstKid(nodes: seq<ProcessInfo>, f: Forest, x: nat)
    requires WellFormed(f) && Links(nodes, FieldsOf(nodes), f) && x < |nodes|
    ensures nodes[x].children == KidAt(nodes, f.kids[x], 0)
    ensures nodes[x].children == null ==> f.kids[x] == []
  {
    assert LinkedAt(nodes, FieldsOf(nodes), f, x) && KidsAre(f.parents, f.kids[x], x);
  }

  lemma KidExists(nodes: seq<ProcessInfo>, kids: seq<nat>, k: int)
    requires KidAt(nodes, kids, k) != null
    ensures 0 <= k < |kids| && kids[k] < |nodes| && KidAt(nodes, kids, k) == nodes[kids[k]]
  {
  }

  lemma NoKid(nodes: seq<ProcessInfo>, f: Forest, x: nat, k: int)
    requires WellFormed(f) && x < |nodes| == |f.pids| && KidAt(nodes, f.kids[x], k) == null
    ensures k < 0 || k >= |f.kids[x]|
  {
    assert KidsAre(f.parents, f.kids[x], x);
  }

  lemma KidLinks(nodes: seq<ProcessInfo>, f: Forest, x: nat, k: nat)
    requires WellFormed(f) && Links(nodes, FieldsOf(nodes), f) && x < |nodes| && k < |f.kids[x]|
    ensures f.kids[x][k] < |nodes|
    ensures nodes[f.kids[x][k]].olderSibling == KidAt(nodes, f.kids[x], k + 1)
    ensures nodes[f.kids[x][k]].youngerSibling == KidAt(nodes, f.kids[x], k - 1)
  {
    hide KidAt, Distinct, NodeOf;
    var fs, c := FieldsOf(nodes), f.kids[x][k];
    assert KidsAre(f.parents, f.kids[x], x);
    assert LinkedAt(nodes, fs, f, x);
    assert nodes[c].olderSibling == fs.older[c] && nodes[c].youngerSibling == fs.younger[c];
  }

  /** Links do not depend on the table or the root. */
  lemma LinksSame(nodes: seq<ProcessInfo>, fs: Fields, f: Forest, g: Forest)
    requires Links(nodes, fs, f) && g.parents == f.parents && g.kids == f.kids
    ensures Links(nodes, fs, g)
  {
    forall i | 0 <= i < |nodes|
      ensures LinkedAt(nodes, fs, g, i)
    {
      assert LinkedAt(nodes, fs, f, i);
    }
  }

  lemma StepOfFork(f: Forest, pid: nat, childPid: nat)
    requires WellFormed(f)
    ensures var g := Ensure(Ensure(f, childPid), pid);
            && WellFormed(g) && pid in g.live && childPid in g.live
            && g.live[pid] < |g.pids| && g.live[childPid] < |g.pids|
            && Step(f, Fork(pid, childPid)) == Attach(g, g.live[pid], g.live[childPid])
  {
    ForkEnds(f, pid, childPid);
  }

  lemma AllWellFormed(nodes: seq<ProcessInfo>, running: map<nat, ProcessInfo>, root: Ref, f: Forest)
    requires InStep(nodes, running, root, f)
    ensures WellFormed(f)
  {
  }

  /** A node has a parent link exactly when the forest gives it a parent; then a fork leaves it alone. */
  lemma ParentSet(nodes: seq<ProcessInfo>, fs: Fields, running: map<nat, ProcessInfo>, root: Ref, f: Forest,
                  p: nat, c: nat)
    requires InStep(nodes, running, root, f) && Links(nodes, fs, f) && p < |nodes| && c < |nodes|
    ensures WellFormed(f) && c < |fs.parent| == |f.parents| == |f.pids| == |nodes|
    ensures fs.parent[c] == null <==> f.parents[c] == None
    ensures f.parents[c] != None ==> Attach(f, p, c) == f
  {
    assert LinkedAt(nodes, fs, f, c);
  }

  lemma NewFields(nodes: seq<ProcessInfo>, node: ProcessInfo, pid: nat)
    requires IsNew(node, pid)
    ensures FieldsOf(nodes + [node]) == FieldsWithNew(FieldsOf(nodes))
  {
    var fs, gs := FieldsOf(nodes), FieldsOf(nodes + [node]);
    assert gs.parent == fs.parent + [null];
    assert gs.children == fs.children + [null];
    assert gs.older == fs.older + [null];
    assert gs.younger == fs.younger + [null];
  }
}
