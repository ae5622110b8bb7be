/**
 Replaying a process-tree log (proctree.c) as a value: processes are numbered in the order they are first seen, each
 has at most one parent, and the children of a process are listed youngest first. The class in ProcReplay keeps real
 nodes in step with this value; what holds of whole logs is proved here.
 */
module Forest {
  import opened Options

  datatype Event = Root(pid: nat) | Fork(pid: nat, child: nat) | Exit(pid: nat)

  datatype Forest = Forest(pids: seq<nat>, parents: seq<Option<nat>>, kids: seq<seq<nat>>, root: Option<nat>,
                           live: map<nat, nat>)

  function Empty(): Forest {
    Forest([], [], [], None, map[])
  }

  /** Look a pid up, adding a new process when it is not running. */
  function Ensure(f: Forest, pid: nat): (f': Forest)
    ensures pid in f'.live
  {
    if pid in f.live then f
    else f.(pids := f.pids + [pid], parents := f.parents + [None], kids := f.kids + [[]],
            live := f.live[pid := |f.pids|])
  }

  /** Make c the youngest child of p, unless it already has a parent. */
  function Attach(f: Forest, p: nat, c: nat): Forest
    requires WellFormed(f) && p < |f.pids| && c < |f.pids|
  {
    if f.parents[c] != None then f
    else f.(parents := f.parents[c := Some(p)], kids := f.kids[p := [c] + f.kids[p]])
  }

  function Step(f: Forest, e: Event): Forest
    requires WellFormed(f)
  {
    match e
    case Root(pid) =>
      var g := Ensure(f, pid);
      g.(root := Some(g.live[pid]))
    case Fork(pid, child) =>
      EnsureKeepsWellFormed(f, child);
      EnsureKeepsWellFormed(Ensure(f, child), pid);
      var g := Ensure(Ensure(f, child), pid);
      Attach(g, g.live[pid], g.live[child])
    case Exit(pid) => f.(live := f.live - {pid})
  }

  // ---- what every log keeps ---------------------------------------------------------------------

  predicate Distinct(s: seq<nat>) {
    forall i, j :: 0 <= i < j < |s| ==> s[i] != s[j]
  }

  /** The children listed for p are exactly the processes whose parent is p, each once. */
  predicate KidsAre(parents: seq<Option<nat>>, kids: seq<nat>, p: nat) {
    && Distinct(kids)
    && (forall k :: 0 <= k < |kids| ==> kids[k] < |parents| && parents[kids[k]] == Some(p))
    && forall c :: 0 <= c < |parents| && parents[c] == Some(p) ==> c in kids
  }

  predicate WellFormed(f: Forest) {
    && |f.parents| == |f.kids| == |f.pids|
    && (forall c :: 0 <= c < |f.parents| && f.parents[c] != None ==> f.parents[c].value < |f.pids|)
    && (forall p :: 0 <= p < |f.kids| ==> KidsAre(f.parents, f.kids[p], p))
    && (forall pid :: pid in f.live ==> f.live[pid] < |f.pids| && f.pids[f.live[pid]] == pid)
    && (f.root != None ==> f.root.value < |f.pids|)
  }

  lemma EnsureKeepsWellFormed(f: Forest, pid: nat)
    requires WellFormed(f)
    ensures WellFormed(Ensure(f, pid))
  {
    var g := Ensure(f, pid);
    forall p | 0 <= p < |g.kids|
      ensures KidsAre(g.parents, g.kids[p], p)
    {
      if p < |f.kids| {
        assert KidsAre(f.parents, f.kids[p], p);
      }
    }
  }

  lemma AttachKeepsWellFormed(f: Forest, p: nat, c: nat)
    requires WellFormed(f) && p < |f.pids| && c < |f.pids|
    ensures WellFormed(Attach(f, p, c))
  {
    var g := Attach(f, p, c);
    forall q | 0 <= q < |g.kids|
      ensures KidsAre(g.parents, g.kids[q], q)
    {
      assert KidsAre(f.parents, f.kids[q], q);
      if f.parents[c] == None && q == p {
        assert c !in f.kids[p];
        assert g.kids[p][0] == c && forall x :: x in f.kids[p] ==> x in g.kids[p];
      }
    }
  }

  lemma StepKeepsWellFormed(f: Forest, e: Event)
    requires WellFormed(f)
    ensures WellFormed(Step(f, e))
  {
    match e {
      case Root(pid) =>
        EnsureKeepsWellFormed(f, pid);
      case Fork(pid, child) =>
        EnsureKeepsWellFormed(f, child);
        EnsureKeepsWellFormed(Ensure(f, child), pid);
        var g := Ensure(Ensure(f, child), pid);
        AttachKeepsWellFormed(g, g.live[pid], g.live[child]);
      case Exit(pid) =>
    }
  }

  /** The forest after the first m events. */
  function Run(log: seq<Event>, m: nat): (f: Forest)
    requires m <= |log|
    ensures WellFormed(f)
  {
    if m == 0 then Empty()
    else
      var f := Run(log, m - 1);
      StepKeepsWellFormed(f, log[m - 1]);
      Step(f, log[m - 1])
  }

  // ---- what an event does -----------------------------------------------------------------------

  /** Pids that ran before stand for the same processes, and a pid that is new stands for a new process. */
  ghost predicate SameProcesses(f: Forest, g: Forest) {
    && |f.pids| <= |g.pids| && |g.parents| == |g.pids| && |f.parents| == |f.pids|
    && (forall pid :: pid in f.live ==> pid in g.live && g.live[pid] == f.live[pid])
    && (forall pid :: pid in g.live && pid !in f.live ==> |f.pids| <= g.live[pid] < |g.pids|)
  }

  /** The parent a process has in f; none for one that is not in it yet. */
  function ParentIn(f: Forest, x: nat): Option<nat>
    requires |f.parents| == |f.pids|
  {
    if x < |f.pids| then f.parents[x] else None
  }

  lemma EnsureMeans(f: Forest, pid: nat)
    requires WellFormed(f)
    ensures var g := Ensure(f, pid);
            && WellFormed(g) && SameProcesses(f, g) && g.root == f.root
            && (forall p :: p in g.live <==> p in f.live || p == pid)
            && forall x: nat :: ParentIn(g, x) == ParentIn(f, x)
  {
    EnsureKeepsWellFormed(f, pid);
  }

  lemma AttachMeans(f: Forest, p: nat, c: nat)
    requires WellFormed(f) && p < |f.pids| && c < |f.pids|
    ensures var g := Attach(f, p, c);
            && WellFormed(g) && g.root == f.root && g.live == f.live && g.pids == f.pids
            && g.parents[c] == (if f.parents[c] == None then Some(p) else f.parents[c])
            && (f.parents[c] == None ==> g.kids[p] != [] && g.kids[p][0] == c)
            && forall x: nat :: x != c ==> ParentIn(g, x) == ParentIn(f, x)
  {
    AttachKeepsWellFormed(f, p, c);
  }

  /**
   A fork makes the child a child of the process of the forking pid, in front of its other children, unless the child
   has a parent already. No other process gets a parent.
   */
  lemma ForkMeans(f: Forest, pid: nat, child: nat)
    requires WellFormed(f)
    ensures var g := Step(f, Fork(pid, child));
            && WellFormed(g) && SameProcesses(f, g) && g.root == f.root
            && (forall p :: p in g.live <==> p in f.live || p == pid || p == child)
            && var c, p := g.live[child], g.live[pid];
               && g.parents[c] == (if ParentIn(f, c) == None then Some(p) else ParentIn(f, c))
               && (ParentIn(f, c) == None ==> g.kids[p] != [] && g.kids[p][0] == c)
               && forall x: nat :: x != c ==> ParentIn(g, x) == ParentIn(f, x)
  {
    hide WellFormed, Ensure, Attach, Step;
    EnsureMeans(f, child);
    EnsureMeans(Ensure(f, child), pid);
    AttachMeansAt(Ensure(Ensure(f, child), pid), pid, child);
    ForkAttaches(f, pid, child);
  }

  lemma ForkAttaches(f: Forest, pid: nat, child: nat)
    requires WellFormed(f) && WellFormed(Ensure(Ensure(f, child), pid))
    requires var g := Ensure(Ensure(f, child), pid);
             child in g.live && g.live[pid] < |g.pids| && g.live[child] < |g.pids|
    ensures var g := Ensure(Ensure(f, child), pid);
            Step(f, Fork(pid, child)) == Attach(g, g.live[pid], g.live[child])
  {
  }

  /** Attaching by pid, for pids that run. */
  lemma AttachMeansAt(f: Forest, pid: nat, child: nat)
    requires WellFormed(f) && pid in f.live && child in f.live
    ensures f.live[pid] < |f.pids| && f.live[child] < |f.pids|
    ensures var p, c := f.live[pid], f.live[child];
            var g := Attach(f, p, c);
            && WellFormed(g) && g.root == f.root && g.live == f.live && g.pids == f.pids
            && g.parents[c] == (if f.parents[c] == None then Some(p) else f.parents[c])
            && (f.parents[c] == None ==> g.kids[p] != [] && g.kids[p][0] == c)
            && forall x: nat :: x != c ==> ParentIn(g, x) == ParentIn(f, x)
  {
    AttachMeans(f, f.live[pid], f.live[child]);
  }

  /** A root event makes the process of its pid the root; an exit takes its pid out of the table. Parents stay. */
  lemma RootAndExitMean(f: Forest, pid: nat)
    requires WellFormed(f)
    ensures var g := Step(f, Root(pid));
            && SameProcesses(f, g) && pid in g.live && g.root == Some(g.live[pid])
            && (forall p :: p in g.live <==> p in f.live || p == pid)
            && forall x: nat :: ParentIn(g, x) == ParentIn(f, x)
    ensures var g := Step(f, Exit(pid));
            && (forall p :: p in g.live <==> p in f.live && p != pid)
            && (forall p :: p in g.live ==> g.live[p] == f.live[p]) && g == f.(live := g.live)
  {
    EnsureMeans(f, pid);
  }

  // ---- the table --------------------------------------------------------------------------------

  /** A pid was named by a root or fork event since it last exited. */
  ghost predicate Running(log: seq<Event>, m: nat, pid: nat)
    requires m <= |log|
  {
    m > 0 &&
    match log[m - 1]
    case Root(p) => p == pid || Running(log, m - 1, pid)
    case Fork(p, c) => p == pid || c == pid || Running(log, m - 1, pid)
    case Exit(p) => p != pid && Running(log, m - 1, pid)
  }

  lemma LiveAfter(f: Forest, e: Event, pid: nat)
    requires WellFormed(f)
    ensures pid in Step(f, e).live
            <==> match e
                 case Root(p) => p == pid || pid in f.live
                 case Fork(p, c) => p == pid || c == pid || pid in f.live
                 case Exit(p) => p != pid && pid in f.live
  {
    hide WellFormed;
  }

  /** The table holds exactly the processes that were created and have not exited. */
  lemma {:induction false} TableIsRunning(log: seq<Event>, m: nat, pid: nat)
    requires m <= |log|
    ensures pid in Run(log, m).live <==> Running(log, m, pid)
  {
    hide WellFormed, Step;
    if m > 0 {
      TableIsRunning(log, m - 1, pid);
      LiveAfter(Run(log, m - 1), log[m - 1], pid);
    }
  }

  // ---- order of attachment ----------------------------------------------------------------------

  /** t is s with more in front. */
  predicate Behind(s: seq<nat>, t: seq<nat>) {
    |s| <= |t| && t[|t| - |s|..] == s
  }

  /** Process i of f keeps its pid and parent in g, and its later children come in front of the earlier ones. */
  predicate Extends(f: Forest, g: Forest, i: nat) {
    && i < |f.pids| <= |g.pids| && |f.parents| == |f.kids| == |f.pids| && |g.parents| == |g.kids| == |g.pids|
    && g.pids[i] == f.pids[i]
    && (f.parents[i] != None ==> g.parents[i] == f.parents[i])
    && Behind(f.kids[i], g.kids[i])
  }

  lemma ExtendsFurther(f: Forest, g: Forest, h: Forest, i: nat)
    requires Extends(f, g, i) && Extends(g, h, i)
    ensures Extends(f, h, i)
  {
    var s, t, u := f.kids[i], g.kids[i], h.kids[i];
    assert u[|u| - |s|..] == u[|u| - |t|..][|t| - |s|..];
  }

  lemma EnsureExtends(f: Forest, pid: nat, i: nat)
    requires WellFormed(f) && i < |f.pids|
    ensures Extends(f, Ensure(f, pid), i)
  {
    assert f.kids[i][0..] == f.kids[i];
  }

  lemma AttachExtends(f: Forest, p: nat, c: nat, i: nat)
    requires WellFormed(f) && p < |f.pids| && c < |f.pids| && i < |f.pids|
    ensures Extends(f, Attach(f, p, c), i)
  {
    assert f.kids[i][0..] == f.kids[i];
    assert ([c] + f.kids[i])[1..] == f.kids[i];
  }

  lemma StepExtends(f: Forest, e: Event, i: nat)
    requires WellFormed(f) && i < |f.pids|
    ensures Extends(f, Step(f, e), i)
  {
    hide WellFormed, Behind;
    match e {
      case Root(pid) => EnsureExtends(f, pid, i);
      case Exit(pid) => ExtendsItself(f, i);
      case Fork(pid, child) =>
        var f' := Ensure(f, child);
        EnsureExtends(f, child, i);
        EnsureKeepsWellFormed(f, child);
        EnsureExtends(f', pid, i);
        EnsureKeepsWellFormed(f', pid);
        var g := Ensure(f', pid);
        ForkEnds(f, pid, child);
        AttachExtends(g, g.live[pid], g.live[child], i);
        ExtendsFurther(f, f', g, i);
        ExtendsFurther(f, g, Step(f, e), i);
    }
  }

  lemma ForkEnds(f: Forest, pid: nat, child: nat)
    requires WellFormed(f)
    ensures var g := Ensure(Ensure(f, child), pid);
            WellFormed(g) && child in g.live && pid in g.live && g.live[pid] < |g.pids| && g.live[child] < |g.pids|
  {
    EnsureKeepsWellFormed(f, child);
    EnsureKeepsWellFormed(Ensure(f, child), pid);
  }

  /** Nothing moves over a whole log. */
  lemma {:induction false} OnlyGrows(log: seq<Event>, m: nat, n: nat, i: nat)
    requires m <= n <= |log| && i < |Run(log, m).pids|
    ensures Extends(Run(log, m), Run(log, n), i)
    decreases n - m
  {
    hide Step, Extends;
    if m < n {
      OnlyGrows(log, m, n - 1, i);
      ExtendsAt(Run(log, m), Run(log, n - 1), i);
      StepExtends(Run(log, n - 1), log[n - 1], i);
      ExtendsFurther(Run(log, m), Run(log, n - 1), Run(log, n), i);
    } else {
      ExtendsItself(Run(log, m), i);
    }
  }

  lemma ExtendsItself(f: Forest, i: nat)
    requires WellFormed(f) && i < |f.pids|
    ensures Extends(f, f, i)
  {
    assert f.kids[i][0..] == f.kids[i];
  }

  lemma ExtendsAt(f: Forest, g: Forest, i: nat)
    requires Extends(f, g, i)
    ensures i < |g.pids|
  {
  }

  // ---- ancestors --------------------------------------------------------------------------------

  /** The k-th ancestor of x. */
  ghost function Up(f: Forest, x: nat, k: nat): (a: Option<nat>)
    requires WellFormed(f) && x < |f.pids|
    ensures a != None ==> a.value < |f.pids|
  {
    if k == 0 then Some(x)
    else
      var y := Up(f, x, k - 1);
      if y == None then None else f.parents[y.value]
  }

  /** a is x or one of its ancestors. */
  ghost predicate AncestorOrSelf(f: Forest, a: nat, x: nat)
    requires WellFormed(f) && x < |f.pids|
  {
    exists k: nat :: Up(f, x, k) == Some(a)
  }

  /** x is its own ancestor. */
  ghost predicate OnCycle(f: Forest, x: nat)
    requires WellFormed(f) && x < |f.pids|
  {
    exists k: nat :: k > 0 && Up(f, x, k) == Some(x)
  }

  /** No process is its own ancestor. */
  ghost predicate Acyclic(f: Forest)
    requires WellFormed(f)
  {
    forall x, k: nat :: 0 <= x < |f.pids| && k > 0 ==> Up(f, x, k) != Some(x)
  }

  lemma {:induction false} UpFurther(f: Forest, x: nat, j: nat, k: nat)
    requires WellFormed(f) && x < |f.pids| && Up(f, x, j) != None
    ensures Up(f, x, j + k) == Up(f, Up(f, x, j).value, k)
  {
    if k > 0 {
      UpFurther(f, x, j, k - 1);
    }
  }

  /** Climbing with the new edge from c is climbing without it, unless c is passed. */
  lemma {:induction false} SameClimb(f: Forest, p: nat, c: nat, x: nat, k: nat)
    requires WellFormed(f) && p < |f.pids| && c < |f.pids| && x < |f.pids| && WellFormed(Attach(f, p, c))
    ensures Up(Attach(f, p, c), x, k) == Up(f, x, k) || exists j: nat :: j < k && Up(f, x, j) == Some(c)
  {
    if k > 0 {
      SameClimb(f, p, c, x, k - 1);
      if Up(Attach(f, p, c), x, k - 1) == Up(f, x, k - 1) {
        if Up(f, x, k - 1) == Some(c) {
          assert k - 1 < k;
        }
      } else {
        var j: nat :| j < k - 1 && Up(f, x, j) == Some(c);
        assert j < k;
      }
    }
  }

  /** From a process without a parent there is nowhere to climb. */
  lemma {:induction false} NothingAbove(f: Forest, c: nat, k: nat)
    requires WellFormed(f) && c < |f.pids| && f.parents[c] == None && k > 0
    ensures Up(f, c, k) == None
  {
    if k > 1 {
      NothingAbove(f, c, k - 1);
    }
  }

  /** If c is reached without the edge, it is reached with it, as it comes before it. */
  lemma ReachedBefore(f: Forest, p: nat, c: nat, x: nat, j: nat)
    requires WellFormed(f) && p < |f.pids| && c < |f.pids| && x < |f.pids| && WellFormed(Attach(f, p, c))
    requires f.parents[c] == None && Up(f, x, j) == Some(c)
    ensures Up(Attach(f, p, c), x, j) == Some(c)
  {
    SameClimb(f, p, c, x, j);
    if Up(Attach(f, p, c), x, j) != Up(f, x, j) {
      var i: nat :| i < j && Up(f, x, i) == Some(c);
      UpFurther(f, x, i, j - i);
      NothingAbove(f, c, j - i);
      assert false;
    }
  }

  /** Attaching a process without a parent makes a cycle exactly when it is an ancestor-or-self of its new parent. */
  lemma AttachAcyclicIff(f: Forest, p: nat, c: nat)
    requires WellFormed(f) && Acyclic(f) && p < |f.pids| && c < |f.pids| && f.parents[c] == None
    ensures WellFormed(Attach(f, p, c))
    ensures Acyclic(Attach(f, p, c)) <==> !AncestorOrSelf(f, c, p)
  {
    AttachKeepsWellFormed(f, p, c);
    var g := Attach(f, p, c);
    if AncestorOrSelf(f, c, p) {
      var k: nat :| Up(f, p, k) == Some(c);
      ReachedBefore(f, p, c, p, k);
      assert Up(g, c, 0) == Some(c);
      assert Up(g, c, 1) == Some(p);
      UpFurther(g, c, 1, k);
      assert Up(g, c, k + 1) == Some(c);
    } else {
      forall x, k: nat | 0 <= x < |g.pids| && k > 0
        ensures Up(g, x, k) != Some(x)
      {
        NoCycleThrough(f, p, c, x, k);
      }
    }
  }

  /** From c the new edge leads on to p. */
  lemma EdgeUp(f: Forest, p: nat, c: nat, x: nat, j: nat)
    requires WellFormed(f) && p < |f.pids| && c < |f.pids| && x < |f.pids| && WellFormed(Attach(f, p, c))
    requires f.parents[c] == None && Up(Attach(f, p, c), x, j) == Some(c)
    ensures Up(Attach(f, p, c), x, j + 1) == Some(p)
  {
    var g := Attach(f, p, c);
    assert g.parents[c] == Some(p);
  }

  lemma NoCycleThrough(f: Forest, p: nat, c: nat, x: nat, k: nat)
    requires WellFormed(f) && p < |f.pids| && c < |f.pids| && x < |f.pids| && WellFormed(Attach(f, p, c))
    requires Acyclic(f) && f.parents[c] == None && k > 0
    requires !AncestorOrSelf(f, c, p)
    ensures Up(Attach(f, p, c), x, k) != Some(x)
  {
    hide Up, WellFormed, KidsAre;
    var g := Attach(f, p, c);
    if Up(g, x, k) == Some(x) {
      SameClimb(f, p, c, x, k);
      var j: nat :| j < k && Up(f, x, j) == Some(c);
      ReachedBefore(f, p, c, x, j);
      EdgeUp(f, p, c, x, j);
      UpFurther(g, x, j + 1, k - j - 1);
      assert Up(g, p, k - j - 1) == Some(x);
      UpFurther(g, p, k - j - 1, j);
      SameClimb(f, p, c, p, k - 1);
      assert false;
    }
  }

  // ---- acyclic logs -----------------------------------------------------------------------------

  /** A fork whose child is attached names no ancestor-or-self of the forking process as that child. */
  ghost predicate NoLoop(f: Forest, e: Event)
    requires WellFormed(f)
  {
    match e
    case Fork(pid, child) =>
      EnsureKeepsWellFormed(f, child);
      EnsureKeepsWellFormed(Ensure(f, child), pid);
      var g := Ensure(Ensure(f, child), pid);
      g.parents[g.live[child]] != None || !AncestorOrSelf(g, g.live[child], g.live[pid])
    case _ => true
  }

  /** Adding a process changes nobody's ancestors. */
  lemma {:induction false} SameAncestors(f: Forest, g: Forest, x: nat, k: nat)
    requires WellFormed(f) && WellFormed(g) && x < |f.pids| && f.parents <= g.parents
    ensures Up(g, x, k) == Up(f, x, k)
  {
    if k > 0 {
      SameAncestors(f, g, x, k - 1);
    }
  }

  lemma MoreKeepsAcyclic(f: Forest, g: Forest)
    requires WellFormed(f) && WellFormed(g)
    requires g.parents == f.parents || g.parents == f.parents + [None]
    ensures Acyclic(g) <==> Acyclic(f)
  {
    forall x, k: nat | 0 <= x < |f.pids| && k > 0
      ensures Up(g, x, k) == Up(f, x, k)
    {
      SameAncestors(f, g, x, k);
    }
    forall k: nat | |g.pids| > |f.pids| && k > 0
      ensures Up(g, |f.pids|, k) == None
    {
      NothingAbove(g, |f.pids|, k);
    }
    if Acyclic(g) {
      forall x, k: nat | 0 <= x < |f.pids| && k > 0
        ensures Up(f, x, k) != Some(x)
      {
        assert Up(g, x, k) != Some(x);
      }
    }
  }

  /** A step from an acyclic forest leads to an acyclic one exactly when it is no loop-making fork. */
  lemma StepAcyclicIff(f: Forest, e: Event)
    requires WellFormed(f) && Acyclic(f)
    ensures WellFormed(Step(f, e)) && (Acyclic(Step(f, e)) <==> NoLoop(f, e))
  {
    hide WellFormed, Acyclic, AncestorOrSelf;
    StepKeepsWellFormed(f, e);
    match e {
      case Root(pid) => MoreKeepsAcyclic(f, Step(f, e)) by { ParentsAfterEnsure(f, pid); }
      case Exit(pid) => MoreKeepsAcyclic(f, Step(f, e));
      case Fork(pid, child) => ForkAcyclicIff(f, pid, child);
    }
  }

  lemma ParentsAfterEnsure(f: Forest, pid: nat)
    ensures var g := Ensure(f, pid); g.parents == f.parents || g.parents == f.parents + [None]
  {
  }

  lemma ForkAcyclicIff(f: Forest, pid: nat, child: nat)
    requires WellFormed(f) && Acyclic(f)
    ensures WellFormed(Step(f, Fork(pid, child)))
    ensures Acyclic(Step(f, Fork(pid, child))) <==> NoLoop(f, Fork(pid, child))
  {
    StepKeepsWellFormed(f, Fork(pid, child));
    EnsureKeepsWellFormed(f, child);
    var f' := Ensure(f, child);
    EnsureKeepsWellFormed(f', pid);
    var g := Ensure(f', pid);
    MoreKeepsAcyclic(f, f');
    MoreKeepsAcyclic(f', g);
    hide Acyclic, Up;
    if g.parents[g.live[child]] == None {
      AttachAcyclicIff(g, g.live[pid], g.live[child]);
    }
  }

  lemma EmptyAcyclic()
    ensures WellFormed(Empty()) && Acyclic(Empty())
  {
  }

  /** Parents that stay keep ancestors. */
  lemma {:induction false} UpStays(f: Forest, g: Forest, x: nat, k: nat)
    requires WellFormed(f) && WellFormed(g) && x < |f.pids| <= |g.pids| && Up(f, x, k) != None
    requires forall i :: 0 <= i < |f.pids| && f.parents[i] != None ==> g.parents[i] == f.parents[i]
    ensures Up(g, x, k) == Up(f, x, k)
  {
    if k > 0 {
      UpStays(f, g, x, k - 1);
    }
  }

  lemma CycleStays(f: Forest, e: Event)
    requires WellFormed(f) && WellFormed(Step(f, e)) && !Acyclic(f)
    ensures !Acyclic(Step(f, e))
  {
    hide Step, Behind;
    var g := Step(f, e);
    var x, k: nat :| 0 <= x < |f.pids| && k > 0 && Up(f, x, k) == Some(x);
    forall i | 0 <= i < |f.pids|
      ensures |f.pids| <= |g.pids| && (f.parents[i] != None ==> g.parents[i] == f.parents[i])
    {
      StepExtends(f, e, i);
    }
    UpStays(f, g, x, k);
  }

  /** A log leaves the forest acyclic exactly when none of its forks makes a loop. */
  lemma {:induction false} RunAcyclicIff(log: seq<Event>, m: nat)
    requires m <= |log|
    ensures Acyclic(Run(log, m)) <==> forall i: nat :: i < m ==> NoLoop(Run(log, i), log[i])
  {
    hide NoLoop, WellFormed, Step, Acyclic;
    if m == 0 {
      EmptyAcyclic();
    } else {
      RunAcyclicIff(log, m - 1);
      if Acyclic(Run(log, m - 1)) {
        StepAcyclicIff(Run(log, m - 1), log[m - 1]);
      } else {
        StepKeepsWellFormed(Run(log, m - 1), log[m - 1]);
        CycleStays(Run(log, m - 1), log[m - 1]);
      }
    }
  }

  // ---- walking the tree -------------------------------------------------------------------------

  /** x and everything that descends from it. */
  ghost function Below(f: Forest, x: nat): set<nat>
    requires WellFormed(f)
  {
    set y: nat | y < |f.pids| && AncestorOrSelf(f, x, y)
  }

  lemma KidIsBelow(f: Forest, x: nat, c: nat)
    requires WellFormed(f) && x < |f.pids| && !OnCycle(f, x) && c in f.kids[x]
    ensures c < |f.pids| && !OnCycle(f, c) && Below(f, c) < Below(f, x)
  {
    assert KidsAre(f.parents, f.kids[x], x);
    forall y | y in Below(f, c)
      ensures y in Below(f, x)
    {
      var k: nat :| Up(f, y, k) == Some(c);
      assert Up(f, y, k + 1) == Some(x);
    }
    assert Up(f, x, 0) == Some(x);
    forall k: nat
      ensures Up(f, x, k) != Some(c)
    {
      assert Up(f, x, k + 1) != Some(x);
    }
    assert x in Below(f, x) && x !in Below(f, c);
    KidOnCycle(f, x, c);
  }

  /** A child on a cycle has its parent on it. */
  lemma KidOnCycle(f: Forest, x: nat, c: nat)
    requires WellFormed(f) && x < |f.pids| && c < |f.pids| && f.parents[c] == Some(x)
    ensures OnCycle(f, c) ==> OnCycle(f, x)
  {
    if OnCycle(f, c) {
      var k: nat :| k > 0 && Up(f, c, k) == Some(c);
      assert Up(f, c, 1) == Some(x) by {
        assert Up(f, c, 0) == Some(c);
      }
      UpFurther(f, c, 1, k - 1);
      assert Up(f, x, k) == Some(x);
    }
  }

  /** The order in which the tree under x is visited: a process before its children, the eldest child first. */
  ghost function Walk(f: Forest, x: nat): seq<nat>
    requires WellFormed(f) && x < |f.pids| && !OnCycle(f, x)
    decreases Below(f, x), |f.kids[x]| + 1
  {
    [x] + WalkKids(f, x, |f.kids[x]|)
  }

  /** The walks of the first m children in the list of x, the last of them, the eldest, first. */
  ghost function WalkKids(f: Forest, x: nat, m: nat): seq<nat>
    requires WellFormed(f) && x < |f.pids| && !OnCycle(f, x) && m <= |f.kids[x]|
    decreases Below(f, x), m
  {
    if m == 0 then []
    else
      KidIsBelow(f, x, f.kids[x][m - 1]);
      Walk(f, f.kids[x][m - 1]) + WalkKids(f, x, m - 1)
  }

  /** Two children of one process have no common descendant. */
  lemma KidsApart(f: Forest, x: nat, c: nat, d: nat, y: nat)
    requires WellFormed(f) && x < |f.pids| && !OnCycle(f, x) && c in f.kids[x] && d in f.kids[x] && c != d
    requires y in Below(f, c)
    ensures y !in Below(f, d)
  {
    assert KidsAre(f.parents, f.kids[x], x);
    if y in Below(f, d) {
      var i: nat :| Up(f, y, i) == Some(c);
      var j: nat :| Up(f, y, j) == Some(d);
      if i < j {
        SiblingAbove(f, x, c, d, y, i, j);
      } else {
        SiblingAbove(f, x, d, c, y, j, i);
      }
      assert false;
    }
  }

  /** Climbing from one child of x to another would pass x twice. */
  lemma SiblingAbove(f: Forest, x: nat, c: nat, d: nat, y: nat, i: nat, j: nat)
    requires WellFormed(f) && x < |f.pids| && y < |f.pids| && c < |f.pids| && d < |f.pids|
    requires f.parents[c] == f.parents[d] == Some(x) && i < j && Up(f, y, i) == Some(c) && Up(f, y, j) == Some(d)
    ensures OnCycle(f, x)
  {
    assert Up(f, y, i + 1) == Some(x) && Up(f, y, j + 1) == Some(x);
    UpFurther(f, y, i + 1, j - i);
    assert Up(f, x, j - i) == Some(x);
  }

  /** Descending from x is being x or descending from one of its children. */
  lemma {:induction false} BelowKids(f: Forest, x: nat, y: nat)
    requires WellFormed(f) && x < |f.pids| && y in Below(f, x) && y != x
    ensures exists k :: 0 <= k < |f.kids[x]| && f.kids[x][k] < |f.pids| && y in Below(f, f.kids[x][k])
  {
    var n: nat :| Up(f, y, n) == Some(x);
    var c := Up(f, y, n - 1).value;
    assert KidsAre(f.parents, f.kids[x], x) && c in f.kids[x];
    var k :| 0 <= k < |f.kids[x]| && f.kids[x][k] == c;
    assert y in Below(f, c);
  }

  /** How often y occurs in s. */
  ghost function Times(s: seq<nat>, y: nat): nat {
    multiset(s)[y]
  }

  lemma TimesJoin(s: seq<nat>, t: seq<nat>, y: nat)
    ensures Times(s + t, y) == Times(s, y) + Times(t, y)
  {
  }

  /** The walk under x visits x and each of its descendants exactly once, and nothing else. */
  lemma {:induction false} WalkVisitsOnce(f: Forest, x: nat, y: nat)
    requires WellFormed(f) && x < |f.pids| && !OnCycle(f, x)
    ensures Times(Walk(f, x), y) == if y in Below(f, x) then 1 else 0
    decreases Below(f, x), |f.kids[x]| + 1
  {
    hide OnCycle, Times;
    var n := |f.kids[x]|;
    assert Walk(f, x) == [x] + WalkKids(f, x, n);
    TimesJoin([x], WalkKids(f, x, n), y);
    OneTime(x, y);
    KidsVisitedOnce(f, x, n, y);
    SelfIsBelow(f, x);
    if y == x {
      NotUnderKid(f, x, n);
    } else if y in Below(f, x) {
      BelowKids(f, x, y);
    } else if UnderKid(f, x, n, y) {
      var k :| 0 <= k < n && y in Below(f, f.kids[x][k]);
      KidIsBelow(f, x, f.kids[x][k]);
      assert false;
    }
  }

  lemma OneTime(x: nat, y: nat)
    ensures Times([x], y) == if x == y then 1 else 0
  {
  }

  lemma SelfIsBelow(f: Forest, x: nat)
    requires WellFormed(f) && x < |f.pids|
    ensures x in Below(f, x)
  {
    assert Up(f, x, 0) == Some(x);
  }

  /** y descends from one of the first m children of x. */
  ghost predicate UnderKid(f: Forest, x: nat, m: nat, y: nat)
    requires WellFormed(f) && x < |f.kids| && m <= |f.kids[x]|
  {
    exists k :: 0 <= k < m && y in Below(f, f.kids[x][k])
  }

  lemma NotUnderKid(f: Forest, x: nat, m: nat)
    requires WellFormed(f) && x < |f.pids| && !OnCycle(f, x) && m <= |f.kids[x]|
    ensures !UnderKid(f, x, m, x)
  {
    forall k | 0 <= k < m
      ensures x !in Below(f, f.kids[x][k])
    {
      var c := f.kids[x][k];
      KidIsBelow(f, x, c);
      forall i: nat
        ensures Up(f, x, i) != Some(c)
      {
        assert KidsAre(f.parents, f.kids[x], x);
        assert Up(f, x, i + 1) != Some(x);
      }
    }
  }

  lemma {:induction false} KidsVisitedOnce(f: Forest, x: nat, m: nat, y: nat)
    requires WellFormed(f) && x < |f.pids| && !OnCycle(f, x) && m <= |f.kids[x]|
    ensures Times(WalkKids(f, x, m), y) == if UnderKid(f, x, m, y) then 1 else 0
    decreases Below(f, x), m
  {
    hide OnCycle, Times;
    if m == 0 {
      assert WalkKids(f, x, 0) == [];
      NoTimes(y);
    } else {
      var c := f.kids[x][m - 1];
      KidIsBelow(f, x, c);
      assert WalkKids(f, x, m) == Walk(f, c) + WalkKids(f, x, m - 1);
      TimesJoin(Walk(f, c), WalkKids(f, x, m - 1), y);
      WalkVisitsOnce(f, c, y);
      KidsVisitedOnce(f, x, m - 1, y);
      LastKid(f, x, m, y);
    }
  }

  lemma NoTimes(y: nat)
    ensures Times([], y) == 0
  {
  }

  lemma LastKid(f: Forest, x: nat, m: nat, y: nat)
    requires WellFormed(f) && x < |f.pids| && !OnCycle(f, x) && 0 < m <= |f.kids[x]|
    ensures UnderKid(f, x, m, y) <==> UnderKid(f, x, m - 1, y) || y in Below(f, f.kids[x][m - 1])
    ensures !(UnderKid(f, x, m - 1, y) && y in Below(f, f.kids[x][m - 1]))
  {
    var kids := f.kids[x];
    if UnderKid(f, x, m - 1, y) {
      var k :| 0 <= k < m - 1 && y in Below(f, kids[k]);
      assert KidsAre(f.parents, kids, x) && kids[k] != kids[m - 1];
      KidsApart(f, x, kids[k], kids[m - 1], y);
    }
  }

  // ---- when the walk ends -----------------------------------------------------------------------

  // ---- the order of the walk --------------------------------------------------------------------

  /** The text has this piece in it. */
  ghost predicate HasPiece(s: seq<nat>, piece: seq<nat>) {
    exists a, b :: s == a + piece + b
  }

  /** One piece comes before the other. */
  ghost predicate HasBefore(s: seq<nat>, first: seq<nat>, second: seq<nat>) {
    exists a, b, c :: s == a + first + b + second + c
  }

  lemma PieceOfPiece(s: seq<nat>, t: seq<nat>, piece: seq<nat>)
    requires HasPiece(s, t) && HasPiece(t, piece)
    ensures HasPiece(s, piece)
  {
    var a, b :| s == a + t + b;
    var c, d :| t == c + piece + d;
    assert s == (a + c) + piece + (d + b);
  }

  /** Of the first m children, the walk under child k is a piece, and comes behind those of elder ones. */
  lemma {:induction false} KidsInOrder(f: Forest, x: nat, m: nat, k: nat, elder: nat)
    requires WellFormed(f) && x < |f.pids| && !OnCycle(f, x) && k <= elder < m <= |f.kids[x]|
    ensures f.kids[x][k] < |f.pids| && !OnCycle(f, f.kids[x][k])
    ensures f.kids[x][elder] < |f.pids| && !OnCycle(f, f.kids[x][elder])
    ensures HasPiece(WalkKids(f, x, m), Walk(f, f.kids[x][k]))
    ensures k < elder ==> HasBefore(WalkKids(f, x, m), Walk(f, f.kids[x][elder]), Walk(f, f.kids[x][k]))
    decreases m
  {
    hide OnCycle, Below, Walk;
    KidIsBelow(f, x, f.kids[x][k]);
    KidIsBelow(f, x, f.kids[x][elder]);
    KidIsBelow(f, x, f.kids[x][m - 1]);
    var w, rest := Walk(f, f.kids[x][m - 1]), WalkKids(f, x, m - 1);
    if k == m - 1 {
      assert w + rest == [] + w + rest;
    } else if elder == m - 1 {
      KidsInOrder(f, x, m - 1, k, k);
      var a, b :| rest == a + Walk(f, f.kids[x][k]) + b;
      assert w + rest == [] + w + a + Walk(f, f.kids[x][k]) + b;
      assert w + rest == (w + a) + Walk(f, f.kids[x][k]) + b;
    } else {
      KidsInOrder(f, x, m - 1, k, elder);
      PieceBehind(w, rest, Walk(f, f.kids[x][k]));
      if k < elder {
        BeforeBehind(w, rest, Walk(f, f.kids[x][elder]), Walk(f, f.kids[x][k]));
      }
    }
  }

  lemma PieceBehind(w: seq<nat>, s: seq<nat>, piece: seq<nat>)
    requires HasPiece(s, piece)
    ensures HasPiece(w + s, piece)
  {
    var a, b :| s == a + piece + b;
    assert w + s == (w + a) + piece + b;
  }

  lemma BeforeBehind(w: seq<nat>, s: seq<nat>, first: seq<nat>, second: seq<nat>)
    requires HasBefore(s, first, second)
    ensures HasBefore(w + s, first, second)
  {
    var a, b, c :| s == a + first + b + second + c;
    assert w + s == (w + a) + first + b + second + c;
  }

  /** Of the children of x, what is under an elder one comes before what is under a younger one. */
  ghost predicate EldersFirst(f: Forest, x: nat)
    requires WellFormed(f) && x < |f.pids| && !OnCycle(f, x)
  {
    forall k, elder :: 0 <= k < elder < |f.kids[x]| ==> ElderFirst(f, x, k, elder)
  }

  ghost predicate ElderFirst(f: Forest, x: nat, k: nat, elder: nat)
    requires WellFormed(f) && x < |f.pids| && !OnCycle(f, x) && k < elder < |f.kids[x]|
  {
    var c, d := f.kids[x][k], f.kids[x][elder];
    && c < |f.pids| && d < |f.pids| && !OnCycle(f, c) && !OnCycle(f, d)
    && HasBefore(Walk(f, x), Walk(f, d), Walk(f, c))
  }

  lemma EldersComeFirst(f: Forest, x: nat)
    requires WellFormed(f) && x < |f.pids| && !OnCycle(f, x)
    ensures EldersFirst(f, x)
  {
    hide OnCycle, Walk, WalkKids, HasBefore, HasPiece;
    WalkFromSelf(f, x);
    forall k, elder | 0 <= k < elder < |f.kids[x]|
      ensures ElderFirst(f, x, k, elder)
    {
      KidsInOrder(f, x, |f.kids[x]|, k, elder);
      BeforeBehind([x], WalkKids(f, x, |f.kids[x]|), Walk(f, f.kids[x][elder]), Walk(f, f.kids[x][k]));
    }
  }

  /** The walk under a child is a piece of the walk. */
  lemma KidIsPiece(f: Forest, x: nat, k: nat)
    requires WellFormed(f) && x < |f.pids| && !OnCycle(f, x) && k < |f.kids[x]|
    ensures f.kids[x][k] < |f.pids| && !OnCycle(f, f.kids[x][k])
    ensures HasPiece(Walk(f, x), Walk(f, f.kids[x][k]))
  {
    hide OnCycle, Walk, WalkKids, HasBefore, HasPiece;
    WalkFromSelf(f, x);
    KidsInOrder(f, x, |f.kids[x]|, k, k);
    PieceBehind([x], WalkKids(f, x, |f.kids[x]|), Walk(f, f.kids[x][k]));
  }

  /**
   The walk is in preorder: what is under a process is visited together and starts with the process, and what is under
   an elder child, which stands further back in the list, comes before what is under a younger one.
   */
  lemma {:induction false} WalkIsPreorder(f: Forest, x: nat, y: nat)
    requires WellFormed(f) && x < |f.pids| && !OnCycle(f, x) && y in Below(f, x)
    ensures y < |f.pids| && !OnCycle(f, y) && HasPiece(Walk(f, x), Walk(f, y)) && Walk(f, y)[0] == y
    ensures EldersFirst(f, y)
    decreases Below(f, x)
  {
    hide OnCycle, Walk, WalkKids, HasPiece, EldersFirst;
    WalkFromSelf(f, x);
    if y == x {
      EldersComeFirst(f, x);
    } else {
      BelowKids(f, x, y);
      var k :| 0 <= k < |f.kids[x]| && f.kids[x][k] < |f.pids| && y in Below(f, f.kids[x][k]);
      KidIsBelow(f, x, f.kids[x][k]);
      KidIsPiece(f, x, k);
      WalkIsPreorder(f, f.kids[x][k], y);
      PieceOfPiece(Walk(f, x), Walk(f, f.kids[x][k]), Walk(f, y));
    }
  }

  lemma WalkFromSelf(f: Forest, x: nat)
    requires WellFormed(f) && x < |f.pids| && !OnCycle(f, x)
    ensures Walk(f, x) == [x] + WalkKids(f, x, |f.kids[x]|) && HasPiece(Walk(f, x), Walk(f, x))
  {
    assert Walk(f, x) == [] + Walk(f, x) + [];
  }

  /** The walk from x when its recursion is cut off at a depth; None if it would go deeper. */
  ghost function WalkWithin(f: Forest, x: nat, depth: nat): Option<seq<nat>>
    requires WellFormed(f) && x < |f.pids|
    decreases depth, 0
  {
    if depth == 0 then None
    else
      var under := KidsWithin(f, x, |f.kids[x]|, depth - 1);
      if under == None then None else Some([x] + under.value)
  }

  /** The same for the first m children in the list of x. */
  ghost function KidsWithin(f: Forest, x: nat, m: nat, depth: nat): Option<seq<nat>>
    requires WellFormed(f) && x < |f.pids| && m <= |f.kids[x]|
    decreases depth, m
  {
    if m == 0 then Some([])
    else
      assert KidsAre(f.parents, f.kids[x], x);
      var first, others := WalkWithin(f, f.kids[x][m - 1], depth), KidsWithin(f, x, m - 1, depth);
      if first == None || others == None then None else Some(first.value + others.value)
  }

  /** Off the cycles, a depth of as many processes as there are under x is enough. */
  lemma {:induction false} WalkWithinEnough(f: Forest, x: nat, depth: nat)
    requires WellFormed(f) && x < |f.pids| && !OnCycle(f, x) && |Below(f, x)| <= depth
    ensures WalkWithin(f, x, depth) == Some(Walk(f, x))
    decreases depth, 0
  {
    hide Below, OnCycle;
    SelfIsBelow(f, x);
    KidsWithinEnough(f, x, |f.kids[x]|, depth - 1);
  }

  lemma {:induction false} KidsWithinEnough(f: Forest, x: nat, m: nat, depth: nat)
    requires WellFormed(f) && x < |f.pids| && !OnCycle(f, x) && m <= |f.kids[x]| && |Below(f, x)| <= depth + 1
    ensures KidsWithin(f, x, m, depth) == Some(WalkKids(f, x, m))
    decreases depth, m
  {
    hide Below, OnCycle;
    if m > 0 {
      var c := f.kids[x][m - 1];
      KidIsBelow(f, x, c);
      FewerBelow(Below(f, c), Below(f, x));
      WalkWithinEnough(f, c, depth);
      KidsWithinEnough(f, x, m - 1, depth);
    }
  }

  lemma FewerBelow(s: set<nat>, t: set<nat>)
    requires s < t
    ensures |s| < |t|
  {
    var y :| y in t && y !in s;
    SizeOfPart(s, t - {y});
  }

  lemma SizeOfPart(s: set<nat>, t: set<nat>)
    requires s <= t
    ensures |s| <= |t|
  {
    assert t == s + (t - s);
  }

  /** A process on a cycle has a child on it. */
  lemma CycleGoesDown(f: Forest, x: nat) returns (k: nat)
    requires WellFormed(f) && x < |f.pids| && OnCycle(f, x)
    ensures k < |f.kids[x]| && f.kids[x][k] < |f.pids| && OnCycle(f, f.kids[x][k])
  {
    var n: nat :| n > 0 && Up(f, x, n) == Some(x);
    var c := Up(f, x, n - 1).value;
    assert KidsAre(f.parents, f.kids[x], x) && f.parents[c] == Some(x) && c in f.kids[x];
    k :| 0 <= k < |f.kids[x]| && f.kids[x][k] == c;
    assert Up(f, c, 1) == Some(x) by {
      assert Up(f, c, 0) == Some(c);
    }
    UpFurther(f, c, 1, n - 1);
    assert Up(f, c, n) == Some(c);
  }

  /** From a process on a cycle the recursion goes deeper than any depth. */
  lemma {:induction false} CycleNeverEnds(f: Forest, x: nat, depth: nat)
    requires WellFormed(f) && x < |f.pids| && OnCycle(f, x)
    ensures WalkWithin(f, x, depth) == None
    decreases depth
  {
    hide OnCycle;
    if depth > 0 {
      var k := CycleGoesDown(f, x);
      CycleNeverEnds(f, f.kids[x][k], depth - 1);
      OneStuck(f, x, |f.kids[x]|, k, depth - 1);
    }
  }

  lemma {:induction false} OneStuck(f: Forest, x: nat, m: nat, k: nat, depth: nat)
    requires WellFormed(f) && x < |f.pids| && k < m <= |f.kids[x]| && f.kids[x][k] < |f.pids|
    requires WalkWithin(f, f.kids[x][k], depth) == None
    ensures KidsWithin(f, x, m, depth) == None
    decreases m
  {
    hide WalkWithin;
    if k < m - 1 {
      OneStuck(f, x, m - 1, k, depth);
    }
  }

  /** The walk from a process ends exactly when the process is not on a cycle, whatever the rest of the forest. */
  lemma WalkEndsIff(f: Forest, x: nat)
    requires WellFormed(f) && x < |f.pids|
    ensures (exists depth: nat :: WalkWithin(f, x, depth) != None) <==> !OnCycle(f, x)
    ensures !OnCycle(f, x) ==> WalkWithin(f, x, |Below(f, x)|) == Some(Walk(f, x))
  {
    if OnCycle(f, x) {
      forall depth: nat
        ensures WalkWithin(f, x, depth) == None
      {
        CycleNeverEnds(f, x, depth);
      }
    } else {
      WalkWithinEnough(f, x, |Below(f, x)|);
    }
  }

  /** After a log without a loop-making fork every walk ends. */
  lemma LoopFreeWalksEnd(log: seq<Event>, x: nat)
    requires x < |Run(log, |log|).pids| && forall i: nat :: i < |log| ==> NoLoop(Run(log, i), log[i])
    ensures var f := Run(log, |log|);
            !OnCycle(f, x) && WalkWithin(f, x, |Below(f, x)|) == Some(Walk(f, x))
  {
    hide Run, NoLoop;
    RunAcyclicIff(log, |log|);
    WalkEndsIff(Run(log, |log|), x);
  }

  /** A root that forks itself: the walk from it never ends. */
  lemma RootForksItself(depth: nat)
    ensures var f := Run([Root(1), Fork(1, 1)], 2);
            f.root == Some(0) && 0 < |f.pids| && OnCycle(f, 0) && WalkWithin(f, 0, depth) == None
  {
    var log := [Root(1), Fork(1, 1)];
    var f := Run(log, 2);
    RootOnly(log);
    assert f.parents == [Some(0)];
    assert Up(f, 0, 0) == Some(0);
    assert Up(f, 0, 1) == Some(0);
    CycleNeverEnds(f, 0, depth);
  }

  /** The forest of a log that names one root first. */
  lemma RootOnly(log: seq<Event>)
    requires |log| > 0 && log[0] == Root(1)
    ensures Run(log, 1) == Forest([1], [None], [[]], Some(0), map[1 := 0])
  {
    assert Run(log, 0) == Empty();
  }

  /** A process that forks itself, next to a root. */
  lemma ForkNextToRoot(log: seq<Event>)
    requires log == [Root(1), Fork(5, 5)]
    ensures var f := Run(log, 2);
            f.parents == [None, Some(1)] && |f.pids| == |f.kids| == 2 && f.kids[0] == [] && f.root == Some(0)
  {
    RootOnly(log);
    var g := Ensure(Run(log, 1), 5);
    assert g.pids == [1, 5] && g.parents == [None, None] && g.kids[0] == [] && g.live[5] == 1;
    ForkEnds(Run(log, 1), 5, 5);
    assert Run(log, 2) == Attach(g, 1, 1);
  }

  /** A cycle elsewhere does no harm: the walk from this root visits the root and ends. */
  lemma CycleElsewhere()
    ensures var f := Run([Root(1), Fork(5, 5)], 2);
            f.root == Some(0) && |f.pids| == 2 && !Acyclic(f) && !OnCycle(f, 0) && Walk(f, 0) == [0]
  {
    var f := Run([Root(1), Fork(5, 5)], 2);
    ForkNextToRoot([Root(1), Fork(5, 5)]);
    hide Run;
    assert Up(f, 1, 0) == Some(1);
    assert Up(f, 1, 1) == Some(1);
    forall k: nat | k > 0
      ensures Up(f, 0, k) != Some(0)
    {
      NothingAbove(f, 0, k);
    }
    assert WalkKids(f, 0, 0) == [];
  }
}
