/**
 The table of running processes (proctree.c): a chained hash table from pids to process nodes. A process is removed
 when it exits, since its pid can be used again; its node stays.
 */
module ProcTable {
  const NUM_PROC_TABLE_BUCKETS := 101

  /** A node of the process tree; only the fields that link nodes and name processes are kept. */
  class ProcessInfo {
    const pid: nat
    var parent: ProcessInfo?
    var children: ProcessInfo?
    var olderSibling: ProcessInfo?
    var youngerSibling: ProcessInfo?

    constructor (pid: nat)
      ensures this.pid == pid && parent == null && children == null && olderSibling == null && youngerSibling == null
    {
      this.pid, parent, children, olderSibling, youngerSibling := pid, null, null, null, null;
    }
  }

  /** A node that is linked to no other. */
  ghost predicate IsNew(node: ProcessInfo, pid: nat)
    reads node
  {
    && node.pid == pid && node.parent == node.children == null
    && node.olderSibling == node.youngerSibling == null
  }

  class Entry {
    const pid: nat
    const pinfo: ProcessInfo
    var prev: Entry?
    var next: Entry?

    constructor (pid: nat, pinfo: ProcessInfo)
      ensures this.pid == pid && this.pinfo == pinfo && prev == null && next == null
    {
      this.pid, this.pinfo, prev, next := pid, pinfo, null, null;
    }
  }

  /** Element i of a chain, null beyond either end. */
  ghost function At(chain: seq<Entry>, i: int): Entry? {
    if 0 <= i < |chain| then chain[i] else null
  }

  /** The entries of a chain are linked both ways in order. */
  ghost predicate Linked(chain: seq<Entry>)
    reads chain
  {
    forall i :: 0 <= i < |chain| ==> chain[i].next == At(chain, i + 1) && chain[i].prev == At(chain, i - 1)
  }

  ghost predicate IsBucket(head: Entry?, chain: seq<Entry>)
    reads chain
  {
    head == At(chain, 0) && Linked(chain)
  }

  function BucketOf(pid: nat): (b: nat)
    ensures b < NUM_PROC_TABLE_BUCKETS
  {
    pid % NUM_PROC_TABLE_BUCKETS
  }

  /** The entries of a chain hash to b and have different pids. */
  ghost predicate Keyed(chain: seq<Entry>, b: nat) {
    && (forall i :: 0 <= i < |chain| ==> BucketOf(chain[i].pid) == b)
    && forall i, j :: 0 <= i < j < |chain| ==> chain[i].pid != chain[j].pid
  }

  /** Every entry of a chain is running. */
  ghost predicate Holds(chain: seq<Entry>, running: map<nat, ProcessInfo>) {
    forall i :: 0 <= i < |chain| ==> chain[i].pid in running && running[chain[i].pid] == chain[i].pinfo
  }

  ghost predicate AreEntries(chain: seq<Entry>, entries: set<Entry>) {
    forall i :: 0 <= i < |chain| ==> chain[i] in entries
  }

  /** The chains hold exactly what is running, each process in the bucket of its pid. */
  ghost predicate Indexed(chains: seq<seq<Entry>>, running: map<nat, ProcessInfo>) {
    && |chains| == NUM_PROC_TABLE_BUCKETS
    && (forall b :: 0 <= b < |chains| ==> Keyed(chains[b], b) && Holds(chains[b], running))
    && forall pid :: pid in running ==> InChain(chains[BucketOf(pid)], pid)
  }

  ghost predicate InChain(chain: seq<Entry>, pid: nat) {
    exists i :: 0 <= i < |chain| && chain[i].pid == pid
  }

  lemma KeyedCons(entry: Entry, chain: seq<Entry>, running: map<nat, ProcessInfo>)
    requires var b := BucketOf(entry.pid); Keyed(chain, b) && Holds(chain, running) && entry.pid !in running
    ensures Keyed([entry] + chain, BucketOf(entry.pid))
    ensures Holds([entry] + chain, running[entry.pid := entry.pinfo])
  {
  }

  lemma KeyedWithout(chain: seq<Entry>, i: nat, running: map<nat, ProcessInfo>)
    requires i < |chain| && Keyed(chain, BucketOf(chain[i].pid)) && Holds(chain, running)
    ensures chain[i].pid in running && Keyed(chain[..i] + chain[i + 1..], BucketOf(chain[i].pid))
    ensures Holds(chain[..i] + chain[i + 1..], running - {chain[i].pid})
  {
    hide BucketOf;
    var rest := chain[..i] + chain[i + 1..];
    assert forall k :: 0 <= k < |rest| ==> rest[k] == chain[if k < i then k else k + 1];
  }

  /** Another bucket does not notice. */
  lemma HoldsElsewhere(chain: seq<Entry>, b: nat, entry: Entry, running: map<nat, ProcessInfo>)
    requires Keyed(chain, b) && Holds(chain, running) && b != BucketOf(entry.pid)
    ensures Holds(chain, running[entry.pid := entry.pinfo]) && Holds(chain, running - {entry.pid})
  {
  }

  lemma DifferentKeys(chains: seq<seq<Entry>>, running: map<nat, ProcessInfo>, b: nat)
    requires Indexed(chains, running) && b < |chains|
    ensures forall i, j :: 0 <= i < j < |chains[b]| ==> chains[b][i] != chains[b][j]
  {
    assert Keyed(chains[b], b);
  }

  /** No entry is in two buckets. */
  lemma BucketsApart(chains: seq<seq<Entry>>, running: map<nat, ProcessInfo>, b: nat)
    requires Indexed(chains, running) && b < |chains|
    ensures forall b', e {:trigger e in chains[b']} ::
              0 <= b' < |chains| && b' != b && e in chains[b'] ==> e !in chains[b]
  {
    hide BucketOf;
    forall b', e {:trigger e in chains[b']} | 0 <= b' < |chains| && b' != b && e in chains[b']
      ensures e !in chains[b]
    {
      assert Keyed(chains[b'], b') && Keyed(chains[b], b);
    }
  }

  /** Link a new entry in front of a chain. */
  method PushFront(entry: Entry, head: Entry?, ghost chain: seq<Entry>)
    requires IsBucket(head, chain) && entry !in chain && entry.prev == entry.next == null
    requires forall i, j :: 0 <= i < j < |chain| ==> chain[i] != chain[j]
    modifies entry, if head == null then {} else {head}
    ensures IsBucket(entry, [entry] + chain)
  {
    if head != null {
      entry.next := head;
      entry.next.prev := entry;
    }
  }

  /** Unlink element i of a chain, and say which entry is first now. */
  method UnlinkAt(entry: Entry, head: Entry?, ghost chain: seq<Entry>, ghost i: nat) returns (head': Entry?)
    requires IsBucket(head, chain) && i < |chain| && chain[i] == entry
    requires forall i, j :: 0 <= i < j < |chain| ==> chain[i] != chain[j]
    modifies if i + 1 < |chain| then {chain[i + 1]} else {}, if i > 0 then {chain[i - 1]} else {}
    ensures IsBucket(head', chain[..i] + chain[i + 1..])
  {
    head' := head;
    if entry.next != null {
      entry.next.prev := entry.prev;
    }
    if entry.prev != null {
      entry.prev.next := entry.next;
    } else {
      head' := entry.next;
    }
    SkippedIsLinked(chain, i);
  }

  /** Where the elements of a chain are once element i is gone. */
  lemma RestAt(chain: seq<Entry>, i: nat, k: int)
    requires i < |chain|
    ensures At(chain[..i] + chain[i + 1..], k) == At(chain, if k < i then k else k + 1)
  {
  }

  /** When the neighbours of element i point past it, the rest of the chain is linked. */
  lemma SkippedIsLinked(chain: seq<Entry>, i: nat)
    requires i < |chain|
    requires forall k :: 0 <= k < |chain| && k != i ==> chain[k].next == At(chain, if k == i - 1 then i + 1 else k + 1)
    requires forall k :: 0 <= k < |chain| && k != i ==> chain[k].prev == At(chain, if k == i + 1 then i - 1 else k - 1)
    ensures Linked(chain[..i] + chain[i + 1..])
  {
    hide At;
    var rest := chain[..i] + chain[i + 1..];
    forall k | 0 <= k < |rest|
      ensures rest[k].next == At(rest, k + 1) && rest[k].prev == At(rest, k - 1)
    {
      var j := if k < i then k else k + 1;
      assert rest[k] == chain[j];
      RestAt(chain, i, k - 1);
      RestAt(chain, i, k + 1);
    }
  }

  lemma FoundOrNot(chains: seq<seq<Entry>>, running: map<nat, ProcessInfo>, pid: nat, i: nat)
    requires Indexed(chains, running)
    requires var chain := chains[BucketOf(pid)];
             i <= |chain| && (i < |chain| ==> chain[i].pid == pid) && forall j :: 0 <= j < i ==> chain[j].pid != pid
    ensures var chain := chains[BucketOf(pid)];
            if i < |chain| then pid in running && running[pid] == chain[i].pinfo else pid !in running
  {
    hide BucketOf, Keyed;
    var chain := chains[BucketOf(pid)];
    assert Holds(chain, running);
    if pid in running {
      assert InChain(chain, pid);
    }
  }

  lemma AddKeepsIndexed(chains: seq<seq<Entry>>, running: map<nat, ProcessInfo>, entry: Entry)
    requires Indexed(chains, running) && entry.pid !in running
    ensures var b := BucketOf(entry.pid);
            Indexed(chains[b := [entry] + chains[b]], running[entry.pid := entry.pinfo])
  {
    hide BucketOf, Keyed, Holds;
    var b := BucketOf(entry.pid);
    var after := chains[b := [entry] + chains[b]];
    KeyedCons(entry, chains[b], running);
    forall b' | 0 <= b' < |chains| && b' != b
      ensures Holds(after[b'], running[entry.pid := entry.pinfo])
    {
      HoldsElsewhere(chains[b'], b', entry, running);
    }
    forall pid | pid in running[entry.pid := entry.pinfo]
      ensures InChain(after[BucketOf(pid)], pid)
    {
      if pid == entry.pid {
        assert after[b][0] == entry;
      } else if BucketOf(pid) == b {
        assert InChain(chains[b], pid);
        var i :| 0 <= i < |chains[b]| && chains[b][i].pid == pid;
        assert after[b][i + 1] == chains[b][i];
      }
    }
  }

  lemma UnlinkKeepsIndexed(chains: seq<seq<Entry>>, running: map<nat, ProcessInfo>, entry: Entry, i: nat)
    requires Indexed(chains, running)
    requires var chain := chains[BucketOf(entry.pid)]; i < |chain| && chain[i] == entry
    ensures var b := BucketOf(entry.pid);
            Indexed(chains[b := chains[b][..i] + chains[b][i + 1..]], running - {entry.pid})
    ensures |running| == |running - {entry.pid}| + 1
  {
    hide BucketOf, Keyed, Holds;
    var b := BucketOf(entry.pid);
    var rest := chains[b][..i] + chains[b][i + 1..];
    KeyedWithout(chains[b], i, running);
    SizeWithout(running, entry.pid);
    forall b' {:trigger chains[b']} | 0 <= b' < |chains| && b' != b
      ensures Holds(chains[b'], running - {entry.pid})
    {
      HoldsElsewhere(chains[b'], b', entry, running);
    }
    forall pid | pid in running - {entry.pid}
      ensures InChain(chains[b := rest][BucketOf(pid)], pid)
    {
      if BucketOf(pid) == b {
        assert InChain(chains[b], pid);
        var j :| 0 <= j < |chains[b]| && chains[b][j].pid == pid;
        assert rest[if j > i then j - 1 else j] == chains[b][j];
      }
    }
  }

  lemma SizeWithout<T>(m: map<nat, T>, k: nat)
    requires k in m
    ensures |m| == |m - {k}| + 1
  {
    assert m.Keys == (m - {k}).Keys + {k};
    assert |m.Keys| == |(m - {k}).Keys| + 1;
  }

  class Table {
    const buckets: array<Entry?>
    var numProcesses: nat
    var totalProcesses: nat
    var maxNumProcesses: nat
    ghost var chains: seq<seq<Entry>>
    ghost var entries: set<Entry>
    ghost var running: map<nat, ProcessInfo>

    /** The heads and links of every bucket agree with its chain. */
    ghost predicate LinkedUp()
      reads this`chains, this`entries, buckets, entries
    {
      && buckets.Length == NUM_PROC_TABLE_BUCKETS == |chains|
      && (forall b :: 0 <= b < |chains| ==> AreEntries(chains[b], entries))
      && forall b :: 0 <= b < |chains| ==> IsBucket(buckets[b], chains[b])
    }

    ghost predicate Shape()
      reads this`chains, this`entries, this`running, buckets, entries
    {
      LinkedUp() && Indexed(chains, running)
    }

    ghost predicate Valid()
      reads this, buckets, entries
    {
      Shape() && numProcesses == |running| <= maxNumProcesses <= totalProcesses
    }

    constructor ()
      ensures Valid() && fresh(buckets) && running == map[] && entries == {}
      ensures numProcesses == totalProcesses == maxNumProcesses == 0
    {
      buckets := new Entry?[NUM_PROC_TABLE_BUCKETS](_ => null);
      numProcesses, totalProcesses, maxNumProcesses := 0, 0, 0;
      chains := seq(NUM_PROC_TABLE_BUCKETS, _ => []);
      entries, running := {}, map[];
    }

    /** Walk the chain of a pid's bucket to its entry. */
    method Find(pid: nat) returns (entry: Entry?, ghost i: nat)
      requires Shape()
      ensures var chain := chains[BucketOf(pid)]; entry != null ==> i < |chain| && entry == chain[i]
      ensures entry != null <==> pid in running
      ensures entry != null ==> entry.pid == pid && entry.pinfo == running[pid]
    {
      hide Indexed, BucketOf;
      var b := BucketOf(pid);
      ghost var chain := chains[b];
      i := 0;
      entry := buckets[b];
      while entry != null && entry.pid != pid
        invariant i <= |chain| && entry == At(chain, i)
        invariant forall j :: 0 <= j < i ==> chain[j].pid != pid
        decreases |chain| - i
      {
        entry := entry.next;
        i := i + 1;
      }
      FoundOrNot(chains, running, pid, i);
    }

    /** Put a new entry at the front of its bucket. */
    method AddFirst(entry: Entry)
      requires Shape() && entry !in entries && entry.pid !in running && entry.prev == entry.next == null
      modifies this`chains, this`entries, this`running, buckets, entries, entry
      ensures Shape() && entries == old(entries) + {entry} && running == old(running)[entry.pid := entry.pinfo]
    {
      hide Linked, BucketOf, Indexed;
      var b := BucketOf(entry.pid);
      ghost var chain := chains[b];
      AddKeepsIndexed(chains, running, entry);
      DifferentKeys(chains, running, b);
      BucketsApart(chains, running, b);
      assert chain != [] ==> buckets[b] == chain[0] && chain[0] in chain;
      PushFront(entry, buckets[b], chain);
      forall b' | 0 <= b' < |chains| && b' != b
        ensures IsBucket(buckets[b'], chains[b'])
      {
        assert old(IsBucket(buckets[b'], chains[b']));
        assert forall e :: e in chains[b'] ==> e != entry && e !in chain;
      }
      buckets[b] := entry;
      chains := chains[b := [entry] + chain];
      entries := entries + {entry};
      running := running[entry.pid := entry.pinfo];
    }

    /** The part of lookup_pid that adds a process. */
    method Insert(pid: nat) returns (entry: Entry)
      requires Valid() && pid !in running
      modifies this, buckets, entries
      ensures Valid() && fresh(entries - old(entries)) && old(entries) <= entries
      ensures IsNew(entry.pinfo, pid) && fresh(entry.pinfo) && running == old(running)[pid := entry.pinfo]
      ensures totalProcesses == old(totalProcesses) + 1
      ensures maxNumProcesses == if old(maxNumProcesses) < numProcesses then numProcesses else old(maxNumProcesses)
    {
      hide Shape;
      var pinfo := new ProcessInfo(pid);
      entry := new Entry(pid, pinfo);
      AddFirst(entry);
      numProcesses := numProcesses + 1;
      totalProcesses := totalProcesses + 1;
      if numProcesses > maxNumProcesses {
        maxNumProcesses := numProcesses;
      }
    }

    /** lookup_pid: find the process, or with insert, add one at the front of its bucket. */
    method LookupPid(pid: nat, insert: bool) returns (entry: Entry?)
      requires Valid()
      modifies this, buckets, entries
      ensures Valid() && fresh(entries - old(entries)) && old(entries) <= entries
      ensures entry != null <==> pid in running
      ensures entry != null ==> entry.pinfo == running[pid]
      ensures if pid in old(running) || !insert then
                && running == old(running) && totalProcesses == old(totalProcesses)
                && maxNumProcesses == old(maxNumProcesses)
              else
                && pid in running && fresh(running[pid]) && IsNew(running[pid], pid)
                && running == old(running)[pid := running[pid]]
                && totalProcesses == old(totalProcesses) + 1
                && maxNumProcesses == if old(maxNumProcesses) < |running| then |running| else old(maxNumProcesses)
    {
      hide Shape, BucketOf, At, IsNew;
      ghost var i;
      entry, i := Find(pid);
      if entry == null && insert {
        entry := Insert(pid);
      }
    }

    /** Take element i out of bucket b, which shares no entry with another. */
    method UnlinkIn(entry: Entry, b: nat, ghost i: nat)
      requires LinkedUp() && b < |chains| && i < |chains[b]| && chains[b][i] == entry
      requires forall j, k :: 0 <= j < k < |chains[b]| ==> chains[b][j] != chains[b][k]
      requires forall b', e {:trigger e in chains[b']} ::
                 0 <= b' < |chains| && b' != b && e in chains[b'] ==> e !in chains[b]
      modifies this`chains, buckets, entries
      ensures LinkedUp() && chains == old(chains)[b := old(chains[b][..i] + chains[b][i + 1..])]
    {
      hide IsBucket, At, Linked;
      ghost var chain := chains[b];
      assert forall k :: 0 <= k < |chain| ==> chain[k] in chain;
      ghost var rest := chain[..i] + chain[i + 1..];
      assert AreEntries(rest, entries);
      var head := UnlinkAt(entry, buckets[b], chain, i);
      forall b' | 0 <= b' < |chains| && b' != b
        ensures IsBucket(buckets[b'], chains[b'])
      {
        assert old(IsBucket(buckets[b'], chains[b']));
        assert forall e :: e in chains[b'] ==> e !in chain;
      }
      buckets[b] := head;
      chains := chains[b := rest];
    }

    /** Take an entry out of its bucket. */
    method Unlink(entry: Entry, ghost i: nat)
      requires Valid() && var chain := chains[BucketOf(entry.pid)]; i < |chain| && chain[i] == entry
      modifies this`numProcesses, this`chains, this`running, buckets, entries
      ensures Valid() && running == old(running) - {entry.pid}
    {
      hide IsBucket, AreEntries, BucketOf, Indexed;
      var b := BucketOf(entry.pid);
      UnlinkKeepsIndexed(chains, running, entry, i);
      DifferentKeys(chains, running, b);
      BucketsApart(chains, running, b);
      UnlinkIn(entry, b, i);
      running := running - {entry.pid};
      numProcesses := numProcesses - 1;
    }

    /** remove_pid: whether the pid was running. */
    method RemovePid(pid: nat) returns (found: bool)
      requires Valid()
      modifies this`numProcesses, this`chains, this`running, buckets, entries
      ensures Valid() && found == (pid in old(running)) && running == old(running) - {pid}
    {
      hide Shape, BucketOf, At, Indexed, LinkedUp;
      var entry; ghost var i;
      entry, i := Find(pid);
      if entry == null {
        assert running - {pid} == running;
        return false;
      }
      Unlink(entry, i);
      return true;
    }
  }
}
