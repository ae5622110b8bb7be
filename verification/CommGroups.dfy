/**
 Pairing the children of two processes by command name (proctree.c): the children of each side are grouped by comm,
 and the i-th child of a comm on one side is paired with the i-th of the same comm on the other.
 */
module CommGroups {
  import opened JsonReader
  import opened Options

  function Comm(j: Json): string {
    GetString(j, "comm", "?")
  }

  function Kids(j: Json): seq<Json> {
    ArrayItems(ObjectGet(j, "children"))
  }

  datatype Group = Group(comm: string, items: seq<Json>)

  datatype Pair = Pair(a: Option<Json>, b: Option<Json>, occurrence: nat)

  // ---- group tables -----------------------------------------------------------------------------

  /** Position of the first group of a comm, or the table's length. */
  function FindGroup(t: seq<Group>, comm: string, i: nat): (k: nat)
    requires i <= |t|
    ensures i <= k <= |t| && (k < |t| ==> t[k].comm == comm)
    ensures forall j :: i <= j < k ==> t[j].comm != comm
    decreases |t| - i
  {
    if i == |t| || t[i].comm == comm then i else FindGroup(t, comm, i + 1)
  }

  /** Add a child to the group of its comm, opening the group if there is none. */
  function AddChild(t: seq<Group>, child: Json): seq<Group> {
    var k := FindGroup(t, Comm(child), 0);
    if k < |t| then t[k := t[k].(items := t[k].items + [child])] else t + [Group(Comm(child), [child])]
  }

  /** The table after the first m children. */
  function Groups(kids: seq<Json>, m: nat): seq<Group>
    requires m <= |kids|
  {
    if m == 0 then [] else AddChild(Groups(kids, m - 1), kids[m - 1])
  }

  /** build_comm_group_table */
  method BuildGroups(kids: seq<Json>) returns (t: seq<Group>)
    ensures t == Groups(kids, |kids|)
  {
    t := [];
    for i := 0 to |kids|
      invariant t == Groups(kids, i)
    {
      var k := FindOrAdd(t, Comm(kids[i]));
      if k < |t| {
        t := t[k := t[k].(items := t[k].items + [kids[i]])];
      } else {
        t := t + [Group(Comm(kids[i]), [kids[i]])];
      }
    }
  }

  method FindOrAdd(t: seq<Group>, comm: string) returns (k: nat)
    ensures k == FindGroup(t, comm, 0)
  {
    k := 0;
    while k < |t|
      invariant k <= |t| && FindGroup(t, comm, k) == FindGroup(t, comm, 0)
    {
      if t[k].comm == comm {
        return;
      }
      k := k + 1;
    }
  }

  /** The children of a comm among the first m, in order. */
  function OfComm(kids: seq<Json>, m: nat, comm: string): seq<Json>
    requires m <= |kids|
  {
    if m == 0 then []
    else OfComm(kids, m - 1, comm) + (if Comm(kids[m - 1]) == comm then [kids[m - 1]] else [])
  }

  /** Groups have different comms, none is empty, and each holds the children of its comm in order. */
  ghost predicate IsTable(t: seq<Group>, kids: seq<Json>, m: nat)
    requires m <= |kids|
  {
    && (forall i, j :: 0 <= i < j < |t| ==> t[i].comm != t[j].comm)
    && (forall i :: 0 <= i < |t| ==> t[i].items == OfComm(kids, m, t[i].comm) != [])
    && forall k :: 0 <= k < m ==> FindGroup(t, Comm(kids[k]), 0) < |t|
  }

  lemma FoundAt(t: seq<Group>, i: nat)
    requires i < |t| && forall i, j :: 0 <= i < j < |t| ==> t[i].comm != t[j].comm
    ensures FindGroup(t, t[i].comm, 0) == i
  {
  }

  /** The children of a comm after one more child. */
  lemma OfCommNext(kids: seq<Json>, m: nat, comm: string)
    requires m < |kids|
    ensures OfComm(kids, m + 1, comm)
            == OfComm(kids, m, comm) + (if Comm(kids[m]) == comm then [kids[m]] else [])
  {
    hide Comm;
  }

  /** Each group, after one more child, holds the children of its comm. */
  lemma GroupAfterAdd(t: seq<Group>, kids: seq<Json>, m: nat, i: nat)
    requires m < |kids| && IsTable(t, kids, m) && i < |AddChild(t, kids[m])|
    ensures var g := AddChild(t, kids[m])[i]; g.items == OfComm(kids, m + 1, g.comm) != []
  {
    hide Comm;
    var c := Comm(kids[m]);
    var k := FindGroup(t, c, 0);
    OfCommNext(kids, m, AddChild(t, kids[m])[i].comm);
    if i == |t| {
      NotThere(t, kids, m, c);
    } else if i != k {
      DifferentComm(t, i, k, c);
    }
  }

  lemma AddKeepsTable(t: seq<Group>, kids: seq<Json>, m: nat)
    requires m < |kids| && IsTable(t, kids, m)
    ensures IsTable(AddChild(t, kids[m]), kids, m + 1)
  {
    hide Comm, OfComm;
    var child, t' := kids[m], AddChild(t, kids[m]);
    var k := FindGroup(t, Comm(child), 0);
    forall i | 0 <= i < |t'|
      ensures t'[i].items == OfComm(kids, m + 1, t'[i].comm) != []
    {
      GroupAfterAdd(t, kids, m, i);
    }
    hide FindGroup;
    forall i | 0 <= i <= m
      ensures FindGroup(t', Comm(kids[i]), 0) < |t'|
    {
      var at := if i < m then FindGroup(t, Comm(kids[i]), 0) else k;
      FoundIfThere(t', at, Comm(kids[i]));
    }
  }

  lemma DifferentComm(t: seq<Group>, i: nat, k: nat, c: string)
    requires i < |t| && i != k <= |t| && k == FindGroup(t, c, 0)
    requires forall i, j :: 0 <= i < j < |t| ==> t[i].comm != t[j].comm
    ensures t[i].comm != c
  {
  }

  lemma FoundIfThere(t: seq<Group>, i: nat, comm: string)
    requires i < |t| && t[i].comm == comm
    ensures FindGroup(t, comm, 0) < |t|
  {
  }

  lemma {:induction false} GroupsAreTable(kids: seq<Json>, m: nat)
    requires m <= |kids|
    ensures IsTable(Groups(kids, m), kids, m)
  {
    hide AddChild;
    if m > 0 {
      GroupsAreTable(kids, m - 1);
      AddKeepsTable(Groups(kids, m - 1), kids, m - 1);
    }
  }

  /** A comm without a group has no children. */
  lemma {:induction false} NotThere(t: seq<Group>, kids: seq<Json>, m: nat, comm: string)
    requires m <= |kids| && FindGroup(t, comm, 0) == |t|
    requires forall k :: 0 <= k < m ==> FindGroup(t, Comm(kids[k]), 0) < |t|
    ensures OfComm(kids, m, comm) == []
  {
    hide Comm;
    if m > 0 {
      NotThere(t, kids, m - 1, comm);
      assert FindGroup(t, Comm(kids[m - 1]), 0) < |t|;
    }
  }

  /** The items listed for a comm, none when it has no group. */
  function ItemsFor(t: seq<Group>, comm: string): seq<Json> {
    var k := FindGroup(t, comm, 0);
    if k < |t| then t[k].items else []
  }

  lemma ItemsAreOfComm(t: seq<Group>, kids: seq<Json>, comm: string)
    requires IsTable(t, kids, |kids|)
    ensures ItemsFor(t, comm) == OfComm(kids, |kids|, comm)
  {
    if FindGroup(t, comm, 0) == |t| {
      NotThere(t, kids, |kids|, comm);
    }
  }

  // ---- pairs ------------------------------------------------------------------------------------

  function ItemAt(items: seq<Json>, i: nat): Option<Json> {
    if i < |items| then Some(items[i]) else None
  }

  /** The first n pairs of two lists of children, one side missing where a list is too short. */
  function Zip(a: seq<Json>, b: seq<Json>, n: nat): (ps: seq<Pair>)
    ensures |ps| == n
  {
    if n == 0 then [] else Zip(a, b, n - 1) + [Pair(ItemAt(a, n - 1), ItemAt(b, n - 1), n - 1)]
  }

  function Longer(a: seq<Json>, b: seq<Json>): nat {
    if |a| > |b| then |a| else |b|
  }

  function ZipAll(a: seq<Json>, b: seq<Json>): seq<Pair> {
    Zip(a, b, Longer(a, b))
  }

  /** Pairs for the first g comms of side A. */
  function PairsOfA(ta: seq<Group>, tb: seq<Group>, g: nat): seq<Pair>
    requires g <= |ta|
  {
    if g == 0 then [] else PairsOfA(ta, tb, g - 1) + ZipAll(ta[g - 1].items, ItemsFor(tb, ta[g - 1].comm))
  }

  /** Pairs for those of the first g comms of side B that side A does not have. */
  function PairsOfB(ta: seq<Group>, tb: seq<Group>, g: nat): seq<Pair>
    requires g <= |tb|
  {
    if g == 0 then []
    else PairsOfB(ta, tb, g - 1)
         + (if FindGroup(ta, tb[g - 1].comm, 0) < |ta| then [] else ZipAll([], tb[g - 1].items))
  }

  function PairsOf(a: seq<Json>, b: seq<Json>): seq<Pair> {
    var ta, tb := Groups(a, |a|), Groups(b, |b|);
    PairsOfA(ta, tb, |ta|) + PairsOfB(ta, tb, |tb|)
  }

  /** The pairing loops of merge_nodes. */
  method PairChildren(a: seq<Json>, b: seq<Json>) returns (pairs: seq<Pair>)
    ensures pairs == PairsOf(a, b)
  {
    hide Groups, ZipAll;
    var ta := BuildGroups(a);
    var tb := BuildGroups(b);
    pairs := PairGroupsOfA(ta, tb);
    var more := PairGroupsOfB(ta, tb);
    pairs := pairs + more;
  }

  method PairGroupsOfA(ta: seq<Group>, tb: seq<Group>) returns (pairs: seq<Pair>)
    ensures pairs == PairsOfA(ta, tb, |ta|)
  {
    hide ZipAll, FindGroup;
    pairs := [];
    for gi := 0 to |ta|
      invariant pairs == PairsOfA(ta, tb, gi)
    {
      var bi := FindOrAdd(tb, ta[gi].comm);
      var ib := if bi < |tb| then tb[bi].items else [];
      pairs := AppendPairs(pairs, ta[gi].items, ib);
    }
  }

  method PairGroupsOfB(ta: seq<Group>, tb: seq<Group>) returns (pairs: seq<Pair>)
    ensures pairs == PairsOfB(ta, tb, |tb|)
  {
    hide ZipAll, FindGroup;
    pairs := [];
    for gi := 0 to |tb|
      invariant pairs == PairsOfB(ta, tb, gi)
    {
      var ai := FindOrAdd(ta, tb[gi].comm);
      if ai < |ta| {
        continue;
      }
      pairs := AppendPairs(pairs, [], tb[gi].items);
    }
  }

  method AppendPairs(pairs: seq<Pair>, ia: seq<Json>, ib: seq<Json>) returns (r: seq<Pair>)
    ensures r == pairs + ZipAll(ia, ib)
  {
    var maxc := if |ia| > |ib| then |ia| else |ib|;
    r := pairs;
    for idx := 0 to maxc
      invariant r == pairs + Zip(ia, ib, idx)
    {
      var ca := if idx < |ia| then Some(ia[idx]) else None;
      var cb := if idx < |ib| then Some(ib[idx]) else None;
      r := r + [Pair(ca, cb, idx)];
    }
  }

  // ---- what the pairs of one comm are -----------------------------------------------------------

  function SideComm(a: Option<Json>, b: Option<Json>): string {
    if a.Some? then Comm(a.value) else if b.Some? then Comm(b.value) else "?"
  }

  function PairComm(p: Pair): string {
    SideComm(p.a, p.b)
  }

  /** Those of the first m pairs that are of a comm, in order. */
  function PairsOfComm(ps: seq<Pair>, m: nat, comm: string): seq<Pair>
    requires m <= |ps|
  {
    if m == 0 then []
    else PairsOfComm(ps, m - 1, comm) + (if PairComm(ps[m - 1]) == comm then [ps[m - 1]] else [])
  }

  lemma {:induction false} PairsOfCommPrefix(ps: seq<Pair>, qs: seq<Pair>, m: nat, comm: string)
    requires m <= |ps|
    ensures PairsOfComm(ps + qs, m, comm) == PairsOfComm(ps, m, comm)
  {
    if m > 0 {
      PairsOfCommPrefix(ps, qs, m - 1, comm);
    }
  }

  lemma {:induction false} PairsOfCommJoin(ps: seq<Pair>, qs: seq<Pair>, m: nat, comm: string)
    requires m <= |qs|
    ensures PairsOfComm(ps + qs, |ps| + m, comm) == PairsOfComm(ps, |ps|, comm) + PairsOfComm(qs, m, comm)
  {
    if m == 0 {
      PairsOfCommPrefix(ps, qs, |ps|, comm);
    } else {
      PairsOfCommJoin(ps, qs, m - 1, comm);
    }
  }

  lemma {:induction false} AllOfComm(kids: seq<Json>, m: nat, comm: string)
    requires m <= |kids|
    ensures forall i :: 0 <= i < |OfComm(kids, m, comm)| ==> Comm(OfComm(kids, m, comm)[i]) == comm
  {
    hide Comm;
    if m > 0 {
      AllOfComm(kids, m - 1, comm);
    }
  }

  /** Pairs zipped from children of one comm are all of that comm, and of no other. */
  lemma {:induction false} ZipOfComm(a: seq<Json>, b: seq<Json>, n: nat, comm: string, other: string)
    requires n <= Longer(a, b)
    requires (forall i :: 0 <= i < |a| ==> Comm(a[i]) == comm) && (forall i :: 0 <= i < |b| ==> Comm(b[i]) == comm)
    ensures PairsOfComm(Zip(a, b, n), n, other) == if other == comm then Zip(a, b, n) else []
  {
    if n > 0 {
      ZipOfComm(a, b, n - 1, comm, other);
      PairsOfCommPrefix(Zip(a, b, n - 1), [Zip(a, b, n)[n - 1]], n - 1, other);
      assert Zip(a, b, n) == Zip(a, b, n - 1) + [Zip(a, b, n)[n - 1]];
    }
  }

  /** All pairs zipped from the children of comm c, seen as pairs of a comm. */
  lemma ZippedOfComm(a: seq<Json>, b: seq<Json>, c: string, comm: string)
    ensures var ps := ZipAll(OfComm(a, |a|, c), OfComm(b, |b|, c));
            PairsOfComm(ps, |ps|, comm) == if comm == c then ps else []
  {
    hide Comm, OfComm, Zip;
    var ia, ib := OfComm(a, |a|, c), OfComm(b, |b|, c);
    AllOfComm(a, |a|, c);
    AllOfComm(b, |b|, c);
    ZipOfComm(ia, ib, Longer(ia, ib), c, comm);
  }

  /** The pairs of a comm after the pairs of comm c are added; before says whether it was among the earlier ones. */
  lemma JoinOfComm(ps: seq<Pair>, a: seq<Json>, b: seq<Json>, c: string, comm: string, before: bool)
    requires PairsOfComm(ps, |ps|, comm)
             == if before then ZipAll(OfComm(a, |a|, comm), OfComm(b, |b|, comm)) else []
    requires comm == c ==> !before
    ensures var more := ps + ZipAll(OfComm(a, |a|, c), OfComm(b, |b|, c));
            PairsOfComm(more, |more|, comm)
            == if before || comm == c then ZipAll(OfComm(a, |a|, comm), OfComm(b, |b|, comm)) else []
  {
    hide Comm, OfComm, ZipAll, PairComm, PairsOfComm;
    var more := ZipAll(OfComm(a, |a|, c), OfComm(b, |b|, c));
    ZippedOfComm(a, b, c, comm);
    PairsOfCommJoin(ps, more, |more|, comm);
  }

  lemma {:induction false} OfACommPairs(ta: seq<Group>, tb: seq<Group>, a: seq<Json>, b: seq<Json>, g: nat,
                                        comm: string)
    requires IsTable(ta, a, |a|) && IsTable(tb, b, |b|) && g <= |ta|
    ensures var ps := PairsOfA(ta, tb, g);
            PairsOfComm(ps, |ps|, comm)
            == if FindGroup(ta, comm, 0) < g then ZipAll(OfComm(a, |a|, comm), OfComm(b, |b|, comm)) else []
  {
    hide Comm, OfComm, ZipAll, IsTable, PairComm, FindGroup, ItemsFor, PairsOfComm;
    if g == 0 {
      NoPairs(comm);
    } else {
      var c := ta[g - 1].comm;
      OfACommPairs(ta, tb, a, b, g - 1, comm);
      TableGroup(ta, a, g - 1);
      ItemsAreOfComm(tb, b, c);
      FindNext(ta, comm, g);
      JoinOfComm(PairsOfA(ta, tb, g - 1), a, b, c, comm, FindGroup(ta, comm, 0) < g - 1);
    }
  }

  lemma NoPairs(comm: string)
    ensures PairsOfComm([], 0, comm) == []
  {
  }

  lemma TableGroup(t: seq<Group>, kids: seq<Json>, g: nat)
    requires IsTable(t, kids, |kids|) && g < |t|
    ensures t[g].items == OfComm(kids, |kids|, t[g].comm) && FindGroup(t, t[g].comm, 0) == g
  {
    hide Comm, OfComm;
    FoundAt(t, g);
  }

  /** Looking only at the first g groups finds a comm in the last of them or before. */
  lemma FindNext(t: seq<Group>, comm: string, g: nat)
    requires 0 < g <= |t| && FindGroup(t, t[g - 1].comm, 0) == g - 1
    ensures FindGroup(t, comm, 0) < g <==> FindGroup(t, comm, 0) < g - 1 || comm == t[g - 1].comm
    ensures comm == t[g - 1].comm ==> FindGroup(t, comm, 0) == g - 1
  {
  }

  lemma {:induction false} OfBCommPairs(ta: seq<Group>, tb: seq<Group>, b: seq<Json>, g: nat, comm: string)
    requires IsTable(tb, b, |b|) && g <= |tb|
    ensures var ps := PairsOfB(ta, tb, g);
            PairsOfComm(ps, |ps|, comm)
            == if FindGroup(ta, comm, 0) == |ta| && FindGroup(tb, comm, 0) < g then ZipAll([], OfComm(b, |b|, comm))
               else []
  {
    hide Comm, OfComm, ZipAll, IsTable, PairComm, FindGroup, PairsOfComm;
    NoneOfComm(comm);
    if g == 0 {
      NoPairs(comm);
    } else {
      var c := tb[g - 1].comm;
      OfBCommPairs(ta, tb, b, g - 1, comm);
      TableGroup(tb, b, g - 1);
      FindNext(tb, comm, g);
      if FindGroup(ta, c, 0) == |ta| {
        NoneOfComm(c);
        JoinOfComm(PairsOfB(ta, tb, g - 1), [], b, c, comm,
                   FindGroup(ta, comm, 0) == |ta| && FindGroup(tb, comm, 0) < g - 1);
      } else {
        assert PairsOfB(ta, tb, g) == PairsOfB(ta, tb, g - 1);
        if comm == c {
          assert FindGroup(ta, comm, 0) == FindGroup(ta, c, 0);
        }
      }
    }
  }

  lemma NoneOfComm(comm: string)
    ensures OfComm([], 0, comm) == []
  {
  }

  /** The pairs of a comm are the i-th children of that comm on both sides, for every i that either side has. */
  lemma PairsMatchByOccurrence(a: seq<Json>, b: seq<Json>, comm: string)
    ensures PairsOfComm(PairsOf(a, b), |PairsOf(a, b)|, comm)
            == ZipAll(OfComm(a, |a|, comm), OfComm(b, |b|, comm))
  {
    hide Comm, OfComm, Groups, IsTable, FindGroup, PairsOfA, PairsOfB, PairsOfComm, PairComm, ZipAll;
    var ta, tb := Groups(a, |a|), Groups(b, |b|);
    var pa, pb := PairsOfA(ta, tb, |ta|), PairsOfB(ta, tb, |tb|);
    GroupsAreTable(a, |a|);
    GroupsAreTable(b, |b|);
    OfACommPairs(ta, tb, a, b, |ta|, comm);
    OfBCommPairs(ta, tb, b, |tb|, comm);
    PairsOfCommJoin(pa, pb, |pb|, comm);
    FoundIffAny(ta, a, comm);
    FoundIffAny(tb, b, comm);
    NothingZipped();
  }

  lemma FoundIffAny(t: seq<Group>, kids: seq<Json>, comm: string)
    requires IsTable(t, kids, |kids|)
    ensures FindGroup(t, comm, 0) == |t| ==> OfComm(kids, |kids|, comm) == []
  {
    hide Comm, OfComm;
    if FindGroup(t, comm, 0) == |t| {
      NotThere(t, kids, |kids|, comm);
    }
  }

  lemma NothingZipped()
    ensures ZipAll([], []) == []
  {
  }

  // ---- where the sides of a pair come from ------------------------------------------------------

  /** Pair i is among the pairs of its comm. */
  lemma {:induction false} InItsComm(ps: seq<Pair>, m: nat, i: nat)
    requires i < m <= |ps|
    ensures ps[i] in PairsOfComm(ps, m, PairComm(ps[i]))
  {
    hide PairComm;
    if i < m - 1 {
      InItsComm(ps, m - 1, i);
    }
  }

  lemma {:induction false} OfCommInKids(kids: seq<Json>, m: nat, comm: string)
    requires m <= |kids|
    ensures forall j :: j in OfComm(kids, m, comm) ==> j in kids
  {
    hide Comm;
    if m > 0 {
      OfCommInKids(kids, m - 1, comm);
    }
  }

  lemma {:induction false} ZipAt(a: seq<Json>, b: seq<Json>, n: nat, i: nat)
    requires i < n
    ensures Zip(a, b, n)[i] == Pair(ItemAt(a, i), ItemAt(b, i), i)
  {
    if i < n - 1 {
      ZipAt(a, b, n - 1, i);
    }
  }

  /** Sides of a pair are children of their side, not both are missing, and both have the pair's comm. */
  lemma PairSides(a: seq<Json>, b: seq<Json>, i: nat)
    requires i < |PairsOf(a, b)|
    ensures var p := PairsOf(a, b)[i];
            && (p.a.Some? || p.b.Some?)
            && (p.a.Some? ==> p.a.value in a && Comm(p.a.value) == PairComm(p))
            && (p.b.Some? ==> p.b.value in b && Comm(p.b.value) == PairComm(p))
  {
    hide PairsOf, Comm;
    var ps := PairsOf(a, b);
    var c := PairComm(ps[i]);
    InItsComm(ps, |ps|, i);
    PairsMatchByOccurrence(a, b, c);
    SidesOfZip(a, b, c, ps[i]);
  }

  lemma SidesOfZip(a: seq<Json>, b: seq<Json>, c: string, p: Pair)
    requires p in ZipAll(OfComm(a, |a|, c), OfComm(b, |b|, c))
    ensures p.a.Some? || p.b.Some?
    ensures p.a.Some? ==> p.a.value in a && Comm(p.a.value) == c
    ensures p.b.Some? ==> p.b.value in b && Comm(p.b.value) == c
  {
    hide Comm, OfComm, Zip;
    var ia, ib := OfComm(a, |a|, c), OfComm(b, |b|, c);
    var ps := ZipAll(ia, ib);
    var k :| 0 <= k < |ps| && ps[k] == p;
    ZipAt(ia, ib, Longer(ia, ib), k);
    AllOfComm(a, |a|, c);
    AllOfComm(b, |b|, c);
    OfCommInKids(a, |a|, c);
    OfCommInKids(b, |b|, c);
  }

  /** Paired with itself, a list has each child on both sides of its pair. */
  lemma SelfPairs(a: seq<Json>, i: nat)
    requires i < |PairsOf(a, a)|
    ensures PairsOf(a, a)[i].a == PairsOf(a, a)[i].b != None
  {
    hide PairsOf, Comm, OfComm, Zip;
    var ps := PairsOf(a, a);
    var c := PairComm(ps[i]);
    InItsComm(ps, |ps|, i);
    PairsMatchByOccurrence(a, a, c);
    var items := OfComm(a, |a|, c);
    var k :| 0 <= k < |ZipAll(items, items)| && ZipAll(items, items)[k] == ps[i];
    ZipAt(items, items, Longer(items, items), k);
  }
}
