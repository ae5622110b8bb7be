/**
 CPU lists (affinity.c): printing a CPU set as runs such as 0,2-3,7, and parsing such a list back. A cpu_set_t is the
 set of its members, a C string pointer an index into the text.
 */
module Affinity {
  import opened Decimals
  import opened Options

  const CPU_SETSIZE := 1024
  const LONG_MAX := 0x7fff_ffff_ffff_ffff

  // ---- strtol -----------------------------------------------------------------------------------

  function SpaceEnd(t: string, p: nat): (e: nat)
    requires p <= |t|
    ensures p <= e <= |t|
    decreases |t| - p
  {
    if p < |t| && IsSpace(t[p]) then SpaceEnd(t, p + 1) else p
  }

  function ClampLong(v: int): int {
    if v > LONG_MAX then LONG_MAX else if v < -LONG_MAX - 1 then -LONG_MAX - 1 else v
  }

  /** strtol at position p in base ten: the value and the position behind it, p itself when there is no number. */
  function Strtol(t: string, p: nat): (r: (int, nat))
    requires p <= |t|
    ensures p <= r.1 <= |t|
  {
    var w := SpaceEnd(t, p);
    var d := if w < |t| && (t[w] == '-' || t[w] == '+') then w + 1 else w;
    var e := DigitsEnd(t, d);
    if e == d then (0, p)
    else (ClampLong(if d > w && t[w] == '-' then 0 - ValueOf(t, d, e) else ValueOf(t, d, e)), e)
  }

  lemma StrtolOfDecimal(t: string, p: nat, n: nat)
    requires n <= LONG_MAX && HasAt(t, p, Decimal(n))
    requires var e := p + |Decimal(n)|; e < |t| ==> !IsDigit(t[e])
    ensures Strtol(t, p) == (n, p + |Decimal(n)|)
  {
    DecimalAt(t, p, n);
    DigitsEndAt(t, p, p + |Decimal(n)|);
    assert IsDigit(t[p]);
  }

  // ---- parsing ----------------------------------------------------------------------------------

  function BlanksEnd(t: string, p: nat): (e: nat)
    requires p <= |t|
    ensures p <= e <= |t|
    decreases |t| - p
  {
    if p < |t| && (t[p] == ' ' || t[p] == '\t') then BlanksEnd(t, p + 1) else p
  }

  predicate Within(c: int, low: int, high: int) {
    low <= c <= high
  }

  /** Members low to high, as far as a CPU set can hold them. */
  function Range(low: int, high: int): (cpus: set<nat>)
    ensures forall c: nat :: c in cpus <==> Within(c, low, high) && c < CPU_SETSIZE
  {
    set c: nat {:trigger Within(c, low, high)} | c < CPU_SETSIZE && Within(c, low, high)
  }

  datatype Item = NoItem | Item(low: int, high: int, end: nat)

  /** The range at position p, and where the separator behind it ends. */
  function ItemAt(t: string, p: nat): (item: Item)
    requires p <= |t|
    ensures item.Item? ==> p < item.end <= |t|
  {
    var (low, e) := Strtol(t, p);
    if e == p then NoItem
    else if e < |t| && t[e] == '-' then
      var (high, e') := Strtol(t, e + 1);
      if e' == e + 1 then NoItem else Item(low, high, SeparatorEnd(t, e'))
    else Item(low, low, SeparatorEnd(t, e))
  }

  /** End of an optional comma and any blanks at position p. */
  function SeparatorEnd(t: string, p: nat): (end: nat)
    requires p <= |t|
    ensures p <= end <= |t|
  {
    if p < |t| && t[p] == ',' then BlanksEnd(t, p + 1) else BlanksEnd(t, p)
  }

  /** The CPUs after parsing t from position p on top of cpus. */
  function ParseList(t: string, p: nat, cpus: set<nat>, ncpus: int): set<nat>
    requires p <= |t|
    decreases |t| - p
  {
    if p == |t| then cpus
    else
      var item := ItemAt(t, p);
      if item.NoItem? then cpus
      else ParseList(t, item.end, cpus + Range(item.low, Lesser(item.high, ncpus - 1)), ncpus)
  }

  function Lesser(a: int, b: int): int {
    if a <= b then a else b
  }

  /** parse_cpu_list_into_set */
  method ParseCpuListInto(list: string, cpus: set<nat>, ncpus: int) returns (result: set<nat>)
    ensures result == ParseList(list, 0, cpus, ncpus)
  {
    result := cpus;
    var p := 0;
    while p < |list|
      invariant p <= |list| && ParseList(list, p, result, ncpus) == ParseList(list, 0, cpus, ncpus)
    {
      var item := ReadItem(list, p);
      if item.NoItem? {
        break;
      }
      var low, high := item.low, item.high;
      if low < 0 { low := 0; }
      if high >= ncpus { high := ncpus - 1; }
      ghost var before := result;
      result := SetRange(result, low, high);
      assert result == before + Range(item.low, Lesser(item.high, ncpus - 1));
      p := item.end;
    }
  }

  /** The part of the loop that moves over one range. */
  method ReadItem(list: string, from: nat) returns (item: Item)
    requires from < |list|
    ensures item == ItemAt(list, from)
  {
    var (low, p) := Strtol(list, from);
    var high := low;
    if p == from {
      return NoItem;
    }
    if p < |list| && list[p] == '-' {
      p := p + 1;
      var (h, end) := Strtol(list, p);
      if end == p {
        return NoItem;
      }
      high := h;
      p := end;
    }
    if p < |list| && list[p] == ',' { p := p + 1; }
    p := SkipBlanks(list, p);
    return Item(low, high, p);
  }

  /** Add low to high to a set, one CPU at a time. */
  method SetRange(cpus: set<nat>, low: nat, high: int) returns (result: set<nat>)
    ensures result == cpus + Range(low, high)
  {
    result := cpus;
    var c := low;
    while c <= high
      invariant low <= c && (low <= high ==> c <= high + 1)
      invariant result == cpus + Range(low, Lesser(high, c - 1))
    {
      if c < CPU_SETSIZE { result := result + {c}; }
      c := c + 1;
    }
  }

  method SkipBlanks(t: string, from: nat) returns (p: nat)
    requires from <= |t|
    ensures p == BlanksEnd(t, from)
  {
    p := from;
    while p < |t| && (t[p] == ' ' || t[p] == '\t')
      invariant from <= p <= |t| && BlanksEnd(t, p) == BlanksEnd(t, from)
    {
      p := p + 1;
    }
  }

  // ---- formatting -------------------------------------------------------------------------------

  datatype Run = Run(low: nat, high: nat)

  /** Last CPU of the run that e belongs to. */
  function RunEnd(cpus: set<nat>, ncpus: nat, e: nat): (end: nat)
    requires e < ncpus && e in cpus
    ensures e <= end < ncpus && (forall c :: e <= c <= end ==> c in cpus) && (end + 1 < ncpus ==> end + 1 !in cpus)
    decreases ncpus - e
  {
    if e + 1 < ncpus && e + 1 in cpus then RunEnd(cpus, ncpus, e + 1) else e
  }

  /** The runs of consecutive members from i up to ncpus. */
  function Runs(cpus: set<nat>, ncpus: nat, i: nat): seq<Run>
    decreases ncpus - i
  {
    if i >= ncpus then []
    else if i !in cpus then Runs(cpus, ncpus, i + 1)
    else
      var end := RunEnd(cpus, ncpus, i);
      [Run(i, end)] + Runs(cpus, ncpus, end + 1)
  }

  function RunText(r: Run): string {
    if r.low == r.high then Decimal(r.low) else Decimal(r.low) + "-" + Decimal(r.high)
  }

  /** Runs as text, separated by commas; a comma comes first unless these are the first runs. */
  function RunsText(first: bool, runs: seq<Run>): string {
    if runs == [] then ""
    else Piece(first, runs[0]) + RunsText(false, runs[1..])
  }

  function Piece(first: bool, r: Run): string {
    if first then RunText(r) else "," + RunText(r)
  }

  /** The text of the runs from i on starts with the run at i. */
  lemma RunsTextAt(first: bool, cpus: set<nat>, ncpus: nat, i: nat, piece: string, before: string)
    requires i < ncpus && i in cpus && piece == Piece(first, Run(i, RunEnd(cpus, ncpus, i)))
    ensures before + RunsText(first, Runs(cpus, ncpus, i))
            == before + piece + RunsText(false, Runs(cpus, ncpus, RunEnd(cpus, ncpus, i) + 1))
  {
    hide Piece;
    var rest := Runs(cpus, ncpus, RunEnd(cpus, ncpus, i) + 1);
    assert Runs(cpus, ncpus, i)[1..] == rest;
    assert before + (piece + RunsText(false, rest)) == before + piece + RunsText(false, rest);
  }

  function CpuListText(cpus: set<nat>, ncpus: nat): string {
    RunsText(true, Runs(cpus, ncpus, 0))
  }

  /**
   affinity_format_cpu_set: buf is the buffer's text up to its terminator. The whole list is written exactly when it
   fits; otherwise whole runs are kept and "..." or a cut run follows.
   */
  method FormatCpuSet(cpus: set<nat>, ncpus: nat, bufsize: nat) returns (buf: string)
    ensures bufsize > 0 ==> |buf| < bufsize
    ensures bufsize > 0 ==> (buf == CpuListText(cpus, ncpus) <==> |CpuListText(cpus, ncpus)| < bufsize)
    ensures 0 < bufsize <= |CpuListText(cpus, ncpus)| ==> IsTruncated(buf, CpuListText(cpus, ncpus), bufsize)
  {
    hide Piece, IsTruncated;
    buf := "";
    if bufsize == 0 {
      return;
    }
    ghost var full := CpuListText(cpus, ncpus);
    var first, i := true, 0;
    while i < ncpus
      invariant |buf| < bufsize && full == buf + RunsText(first, Runs(cpus, ncpus, i))
      decreases ncpus - i
    {
      if i !in cpus {
        i := i + 1;
        continue;
      }
      var runStart, runEnd := i, i;
      while runEnd + 1 < ncpus && runEnd + 1 in cpus
        invariant i <= runEnd < ncpus && runEnd in cpus && RunEnd(cpus, ncpus, i) == RunEnd(cpus, ncpus, runEnd)
      {
        runEnd := runEnd + 1;
      }
      var piece := Piece(first, Run(runStart, runEnd));
      RunsTextAt(first, cpus, ncpus, i, piece, buf);
      if |piece| >= bufsize - |buf| {
        var used := buf;
        buf := used + (if bufsize > |used| + 4 then "..." else piece[..bufsize - |used| - 1]);
        CutShort(full, used, piece, RunsText(false, Runs(cpus, ncpus, runEnd + 1)), bufsize);
        return;
      }
      buf := buf + piece;
      first := false;
      i := runEnd + 1;
    }
  }

  /** A proper prefix of the full text, possibly with dots behind it. */
  ghost predicate IsTruncated(buf: string, full: string, bufsize: nat) {
    exists used: nat :: used < bufsize && used < |full| && IsCutAt(buf, full, bufsize, used)
  }

  ghost predicate IsCutAt(buf: string, full: string, bufsize: nat, used: nat)
    requires used < |full|
  {
    buf == full[..used] + "..." || (buf == full[..used] && used == bufsize - 1)
  }

  lemma CutShort(full: string, used: string, piece: string, rest: string, bufsize: nat)
    requires full == used + piece + rest && |used| < bufsize && |piece| >= bufsize - |used|
    ensures var buf := used + (if bufsize > |used| + 4 then "..." else piece[..bufsize - |used| - 1]);
            IsTruncated(buf, full, bufsize)
  {
    if bufsize > |used| + 4 {
      assert full[..|used|] == used;
      assert IsCutAt(used + "...", full, bufsize, |used|);
    } else {
      var buf := used + piece[..bufsize - |used| - 1];
      assert full[..bufsize - 1] == buf;
      assert IsCutAt(buf, full, bufsize, bufsize - 1);
    }
  }

  // ---- the printed runs -------------------------------------------------------------------------

  /** Members in from..ncpus-1. */
  ghost function Members(cpus: set<nat>, from: nat, ncpus: nat): set<nat> {
    set c | c in cpus && from <= c < ncpus
  }

  ghost function RunCpus(r: Run): (cpus: set<nat>)
    ensures forall c: nat :: c in cpus <==> Within(c, r.low, r.high)
  {
    set c: nat {:trigger Within(c, r.low, r.high)} | c <= r.high && Within(c, r.low, r.high)
  }

  ghost function Covered(runs: seq<Run>): set<nat> {
    if runs == [] then {} else RunCpus(runs[0]) + Covered(runs[1..])
  }

  /** Runs from i on that are non-empty, ascending, disjoint and never adjacent. */
  ghost predicate Spaced(runs: seq<Run>, i: nat, ncpus: nat) {
    && (forall k :: 0 <= k < |runs| ==> i <= runs[k].low <= runs[k].high < ncpus)
    && (forall k :: 0 < k < |runs| ==> runs[k - 1].high + 1 < runs[k].low)
  }

  lemma SpacedCons(r: Run, rest: seq<Run>, ncpus: nat)
    requires r.low <= r.high < ncpus && Spaced(rest, r.high + 1, ncpus)
    requires rest != [] ==> rest[0].low != r.high + 1
    ensures Spaced([r] + rest, r.low, ncpus)
  {
    var runs := [r] + rest;
    forall k | 0 < k < |runs|
      ensures runs[k - 1].high + 1 < runs[k].low
    {
      assert runs[k] == rest[k - 1];
    }
  }

  lemma {:induction false} RunsAreMaximal(cpus: set<nat>, ncpus: nat, i: nat)
    ensures Spaced(Runs(cpus, ncpus, i), i, ncpus)
    decreases ncpus - i
  {
    hide Spaced, RunEnd;
    if i < ncpus {
      if i !in cpus {
        RunsAreMaximal(cpus, ncpus, i + 1);
        SpacedFurther(Runs(cpus, ncpus, i), i, ncpus);
      } else {
        var end := RunEnd(cpus, ncpus, i);
        var rest := Runs(cpus, ncpus, end + 1);
        RunsAreMaximal(cpus, ncpus, end + 1);
        if rest != [] {
          FirstIsMember(cpus, ncpus, end + 1);
        }
        SpacedCons(Run(i, end), rest, ncpus);
      }
    } else {
      NoRuns(i, ncpus);
    }
  }

  lemma NoRuns(i: nat, ncpus: nat)
    ensures Spaced([], i, ncpus)
  {
  }

  lemma SpacedFurther(runs: seq<Run>, i: nat, ncpus: nat)
    requires Spaced(runs, i + 1, ncpus)
    ensures Spaced(runs, i, ncpus)
  {
  }

  /** The runs cover exactly the members. */
  lemma {:induction false} RunsCoverMembers(cpus: set<nat>, ncpus: nat, i: nat)
    ensures Covered(Runs(cpus, ncpus, i)) == Members(cpus, i, ncpus)
    decreases ncpus - i
  {
    if i < ncpus {
      if i !in cpus {
        RunsCoverMembers(cpus, ncpus, i + 1);
        assert Members(cpus, i, ncpus) == Members(cpus, i + 1, ncpus);
      } else {
        var end := RunEnd(cpus, ncpus, i);
        RunsCoverMembers(cpus, ncpus, end + 1);
        assert Runs(cpus, ncpus, i)[1..] == Runs(cpus, ncpus, end + 1);
        assert Members(cpus, i, ncpus) == RunCpus(Run(i, end)) + Members(cpus, end + 1, ncpus);
      }
    }
  }

  lemma {:induction false} FirstIsMember(cpus: set<nat>, ncpus: nat, i: nat)
    requires Runs(cpus, ncpus, i) != []
    ensures Runs(cpus, ncpus, i)[0].low in cpus
    decreases ncpus - i
  {
    if i < ncpus && i !in cpus {
      FirstIsMember(cpus, ncpus, i + 1);
    }
  }

  // ---- round trip -------------------------------------------------------------------------------

  /** What may follow a printed run: nothing, or a comma and another run. */
  ghost predicate IsTailAt(t: string, p: nat) {
    p == |t| || (p + 1 < |t| && t[p] == ',' && IsDigit(t[p + 1]))
  }

  lemma TailIsSeparated(t: string, p: nat)
    requires p <= |t| && IsTailAt(t, p)
    ensures SeparatorEnd(t, p) == if p == |t| then p else p + 1
  {
  }

  /** Where the numbers of a printed run stand. */
  lemma NumbersOfRun(t: string, p: nat, r: Run)
    requires HasAt(t, p, RunText(r))
    ensures HasAt(t, p, Decimal(r.low))
    ensures var q := p + |Decimal(r.low)|;
            if r.low == r.high then q == p + |RunText(r)|
            else && q + 1 + |Decimal(r.high)| == p + |RunText(r)|
                 && q < |t| && t[q] == '-' && HasAt(t, q + 1, Decimal(r.high))
  {
    if r.low != r.high {
      HasBoth(t, p, Decimal(r.low) + "-", Decimal(r.high));
      HasBoth(t, p, Decimal(r.low), "-");
      HasChar(t, p + |Decimal(r.low)|, '-');
    }
  }

  lemma ItemFromOne(t: string, p: nat, low: nat, e: nat)
    requires p < e <= |t| && Strtol(t, p) == (low, e) && (e < |t| ==> t[e] != '-')
    ensures ItemAt(t, p) == Item(low, low, SeparatorEnd(t, e))
  {
  }

  lemma ItemFromTwo(t: string, p: nat, low: nat, q: nat, high: nat, e: nat)
    requires p < q < |t| && Strtol(t, p) == (low, q) && t[q] == '-'
    requires q + 1 < e <= |t| && Strtol(t, q + 1) == (high, e)
    ensures ItemAt(t, p) == Item(low, high, SeparatorEnd(t, e))
  {
  }

  /** One printed number, or two with a dash between them, is parsed as that range. */
  lemma ItemOfRun(t: string, p: nat, r: Run, q: nat, e: nat)
    requires r.low <= LONG_MAX && r.high <= LONG_MAX
    requires HasAt(t, p, Decimal(r.low)) && q == p + |Decimal(r.low)|
    requires if r.low == r.high then q == e
             else && q < |t| && t[q] == '-' && HasAt(t, q + 1, Decimal(r.high)) && e == q + 1 + |Decimal(r.high)|
    requires IsTailAt(t, e)
    ensures p < |t| && ItemAt(t, p) == Item(r.low, r.high, if e == |t| then e else e + 1)
  {
    hide Decimal;
    TailIsSeparated(t, e);
    StrtolOfDecimal(t, p, r.low);
    if r.low == r.high {
      ItemFromOne(t, p, r.low, e);
    } else {
      StrtolOfDecimal(t, q + 1, r.high);
      ItemFromTwo(t, p, r.low, q, r.high, e);
    }
  }

  /** Runs after the first one start with a comma and a digit. */
  lemma TailText(runs: seq<Run>)
    requires runs != []
    ensures RunsText(false, runs) == "," + RunsText(true, runs)
    ensures RunsText(true, runs) != "" && IsDigit(RunsText(true, runs)[0])
  {
    var w := RunText(runs[0]);
    assert w != "" && IsDigit(w[0]);
    assert RunsText(true, runs) == w + RunsText(false, runs[1..]);
    assert ("," + w) + RunsText(false, runs[1..]) == "," + (w + RunsText(false, runs[1..]));
  }

  lemma SplitAtComma(t: string, p: nat, w: string, rest: string)
    requires p <= |t| && t[p..] == w + ("," + rest) && rest != "" && IsDigit(rest[0])
    ensures HasAt(t, p, w) && p + |w| < |t| && IsTailAt(t, p + |w|) && t[p + |w| + 1..] == rest
  {
    var e := p + |w|;
    RestSplits(t, p, w, "," + rest);
    RestSplits(t, e, ",", rest);
    HasChar(t, e, ',');
    assert t[e + 1..][0] == t[e + 1];
  }

  /** After the first of several printed runs comes a comma and the others. */
  lemma SplitRuns(t: string, p: nat, w: string, rest: seq<Run>)
    requires p <= |t| && t[p..] == w + RunsText(false, rest)
    ensures HasAt(t, p, w) && IsTailAt(t, p + |w|)
    ensures var e := p + |w|; if rest == [] then e == |t| else e < |t| && t[e + 1..] == RunsText(true, rest)
  {
    if rest == [] {
      RestSplits(t, p, w, "");
    } else {
      TailText(rest);
      SplitAtComma(t, p, w, RunsText(true, rest));
    }
  }

  /** Parsing printed runs takes in the first one and goes on at the others. */
  lemma ParseFirstRun(t: string, p: nat, r: Run, rest: seq<Run>, cpus: set<nat>, ncpus: int) returns (next: nat)
    requires r.low <= r.high < CPU_SETSIZE && r.high < ncpus
    requires p <= |t| && t[p..] == RunText(r) + RunsText(false, rest)
    ensures next <= |t| && t[next..] == RunsText(true, rest)
    ensures ParseList(t, p, cpus, ncpus) == ParseList(t, next, cpus + RunCpus(r), ncpus)
  {
    hide Decimal, RunText, ItemAt;
    var e := p + |RunText(r)|;
    SplitRuns(t, p, RunText(r), rest);
    NumbersOfRun(t, p, r);
    ItemOfRun(t, p, r, p + |Decimal(r.low)|, e);
    next := if e == |t| then e else e + 1;
    assert Range(r.low, Lesser(r.high, ncpus - 1)) == RunCpus(r);
  }

  lemma {:induction false} ParseRuns(t: string, p: nat, runs: seq<Run>, cpus: set<nat>, ncpus: int)
    requires forall k :: 0 <= k < |runs| ==> runs[k].low <= runs[k].high < CPU_SETSIZE && runs[k].high < ncpus
    requires p <= |t| && t[p..] == RunsText(true, runs)
    ensures ParseList(t, p, cpus, ncpus) == cpus + Covered(runs)
    decreases |runs|
  {
    if runs == [] {
      assert |t[p..]| == 0;
    } else {
      var r := runs[0];
      var next := ParseFirstRun(t, p, r, runs[1..], cpus, ncpus);
      ParseRuns(t, next, runs[1..], cpus + RunCpus(r), ncpus);
      assert cpus + RunCpus(r) + Covered(runs[1..]) == cpus + Covered(runs);
    }
  }

  ghost predicate IsCpuSet(cpus: set<nat>) {
    forall c :: c in cpus ==> c < CPU_SETSIZE
  }

  /** Parsing what was printed for a CPU set gives back its members below ncpus, on top of what was there. */
  lemma CpuListRoundTrip(cpus: set<nat>, ncpus: nat, limit: int, before: set<nat>)
    requires IsCpuSet(cpus) && ncpus <= limit
    ensures ParseList(CpuListText(cpus, ncpus), 0, before, limit) == before + Members(cpus, 0, ncpus)
  {
    var runs := Runs(cpus, ncpus, 0);
    RunsAreMaximal(cpus, ncpus, 0);
    RunsCoverMembers(cpus, ncpus, 0);
    forall k | 0 <= k < |runs|
      ensures runs[k].high < CPU_SETSIZE
    {
      HighIsMember(cpus, ncpus, 0, k);
    }
    var t := CpuListText(cpus, ncpus);
    assert t[0..] == t;
    ParseRuns(t, 0, runs, before, limit);
  }

  lemma {:induction false} HighIsMember(cpus: set<nat>, ncpus: nat, i: nat, k: nat)
    requires k < |Runs(cpus, ncpus, i)|
    ensures Runs(cpus, ncpus, i)[k].high in cpus
    decreases ncpus - i
  {
    if i !in cpus {
      HighIsMember(cpus, ncpus, i + 1, k);
    } else if k > 0 {
      HighIsMember(cpus, ncpus, RunEnd(cpus, ncpus, i) + 1, k - 1);
    }
  }

  /** Parsing only adds CPUs, and only CPUs below both limits. */
  lemma {:induction false} ParseStaysInRange(t: string, p: nat, cpus: set<nat>, ncpus: int)
    requires p <= |t|
    ensures cpus <= ParseList(t, p, cpus, ncpus)
    ensures forall c :: c in ParseList(t, p, cpus, ncpus) && c !in cpus ==> c < ncpus && c < CPU_SETSIZE
    decreases |t| - p
  {
    if p < |t| {
      var item := ItemAt(t, p);
      if item.Item? {
        ParseStaysInRange(t, item.end, cpus + Range(item.low, Lesser(item.high, ncpus - 1)), ncpus);
      }
    }
  }

  // ---- what any list means ----------------------------------------------------------------------

  /** A number as strtol takes it: white space, perhaps a sign, and digits. */
  datatype Numeral = Numeral(blanks: string, sign: string, digits: string)

  predicate ValidNumeral(n: Numeral) {
    && (forall i :: 0 <= i < |n.blanks| ==> IsSpace(n.blanks[i])) && n.sign in {"", "+", "-"}
    && n.digits != "" && AreDigits(n.digits, 0, |n.digits|)
  }

  function NumeralText(n: Numeral): string {
    n.blanks + (n.sign + n.digits)
  }

  /** Its value, or the nearest number that a long can hold. */
  function NumeralValue(n: Numeral): int
    requires ValidNumeral(n)
  {
    var v := ValueOf(n.digits, 0, |n.digits|);
    if n.sign == "-" then 0 - Lesser(v, LONG_MAX + 1) else Lesser(v, LONG_MAX)
  }

  /** A numeral stands at p and its digits end at e. */
  predicate NumeralAt(t: string, p: nat, n: Numeral, e: nat) {
    ValidNumeral(n) && HasAt(t, p, NumeralText(n)) && e == p + |NumeralText(n)| && (e < |t| ==> !IsDigit(t[e]))
  }

  lemma {:induction false} SpaceEndAt(t: string, p: nat, blanks: string)
    requires HasAt(t, p, blanks) && forall i :: 0 <= i < |blanks| ==> IsSpace(blanks[i])
    requires p + |blanks| < |t| ==> !IsSpace(t[p + |blanks|])
    ensures SpaceEnd(t, p) == p + |blanks|
    decreases |blanks|
  {
    hide IsSpace;
    if blanks != "" {
      assert blanks == [blanks[0]] + blanks[1..];
      HasBoth(t, p, [blanks[0]], blanks[1..]);
      HasChar(t, p, blanks[0]);
      SpaceEndAt(t, p + 1, blanks[1..]);
    }
  }

  /** Where the parts of a numeral stand. */
  lemma NumeralParts(t: string, p: nat, n: Numeral)
    requires ValidNumeral(n) && HasAt(t, p, NumeralText(n))
    ensures var w := p + |n.blanks|;
            var d := w + |n.sign|;
            && HasAt(t, p, n.blanks) && HasAt(t, d, n.digits) && d < |t| && IsDigit(t[d]) && !IsSpace(t[w])
            && (n.sign == "-" <==> t[w] == '-') && (n.sign == "+" <==> t[w] == '+')
  {
    hide HasAt, IsSpace;
    var w := p + |n.blanks|;
    HasBoth(t, p, n.blanks, n.sign + n.digits);
    HasBoth(t, w, n.sign, n.digits);
    CharAt(t, w + |n.sign|, n.digits, 0);
    if n.sign != "" {
      CharAt(t, w, n.sign, 0);
    }
    NoSpace(t[w]);
  }

  lemma StrtolReads(t: string, p: nat, n: Numeral, e: nat)
    requires NumeralAt(t, p, n, e)
    ensures p < e <= |t| && Strtol(t, p) == (NumeralValue(n), e)
  {
    hide HasAt, IsSpace, ValueOf, SpaceEnd, DigitsEnd;
    NumeralParts(t, p, n);
    var d := p + |n.blanks| + |n.sign|;
    DigitsAt(t, d, n.digits, |n.digits|);
    DigitsEndAt(t, d, e);
    SpaceEndAt(t, p, n.blanks);
  }

  lemma NoSpace(c: char)
    ensures IsDigit(c) || c == '-' || c == '+' ==> !IsSpace(c)
  {
  }

  lemma NumeralDerives(t: string, p: nat) returns (n: Numeral)
    requires p <= |t| && Strtol(t, p).1 > p
    ensures NumeralAt(t, p, n, Strtol(t, p).1)
  {
    hide SpaceEnd, DigitsEnd, ValueOf, IsSpace, HasAt;
    var w, e := SpaceEnd(t, p), Strtol(t, p).1;
    var d := if w < |t| && (t[w] == '-' || t[w] == '+') then w + 1 else w;
    n := Numeral(t[p..w], t[w..d], t[d..e]);
    SpacesBefore(t, p);
    assert t[w..d] == if d == w then "" else [t[w]];
    SliceInTwo(t, w, d, e);
    SliceInTwo(t, p, w, e);
  }

  lemma {:induction false} SpacesBefore(t: string, p: nat)
    requires p <= |t|
    ensures forall i :: p <= i < SpaceEnd(t, p) ==> IsSpace(t[i])
    decreases |t| - p
  {
    if p < |t| && IsSpace(t[p]) {
      SpacesBefore(t, p + 1);
    }
  }

  /** One range of a list, and the comma and blanks behind it. */
  datatype Entry = Entry(low: Numeral, high: Option<Numeral>, comma: string, blanks: string)

  /** At most one comma, and then spaces and tabs as far as there are any. */
  predicate SeparatorAt(t: string, p: nat, comma: string, blanks: string, next: nat) {
    && comma in {"", ","} && HasAt(t, p, comma + blanks) && next == p + |comma + blanks|
    && (forall i :: 0 <= i < |blanks| ==> blanks[i] in {' ', TAB})
    && (next < |t| ==> t[next] != ' ' && t[next] != TAB)
    && (comma == "" && p < |t| ==> t[p] != ',')
  }

  /** An entry stands at p, its numbers end at e, and what is behind it at next. */
  predicate EntryAt(t: string, p: nat, x: Entry, m: nat, e: nat, next: nat) {
    && NumeralAt(t, p, x.low, m)
    && (if x.high.Some? then m < |t| && t[m] == '-' && NumeralAt(t, m + 1, x.high.value, e)
        else e == m && (m < |t| ==> t[m] != '-'))
    && SeparatorAt(t, e, x.comma, x.blanks, next)
  }

  /** No numeral stands at p. */
  ghost predicate NoNumeral(t: string, p: nat) {
    forall n, e :: !NumeralAt(t, p, n, e)
  }

  /** Nothing that parsing could go on with: no numeral, or one with a dash and no second one behind it. */
  ghost predicate NoEntry(t: string, p: nat) {
    NoNumeral(t, p)
    || exists n, m: nat :: NumeralAt(t, p, n, m) && m < |t| && t[m] == '-' && NoNumeral(t, m + 1)
  }

  /** The text from p on is the entries, and something that is no entry behind them. */
  ghost predicate Lists(t: string, p: nat, xs: seq<Entry>)
    decreases |xs|
  {
    if xs == [] then NoEntry(t, p)
    else exists m: nat, e: nat, next: nat :: EntryAt(t, p, xs[0], m, e, next) && Lists(t, next, xs[1..])
  }

  predicate ValidEntry(x: Entry) {
    ValidNumeral(x.low) && (x.high.Some? ==> ValidNumeral(x.high.value))
  }

  predicate ValidEntries(xs: seq<Entry>) {
    forall i :: 0 <= i < |xs| ==> ValidEntry(xs[i])
  }

  /** The CPUs of a range, of those there are and a CPU set can hold. */
  ghost function EntryCpus(x: Entry, ncpus: int): set<nat>
    requires ValidEntry(x)
  {
    var low, high := NumeralValue(x.low), NumeralValue(if x.high.Some? then x.high.value else x.low);
    set c: nat {:trigger Within(c, low, high)} | c < CPU_SETSIZE && c < ncpus && Within(c, low, high)
  }

  ghost function ListedCpus(xs: seq<Entry>, ncpus: int): set<nat>
    requires ValidEntries(xs)
  {
    if xs == [] then {} else EntryCpus(xs[0], ncpus) + ListedCpus(xs[1..], ncpus)
  }

  lemma NoNumeralIff(t: string, p: nat)
    requires p <= |t|
    ensures NoNumeral(t, p) <==> Strtol(t, p).1 == p
  {
    if Strtol(t, p).1 > p {
      var n := NumeralDerives(t, p);
    }
    hide Strtol, NumeralAt;
    forall n, e | NumeralAt(t, p, n, e)
      ensures Strtol(t, p).1 > p
    {
      StrtolReads(t, p, n, e);
    }
  }

  lemma NoEntryIff(t: string, p: nat)
    requires p <= |t|
    ensures NoEntry(t, p) <==> ItemAt(t, p).NoItem?
  {
    hide Strtol, NumeralAt, NoNumeral;
    NoNumeralIff(t, p);
    var m := Strtol(t, p).1;
    if m > p {
      var n := NumeralDerives(t, p);
      if m < |t| && t[m] == '-' {
        NoNumeralIff(t, m + 1);
      }
      forall n', m': nat | NumeralAt(t, p, n', m') && m' < |t| && t[m'] == '-' && NoNumeral(t, m' + 1)
        ensures m' == m
      {
        StrtolReads(t, p, n', m');
      }
    }
  }

  lemma {:induction false} BlanksEndAt(t: string, p: nat, blanks: string)
    requires HasAt(t, p, blanks) && forall i :: 0 <= i < |blanks| ==> blanks[i] in {' ', TAB}
    requires p + |blanks| < |t| ==> t[p + |blanks|] != ' ' && t[p + |blanks|] != TAB
    ensures BlanksEnd(t, p) == p + |blanks|
    decreases |blanks|
  {
    if blanks != "" {
      assert blanks == [blanks[0]] + blanks[1..];
      HasBoth(t, p, [blanks[0]], blanks[1..]);
      HasChar(t, p, blanks[0]);
      BlanksEndAt(t, p + 1, blanks[1..]);
    }
  }

  lemma SeparatorReads(t: string, p: nat, comma: string, blanks: string, next: nat)
    requires p <= |t| && SeparatorAt(t, p, comma, blanks, next)
    ensures SeparatorEnd(t, p) == next
  {
    hide HasAt;
    HasBoth(t, p, comma, blanks);
    if comma == "," {
      HasChar(t, p, ',');
      BlanksEndAt(t, p + 1, blanks);
    } else {
      BlanksEndAt(t, p, blanks);
    }
  }

  lemma EntryReads(t: string, p: nat, x: Entry, m: nat, e: nat, next: nat)
    requires EntryAt(t, p, x, m, e, next)
    ensures p <= |t| && ItemAt(t, p) == Item(NumeralValue(x.low),
                                             NumeralValue(if x.high.Some? then x.high.value else x.low), next)
  {
    hide NumeralAt, NumeralValue, Strtol, SeparatorAt;
    StrtolReads(t, p, x.low, m);
    if x.high.Some? {
      StrtolReads(t, m + 1, x.high.value, e);
    }
    SeparatorReads(t, e, x.comma, x.blanks, next);
  }

  /** Whatever a text lists is what parsing adds, clamped, up to the first thing that is no entry. */
  lemma {:induction false} ParseMeans(t: string, p: nat, xs: seq<Entry>, cpus: set<nat>, ncpus: int)
    requires p <= |t| && ValidEntries(xs) && Lists(t, p, xs)
    ensures ParseList(t, p, cpus, ncpus) == cpus + ListedCpus(xs, ncpus)
    decreases |xs|
  {
    hide EntryAt, NoEntry, ItemAt, ValidEntry;
    if xs == [] {
      NoEntryIff(t, p);
    } else {
      var m: nat, e: nat, next: nat :| EntryAt(t, p, xs[0], m, e, next) && Lists(t, next, xs[1..]);
      EntryReads(t, p, xs[0], m, e, next);
      var item := ItemAt(t, p);
      ParseMeans(t, next, xs[1..], cpus + Range(item.low, Lesser(item.high, ncpus - 1)), ncpus);
      EntryCpusAre(xs[0], ncpus, item.low, item.high);
    }
  }

  lemma EntryCpusAre(x: Entry, ncpus: int, low: int, high: int)
    requires ValidEntry(x) && low == NumeralValue(x.low)
    requires high == NumeralValue(if x.high.Some? then x.high.value else x.low)
    ensures Range(low, Lesser(high, ncpus - 1)) == EntryCpus(x, ncpus)
  {
    hide NumeralValue, ValidEntry;
    var most := Lesser(high, ncpus - 1);
    forall c: nat
      ensures c in Range(low, most) <==> c in EntryCpus(x, ncpus)
    {
      assert Within(c, low, most) <==> Within(c, low, high) && c < ncpus;
    }
  }

  /** Every text is a list of entries, perhaps none, and something that is no entry. */
  lemma {:induction false} EveryTextLists(t: string, p: nat) returns (xs: seq<Entry>)
    requires p <= |t|
    ensures ValidEntries(xs) && Lists(t, p, xs)
    decreases |t| - p
  {
    hide EntryAt, NoEntry;
    NoEntryIff(t, p);
    if ItemAt(t, p).NoItem? {
      xs := [];
    } else {
      var x, m, e := EntryDerives(t, p);
      var rest := EveryTextLists(t, ItemAt(t, p).end);
      xs := [x] + rest;
      assert xs[1..] == rest && EntryAt(t, p, xs[0], m, e, ItemAt(t, p).end);
    }
  }

  lemma EntryDerives(t: string, p: nat) returns (x: Entry, m: nat, e: nat)
    requires p <= |t| && ItemAt(t, p).Item?
    ensures ValidEntry(x) && EntryAt(t, p, x, m, e, ItemAt(t, p).end)
  {
    hide NumeralText, Strtol;
    m := Strtol(t, p).1;
    var low := NumeralDerives(t, p);
    var high := None;
    e := m;
    if m < |t| && t[m] == '-' {
      e := Strtol(t, m + 1).1;
      var n := NumeralDerives(t, m + 1);
      high := Some(n);
    }
    var comma, blanks := SeparatorDerives(t, e);
    x := Entry(low, high, comma, blanks);
  }

  lemma SeparatorDerives(t: string, p: nat) returns (comma: string, blanks: string)
    requires p <= |t|
    ensures SeparatorAt(t, p, comma, blanks, SeparatorEnd(t, p))
  {
    hide HasAt, BlanksEnd;
    comma := if p < |t| && t[p] == ',' then "," else "";
    var b, next := p + |comma|, SeparatorEnd(t, p);
    BlanksBefore(t, b);
    blanks := t[b..next];
    assert t[p..b] == comma;
    SliceInTwo(t, p, b, next);
  }

  lemma {:induction false} BlanksBefore(t: string, p: nat)
    requires p <= |t|
    ensures forall i :: p <= i < BlanksEnd(t, p) ==> t[i] in {' ', TAB}
    ensures BlanksEnd(t, p) < |t| ==> t[BlanksEnd(t, p)] !in {' ', TAB}
    decreases |t| - p
  {
    if p < |t| && (t[p] == ' ' || t[p] == '\t') {
      BlanksBefore(t, p + 1);
    }
  }

  // ---- affinity specifications ------------------------------------------------------------------

  datatype Spec = All | NoSmt | Thread(id: int) | Domain(id: int) | CoreType(id: int) | CpuSet(cpus: set<nat>)
                | Rejected

  /** (int) of a long: the low 32 bits, signed. */
  function AsInt(v: int): (i: int)
    ensures -0x8000_0000 <= i < 0x8000_0000 && (i - v) % 0x1_0000_0000 == 0
  {
    var low := v % 0x1_0000_0000;
    if low >= 0x8000_0000 then low - 0x1_0000_0000 else low
  }

  /** The id behind thread=, domain= or coretype=: a whole non-negative number. */
  function ParseId(s: string): (int, bool) {
    var (v, end) := Strtol(s, 0);
    if end == 0 || end < |s| || v < 0 then (0, false) else (AsInt(v), true)
  }

  /** An id is the whole of a text that is one numeral, and not negative; it is cut to the width of an int. */
  lemma IdMeans(s: string)
    ensures ParseId(s).1 <==> exists n :: NumeralAt(s, 0, n, |s|) && NumeralValue(n) >= 0
    ensures forall n {:trigger NumeralAt(s, 0, n, |s|)} ::
              NumeralAt(s, 0, n, |s|) && NumeralValue(n) >= 0 ==> ParseId(s).0 == AsInt(NumeralValue(n))
  {
    hide Strtol, NumeralText, NumeralValue, AsInt;
    forall n | NumeralAt(s, 0, n, |s|)
      ensures Strtol(s, 0) == (NumeralValue(n), |s|) && |s| > 0
    {
      StrtolReads(s, 0, n, |s|);
    }
    if ParseId(s).1 {
      var n := NumeralDerives(s, 0);
      assert NumeralAt(s, 0, n, |s|);
    }
  }

  /** affinity_parse_spec */
  method ParseSpec(arg: string) returns (spec: Spec)
    ensures "cpuset=" <= arg ==>
              var cpus := ParseList(arg[7..], 0, {}, CPU_SETSIZE);
              spec == if cpus == {} then Rejected else CpuSet(cpus)
    ensures "thread=" <= arg ==> spec == if ParseId(arg[7..]).1 then Thread(ParseId(arg[7..]).0) else Rejected
    ensures "domain=" <= arg ==> spec == if ParseId(arg[7..]).1 then Domain(ParseId(arg[7..]).0) else Rejected
    ensures "coretype=" <= arg ==> spec == if ParseId(arg[9..]).1 then CoreType(ParseId(arg[9..]).0) else Rejected
    ensures spec.All? <==> arg == "all"
    ensures spec.NoSmt? <==> arg == "nosmt"
    ensures (!("cpuset=" <= arg) && !("thread=" <= arg) && !("domain=" <= arg) && !("coretype=" <= arg)
             && arg != "all" && arg != "nosmt") ==> spec == Rejected
  {
    assert "thread=" <= arg ==> arg[0] == 't';
    assert "domain=" <= arg ==> arg[0] == 'd';
    assert "coretype=" <= arg ==> arg[0] == 'c' && arg[1] == 'o';
    assert "cpuset=" <= arg ==> arg[0] == 'c' && arg[1] == 'p';
    if arg == "" {
      return Rejected;
    }
    if arg == "all" {
      return All;
    } else if arg == "nosmt" {
      return NoSmt;
    } else if "thread=" <= arg {
      var (id, ok) := ParseId(arg[7..]);
      return if ok then Thread(id) else Rejected;
    } else if "domain=" <= arg {
      var (id, ok) := ParseId(arg[7..]);
      return if ok then Domain(id) else Rejected;
    } else if "coretype=" <= arg {
      var (id, ok) := ParseId(arg[9..]);
      return if ok then CoreType(id) else Rejected;
    } else if "cpuset=" <= arg {
      var cpus := ParseCpuListInto(arg[7..], {}, CPU_SETSIZE);
      if cpus == {} {
        return Rejected;
      }
      return CpuSet(cpus);
    }
    return Rejected;
  }

  /** A printed CPU set is accepted as a cpuset= specification exactly when it is not empty, and means itself. */
  method SpecOfPrinted(cpus: set<nat>, bufsize: nat) returns (spec: Spec)
    requires IsCpuSet(cpus) && |CpuListText(cpus, CPU_SETSIZE)| < bufsize
    ensures spec == if cpus == {} then Rejected else CpuSet(cpus)
  {
    var buf := FormatCpuSet(cpus, CPU_SETSIZE, bufsize);
    CpuListRoundTrip(cpus, CPU_SETSIZE, CPU_SETSIZE, {});
    var arg := "cpuset=" + buf;
    assert arg[7..] == buf;
    assert {} + Members(cpus, 0, CPU_SETSIZE) == cpus;
    spec := ParseSpec(arg);
  }
}
