/**
 Address histogram of a sampling event (symbol_sample.c): each sampled instruction pointer is found in, or appended
 to, a growing table of (address, count) rows.
 */
module SymbolSample {
  import opened PerfRing

  const INITIAL_CAPACITY := 64

  datatype AddrCount = AddrCount(addr: nat, count: nat)

  // ---- the table as a value ---------------------------------------------------------------------

  /** Index of the first row for addr; the number of rows if there is none. */
  function Find(rows: seq<AddrCount>, addr: nat, from: nat): (i: nat)
    requires from <= |rows|
    ensures from <= i <= |rows|
    decreases |rows| - from
  {
    if from == |rows| || rows[from].addr == addr then from else Find(rows, addr, from + 1)
  }

  /** The table after one more sample at addr. */
  function Tally(rows: seq<AddrCount>, addr: nat): seq<AddrCount> {
    var i := Find(rows, addr, 0);
    if i < |rows| then rows[i := AddrCount(addr, rows[i].count + 1)] else rows + [AddrCount(addr, 1)]
  }

  /** Table and skip count after the callback has seen some payloads. */
  datatype Totals = Totals(rows: seq<AddrCount>, skipped: nat)

  function Absorb(t: Totals, payload: seq<Byte>): Totals {
    if |payload| < 8 then t.(skipped := t.skipped + 1) else t.(rows := Tally(t.rows, Field(payload, 0, 8)))
  }

  function AbsorbAll(t: Totals, payloads: seq<seq<Byte>>, m: nat): Totals
    requires m <= |payloads|
  {
    if m == 0 then t else Absorb(AbsorbAll(t, payloads, m - 1), payloads[m - 1])
  }

  // ---- what the table says ----------------------------------------------------------------------

  ghost predicate Distinct(rows: seq<AddrCount>) {
    forall i, j :: 0 <= i < j < |rows| ==> rows[i].addr != rows[j].addr
  }

  /** The count recorded for an address; zero if it has no row. */
  function CountOf(rows: seq<AddrCount>, addr: nat): nat {
    var i := Find(rows, addr, 0);
    if i < |rows| then rows[i].count else 0
  }

  function SumOfCounts(rows: seq<AddrCount>, m: nat): nat
    requires m <= |rows|
  {
    if m == 0 then 0 else SumOfCounts(rows, m - 1) + rows[m - 1].count
  }

  /** A payload that begins with the eight bytes of addr is a sample there. */
  predicate IsAt(payload: seq<Byte>, addr: nat) {
    LittleEndian(addr, 8) <= payload
  }

  lemma FieldIsAt(payload: seq<Byte>, addr: nat)
    requires |payload| >= 8 && addr < Power256(8)
    ensures Field(payload, 0, 8) == addr <==> IsAt(payload, addr)
  {
    hide Field, LittleEndian;
    LittleEndianOfField(payload, 0, 8);
    assert payload[0..0 + 8] == payload[..8];
    if IsAt(payload, addr) {
      FieldOfLittleEndian(payload, 0, addr, 8);
    }
  }

  /** How many of the first m payloads are a sample at addr. */
  function Occurrences(payloads: seq<seq<Byte>>, addr: nat, m: nat): nat
    requires m <= |payloads|
  {
    if m == 0 then 0
    else Occurrences(payloads, addr, m - 1) + (if IsAt(payloads[m - 1], addr) then 1 else 0)
  }

  /** How many of the first m payloads are too short to hold an address. */
  function TooShort(payloads: seq<seq<Byte>>, m: nat): nat
    requires m <= |payloads|
  {
    if m == 0 then 0 else TooShort(payloads, m - 1) + (if |payloads[m - 1]| < 8 then 1 else 0)
  }

  lemma {:induction false} FindSpec(rows: seq<AddrCount>, addr: nat, from: nat)
    requires from <= |rows|
    ensures var i := Find(rows, addr, from);
            && (i < |rows| ==> rows[i].addr == addr)
            && forall j :: from <= j < i ==> rows[j].addr != addr
    decreases |rows| - from
  {
    if from < |rows| && rows[from].addr != addr {
      FindSpec(rows, addr, from + 1);
    }
  }

  lemma {:induction false} SumOfUpdated(rows: seq<AddrCount>, i: nat, row: AddrCount, m: nat)
    requires i < |rows| && m <= |rows|
    ensures SumOfCounts(rows[i := row], m)
            == SumOfCounts(rows, m) + (if i < m then row.count - rows[i].count else 0)
  {
    if m > 0 {
      SumOfUpdated(rows, i, row, m - 1);
    }
  }

  lemma {:induction false} SumOfPrefix(rows: seq<AddrCount>, row: AddrCount, m: nat)
    requires m <= |rows|
    ensures SumOfCounts(rows + [row], m) == SumOfCounts(rows, m)
  {
    if m > 0 {
      SumOfPrefix(rows, row, m - 1);
    }
  }

  lemma TallyCounts(rows: seq<AddrCount>, addr: nat, other: nat)
    requires Distinct(rows)
    ensures Distinct(Tally(rows, addr))
    ensures SumOfCounts(Tally(rows, addr), |Tally(rows, addr)|) == SumOfCounts(rows, |rows|) + 1
    ensures CountOf(Tally(rows, addr), other) == CountOf(rows, other) + (if other == addr then 1 else 0)
  {
    var i, after := Find(rows, addr, 0), Tally(rows, addr);
    FindSpec(rows, addr, 0);
    FindSpec(rows, other, 0);
    FindSpec(after, other, 0);
    if i < |rows| {
      assert forall k :: 0 <= k < |rows| ==> after[k].addr == rows[k].addr;
      SumOfUpdated(rows, i, AddrCount(addr, rows[i].count + 1), |rows|);
    } else {
      assert forall k :: 0 <= k < |rows| ==> after[k] == rows[k];
      SumOfPrefix(rows, AddrCount(addr, 1), |rows|);
    }
  }

  /**
   Conservation: whatever payloads arrive, addresses stay distinct, each count is the number of samples at that
   address, and counts plus skips add up to the number of payloads.
   */
  lemma {:induction false} CountsAreOccurrences(payloads: seq<seq<Byte>>, m: nat, addr: nat)
    requires m <= |payloads| && addr < Power256(8)
    ensures var t := AbsorbAll(Totals([], 0), payloads, m);
            && Distinct(t.rows)
            && CountOf(t.rows, addr) == Occurrences(payloads, addr, m)
            && t.skipped == TooShort(payloads, m)
            && SumOfCounts(t.rows, |t.rows|) + t.skipped == m
  {
    hide Field, LittleEndian;
    if m > 0 {
      CountsAreOccurrences(payloads, m - 1, addr);
      var t, p := AbsorbAll(Totals([], 0), payloads, m - 1), payloads[m - 1];
      if |p| >= 8 {
        FieldIsAt(p, addr);
        TallyCounts(t.rows, Field(p, 0, 8), addr);
      }
    }
  }

  // ---- the state the program updates ------------------------------------------------------------

  class State {
    var ring: Ring?
    var drained: bool
    var samplesSeen: nat
    var samplesLost: nat
    var decodeSkipped: nat
    var addrs: array<AddrCount>
    var naddrs: nat

    ghost predicate Valid()
      reads this
    {
      && naddrs <= addrs.Length
      && (ring != null ==> ring.data.Length >= MAX_PAYLOAD)
    }

    /** The rows in use. */
    ghost function Rows(): seq<AddrCount>
      requires Valid()
      reads this, addrs
    {
      addrs[..naddrs]
    }

    constructor (ring: Ring?)
      requires ring != null ==> ring.data.Length >= MAX_PAYLOAD
      ensures Valid() && fresh(addrs) && Rows() == [] && this.ring == ring
      ensures !drained && samplesSeen == samplesLost == decodeSkipped == 0
    {
      this.ring := ring;
      drained, samplesSeen, samplesLost, decodeSkipped := false, 0, 0, 0;
      addrs := new AddrCount[INITIAL_CAPACITY](_ => AddrCount(0, 0));
      naddrs := 0;
    }

    /** A copy of the rows in use, in a table of the given capacity. */
    method Grown(capacity: nat) returns (grown: array<AddrCount>)
      requires Valid() && naddrs <= capacity
      ensures fresh(grown) && grown.Length == capacity && grown[..naddrs] == Rows()
    {
      grown := new AddrCount[capacity](_ => AddrCount(0, 0));
      for i := 0 to naddrs
        invariant forall j :: 0 <= j < i ==> grown[j] == addrs[j]
      {
        grown[i] := addrs[i];
      }
    }

    /** Make room for a row by doubling the table when it is full. */
    method Reserve()
      requires Valid()
      modifies this`addrs
      ensures Valid() && Rows() == old(Rows()) && naddrs < addrs.Length
      ensures addrs == old(addrs) || fresh(addrs)
    {
      if naddrs == addrs.Length {
        addrs := Grown(if addrs.Length > 0 then addrs.Length * 2 else INITIAL_CAPACITY);
      }
    }

    method RecordAddr(addr: nat)
      requires Valid()
      modifies this`addrs, this`naddrs, addrs
      ensures Valid() && Rows() == Tally(old(Rows()), addr)
      ensures addrs == old(addrs) || fresh(addrs)
    {
      ghost var rows := Rows();
      var i := 0;
      while i < naddrs
        invariant i <= naddrs && Find(rows, addr, 0) == Find(rows, addr, i)
      {
        if addrs[i].addr == addr {
          addrs[i] := AddrCount(addr, addrs[i].count + 1);
          return;
        }
        i := i + 1;
      }
      Reserve();
      addrs[naddrs] := AddrCount(addr, 1);
      naddrs := naddrs + 1;
      assert addrs[..naddrs] == rows + [AddrCount(addr, 1)];
    }

    /** The callback of the drain: one payload is one instruction pointer. */
    method RecordCb(payload: seq<Byte>)
      requires Valid()
      modifies this`addrs, this`naddrs, this`decodeSkipped, addrs
      ensures Valid() && Totals(Rows(), decodeSkipped) == Absorb(old(Totals(Rows(), decodeSkipped)), payload)
      ensures addrs == old(addrs) || fresh(addrs)
    {
      if |payload| < 8 {
        decodeSkipped := decodeSkipped + 1;
        return;
      }
      RecordAddr(Field(payload, 0, 8));
    }

    method RecordEach(payloads: seq<seq<Byte>>)
      requires Valid()
      modifies this`addrs, this`naddrs, this`decodeSkipped, addrs
      ensures Valid()
      ensures Totals(Rows(), decodeSkipped) == AbsorbAll(old(Totals(Rows(), decodeSkipped)), payloads, |payloads|)
      ensures addrs == old(addrs) || fresh(addrs)
    {
      for i := 0 to |payloads|
        invariant Valid() && (addrs == old(addrs) || fresh(addrs))
        invariant Totals(Rows(), decodeSkipped) == AbsorbAll(old(Totals(Rows(), decodeSkipped)), payloads, i)
      {
        RecordCb(payloads[i]);
      }
    }

    /** symbol_sample_drain: takes effect once per state; a later call changes nothing. */
    method Drain()
      requires Valid()
      modifies this, addrs, if ring == null then {} else {ring}
      ensures Valid() && ring == old(ring)
      ensures old(ring == null || drained) ==>
                unchanged(this) && unchanged(addrs) && (ring != null ==> unchanged(ring))
      ensures old(ring != null && !drained) ==>
                var d := Scan(ring.data[..], old(ring.head), Drained([], old(samplesLost), old(ring.tail)));
                && drained
                && ring.tail == d.cursor && samplesLost == d.lost && samplesSeen == |d.payloads|
                && Totals(Rows(), decodeSkipped)
                   == AbsorbAll(old(Totals(Rows(), decodeSkipped)), d.payloads, |d.payloads|)
    {
      if ring == null || drained {
        return;
      }
      drained := true;
      var payloads, lost, seen := ring.Drain(samplesLost);
      RecordEach(payloads);
      samplesSeen, samplesLost := seen, lost;
    }
  }

  /**
   End to end: after any writes by the kernel, draining a fresh state leaves exactly one row per sampled address, with
   the number of published samples at that address, and samples seen equal recorded ones plus skipped ones.
   */
  lemma HistogramOfRun(data: seq<Byte>, events: seq<Event>, addr: nat)
    requires addr < Power256(8)
    requires data != [] && Run(data, events).Some?
    requires var w := Run(data, events).value; w.reader.Idle? && w.taken == 0
    ensures var w := Run(data, events).value;
            var d := Scan(w.data, w.head, Drained([], 0, w.tail));
            var t := AbsorbAll(Totals([], 0), d.payloads, |d.payloads|);
            && d.payloads == Payloads(w.published, |w.published|)
            && Distinct(t.rows)
            && CountOf(t.rows, addr) == Occurrences(d.payloads, addr, |d.payloads|)
            && |d.payloads| == SumOfCounts(t.rows, |t.rows|) + t.skipped
            && d.lost == LostTotal(w.published, |w.published|) && d.cursor == w.head
  {
    FirstDrainDeliversAll(data, events);
    var w := Run(data, events).value;
    CountsAreOccurrences(Payloads(w.published, |w.published|), |Payloads(w.published, |w.published|)|, addr);
  }
}
