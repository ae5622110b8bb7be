/**
 Decoding AMD IBS samples into aggregate counts (ibs_sample.c). A payload is a 32-bit raw size, a 32-bit capability
 word and a run of 64-bit registers; the raw size covers the capability word and the registers.
 */
module IbsSample {
  import opened PerfRing

  const MAX_WORDS := 16
  const DATA_SRC_TABLE_SIZE := 13
  const DRAM := 3

  /** The register words of a payload that can be decoded; empty when it is too short for any. */
  function Words(payload: seq<Byte>): (ws: seq<nat>)
    ensures |ws| <= MAX_WORDS
  {
    var rawSize := if |payload| >= 4 then Field(payload, 0, 4) else 0;
    if rawSize > 4 && |payload| > 8 then
      var n := Min((rawSize - 4) / 8, (|payload| - 8) / 8);
      WordsFrom(payload, Min(n, MAX_WORDS))
    else []
  }

  function WordsFrom(payload: seq<Byte>, n: nat): (ws: seq<nat>)
    requires 8 + 8 * n <= |payload|
    ensures |ws| == n
  {
    if n == 0 then [] else WordsFrom(payload, n - 1) + [Field(payload, 8 * n, 8)]
  }

  /** Registers as the kernel lays them out. */
  function WordBytes(ws: seq<nat>, n: nat): (bs: seq<Byte>)
    requires n <= |ws|
    ensures |bs| == 8 * n
  {
    if n == 0 then [] else WordBytes(ws, n - 1) + LittleEndian(ws[n - 1], 8)
  }

  /** A raw record: its size, which may cover a few bytes more than the registers, the capabilities, the registers. */
  function RawRecord(slack: nat, caps: nat, ws: seq<nat>, rest: seq<Byte>): seq<Byte> {
    LittleEndian(4 + 8 * |ws| + slack, 4) + LittleEndian(caps, 4) + WordBytes(ws, |ws|) + rest
  }

  lemma {:induction false} WordBytesAt(ws: seq<nat>, n: nat, i: nat)
    requires i < n <= |ws|
    ensures WordBytes(ws, n)[8 * i..8 * i + 8] == LittleEndian(ws[i], 8)
  {
    if i < n - 1 {
      WordBytesAt(ws, n - 1, i);
      assert WordBytes(ws, n)[8 * i..8 * i + 8] == WordBytes(ws, n - 1)[8 * i..8 * i + 8];
    }
  }

  lemma {:induction false} WordsFromRaw(payload: seq<Byte>, slack: nat, caps: nat, ws: seq<nat>, rest: seq<Byte>,
                                        n: nat)
    requires payload <= RawRecord(slack, caps, ws, rest) && 8 + 8 * n <= |payload| && n <= |ws|
    requires forall w :: w in ws ==> w < Power256(8)
    ensures WordsFrom(payload, n) == ws[..n]
  {
    hide LittleEndian, Field, WordBytes, Power256;
    if n > 0 {
      WordsFromRaw(payload, slack, caps, ws, rest, n - 1);
      WordBytesAt(ws, |ws|, n - 1);
      assert payload[8 * n..8 * n + 8] == WordBytes(ws, |ws|)[8 * (n - 1)..8 * (n - 1) + 8];
      assert ws[n - 1] in ws;
      FieldOfLittleEndian(payload, 8 * n, ws[n - 1], 8);
    }
  }

  /** Of a raw record, cut anywhere, the registers that are there in full are read back, up to sixteen of them. */
  lemma WordsOfRaw(payload: seq<Byte>, slack: nat, caps: nat, ws: seq<nat>, rest: seq<Byte>)
    requires payload <= RawRecord(slack, caps, ws, rest) && slack < 8 && 4 + 8 * |ws| + slack < Power256(4)
    requires forall w :: w in ws ==> w < Power256(8)
    ensures Words(payload) == if |payload| < 8 then [] else ws[..Min(Min(|ws|, (|payload| - 8) / 8), MAX_WORDS)]
  {
    hide LittleEndian, Field, WordBytes, Power256, WordsFrom;
    if |payload| >= 8 {
      var n := Min(Min(|ws|, (|payload| - 8) / 8), MAX_WORDS);
      WordsFromRaw(payload, slack, caps, ws, rest, n);
      assert payload[0..0 + 4] == LittleEndian(4 + 8 * |ws| + slack, 4);
      FieldOfLittleEndian(payload, 0, 4 + 8 * |ws| + slack, 4);
    }
  }

  /** The words of the first m payloads, one list a payload. */
  function AllWords(payloads: seq<seq<Byte>>, m: nat): (records: seq<seq<nat>>)
    requires m <= |payloads|
    ensures |records| == m
  {
    if m == 0 then [] else AllWords(payloads, m - 1) + [Words(payloads[m - 1])]
  }

  /** Copy out the register words that are present. */
  method Extract(payload: seq<Byte>) returns (words: seq<nat>)
    ensures words == Words(payload)
  {
    var rawSize := 0;
    if |payload| >= 4 {
      rawSize := Field(payload, 0, 4);
    }
    if rawSize > 4 && |payload| > 8 {
      var nwords, availWords := (rawSize - 4) / 8, (|payload| - 8) / 8;
      if nwords > availWords {
        nwords := availWords;
      }
      if nwords > 0 {
        return WordsFrom(payload, if nwords > MAX_WORDS then MAX_WORDS else nwords);
      }
    }
    return [];
  }

  // ---- what one decoded record says -------------------------------------------------------------

  function Power2(k: nat): (r: nat)
    ensures r > 0
  {
    if k == 0 then 1 else 2 * Power2(k - 1)
  }

  /** Bit k of a register word. */
  predicate Bit(w: nat, k: nat) {
    (w / Power2(k)) % 2 == 1
  }

  /** Data-source index: bits 6-7 of IbsOpData2 above bits 0-2. */
  function DataSource(w: nat): (src: nat)
    ensures src < 32
  {
    (w / 64) % 4 * 8 + w % 8
  }

  /** Bit takes the binary digit of that place. */
  lemma BitIs(w: nat, k: nat, above: nat, b: nat, below: nat)
    requires b < 2 && below < Power2(k) && w == (2 * above + b) * Power2(k) + below
    ensures Bit(w, k) <==> b == 1
  {
    QuotientUnique(w, Power2(k), 2 * above + b, below);
  }

  lemma SmallPowers()
    ensures Power2(0) == 1 && Power2(1) == 2 && Power2(2) == 4 && Power2(3) == 8 && Power2(4) == 16
    ensures Power2(5) == 32 && Power2(6) == 64 && Power2(7) == 128
  {
  }

  lemma {:induction false} Power2Sum(k: nat, j: nat)
    ensures Power2(k + j) == Power2(k) * Power2(j)
  {
    if k > 0 {
      Power2Sum(k - 1, j);
      assert Power2(k + j) == 2 * Power2(k - 1 + j);
    }
  }

  /** Without its k lowest bits, a word has its other bits k places lower. */
  lemma ShiftedBit(w: nat, k: nat, j: nat, q: nat, below: nat)
    requires below < Power2(k) && w == q * Power2(k) + below
    ensures Bit(w, k + j) <==> Bit(q, j)
  {
    hide Power2;
    Power2Sum(k, j);
    QuotientUnique(w, Power2(k), q, below);
    DivideTwice(w, Power2(k), Power2(j));
  }

  /** DataSource puts two bits, taken from behind the remote-node bits, in front of the lowest three. */
  lemma DataSourceIs(w: nat, above: nat, high: nat, middle: nat, low: nat)
    requires high < 4 && middle < 8 && low < 8 && w == 256 * above + 64 * high + 8 * middle + low
    ensures DataSource(w) == 8 * high + low
  {
    QuotientUnique(w, 64, 4 * above + high, 8 * middle + low);
    RemainderUnique(4 * above + high, 4, above, high);
    RemainderUnique(w, 8, 32 * above + 8 * high + middle, low);
  }

  /** Properties of a decoded record that are counted, named after the state's fields. */
  datatype Property =
    | Decoded          // any record with at least one word
    | BrnRet           // IbsOpData bit 37: a branch retired
    | BrnMisp          // bit 36 of a retired branch: it was mispredicted
    | DcMiss           // IbsOpData3 bit 7
    | L1TlbMiss        // IbsOpData3 bit 2
    | L2TlbMiss        // IbsOpData3 bit 3
    | HasSource        // long enough for IbsOpData2
    | RemoteNode       // IbsOpData2 bit 4
    | Source(src: nat) // this data-source index
    | OtherSource      // a data-source index beyond the table
    | FetchIcMiss      // IbsFetchCtl bit 51
    | FetchL1TlbMiss   // IbsFetchCtl bit 55
    | FetchL2TlbMiss   // IbsFetchCtl bit 56

  predicate Holds(p: Property, ws: seq<nat>)
    requires ws != []
  {
    match p
    case Decoded => true
    case BrnRet => |ws| > 2 && Bit(ws[2], 37)
    case BrnMisp => |ws| > 2 && Bit(ws[2], 37) && Bit(ws[2], 36)
    case DcMiss => |ws| > 4 && Bit(ws[4], 7)
    case L1TlbMiss => |ws| > 4 && Bit(ws[4], 2)
    case L2TlbMiss => |ws| > 4 && Bit(ws[4], 3)
    case HasSource => |ws| > 3
    case RemoteNode => |ws| > 3 && Bit(ws[3], 4)
    case Source(src) => |ws| > 3 && DataSource(ws[3]) == src
    case OtherSource => |ws| > 3 && DataSource(ws[3]) >= DATA_SRC_TABLE_SIZE
    case FetchIcMiss => Bit(ws[0], 51)
    case FetchL1TlbMiss => Bit(ws[0], 55)
    case FetchL2TlbMiss => Bit(ws[0], 56)
  }

  /** IbsOpData: bit 37 tells whether a branch retired, and if so bit 36 whether it was mispredicted. */
  lemma BranchBits(ws: seq<nat>, above: nat, retired: nat, mispredicted: nat, below: nat)
    requires |ws| > 2 && retired < 2 && mispredicted < 2 && below < Power2(36)
    requires ws[2] == (4 * above + 2 * retired + mispredicted) * Power2(36) + below
    ensures Holds(BrnRet, ws) <==> retired == 1
    ensures Holds(BrnMisp, ws) <==> retired == 1 && mispredicted == 1
  {
    hide Bit, Power2;
    var q := 4 * above + 2 * retired + mispredicted;
    ShiftedBit(ws[2], 36, 1, q, below);
    ShiftedBit(ws[2], 36, 0, q, below);
    SmallPowers();
    BitIs(q, 1, above, retired, mispredicted);
    BitIs(q, 0, 2 * above + retired, mispredicted, 0);
  }

  /** IbsOpData2: two bits of the data source, an unused one, the remote-node bit, another unused one, the low bits. */
  lemma SourceBits(ws: seq<nat>, above: nat, high: nat, x: nat, remote: nat, y: nat, low: nat)
    requires |ws| > 3 && high < 4 && x < 2 && remote < 2 && y < 2 && low < 8
    requires ws[3] == 256 * above + 64 * high + 32 * x + 16 * remote + 8 * y + low
    ensures Holds(RemoteNode, ws) <==> remote == 1
    ensures forall src :: Holds(Source(src), ws) <==> src == 8 * high + low
    ensures Holds(OtherSource, ws) <==> 8 * high + low > 12
  {
    hide Bit, Power2, DataSource;
    SmallPowers();
    BitIs(ws[3], 4, 8 * above + 2 * high + x, remote, 8 * y + low);
    DataSourceIs(ws[3], above, high, 4 * x + 2 * remote + y, low);
  }

  /** IbsOpData3: the bits of a data-cache miss and of misses in either level of its TLB. */
  lemma DataCacheBits(ws: seq<nat>, above: nat, miss: nat, middle: nat, l2: nat, l1: nat, below: nat)
    requires |ws| > 4 && miss < 2 && middle < 8 && l2 < 2 && l1 < 2 && below < 4
    requires ws[4] == 256 * above + 128 * miss + 16 * middle + 8 * l2 + 4 * l1 + below
    ensures Holds(DcMiss, ws) <==> miss == 1
    ensures Holds(L1TlbMiss, ws) <==> l1 == 1
    ensures Holds(L2TlbMiss, ws) <==> l2 == 1
  {
    hide Bit, Power2;
    SmallPowers();
    BitIs(ws[4], 7, above, miss, middle * 16 + l2 * 8 + l1 * 4 + below);
    BitIs(ws[4], 3, above * 16 + miss * 8 + middle, l2, l1 * 4 + below);
    BitIs(ws[4], 2, above * 32 + miss * 16 + middle * 2 + l2, l1, below);
  }

  /** IbsFetchCtl: the bits of an instruction-cache miss and of misses in either level of its TLB. */
  lemma FetchBits(ws: seq<nat>, above: nat, l2: nat, l1: nat, middle: nat, miss: nat, below: nat)
    requires ws != [] && l2 < 2 && l1 < 2 && middle < 8 && miss < 2 && below < Power2(51)
    requires ws[0] == (64 * above + 32 * l2 + 16 * l1 + 2 * middle + miss) * Power2(51) + below
    ensures Holds(FetchIcMiss, ws) <==> miss == 1
    ensures Holds(FetchL1TlbMiss, ws) <==> l1 == 1
    ensures Holds(FetchL2TlbMiss, ws) <==> l2 == 1
  {
    hide Bit, Power2;
    var q := 64 * above + 32 * l2 + 16 * l1 + 2 * middle + miss;
    ShiftedBit(ws[0], 51, 0, q, below);
    ShiftedBit(ws[0], 51, 4, q, below);
    ShiftedBit(ws[0], 51, 5, q, below);
    SmallPowers();
    BitIs(q, 0, 32 * above + 16 * l2 + 8 * l1 + middle, miss, 0);
    BitIs(q, 4, 2 * above + l2, l1, 2 * middle + miss);
    BitIs(q, 5, above, l2, 16 * l1 + 2 * middle + miss);
  }

  /** What a record is too short for it does not say. */
  lemma ShortRecords(ws: seq<nat>, src: nat)
    requires ws != []
    ensures |ws| <= 2 ==> !Holds(BrnRet, ws) && !Holds(BrnMisp, ws)
    ensures |ws| <= 3 ==> !Holds(RemoteNode, ws) && !Holds(Source(src), ws) && !Holds(OtherSource, ws)
    ensures |ws| <= 4 ==> !Holds(DcMiss, ws) && !Holds(L1TlbMiss, ws) && !Holds(L2TlbMiss, ws)
  {
  }

  function One(p: Property, ws: seq<nat>): nat
    requires ws != []
  {
    if Holds(p, ws) then 1 else 0
  }

  // ---- counting over records --------------------------------------------------------------------

  /** How many of the first m records have property p; an empty one is a payload that could not be decoded. */
  function HowMany(records: seq<seq<nat>>, m: nat, p: Property): nat
    requires m <= |records|
  {
    if m == 0 then 0
    else
      var ws := records[m - 1];
      HowMany(records, m - 1, p) + (if ws == [] then 0 else One(p, ws))
  }

  /** How many of the first m payloads could not be decoded at all. */
  function Undecodable(records: seq<seq<nat>>, m: nat): nat
    requires m <= |records|
  {
    if m == 0 then 0 else Undecodable(records, m - 1) + (if records[m - 1] == [] then 1 else 0)
  }

  lemma {:induction false} DecodedOrNot(records: seq<seq<nat>>, m: nat)
    requires m <= |records|
    ensures HowMany(records, m, Decoded) + Undecodable(records, m) == m
  {
    if m > 0 {
      DecodedOrNot(records, m - 1);
    }
  }

  /** Mispredicts are among branch retires, which are among decoded ops. */
  lemma {:induction false} BranchOrder(records: seq<seq<nat>>, m: nat)
    requires m <= |records|
    ensures HowMany(records, m, BrnMisp) <= HowMany(records, m, BrnRet) <= HowMany(records, m, Decoded)
  {
    if m > 0 {
      BranchOrder(records, m - 1);
    }
  }

  /** Sum of the histogram slots below n. */
  function SourcesBelow(records: seq<seq<nat>>, m: nat, n: nat): nat
    requires m <= |records|
  {
    if n == 0 then 0 else SourcesBelow(records, m, n - 1) + HowMany(records, m, Source(n - 1))
  }

  lemma {:induction false} SourcesBelowNext(records: seq<seq<nat>>, m: nat, n: nat)
    requires m < |records|
    ensures var ws := records[m];
            SourcesBelow(records, m + 1, n)
            == SourcesBelow(records, m, n) + (if |ws| > 3 && DataSource(ws[3]) < n then 1 else 0)
  {
    if n > 0 {
      SourcesBelowNext(records, m, n - 1);
    }
  }

  lemma {:induction false} NoSourcesYet(records: seq<seq<nat>>, n: nat)
    ensures SourcesBelow(records, 0, n) == 0
  {
    if n > 0 {
      NoSourcesYet(records, n - 1);
    }
  }

  /** Histogram and overflow together count the records with at least four words. */
  lemma {:induction false} HistogramComplete(records: seq<seq<nat>>, m: nat)
    requires m <= |records|
    ensures SourcesBelow(records, m, DATA_SRC_TABLE_SIZE) + HowMany(records, m, OtherSource)
            == HowMany(records, m, HasSource)
  {
    if m == 0 {
      NoSourcesYet(records, DATA_SRC_TABLE_SIZE);
    } else {
      HistogramComplete(records, m - 1);
      SourcesBelowNext(records, m - 1, DATA_SRC_TABLE_SIZE);
    }
  }

  // ---- the state the program updates ------------------------------------------------------------

  class State {
    const isOp: bool
    const ring: Ring?
    const opDataSrcCount: array<nat>
    var drained: bool
    var samplesSeen: nat
    var samplesLost: nat
    var decodeSkipped: nat
    var opCount: nat
    var opBrnRetCount: nat
    var opBrnMispCount: nat
    var opDcMissCount: nat
    var opDcL1TlbMissCount: nat
    var opDcL2TlbMissCount: nat
    var opDramCount: nat
    var opRemoteNodeCount: nat
    var opDataSrcOtherCount: nat
    var fetchCount: nat
    var fetchIcMissCount: nat
    var fetchL1TlbMissCount: nat
    var fetchL2TlbMissCount: nat

    ghost predicate Valid() {
      opDataSrcCount.Length == DATA_SRC_TABLE_SIZE && (ring != null ==> ring.data.Length >= MAX_PAYLOAD)
    }

    /** Every field that counts a property is the number of records given that have it. */
    ghost predicate Counts(records: seq<seq<nat>>)
      reads this, opDataSrcCount
      requires Valid()
    {
      var n := |records|;
      && decodeSkipped == Undecodable(records, n)
      && (if isOp then OpCounts(records) else FetchCounts(records))
    }

    ghost predicate OpCounts(records: seq<seq<nat>>)
      reads this, opDataSrcCount
      requires Valid()
    {
      && opCount == HowMany(records, |records|, Decoded)
      && BranchCounts(records) && DataCacheCounts(records) && SourceCounts(records)
      && fetchCount == fetchIcMissCount == fetchL1TlbMissCount == fetchL2TlbMissCount == 0
    }

    ghost predicate BranchCounts(records: seq<seq<nat>>)
      reads this`opBrnRetCount, this`opBrnMispCount
    {
      && opBrnRetCount == HowMany(records, |records|, BrnRet)
      && opBrnMispCount == HowMany(records, |records|, BrnMisp)
    }

    ghost predicate DataCacheCounts(records: seq<seq<nat>>)
      reads this`opDcMissCount, this`opDcL1TlbMissCount, this`opDcL2TlbMissCount
    {
      && opDcMissCount == HowMany(records, |records|, DcMiss)
      && opDcL1TlbMissCount == HowMany(records, |records|, L1TlbMiss)
      && opDcL2TlbMissCount == HowMany(records, |records|, L2TlbMiss)
    }

    ghost predicate SourceCounts(records: seq<seq<nat>>)
      reads this`opRemoteNodeCount, this`opDramCount, this`opDataSrcOtherCount, opDataSrcCount
      requires Valid()
    {
      && opDramCount == HowMany(records, |records|, Source(DRAM))
      && opRemoteNodeCount == HowMany(records, |records|, RemoteNode)
      && opDataSrcOtherCount == HowMany(records, |records|, OtherSource)
      && (forall s :: 0 <= s < DATA_SRC_TABLE_SIZE ==> opDataSrcCount[s] == HowMany(records, |records|, Source(s)))
    }

    ghost predicate FetchCounts(records: seq<seq<nat>>)
      reads this, opDataSrcCount
      requires Valid()
    {
      var n := |records|;
      && fetchCount == HowMany(records, n, Decoded)
      && fetchIcMissCount == HowMany(records, n, FetchIcMiss)
      && fetchL1TlbMissCount == HowMany(records, n, FetchL1TlbMiss)
      && fetchL2TlbMissCount == HowMany(records, n, FetchL2TlbMiss)
      && opCount == opBrnRetCount == opBrnMispCount == opDcMissCount == opDcL1TlbMissCount == opDcL2TlbMissCount == 0
      && opDramCount == opRemoteNodeCount == opDataSrcOtherCount == 0
      && forall s :: 0 <= s < DATA_SRC_TABLE_SIZE ==> opDataSrcCount[s] == 0
    }

    /** Sum of the histogram slots below n. */
    ghost function SlotsBelow(n: nat): nat
      requires Valid() && n <= DATA_SRC_TABLE_SIZE
      reads opDataSrcCount
    {
      if n == 0 then 0 else SlotsBelow(n - 1) + opDataSrcCount[n - 1]
    }

    /**
     What the fields of an op state say of each other and of the records: samples seen are ops plus skips, mispredicts
     are among branch retires and those among ops, the DRAM count is slot 3 of the histogram, and the histogram with
     its overflow counts the records long enough to name a source.
     */
    ghost predicate Conserved(records: seq<seq<nat>>)
      requires Valid()
      reads this, opDataSrcCount
    {
      && samplesSeen == opCount + decodeSkipped == |records|
      && opBrnMispCount <= opBrnRetCount <= opCount
      && opDramCount == opDataSrcCount[DRAM]
      && SlotsBelow(DATA_SRC_TABLE_SIZE) + opDataSrcOtherCount == HowMany(records, |records|, HasSource)
    }

    lemma {:induction false} SlotsAreSources(records: seq<seq<nat>>, n: nat)
      requires Valid() && SourceCounts(records) && n <= DATA_SRC_TABLE_SIZE
      ensures SlotsBelow(n) == SourcesBelow(records, |records|, n)
    {
      if n > 0 {
        SlotsAreSources(records, n - 1);
      }
    }

    /** Counters that count records conserve them. */
    lemma CountsAreConserved(records: seq<seq<nat>>)
      requires Valid() && isOp && Counts(records) && samplesSeen == |records|
      ensures Conserved(records)
    {
      OpConservation(records);
      SlotsAreSources(records, DATA_SRC_TABLE_SIZE);
    }

    constructor (isOp: bool, ring: Ring?)
      requires ring != null ==> ring.data.Length >= MAX_PAYLOAD
      ensures Valid() && this.isOp == isOp && this.ring == ring && fresh(opDataSrcCount)
      ensures !drained && samplesSeen == samplesLost == 0 && Counts([])
    {
      this.isOp, this.ring := isOp, ring;
      opDataSrcCount := new nat[DATA_SRC_TABLE_SIZE](_ => 0);
      drained, samplesSeen, samplesLost, decodeSkipped := false, 0, 0, 0;
      opCount, opBrnRetCount, opBrnMispCount, opDcMissCount, opDcL1TlbMissCount, opDcL2TlbMissCount := 0, 0, 0, 0, 0, 0;
      opDramCount, opRemoteNodeCount, opDataSrcOtherCount := 0, 0, 0;
      fetchCount, fetchIcMissCount, fetchL1TlbMissCount, fetchL2TlbMissCount := 0, 0, 0, 0;
    }

    /** The branch part of ibs_sample_decode_op. */
    method DecodeBranch(words: seq<nat>, ghost records: seq<seq<nat>>)
      requires words != [] && BranchCounts(records)
      modifies this`opBrnRetCount, this`opBrnMispCount
      ensures BranchCounts(records + [words])
    {
      hide Bit;
      if |words| > 2 {
        if Bit(words[2], 37) {
          opBrnRetCount := opBrnRetCount + 1;
          if Bit(words[2], 36) {
            opBrnMispCount := opBrnMispCount + 1;
          }
        }
      }
      CountsNext(records, words, BrnRet);
      CountsNext(records, words, BrnMisp);
    }

    /** The data-cache part of ibs_sample_decode_op. */
    method DecodeDataCache(words: seq<nat>, ghost records: seq<seq<nat>>)
      requires words != [] && DataCacheCounts(records)
      modifies this`opDcMissCount, this`opDcL1TlbMissCount, this`opDcL2TlbMissCount
      ensures DataCacheCounts(records + [words])
    {
      hide Bit;
      if |words| > 4 {
        if Bit(words[4], 7) { opDcMissCount := opDcMissCount + 1; }
        if Bit(words[4], 2) { opDcL1TlbMissCount := opDcL1TlbMissCount + 1; }
        if Bit(words[4], 3) { opDcL2TlbMissCount := opDcL2TlbMissCount + 1; }
      }
      CountsNext(records, words, DcMiss);
      CountsNext(records, words, L1TlbMiss);
      CountsNext(records, words, L2TlbMiss);
    }

    /** The data-source part of ibs_sample_decode_op. */
    method DecodeSource(words: seq<nat>, ghost records: seq<seq<nat>>)
      requires Valid() && words != [] && SourceCounts(records)
      modifies this`opRemoteNodeCount, this`opDramCount, this`opDataSrcOtherCount, opDataSrcCount
      ensures SourceCounts(records + [words])
    {
      hide Bit;
      if |words| > 3 {
        var dataSrc := DataSource(words[3]);
        if Bit(words[3], 4) { opRemoteNodeCount := opRemoteNodeCount + 1; }
        if dataSrc == DRAM { opDramCount := opDramCount + 1; }
        if dataSrc < DATA_SRC_TABLE_SIZE {
          opDataSrcCount[dataSrc] := opDataSrcCount[dataSrc] + 1;
        } else {
          opDataSrcOtherCount := opDataSrcOtherCount + 1;
        }
      }
      CountsNext(records, words, RemoteNode);
      CountsNext(records, words, OtherSource);
      CountsNext(records, words, Source(DRAM));
      forall s: nat | s < DATA_SRC_TABLE_SIZE
        ensures opDataSrcCount[s] == HowMany(records + [words], |records + [words]|, Source(s))
      {
        CountsNext(records, words, Source(s));
      }
    }

    /** ibs_sample_decode_op: bump the aggregates one decoded op record calls for. */
    method DecodeOp(words: seq<nat>, ghost records: seq<seq<nat>>)
      requires Valid() && words != [] && OpCounts(records)
      modifies this`opCount, this`opBrnRetCount, this`opBrnMispCount
      modifies this`opDcMissCount, this`opDcL1TlbMissCount, this`opDcL2TlbMissCount
      modifies this`opRemoteNodeCount, this`opDramCount, this`opDataSrcOtherCount, opDataSrcCount
      ensures OpCounts(records + [words])
    {
      hide BranchCounts, DataCacheCounts, SourceCounts, HowMany;
      opCount := opCount + 1;
      DecodeBranch(words, records);
      DecodeDataCache(words, records);
      DecodeSource(words, records);
      CountsNext(records, words, Decoded);
    }

    /** ibs_sample_decode_fetch: bump the aggregates one decoded fetch record calls for. */
    method DecodeFetch(words: seq<nat>, ghost records: seq<seq<nat>>)
      requires Valid() && words != [] && FetchCounts(records)
      modifies this`fetchCount, this`fetchIcMissCount, this`fetchL1TlbMissCount, this`fetchL2TlbMissCount
      ensures FetchCounts(records + [words])
    {
      fetchCount := fetchCount + 1;
      CountFetchMisses(words);
      CountsNext(records, words, Decoded);
      CountsNext(records, words, FetchIcMiss);
      CountsNext(records, words, FetchL1TlbMiss);
      CountsNext(records, words, FetchL2TlbMiss);
    }

    method CountFetchMisses(words: seq<nat>)
      requires words != []
      modifies this`fetchIcMissCount, this`fetchL1TlbMissCount, this`fetchL2TlbMissCount
      ensures fetchIcMissCount == old(fetchIcMissCount) + One(FetchIcMiss, words)
      ensures fetchL1TlbMissCount == old(fetchL1TlbMissCount) + One(FetchL1TlbMiss, words)
      ensures fetchL2TlbMissCount == old(fetchL2TlbMissCount) + One(FetchL2TlbMiss, words)
    {
      hide Bit;
      if Bit(words[0], 51) { fetchIcMissCount := fetchIcMissCount + 1; }
      if Bit(words[0], 55) { fetchL1TlbMissCount := fetchL1TlbMissCount + 1; }
      if Bit(words[0], 56) { fetchL2TlbMissCount := fetchL2TlbMissCount + 1; }
    }

    /** The callback of the drain; records are the ones it has seen before. */
    method RecordCb(payload: seq<Byte>, ghost records: seq<seq<nat>>)
      requires Valid() && Counts(records)
      modifies this, opDataSrcCount
      ensures Counts(records + [Words(payload)])
      ensures drained == old(drained) && samplesSeen == old(samplesSeen) && samplesLost == old(samplesLost)
    {
      var words := Extract(payload);
      if words == [] {
        decodeSkipped := decodeSkipped + 1;
        forall p: Property
          ensures Undecodable(records + [words], |records + [words]|) == Undecodable(records, |records|) + 1
          ensures HowMany(records + [words], |records + [words]|, p) == HowMany(records, |records|, p)
        {
          CountsNext(records, words, p);
        }
      } else if isOp {
        CountsNext(records, words, Decoded);
        DecodeOp(words, records);
      } else {
        CountsNext(records, words, Decoded);
        DecodeFetch(words, records);
      }
    }

    method RecordEach(payloads: seq<seq<Byte>>)
      requires Valid() && Counts([])
      modifies this, opDataSrcCount
      ensures Counts(AllWords(payloads, |payloads|))
      ensures drained == old(drained) && samplesSeen == old(samplesSeen) && samplesLost == old(samplesLost)
    {
      for i := 0 to |payloads|
        invariant Counts(AllWords(payloads, i))
        invariant drained == old(drained) && samplesSeen == old(samplesSeen) && samplesLost == old(samplesLost)
      {
        RecordCb(payloads[i], AllWords(payloads, i));
      }
    }

    /** ibs_sample_drain: takes effect once per state; a later call changes nothing. */
    method Drain()
      requires Valid() && (!drained ==> Counts([]))
      modifies this, opDataSrcCount, if ring == null then {} else {ring}
      ensures old(ring == null || drained) ==>
                unchanged(this) && unchanged(opDataSrcCount) && (ring != null ==> unchanged(ring))
      ensures old(ring != null && !drained) ==>
                var d := Scan(ring.data[..], old(ring.head), Drained([], old(samplesLost), old(ring.tail)));
                && drained && ring.tail == d.cursor && samplesLost == d.lost && samplesSeen == |d.payloads|
                && Counts(AllWords(d.payloads, |d.payloads|))
                && (isOp ==> Conserved(AllWords(d.payloads, |d.payloads|)))
    {
      if ring == null || drained {
        return;
      }
      drained := true;
      var payloads, lost, seen := ring.Drain(samplesLost);
      RecordEach(payloads);
      samplesSeen, samplesLost := seen, lost;
      if isOp {
        CountsAreConserved(AllWords(payloads, |payloads|));
      }
    }
  }

  /** Counting one record more. */
  lemma {:induction false} HowManyPrefix(records: seq<seq<nat>>, words: seq<nat>, p: Property, m: nat)
    requires m <= |records|
    ensures HowMany(records + [words], m, p) == HowMany(records, m, p)
    ensures Undecodable(records + [words], m) == Undecodable(records, m)
  {
    if m > 0 {
      HowManyPrefix(records, words, p, m - 1);
    }
  }

  lemma CountsNext(records: seq<seq<nat>>, words: seq<nat>, p: Property)
    ensures var after, n := records + [words], |records|;
            && Undecodable(after, |after|) == Undecodable(records, n) + (if words == [] then 1 else 0)
            && HowMany(after, |after|, p) == HowMany(records, n, p) + (if words == [] then 0 else One(p, words))
  {
    HowManyPrefix(records, words, p, |records|);
  }

  /**
   Of any records: all are decoded or not, mispredicts are among branch retires and those among the decoded, and those
   long enough to name a source name one in the histogram or beyond it.
   */
  lemma OpConservation(records: seq<seq<nat>>)
    ensures var n := |records|;
            && n == HowMany(records, n, Decoded) + Undecodable(records, n)
            && HowMany(records, n, BrnMisp) <= HowMany(records, n, BrnRet) <= HowMany(records, n, Decoded)
            && SourcesBelow(records, n, DATA_SRC_TABLE_SIZE) + HowMany(records, n, OtherSource)
               == HowMany(records, n, HasSource)
  {
    DecodedOrNot(records, |records|);
    BranchOrder(records, |records|);
    HistogramComplete(records, |records|);
  }

  /**
   End to end: when everything published to an op ring is drained at once, the payloads counted are those of the
   published samples, all of them decoded or skipped, and their sources all in the histogram or beyond it.
   */
  lemma OpCountsOfRun(data: seq<Byte>, events: seq<Event>)
    requires data != [] && Run(data, events).Some?
    requires var w := Run(data, events).value; w.reader.Idle? && w.taken == 0
    ensures var w := Run(data, events).value;
            var d := Scan(w.data, w.head, Drained([], 0, w.tail));
            var records := AllWords(d.payloads, |d.payloads|);
            && d.payloads == Payloads(w.published, |w.published|) && d.cursor == w.head
            && d.lost == LostTotal(w.published, |w.published|)
            && |d.payloads| == HowMany(records, |records|, Decoded) + Undecodable(records, |records|)
            && SourcesBelow(records, |records|, DATA_SRC_TABLE_SIZE) + HowMany(records, |records|, OtherSource)
               == HowMany(records, |records|, HasSource)
  {
    FirstDrainDeliversAll(data, events);
    hide Run, Scan, AllWords, HowMany, Undecodable, SourcesBelow;
    var w := Run(data, events).value;
    var d := Scan(w.data, w.head, Drained([], 0, w.tail));
    OpConservation(AllWords(d.payloads, |d.payloads|));
  }
}
