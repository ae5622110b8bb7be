/**
 The consumer side of a perf_event ring buffer (perf_ring.c), and the protocol it takes part in.

 Positions in the byte stream only grow; the buffer holds position p at p % size. A record is an 8-byte header
 (type, misc and total size, little-endian) followed by its payload. The producer is the kernel: it may add a
 record whenever the buffer has room beyond the position the consumer has given back.
 */
module PerfRing {
  import opened Options

  type Byte = x: int | 0 <= x < 256

  const HEADER_SIZE := 8
  const MAX_PAYLOAD := 160
  const RECORD_LOST := 2
  const RECORD_SAMPLE := 9

  // ---- bytes of the ring ------------------------------------------------------------------------

  /** Where stream position p lives in a buffer of n bytes: p modulo n (SlotIsRemainder). */
  function Slot(p: nat, n: nat): (i: nat)
    requires n > 0
    ensures i < n
  {
    if p < n then p else Slot(p - n, n)
  }

  lemma {:induction false} SlotIsRemainder(p: nat, n: nat)
    requires n > 0
    ensures Slot(p, n) == p % n
  {
    if p >= n {
      SlotIsRemainder(p - n, n);
      assert p == n * ((p - n) / n + 1) + (p - n) % n;
      RemainderUnique(p, n, (p - n) / n + 1, (p - n) % n);
    } else {
      RemainderUnique(p, n, 0, p);
    }
  }

  /** The len bytes from a stream position on, as a reader of an unbounded stream would see them. */
  function Bytes(data: seq<Byte>, offset: nat, len: nat): (bs: seq<Byte>)
    requires data != []
    ensures |bs| == len
  {
    if len == 0 then [] else Bytes(data, offset, len - 1) + [data[Slot(offset + len - 1, |data|)]]
  }

  lemma {:induction false} BytesAt(data: seq<Byte>, offset: nat, len: nat, i: nat)
    requires data != [] && i < len
    ensures Bytes(data, offset, len)[i] == data[Slot(offset + i, |data|)]
  {
    if i < len - 1 {
      BytesAt(data, offset, len - 1, i);
    }
  }

  /** Value of the len-byte little-endian field at index from. */
  function Field(bs: seq<Byte>, from: nat, len: nat): nat
    requires from + len <= |bs|
    decreases len
  {
    if len == 0 then 0 else bs[from] + 256 * Field(bs, from + 1, len - 1)
  }

  lemma {:induction false} SlotStep(p: nat, i: nat, n: nat)
    requires n > 0 && Slot(p, n) + i < 2 * n
    ensures Slot(p + i, n) == if Slot(p, n) + i < n then Slot(p, n) + i else Slot(p, n) + i - n
    decreases p
  {
    if p >= n {
      SlotStep(p - n, i, n);
    }
  }

  lemma MultiplyMonotone(n: nat, a: int, b: int)
    requires a <= b
    ensures n * a <= n * b
  {
  }

  lemma RemainderUnique(x: nat, n: nat, q: nat, r: nat)
    requires r < n && x == n * q + r
    ensures x % n == r
  {
    QuotientUnique(x, n, q, r);
  }

  lemma QuotientUnique(x: nat, n: nat, q: nat, r: nat)
    requires r < n && x == n * q + r
    ensures x / n == q
  {
    var d := q - x / n;
    assert n * d == x % n - r;
    if d >= 1 {
      MultiplyMonotone(n, 1, d);
    } else if d <= -1 {
      MultiplyMonotone(n, d, -1);
    }
  }

  // ---- records in the ring ----------------------------------------------------------------------

  /** What the reader makes of the bytes at its cursor. */
  datatype Item =
    | Stop                                             // partial header or malformed size: read no further
    | Item(size: nat, sample: bool, payload: seq<Byte>, lost: nat)

  function Min(a: nat, b: nat): nat {
    if a < b then a else b
  }

  /** A record of known type and size, from its bytes in the ring. */
  function ReadBody(data: seq<Byte>, cursor: nat, kind: nat, size: nat): (item: Item)
    requires data != []
    ensures item.Item? ==> item.size >= HEADER_SIZE && |item.payload| <= MAX_PAYLOAD
  {
    if size < HEADER_SIZE then Stop
    else if kind == RECORD_SAMPLE then
      Item(size, true, Bytes(data, cursor + HEADER_SIZE, Min(size - HEADER_SIZE, MAX_PAYLOAD)), 0)
    else if kind == RECORD_LOST && size >= HEADER_SIZE + 16 then
      Item(size, false, [], LostField(Bytes(data, cursor + HEADER_SIZE, 16)))
    else
      Item(size, false, [], 0)
  }

  function KindField(header: seq<Byte>): nat
    requires |header| == HEADER_SIZE
  {
    Field(header, 0, 4)
  }

  function SizeField(header: seq<Byte>): nat
    requires |header| == HEADER_SIZE
  {
    Field(header, 6, 2)
  }

  /** The second of the two 64-bit fields of a LOST record. */
  function LostField(fields: seq<Byte>): nat
    requires |fields| == 16
  {
    Field(fields, 8, 8)
  }

  /** One turn of the drain loop at a cursor below the limit. */
  function ReadItem(data: seq<Byte>, cursor: nat, limit: nat): (item: Item)
    requires data != [] && cursor < limit
    ensures item.Item? ==> item.size >= HEADER_SIZE && |item.payload| <= MAX_PAYLOAD
  {
    if limit - cursor < HEADER_SIZE then Stop
    else
      var header := Bytes(data, cursor, HEADER_SIZE);
      ReadBody(data, cursor, KindField(header), SizeField(header))
  }

  /** Outcome of a drain: payloads handed to the callback, counts lost, and where the cursor ended. */
  datatype Drained = Drained(payloads: seq<seq<Byte>>, lost: nat, cursor: nat)

  function Add(d: Drained, item: Item): Drained
    requires item.Item?
  {
    Drained(if item.sample then d.payloads + [item.payload] else d.payloads, d.lost + item.lost, d.cursor + item.size)
  }

  /** The whole drain loop from a given point on. */
  function Scan(data: seq<Byte>, limit: nat, d: Drained): Drained
    requires data != []
    decreases limit - d.cursor
  {
    if d.cursor >= limit then d
    else
      var item := ReadItem(data, d.cursor, limit);
      if item.Stop? then d else Scan(data, limit, Add(d, item))
  }

  /** The mapped ring: the data region and the two positions of its header page. */
  class Ring {
    const data: array<Byte>
    var head: nat
    var tail: nat

    constructor (size: nat)
      requires size >= MAX_PAYLOAD
      ensures head == tail == 0 && data.Length == size && fresh(data)
    {
      data := new Byte[size](_ => 0);
      head, tail := 0, 0;
    }

    /** Copy len bytes out of the data region, across its physical end if need be. */
    method RingRead(offset: nat, len: nat) returns (dest: seq<Byte>)
      requires len <= data.Length && data.Length > 0
      ensures dest == Bytes(data[..], offset, len)
    {
      var pos := offset % data.Length;
      SlotIsRemainder(offset, data.Length);
      var first := data.Length - pos;
      if first >= len {
        dest := data[pos..pos + len];
      } else {
        dest := data[pos..] + data[..len - first];
      }
      forall i: nat | i < len ensures dest[i] == Bytes(data[..], offset, len)[i] {
        BytesAt(data[..], offset, len, i);
        SlotStep(offset, i, data.Length);
      }
    }

    /** One turn of the drain loop: decode the header at the cursor, then what its type calls for. */
    method ReadOne(cursor: nat, limit: nat, ghost d: Drained) returns (item: Item)
      requires data.Length >= MAX_PAYLOAD && cursor == d.cursor < limit
      ensures item.Item? ==> item.size >= HEADER_SIZE
      ensures Scan(data[..], limit, d) == if item.Stop? then d else Scan(data[..], limit, Add(d, item))
    {
      item := Decode(cursor, limit);
      ScanStep(data[..], limit, d, item);
    }

    method Decode(cursor: nat, limit: nat) returns (item: Item)
      requires data.Length >= MAX_PAYLOAD && cursor < limit
      ensures item == ReadItem(data[..], cursor, limit)
    {
      if limit - cursor < HEADER_SIZE {
        return Stop;
      }
      var header := RingRead(cursor, HEADER_SIZE);
      var kind, size := KindField(header), SizeField(header);
      if size < HEADER_SIZE {
        return Stop;
      }
      if kind == RECORD_SAMPLE {
        var payload := RingRead(cursor + HEADER_SIZE, Min(size - HEADER_SIZE, MAX_PAYLOAD));
        return Item(size, true, payload, 0);
      } else if kind == RECORD_LOST && size >= HEADER_SIZE + 16 {
        var fields := RingRead(cursor + HEADER_SIZE, 16);
        return Item(size, false, [], LostField(fields));
      }
      return Item(size, false, [], 0);
    }

    /** The drain loop, from the consumer's position up to the given limit. */
    method ReadAll(limit: nat, lost0: nat) returns (payloads: seq<seq<Byte>>, lost: nat, seen: nat, cursor: nat)
      requires data.Length >= MAX_PAYLOAD
      ensures Drained(payloads, lost, cursor) == Scan(data[..], limit, Drained([], lost0, tail))
      ensures seen == |payloads|
    {
      payloads, lost, seen, cursor := [], lost0, 0, tail;
      ghost var bytes, start := data[..], Drained([], lost0, tail);
      while cursor < limit
        invariant Scan(bytes, limit, start) == Scan(bytes, limit, Drained(payloads, lost, cursor))
        invariant seen == |payloads|
        decreases limit - cursor
      {
        ghost var d := Drained(payloads, lost, cursor);
        var item := ReadOne(cursor, limit, d);
        if item.Stop? {
          break;
        }
        if item.sample {
          payloads, seen := payloads + [item.payload], seen + 1;
        }
        lost, cursor := lost + item.lost, cursor + item.size;
        assert Drained(payloads, lost, cursor) == Add(d, item);
      }
    }

    /**
     perf_ring_drain: read every record up to the head seen on entry, and give their bytes back to the producer.
     The callback's invocations are returned as the sequence of payloads it was given; lost is the running count
     of lost records, and seen the number of samples.
     */
    method Drain(lost0: nat) returns (payloads: seq<seq<Byte>>, lost: nat, seen: nat)
      requires data.Length >= MAX_PAYLOAD
      modifies this`tail
      ensures Drained(payloads, lost, tail) == Scan(data[..], head, Drained([], lost0, old(tail)))
      ensures seen == |payloads|
    {
      ghost var bytes := data[..];
      var cursor;
      payloads, lost, seen, cursor := ReadAll(head, lost0);
      tail := cursor;
      assert data[..] == bytes;
    }
  }

  lemma ScanStep(data: seq<Byte>, limit: nat, d: Drained, item: Item)
    requires data != [] && d.cursor < limit && item == ReadItem(data, d.cursor, limit)
    ensures Scan(data, limit, d) == if item.Stop? then d else Scan(data, limit, Add(d, item))
  {
  }

  // ---- records as written -----------------------------------------------------------------------

  /**
   A record as the kernel writes it. A LOST record carries the id of the event and how many records were lost; one too
   short for both fields, and every other record, is bytes.
   */
  datatype Record =
    | Record(kind: nat, misc: nat, payload: seq<Byte>)
    | LostRecord(misc: nat, id: nat, lost: nat, rest: seq<Byte>)
  {
    predicate WellFormed() {
      && misc < 0x1_0000 && Size() < 0x1_0000
      && match this
         case Record(kind, _, payload) => kind < 0x1_0000_0000 && (kind == RECORD_LOST ==> |payload| < 16)
         case LostRecord(_, id, lost, _) => id < Power256(8) && lost < Power256(8)
    }

    function Kind(): nat {
      if Record? then kind else RECORD_LOST
    }

    function Payload(): seq<Byte> {
      if Record? then payload else LittleEndian(id, 8) + LittleEndian(lost, 8) + rest
    }

    function Size(): nat {
      HEADER_SIZE + |Payload()|
    }

    /** Records lost, as a LOST record reports them. */
    function Lost(): nat {
      if LostRecord? then lost else 0
    }
  }

  /** The low n bytes of v, least significant first. */
  function LittleEndian(v: nat, n: nat): (bs: seq<Byte>)
    ensures |bs| == n
  {
    if n == 0 then [] else [v % 256] + LittleEndian(v / 256, n - 1)
  }

  function Power256(n: nat): (r: nat)
    ensures r > 0
  {
    if n == 0 then 1 else 256 * Power256(n - 1)
  }

  lemma DivideTwice(v: nat, m: nat, n: nat)
    requires m > 0 && n > 0
    ensures m * n > 0 && v / m / n == v / (m * n)
  {
    var q, r := v / m, v % m;
    Quotient(v, m);
    Quotient(q, n);
    Regrouped(m, n, q / n, q % n, r);
    QuotientUnique(v, m * n, q / n, m * (q % n) + r);
  }

  lemma Quotient(v: nat, m: nat)
    requires m > 0
    ensures v == m * (v / m) + v % m
  {
  }

  lemma Regrouped(m: nat, n: nat, s: nat, t: nat, r: nat)
    requires r < m && t < n
    ensures m * (n * s + t) + r == m * n * s + (m * t + r)
    ensures 0 < m * n && m * t + r < m * n
  {
    MultiplyMonotone(m, t, n - 1);
  }

  /** Byte i of a number is its value over 256 to the i-th, modulo 256. */
  lemma {:induction false} LittleEndianAt(v: nat, n: nat, i: nat)
    requires i < n
    ensures LittleEndian(v, n)[i] == v / Power256(i) % 256
  {
    if i > 0 {
      LittleEndianAt(v / 256, n - 1, i - 1);
      DivideTwice(v, 256, Power256(i - 1));
    }
  }

  lemma {:induction false} FieldOfLittleEndian(bs: seq<Byte>, from: nat, v: nat, n: nat)
    requires v < Power256(n) && from + n <= |bs| && bs[from..from + n] == LittleEndian(v, n)
    ensures Field(bs, from, n) == v
    decreases n
  {
    if n > 0 {
      assert bs[from] == bs[from..from + n][0];
      assert bs[from + 1..from + 1 + (n - 1)] == bs[from..from + n][1..];
      FieldOfLittleEndian(bs, from + 1, v / 256, n - 1);
    }
  }

  /** The bytes of a field are those of its value. */
  lemma {:induction false} LittleEndianOfField(bs: seq<Byte>, from: nat, n: nat)
    requires from + n <= |bs|
    ensures Field(bs, from, n) < Power256(n) && LittleEndian(Field(bs, from, n), n) == bs[from..from + n]
    decreases n
  {
    if n > 0 {
      LittleEndianOfField(bs, from + 1, n - 1);
      assert bs[from..from + n] == [bs[from]] + bs[from + 1..from + 1 + (n - 1)];
      LowestByte(bs[from], Field(bs, from + 1, n - 1), n);
    }
  }

  lemma LowestByte(b: Byte, rest: nat, n: nat)
    requires n > 0 && rest < Power256(n - 1)
    ensures b + 256 * rest < Power256(n) && LittleEndian(b + 256 * rest, n) == [b] + LittleEndian(rest, n - 1)
  {
    QuotientUnique(b + 256 * rest, 256, rest, b);
    RemainderUnique(b + 256 * rest, 256, rest, b);
  }

  function Encode(rec: Record): (bs: seq<Byte>)
    ensures |bs| == rec.Size()
  {
    LittleEndian(rec.Kind(), 4) + LittleEndian(rec.misc, 2) + LittleEndian(rec.Size(), 2) + rec.Payload()
  }

  /** What a reader must make of a record: a sample is handed on cut to MAX_PAYLOAD, a LOST record is added up. */
  function ItemOf(rec: Record): Item {
    if rec.Kind() == RECORD_SAMPLE then Item(rec.Size(), true, rec.Payload()[..Min(|rec.Payload()|, MAX_PAYLOAD)], 0)
    else Item(rec.Size(), false, [], rec.Lost())
  }

  lemma HeaderDecodes(rec: Record, header: seq<Byte>)
    requires rec.WellFormed() && header == Encode(rec)[..HEADER_SIZE]
    ensures KindField(header) == rec.Kind() && SizeField(header) == rec.Size()
  {
    assert header[0..0 + 4] == LittleEndian(rec.Kind(), 4);
    assert header[6..6 + 2] == LittleEndian(rec.Size(), 2);
    assert Power256(2) == 0x1_0000;
    assert Power256(4) == 256 * (256 * Power256(2));
    FieldOfLittleEndian(header, 0, rec.Kind(), 4);
    FieldOfLittleEndian(header, 6, rec.Size(), 2);
  }

  /** The ring holds the bytes of rec from the cursor on. */
  ghost predicate Holds(data: seq<Byte>, cursor: nat, rec: Record)
    requires data != []
  {
    forall i: nat {:trigger Encode(rec)[i]} :: i < rec.Size() ==> data[Slot(cursor + i, |data|)] == Encode(rec)[i]
  }

  /** The reader finds the count of a LOST record behind its id. */
  lemma LostFieldIsLost(rec: Record)
    requires rec.WellFormed() && rec.LostRecord?
    ensures LostField(rec.Payload()[..16]) == rec.lost
  {
    var fields := rec.Payload()[..16];
    assert fields[8..8 + 8] == LittleEndian(rec.lost, 8);
    FieldOfLittleEndian(fields, 8, rec.lost, 8);
  }

  lemma BodyDecodes(data: seq<Byte>, cursor: nat, rec: Record)
    requires data != [] && rec.WellFormed() && Holds(data, cursor, rec)
    ensures ReadBody(data, cursor, rec.Kind(), rec.Size()) == ItemOf(rec)
  {
    var bs, payload := Encode(rec), rec.Payload();
    assert bs[HEADER_SIZE..] == payload;
    if rec.Kind() == RECORD_SAMPLE {
      var len := Min(|payload|, MAX_PAYLOAD);
      BytesOfEncoded(data, cursor, rec, HEADER_SIZE, len);
      assert bs[HEADER_SIZE..HEADER_SIZE + len] == payload[..len];
    } else if rec.LostRecord? {
      BytesOfEncoded(data, cursor, rec, HEADER_SIZE, 16);
      assert bs[HEADER_SIZE..HEADER_SIZE + 16] == payload[..16];
      LostFieldIsLost(rec);
    }
  }

  /** Decoding a well-formed record from the ring undoes encoding it. */
  lemma ReadEncoded(data: seq<Byte>, cursor: nat, limit: nat, rec: Record)
    requires data != [] && rec.WellFormed() && cursor + rec.Size() <= limit && Holds(data, cursor, rec)
    ensures ReadItem(data, cursor, limit) == ItemOf(rec)
  {
    hide Encode, ReadBody, KindField, SizeField, Bytes, Record.Payload, ItemOf;
    BytesOfEncoded(data, cursor, rec, 0, HEADER_SIZE);
    HeaderDecodes(rec, Bytes(data, cursor, HEADER_SIZE));
    BodyDecodes(data, cursor, rec);
  }

  /** A LOST record adds the count that the kernel wrote behind the id, whatever the id is. */
  lemma LostCountRead(data: seq<Byte>, cursor: nat, limit: nat, rec: Record)
    requires data != [] && rec.WellFormed() && rec.LostRecord?
    requires cursor + rec.Size() <= limit && Holds(data, cursor, rec)
    ensures ReadItem(data, cursor, limit) == Item(HEADER_SIZE + 16 + |rec.rest|, false, [], rec.lost)
  {
    ReadEncoded(data, cursor, limit, rec);
  }

  lemma BytesOfEncoded(data: seq<Byte>, cursor: nat, rec: Record, from: nat, len: nat)
    requires data != [] && from + len <= rec.Size() && Holds(data, cursor, rec)
    ensures Bytes(data, cursor + from, len) == Encode(rec)[from..from + len]
  {
    hide Encode, Slot, Bytes;
    var bs := Bytes(data, cursor + from, len);
    forall i: nat | i < len ensures bs[i] == Encode(rec)[from + i] {
      BytesAt(data, cursor + from, len, i);
    }
  }

  // ---- the stream of published records ----------------------------------------------------------

  /** Stream position at which record m starts. */
  function Offset(recs: seq<Record>, m: nat): nat
    requires m <= |recs|
  {
    if m == 0 then 0 else Offset(recs, m - 1) + recs[m - 1].Size()
  }

  /** The bytes of the first m records. */
  function Stream(recs: seq<Record>, m: nat): (bs: seq<Byte>)
    requires m <= |recs|
    ensures |bs| == Offset(recs, m)
  {
    if m == 0 then [] else Stream(recs, m - 1) + Encode(recs[m - 1])
  }

  /** Payloads a reader is due for the first m records: samples only, in order, cut to MAX_PAYLOAD. */
  function Payloads(recs: seq<Record>, m: nat): seq<seq<Byte>>
    requires m <= |recs|
  {
    if m == 0 then []
    else
      var item := ItemOf(recs[m - 1]);
      if item.sample then Payloads(recs, m - 1) + [item.payload] else Payloads(recs, m - 1)
  }

  function LostTotal(recs: seq<Record>, m: nat): nat
    requires m <= |recs|
  {
    if m == 0 then 0 else LostTotal(recs, m - 1) + ItemOf(recs[m - 1]).lost
  }

  lemma {:induction false} OffsetMonotone(recs: seq<Record>, j: nat, m: nat)
    requires j <= m <= |recs|
    ensures Offset(recs, j) <= Offset(recs, m)
    ensures j < m ==> Offset(recs, j) + recs[j].Size() <= Offset(recs, m)
  {
    hide Record.Size, Record.Payload;
    if j < m {
      OffsetMonotone(recs, j, m - 1);
    }
  }

  lemma {:induction false} StreamAt(recs: seq<Record>, m: nat, j: nat, i: nat)
    requires j < m <= |recs| && i < recs[j].Size()
    ensures Offset(recs, j) + i < Offset(recs, m)
    ensures Stream(recs, m)[Offset(recs, j) + i] == Encode(recs[j])[i]
  {
    hide Encode, Record.Payload, Record.Size;
    OffsetMonotone(recs, j, m);
    if j < m - 1 {
      StreamAt(recs, m - 1, j, i);
    }
  }

  /** Publishing more leaves the stream so far, and what was due for it, as they were. */
  lemma {:induction false} PublishedStays(recs: seq<Record>, rec: Record, m: nat)
    requires m <= |recs|
    ensures Offset(recs + [rec], m) == Offset(recs, m) && Stream(recs + [rec], m) == Stream(recs, m)
    ensures Payloads(recs + [rec], m) == Payloads(recs, m) && LostTotal(recs + [rec], m) == LostTotal(recs, m)
  {
    hide Record.Size, Record.Payload, Encode, ItemOf;
    if m > 0 {
      PublishedStays(recs, rec, m - 1);
    }
  }

  // ---- the producer's writes --------------------------------------------------------------------

  /** The data region after the first m bytes of bs are stored from stream position pos on. */
  function Put(data: seq<Byte>, pos: nat, bs: seq<Byte>, m: nat): (after: seq<Byte>)
    requires data != [] && m <= |bs|
    ensures |after| == |data|
  {
    if m == 0 then data else Put(data, pos, bs, m - 1)[Slot(pos + m - 1, |data|) := bs[m - 1]]
  }

  lemma SlotsDiffer(p: nat, q: nat, n: nat)
    requires p < q < p + n
    ensures Slot(p, n) != Slot(q, n)
  {
    SlotStep(p, q - p, n);
  }

  /** Writing stores the new bytes and touches none of the unread ones. */
  lemma {:induction false} PutAt(data: seq<Byte>, pos: nat, bs: seq<Byte>, m: nat, p: nat)
    requires data != [] && m <= |bs| && p < pos + m <= p + |data|
    ensures Put(data, pos, bs, m)[Slot(p, |data|)] == if p < pos then data[Slot(p, |data|)] else bs[p - pos]
  {
    if m > 0 && p < pos + m - 1 {
      PutAt(data, pos, bs, m - 1, p);
      SlotsDiffer(p, pos + m - 1, |data|);
    }
  }

  // ---- the protocol -----------------------------------------------------------------------------

  /** The consumer: between drains, or somewhere in the drain loop with the head it saw on entry. */
  datatype Reader = Idle | Reading(cursor: nat, limit: nat)

  /**
   The shared ring with both sides. out and lost are what the consumer has handed on so far; published, taken and
   goal record the history: all records written, how many of them were read, and how many there were when the
   current drain began.
   */
  datatype World = World(
    data: seq<Byte>, head: nat, tail: nat, reader: Reader, out: seq<seq<Byte>>, lost: nat,
    published: seq<Record>, taken: nat, goal: nat)

  /** Steps that may interleave: the kernel adds a record, the consumer begins, turns or ends its loop. */
  datatype Event = Publish(rec: Record) | Begin | Turn | End

  predicate Enabled(w: World, e: Event) {
    match e
    case Publish(rec) => rec.WellFormed() && w.head + rec.Size() <= w.tail + |w.data|
    case Begin => w.reader.Idle?
    case Turn => w.reader.Reading? && w.reader.cursor < w.reader.limit
    case End => w.reader.Reading? && w.reader.cursor >= w.reader.limit
  }

  function Next(w: World, e: Event): World
    requires w.data != [] && Enabled(w, e)
  {
    match e
    case Publish(rec) =>
      w.(data := Put(w.data, w.head, Encode(rec), rec.Size()), head := w.head + rec.Size(),
         published := w.published + [rec])
    case Begin => w.(reader := Reading(w.tail, w.head), goal := |w.published|)
    case Turn =>
      var item := ReadItem(w.data, w.reader.cursor, w.reader.limit);
      if item.Stop? then w.(reader := Idle, tail := w.reader.cursor)
      else
        w.(reader := Reading(w.reader.cursor + item.size, w.reader.limit),
           out := if item.sample then w.out + [item.payload] else w.out,
           lost := w.lost + item.lost, taken := w.taken + 1)
    case End => w.(reader := Idle, tail := w.reader.cursor)
  }

  /** The position the consumer has read up to. */
  function Position(w: World): nat {
    if w.reader.Idle? then w.tail else w.reader.cursor
  }

  /** Every byte not yet given back is still in the ring as it was written. */
  ghost predicate Intact(w: World) {
    && w.data != [] && |Stream(w.published, |w.published|)| == w.head
    && forall p: nat {:trigger Slot(p, |w.data|)} :: w.tail <= p < w.head ==>
         w.data[Slot(p, |w.data|)] == Stream(w.published, |w.published|)[p]
  }

  /** What holds however the two sides interleave. */
  ghost predicate Inv(w: World) {
    && (forall r :: r in w.published ==> r.WellFormed())
    && Intact(w)
    && w.tail <= Position(w) <= w.head <= w.tail + |w.data|
    && w.taken <= |w.published| && Position(w) == Offset(w.published, w.taken)
    && (w.reader.Reading? ==> w.taken <= w.goal <= |w.published| && w.reader.limit == Offset(w.published, w.goal))
    && w.out == Payloads(w.published, w.taken)
    && w.lost == LostTotal(w.published, w.taken)
  }

  lemma PublishKeepsBytes(w: World, rec: Record)
    requires Intact(w) && Enabled(w, Publish(rec))
    ensures Intact(Next(w, Publish(rec)))
  {
    hide Record.Payload, LittleEndian, Payloads, LostTotal;
    var w', n := Next(w, Publish(rec)), |w.published|;
    PublishedStays(w.published, rec, n);
    assert Stream(w'.published, n + 1) == Stream(w.published, n) + Encode(rec);
    forall p: nat {:trigger Slot(p, |w.data|)} | w'.tail <= p < w'.head
      ensures w'.data[Slot(p, |w.data|)] == Stream(w'.published, n + 1)[p]
    {
      PutAt(w.data, w.head, Encode(rec), rec.Size(), p);
    }
  }

  lemma PublishKeepsInv(w: World, rec: Record)
    requires Inv(w) && Enabled(w, Publish(rec))
    ensures Inv(Next(w, Publish(rec)))
  {
    PublishKeepsBytes(w, rec);
    PublishedStays(w.published, rec, w.taken);
    if w.reader.Reading? {
      PublishedStays(w.published, rec, w.goal);
    }
  }

  /** The record at the consumer's position decodes to itself. */
  lemma NextRecordReadable(w: World)
    requires Inv(w) && w.taken < |w.published|
    requires w.reader.Reading? && w.taken < w.goal
    ensures w.reader.cursor < w.reader.limit
    ensures ReadItem(w.data, w.reader.cursor, w.reader.limit) == ItemOf(w.published[w.taken])
  {
    hide Record.Payload, LittleEndian, ItemOf, ReadItem, Payloads, LostTotal;
    var rec := w.published[w.taken];
    OffsetMonotone(w.published, w.taken, w.goal);
    forall i: nat {:trigger Encode(rec)[i]} | i < rec.Size()
      ensures w.data[Slot(w.reader.cursor + i, |w.data|)] == Encode(rec)[i]
    {
      StreamAt(w.published, |w.published|, w.taken, i);
    }
    ReadEncoded(w.data, w.reader.cursor, w.reader.limit, rec);
  }

  /** The world after the consumer has taken the next record. */
  function Took(w: World): World
    requires w.taken < |w.published| && w.reader.Reading?
  {
    var item := ItemOf(w.published[w.taken]);
    w.(reader := Reading(w.reader.cursor + item.size, w.reader.limit),
       out := if item.sample then w.out + [item.payload] else w.out,
       lost := w.lost + item.lost, taken := w.taken + 1)
  }

  /** A turn of the loop reads exactly the next unread record, never stopping early. */
  lemma TurnTakesNext(w: World)
    requires Inv(w) && Enabled(w, Turn)
    ensures w.taken < w.goal && Next(w, Turn) == Took(w)
  {
    hide Record.Payload, LittleEndian, ReadItem, Payloads, LostTotal, Intact;
    assert w.taken != w.goal;
    NextRecordReadable(w);
  }

  lemma TookKeepsInv(w: World)
    requires Inv(w) && w.reader.Reading? && w.taken < w.goal
    ensures Inv(Took(w))
  {
    hide Intact, Encode, Stream, Record.Payload;
    OffsetMonotone(w.published, w.taken + 1, w.goal);
    OffsetMonotone(w.published, w.goal, |w.published|);
    StaysIntact(w, Took(w));
  }

  /** Reading touches neither the ring nor what was published. */
  lemma StaysIntact(w: World, w': World)
    requires Intact(w) && w'.data == w.data && w'.head == w.head && w'.tail == w.tail && w'.published == w.published
    ensures Intact(w') && w.head == Offset(w.published, |w.published|)
  {
    hide Stream, Slot;
  }

  /** A drain ends having taken exactly what was published when it began. */
  lemma EndTakesGoal(w: World)
    requires Inv(w) && Enabled(w, End)
    ensures w.taken == w.goal && Next(w, End).tail == Offset(w.published, w.goal)
  {
    if w.taken < w.goal {
      NextRecordReadable(w);
    }
  }

  lemma StepKeepsInv(w: World, e: Event)
    requires Inv(w) && Enabled(w, e)
    ensures Inv(Next(w, e))
  {
    match e
    case Publish(rec) => PublishKeepsInv(w, rec);
    case Begin =>
    case Turn => TurnTakesNext(w); TookKeepsInv(w);
    case End =>
  }

  // ---- whole runs -------------------------------------------------------------------------------

  function Start(data: seq<Byte>): World {
    World(data, 0, 0, Idle, [], 0, [], 0, 0)
  }

  /** The world after the events; None if one of them could not happen when its turn came. */
  function Run(data: seq<Byte>, events: seq<Event>): (r: Option<World>)
    requires data != []
    ensures r.Some? ==> |r.value.data| == |data|
  {
    if events == [] then Some(Start(data))
    else
      var last := events[|events| - 1];
      match Run(data, events[..|events| - 1])
      case None => None
      case Some(w) => if Enabled(w, last) then Some(Next(w, last)) else None
  }

  /** For every interleaving: each record is handed on at most once, in order, cut to size, and losses add up. */
  lemma {:induction false} RunKeepsInv(data: seq<Byte>, events: seq<Event>)
    requires data != [] && Run(data, events).Some?
    ensures Inv(Run(data, events).value)
  {
    if events != [] {
      var front := events[..|events| - 1];
      RunKeepsInv(data, front);
      StepKeepsInv(Run(data, front).value, events[|events| - 1]);
    }
  }

  /**
   For every interleaving: when a drain ends, exactly the records published before it began have been handed on, and
   their bytes are given back. If nothing was published meanwhile, that is everything and the tail is at the head.
   */
  lemma DrainDeliversAll(data: seq<Byte>, events: seq<Event>)
    requires data != [] && events != [] && Run(data, events).Some? && events[|events| - 1] == End
    ensures var w := Run(data, events).value;
            && w.goal <= |w.published|
            && w.out == Payloads(w.published, w.goal) && w.lost == LostTotal(w.published, w.goal)
            && w.tail == Offset(w.published, w.goal)
            && (w.goal == |w.published| ==> w.tail == w.head)
  {
    var front := events[..|events| - 1];
    RunKeepsInv(data, front);
    EndTakesGoal(Run(data, front).value);
  }

  /** A drain without interference, as the method Drain performs it, reads everything there is. */
  lemma {:induction false} ScanDeliversAll(w: World)
    requires Inv(w) && w.reader.Reading? && w.goal == |w.published|
    ensures Scan(w.data, w.reader.limit, Drained(w.out, w.lost, w.reader.cursor))
            == Drained(Payloads(w.published, w.goal), LostTotal(w.published, w.goal), w.head)
    decreases w.goal - w.taken
  {
    hide Record.Payload, Encode;
    var d := Drained(w.out, w.lost, w.reader.cursor);
    if w.taken < w.goal {
      NextRecordReadable(w);
      TookKeepsInv(w);
      var item, w' := ItemOf(w.published[w.taken]), Took(w);
      ScanStep(w.data, w.reader.limit, d, item);
      assert Drained(w'.out, w'.lost, w'.reader.cursor) == Add(d, item);
      ScanDeliversAll(w');
    }
  }

  /** The first drain of a ring, however much was published before it, hands on every record published. */
  lemma FirstDrainDeliversAll(data: seq<Byte>, events: seq<Event>)
    requires data != [] && Run(data, events).Some?
    requires var w := Run(data, events).value; w.reader.Idle? && w.taken == 0
    ensures var w := Run(data, events).value;
            Scan(w.data, w.head, Drained([], 0, w.tail))
            == Drained(Payloads(w.published, |w.published|), LostTotal(w.published, |w.published|), w.head)
  {
    RunKeepsInv(data, events);
    var w := Run(data, events).value;
    StepKeepsInv(w, Begin);
    ScanDeliversAll(Next(w, Begin));
  }
}
