/**
 The process tree as JSON (proctree.c): printing a process with its children from the eldest on, and reading the
 printed document back. Values are those printed: whole numbers, and seconds in millionths.
 */
module ProcJson {
  import opened Decimals
  import opened JsonPrint
  import opened JsonReader
  import opened JsonStrings
  import opened Options

  datatype NumberField = Whole(key: string) | Seconds(key: string)

  const N_NUMBERS := 38

  /** The numeric fields of a process, in the order they are printed. */
  function NumberFields(): (fs: seq<NumberField>)
    ensures |fs| == N_NUMBERS
  {
    [Whole("ppid"), Whole("cpu"), Seconds("start"), Seconds("finish"), Seconds("utime_seconds"),
    Seconds("stime_seconds"), Whole("vsize_kb"), Whole("rss_kb"), Whole("num_threads"), Whole("exit_code"),
    Whole("futex_wait_count"), Seconds("futex_wait_seconds"), Whole("io_read_wait_count"),
    Seconds("io_read_wait_seconds"), Whole("io_write_wait_count"), Seconds("io_write_wait_seconds"),
    Whole("io_rchar"), Whole("io_wchar"), Whole("io_syscr"), Whole("io_syscw"), Whole("io_read_bytes"),
    Whole("io_write_bytes"), Whole("io_cancelled_write_bytes"), Seconds("sched_rundelay_seconds"),
    Whole("sched_nr_timeslices"), Whole("vm_hwm_kb"), Whole("rss_anon_kb"), Whole("rss_file_kb"),
    Whole("rss_shmem_kb"), Whole("vm_swap_kb"), Whole("connect_count"), Seconds("connect_seconds"),
    Whole("nanosleep_count"), Seconds("nanosleep_seconds"), Whole("wait_count"), Seconds("wait_seconds"),
    Whole("poll_count"), Seconds("poll_seconds")]
  }

  const COUNTER_KEYS: seq<string> := ["group", "label", "value"]
  const SAMPLE_KEYS: seq<string> := ["event", "addr", "count"]
  const MAP_KEYS: seq<string> := ["start", "end", "file_offset", "path"]

  /** One value of a row in a list of counters, samples or mapped regions. */
  datatype Cell = Name(s: string) | Count(n: nat)

  type Row = seq<Cell>

  /** A process with its children, eldest first; numbers holds one value for each numeric field. */
  datatype Process = Process(pid: nat, comm: Option<string>, cmdline: Option<string>, numbers: seq<int>,
                             counters: seq<Row>, samples: seq<Row>, samplesLost: nat, maps: seq<Row>,
                             children: seq<Process>)

  // ---- what can be printed ----------------------------------------------------------------------

  ghost predicate RowsFit(keys: seq<string>, rows: seq<Row>) {
    && (forall r :: 0 <= r < |rows| ==> |rows[r]| == |keys|)
    && forall r, c :: 0 <= r < |rows| && 0 <= c < |rows[r]| && rows[r][c].Name? ==> NulFree(rows[r][c].s)
  }

  /** One number for each field, whole ones not negative, and C strings throughout. */
  ghost predicate Printable(p: Process) {
    && |p.numbers| == N_NUMBERS
    && (forall i :: 0 <= i < N_NUMBERS && NumberFields()[i].Whole? ==> p.numbers[i] >= 0)
    && (p.comm.Some? ==> NulFree(p.comm.value)) && (p.cmdline.Some? ==> NulFree(p.cmdline.value))
    && RowsFit(COUNTER_KEYS, p.counters) && RowsFit(SAMPLE_KEYS, p.samples) && RowsFit(MAP_KEYS, p.maps)
    && forall i :: 0 <= i < |p.children| ==> Printable(p.children[i])
  }

  // ---- the printed document ---------------------------------------------------------------------

  function TextOrNull(s: Option<string>): Doc {
    if s == None then DNull else DString(s.value)
  }

  function NumberDoc(field: NumberField, n: int): Doc {
    if field.Whole? && n >= 0 then DInt(n) else DFixed(n)
  }

  /** The numeric fields from i on. */
  function NumberDocs(numbers: seq<int>, i: nat): (fs: seq<Field>)
    requires i <= N_NUMBERS
    ensures |fs| == N_NUMBERS - i
    decreases N_NUMBERS - i
  {
    if i == N_NUMBERS then []
    else [NumberDocAt(numbers, i)] + NumberDocs(numbers, i + 1)
  }

  function NumberDocAt(numbers: seq<int>, i: nat): Field
    requires i < N_NUMBERS
  {
    Field(NumberFields()[i].key, NumberDoc(NumberFields()[i], if i < |numbers| then numbers[i] else 0))
  }

  function CellDoc(c: Cell): Doc {
    match c
    case Name(s) => DString(s)
    case Count(n) => DInt(n)
  }

  function RowDoc(keys: seq<string>, row: Row): Doc {
    DObject(seq(if |keys| <= |row| then |keys| else |row|,
                i requires 0 <= i < |keys| && i < |row| => Field(keys[i], CellDoc(row[i]))))
  }

  function RowsDoc(keys: seq<string>, rows: seq<Row>): Doc {
    DArray(seq(|rows|, i requires 0 <= i < |rows| => RowDoc(keys, rows[i])))
  }

  function DocOf(p: Process): (d: Doc)
    ensures d.DObject? && |d.fields| == N_NUMBERS + 8
  {
    DObject(HeadDocs(p) + NumberDocs(p.numbers, 0) + ListDocs(p)
            + [Field("children", DArray(seq(|p.children|, i requires 0 <= i < |p.children| => DocOf(p.children[i]))))])
  }

  function HeadDocs(p: Process): seq<Field> {
    [Field("pid", DInt(p.pid)), Field("comm", TextOrNull(p.comm)), Field("cmdline", TextOrNull(p.cmdline))]
  }

  function ListDocs(p: Process): seq<Field> {
    [Field("target_counters", RowsDoc(COUNTER_KEYS, p.counters)),
     Field("target_samples", RowsDoc(SAMPLE_KEYS, p.samples)),
     Field("target_samples_lost", DInt(p.samplesLost)), Field("target_maps", RowsDoc(MAP_KEYS, p.maps))]
  }

  // ---- reading it back --------------------------------------------------------------------------

  function ReadText(j: Json): Option<string> {
    if j.JString? then Some(j.s) else None
  }

  function ReadWhole(j: Json): nat {
    if j.JNumber? && j.n >= 0.0 then j.n.Floor else 0
  }

  function ReadNumber(field: NumberField, j: Json): int {
    if field.Whole? then ReadWhole(j) else if j.JNumber? then (j.n * 1_000_000.0).Floor else 0
  }

  function ReadCell(j: Json): Cell {
    if j.JString? then Name(j.s) else Count(ReadWhole(j))
  }

  function ReadRow(j: Json): Row {
    if j.JObject? then seq(|j.members|, i requires 0 <= i < |j.members| => ReadCell(j.members[i].value)) else []
  }

  function ReadRows(j: Json): seq<Row> {
    if j.JArray? then seq(|j.items|, i requires 0 <= i < |j.items| => ReadRow(j.items[i])) else []
  }

  /** The value of member i of an object, in printed order. */
  function MemberAtIndex(j: Json, i: nat): Json {
    if j.JObject? && i < |j.members| then j.members[i].value else JNull
  }

  function ReadNumbers(j: Json): seq<int> {
    seq(N_NUMBERS, i requires 0 <= i < N_NUMBERS => ReadNumber(NumberFields()[i], MemberAtIndex(j, 3 + i)))
  }

  function ReadChildren(j: Json): seq<Process>
    decreases j, 0
  {
    var kids := MemberAtIndex(j, N_NUMBERS + 7);
    if j.JObject? && kids.JArray? then
      seq(|kids.items|, i requires 0 <= i < |kids.items| => ReadProcess(kids.items[i]))
    else []
  }

  function ReadProcess(j: Json): Process
    decreases j, 1
  {
    Process(ReadWhole(MemberAtIndex(j, 0)), ReadText(MemberAtIndex(j, 1)), ReadText(MemberAtIndex(j, 2)),
            ReadNumbers(j), ReadRows(MemberAtIndex(j, N_NUMBERS + 3)), ReadRows(MemberAtIndex(j, N_NUMBERS + 4)),
            ReadWhole(MemberAtIndex(j, N_NUMBERS + 5)), ReadRows(MemberAtIndex(j, N_NUMBERS + 6)), ReadChildren(j))
  }

  // ---- round trip -------------------------------------------------------------------------------

  lemma {:induction false} MeaningAt(fields: seq<Field>, i: nat, k: nat)
    requires i <= k < |fields|
    ensures FieldMeanings(fields, i)[k - i] == Member(fields[k].key, Meaning(fields[k].value))
    decreases k - i
  {
    hide NumberFields;
    if i < k {
      MeaningAt(fields, i + 1, k);
    }
  }

  lemma {:induction false} ItemMeaningAt(items: seq<Doc>, i: nat, k: nat)
    requires i <= k < |items|
    ensures Meanings(items, i)[k - i] == Meaning(items[k])
    decreases k - i
  {
    hide NumberFields;
    if i < k {
      ItemMeaningAt(items, i + 1, k);
    }
  }

  lemma {:induction false} NumberDocsAt(numbers: seq<int>, i: nat, k: nat)
    requires i <= k < N_NUMBERS
    ensures NumberDocs(numbers, i)[k - i] == NumberDocAt(numbers, k)
    decreases k - i
  {
    hide NumberFields;
    if i < k {
      NumberDocsAt(numbers, i + 1, k);
    }
  }

  lemma NumberReadsBack(field: NumberField, n: int)
    requires field.Whole? ==> n >= 0
    ensures ReadNumber(field, Meaning(NumberDoc(field, n))) == n
  {
    hide NumberFields;
    assert (n as real / 1_000_000.0) * 1_000_000.0 == n as real;
  }

  lemma RowReadsBack(keys: seq<string>, row: Row)
    requires |row| == |keys|
    ensures ReadRow(Meaning(RowDoc(keys, row))) == row
  {
    hide NumberFields;
    var fields := RowDoc(keys, row).fields;
    forall i | 0 <= i < |row|
      ensures ReadCell(FieldMeanings(fields, 0)[i].value) == row[i]
    {
      MeaningAt(fields, 0, i);
    }
  }

  lemma RowsReadBack(keys: seq<string>, rows: seq<Row>)
    requires RowsFit(keys, rows)
    ensures ReadRows(Meaning(RowsDoc(keys, rows))) == rows
  {
    hide NumberFields;
    var items := RowsDoc(keys, rows).items;
    forall i | 0 <= i < |rows|
      ensures ReadRow(Meanings(items, 0)[i]) == rows[i]
    {
      ItemMeaningAt(items, 0, i);
      RowReadsBack(keys, rows[i]);
    }
  }

  /** The i-th member of a printed process is the i-th field, keys included. */
  lemma FieldReadsBack(p: Process, i: nat)
    requires i < |DocOf(p).fields|
    ensures var f := DocOf(p).fields[i];
            && Meaning(DocOf(p)).JObject? && i < |Meaning(DocOf(p)).members|
            && Meaning(DocOf(p)).members[i] == Member(f.key, Meaning(f.value))
            && MemberAtIndex(Meaning(DocOf(p)), i) == Meaning(f.value)
  {
    hide NumberFields;
    MeaningAt(DocOf(p).fields, 0, i);
  }

  /** Which field stands where. */
  lemma FieldsAt(p: Process)
    ensures var fs := DocOf(p).fields;
            |fs| == N_NUMBERS + 8 && fs[..3] == HeadDocs(p) && fs[N_NUMBERS + 3..N_NUMBERS + 7] == ListDocs(p)
    ensures forall i {:trigger DocOf(p).fields[3 + i]} ::
              0 <= i < N_NUMBERS ==> DocOf(p).fields[3 + i] == NumberDocAt(p.numbers, i)
  {
    hide NumberFields, NumberDocAt;
    var fs := DocOf(p).fields;
    HeadSizes(p);
    hide HeadDocs, ListDocs;
    forall i {:trigger fs[3 + i]} | 0 <= i < N_NUMBERS
      ensures fs[3 + i] == NumberDocAt(p.numbers, i)
    {
      NumberDocsAt(p.numbers, 0, i);
      assert fs[3 + i] == NumberDocs(p.numbers, 0)[i];
    }
  }

  lemma HeadSizes(p: Process)
    ensures |HeadDocs(p)| == 3 && |ListDocs(p)| == 4
  {
    hide NumberFields;
  }

  /** The numbers read from a printed process are its numbers. */
  lemma NumbersReadBack(p: Process)
    requires Printable(p)
    ensures ReadNumbers(Meaning(DocOf(p))) == p.numbers
  {
    hide NumberFields, DocOf, Meaning, ReadNumber, MemberAtIndex;
    assert |p.numbers| == N_NUMBERS;
    forall i | 0 <= i < N_NUMBERS
      ensures ReadNumber(NumberFields()[i], MemberAtIndex(Meaning(DocOf(p)), 3 + i)) == p.numbers[i]
    {
      NumberAtReadsBack(p, i);
    }
  }

  lemma NumberAtReadsBack(p: Process, i: nat)
    requires Printable(p) && i < N_NUMBERS
    ensures ReadNumber(NumberFields()[i], MemberAtIndex(Meaning(DocOf(p)), 3 + i)) == p.numbers[i]
  {
    assert NumberFields()[i].Whole? ==> p.numbers[i] >= 0;
    hide NumberFields, DocOf, Meaning, ReadNumber, NumberDoc, Printable;
    FieldsAt(p);
    FieldReadsBack(p, 3 + i);
    assert DocOf(p).fields[3 + i] == NumberDocAt(p.numbers, i);
    NumberReadsBack(NumberFields()[i], p.numbers[i]);
  }

  lemma HeadReadsBack(p: Process)
    ensures var j := Meaning(DocOf(p));
            && ReadWhole(MemberAtIndex(j, 0)) == p.pid && ReadText(MemberAtIndex(j, 1)) == p.comm
            && ReadText(MemberAtIndex(j, 2)) == p.cmdline
  {
    hide NumberFields;
    var fs := DocOf(p).fields;
    FieldsAt(p);
    FieldReadsBack(p, 0);
    FieldReadsBack(p, 1);
    FieldReadsBack(p, 2);
    assert fs[0] == fs[..3][0] && fs[1] == fs[..3][1] && fs[2] == fs[..3][2];
  }

  lemma ListsReadBack(p: Process)
    requires Printable(p)
    ensures var j, n := Meaning(DocOf(p)), N_NUMBERS;
            && ReadRows(MemberAtIndex(j, n + 3)) == p.counters && ReadRows(MemberAtIndex(j, n + 4)) == p.samples
            && ReadWhole(MemberAtIndex(j, n + 5)) == p.samplesLost && ReadRows(MemberAtIndex(j, n + 6)) == p.maps
  {
    hide NumberFields;
    hide RowsDoc, Printable, RowsFit;
    var fs, n := DocOf(p).fields, N_NUMBERS;
    FieldsAt(p);
    FieldReadsBack(p, n + 3);
    FieldReadsBack(p, n + 4);
    FieldReadsBack(p, n + 5);
    FieldReadsBack(p, n + 6);
    var ls := fs[n + 3..n + 7];
    assert fs[n + 3] == ls[0] && fs[n + 4] == ls[1] && fs[n + 5] == ls[2] && fs[n + 6] == ls[3];
    RowsOf(p);
    RowsReadBack(COUNTER_KEYS, p.counters);
    RowsReadBack(SAMPLE_KEYS, p.samples);
    RowsReadBack(MAP_KEYS, p.maps);
  }

  lemma RowsOf(p: Process)
    requires Printable(p)
    ensures RowsFit(COUNTER_KEYS, p.counters) && RowsFit(SAMPLE_KEYS, p.samples) && RowsFit(MAP_KEYS, p.maps)
  {
    hide NumberFields;
  }

  /** Reading what a printed process means gives the process back, children in the same order. */
  lemma {:induction false} ProcessReadsBack(p: Process)
    requires Printable(p)
    ensures ReadProcess(Meaning(DocOf(p))) == p
  {
    hide NumberFields, DocOf, Meaning, ReadNumbers, ReadChildren, ReadRows, Printable;
    NumbersReadBack(p);
    HeadReadsBack(p);
    ListsReadBack(p);
    ChildrenReadBack(p);
  }

  lemma {:induction false} ChildrenReadBack(p: Process)
    requires Printable(p)
    ensures ReadChildren(Meaning(DocOf(p))) == p.children
    decreases p, 1
  {
    hide NumberFields, DocOf, Meaning, Meanings, ReadProcess, ReadChildren, MemberAtIndex, Printable;
    var items := ChildrenMember(p);
    ChildrenOf(Meaning(DocOf(p)), Meanings(items, 0));
    forall i | 0 <= i < |p.children|
      ensures ReadProcess(Meanings(items, 0)[i]) == p.children[i]
    {
      ChildReadsBack(p, items, i);
    }
  }

  lemma {:induction false} ChildReadsBack(p: Process, items: seq<Doc>, i: nat)
    requires Printable(p) && i < |p.children| == |items| && items[i] == DocOf(p.children[i])
    ensures ReadProcess(Meanings(items, 0)[i]) == p.children[i]
    decreases p, 0
  {
    PrintableKids(p);
    hide NumberFields, DocOf, Meaning, Meanings, ReadProcess, Printable;
    ItemMeaningAt(items, 0, i);
    ProcessReadsBack(p.children[i]);
  }

  lemma PrintableKids(p: Process)
    requires Printable(p)
    ensures forall i :: 0 <= i < |p.children| ==> Printable(p.children[i])
  {
    hide NumberFields, RowsFit, NulFree;
  }

  lemma ChildrenField(p: Process) returns (items: seq<Doc>)
    ensures |items| == |p.children| && forall i :: 0 <= i < |items| ==> items[i] == DocOf(p.children[i])
    ensures |DocOf(p).fields| == N_NUMBERS + 8
    ensures DocOf(p).fields[N_NUMBERS + 7] == Field("children", DArray(items))
  {
    hide NumberFields, NumberDocAt, NumberDoc, RowsDoc, TextOrNull;
    items := seq(|p.children|, i requires 0 <= i < |p.children| => DocOf(p.children[i]));
    HeadSizes(p);
  }

  lemma ChildrenMember(p: Process) returns (items: seq<Doc>)
    ensures |items| == |p.children| && forall i :: 0 <= i < |items| ==> items[i] == DocOf(p.children[i])
    ensures MemberAtIndex(Meaning(DocOf(p)), N_NUMBERS + 7) == JArray(Meanings(items, 0))
  {
    hide NumberFields, DocOf, Meaning, Meanings;
    items := ChildrenField(p);
    FieldReadsBack(p, N_NUMBERS + 7);
    MeaningOfArray(items);
  }

  lemma MeaningOfArray(items: seq<Doc>)
    ensures Meaning(DArray(items)) == JArray(Meanings(items, 0))
  {
  }

  lemma ChildrenOf(j: Json, js: seq<Json>)
    requires MemberAtIndex(j, N_NUMBERS + 7) == JArray(js)
    ensures |ReadChildren(j)| == |js|
    ensures forall i :: 0 <= i < |js| ==> ReadChildren(j)[i] == ReadProcess(js[i])
  {
    hide ReadProcess;
  }

  // ---- the printer ------------------------------------------------------------------------------

  /** What is written so far, followed by the fields from i on, is the whole text. */
  ghost predicate Writing(out: string, fields: seq<Field>, i: nat, full: string)
    requires i < |fields|
  {
    out + FieldsText(fields, i) == full
  }

  lemma Advance(out: string, fields: seq<Field>, i: nat, full: string)
    requires i < |fields| && Writing(out, fields, i, full)
    ensures i + 1 < |fields| ==> Writing(out + FieldText(fields[i]) + ",", fields, i + 1, full)
    ensures i + 1 == |fields| ==> out + FieldText(fields[i]) + "}" == full
  {
    hide FieldText;
    var w := FieldText(fields[i]);
    if i + 1 < |fields| {
      assert out + (w + ("," + FieldsText(fields, i + 1))) == out + w + "," + FieldsText(fields, i + 1);
    } else {
      assert out + (w + "}") == out + w + "}";
    }
  }

  lemma Opened(out: string, fields: seq<Field>)
    requires fields != []
    ensures Writing(out + "{", fields, 0, out + Text(DObject(fields)))
  {
    assert out + "{" + FieldsText(fields, 0) == out + ("{" + FieldsText(fields, 0));
  }

  /** A key as it stands in the printer's formats; keys hold nothing that needs escaping. */
  function Key(key: string): string {
    Quoted(key) + ":"
  }

  method WriteTextField(out: string, key: string, s: Option<string>) returns (r: string)
    requires s.Some? ==> NulFree(s.value)
    ensures r == out + FieldText(Field(key, TextOrNull(s)))
  {
    r := out + Key(key);
    if s.Some? {
      r := WriteString(r, s.value);
    } else {
      r := r + "null";
    }
  }

  /** "%u" for a whole number, "%.6f" for seconds. */
  method WriteNumberField(out: string, key: string, doc: Doc) returns (r: string)
    requires doc.DInt? || doc.DFixed?
    ensures r == out + FieldText(Field(key, doc))
  {
    r := out + Key(key) + Text(doc);
  }

  method WriteCell(out: string, c: Cell) returns (r: string)
    requires c.Name? ==> NulFree(c.s)
    ensures r == out + Text(CellDoc(c))
  {
    match c {
      case Name(s) => r := WriteString(out, s);
      case Count(n) => r := out + Decimal(n);
    }
  }

  method WriteRow(out: string, keys: seq<string>, row: Row) returns (r: string)
    requires |row| == |keys| > 0 && forall c :: 0 <= c < |row| && row[c].Name? ==> NulFree(row[c].s)
    ensures r == out + Text(RowDoc(keys, row))
  {
    ghost var fields := RowDoc(keys, row).fields;
    hide Quoted, Text;
    r := out + "{";
    Opened(out, fields);
    var i := 0;
    while i + 1 < |keys|
      invariant i < |keys| && Writing(r, fields, i, out + Text(RowDoc(keys, row)))
    {
      Advance(r, fields, i, out + Text(RowDoc(keys, row)));
      ghost var before := r;
      r := WriteCell(r + Key(keys[i]), row[i]);
      assert r == before + FieldText(fields[i]);
      r := r + ",";
      i := i + 1;
    }
    Advance(r, fields, i, out + Text(RowDoc(keys, row)));
    ghost var before := r;
    r := WriteCell(r + Key(keys[i]), row[i]);
    assert r == before + FieldText(fields[i]);
    r := r + "}";
  }

  /** A list printed as an array of objects. */
  method WriteRows(out: string, keys: seq<string>, rows: seq<Row>) returns (r: string)
    requires RowsFit(keys, rows) && |keys| > 0
    ensures r == out + Text(RowsDoc(keys, rows))
  {
    ghost var items := RowsDoc(keys, rows).items;
    hide RowDoc;
    ghost var full := out + Text(RowsDoc(keys, rows));
    r := out + "[";
    ItemsOpened(out, items);
    var first := true;
    for i := 0 to |rows|
      invariant first == (i == 0)
      invariant if i == 0 then r == out + "[" else WritingItems(r, items, i, full)
    {
      if !first {
        r := r + ",";
      }
      AdvanceItems(r, items, i, full);
      r := WriteRow(r, keys, rows[i]);
      first := false;
    }
    r := r + "]";
  }

  /** What is written so far, followed by a separator and the items from i on, is the whole text. */
  ghost predicate WritingItems(out: string, items: seq<Doc>, i: nat, full: string) {
    out + (if i >= |items| then "]" else "," + ItemsText(items, i)) == full
  }

  lemma ItemsOpened(out: string, items: seq<Doc>)
    ensures items == [] ==> out + "[" + "]" == out + Text(DArray(items))
    ensures items != [] ==> out + "[" + ItemsText(items, 0) == out + Text(DArray(items))
  {
    hide ItemsText;
    if items == [] {
      assert out + "[" + "]" == out + "[]";
    } else {
      assert out + "[" + ItemsText(items, 0) == out + ("[" + ItemsText(items, 0));
    }
  }

  lemma AdvanceItems(out: string, items: seq<Doc>, i: nat, full: string)
    requires i < |items|
    ensures out + ItemsText(items, i) == full ==> WritingItems(out + Text(items[i]), items, i + 1, full)
  {
    hide Text;
    var w := Text(items[i]);
    if i + 1 < |items| {
      assert out + (w + ("," + ItemsText(items, i + 1))) == out + w + ("," + ItemsText(items, i + 1));
    } else {
      assert out + (w + "]") == out + w + "]";
    }
  }

  lemma HeadFields(p: Process)
    ensures var fs := DocOf(p).fields;
            && |fs| >= 3 && fs[0] == Field("pid", DInt(p.pid))
            && fs[1] == Field("comm", TextOrNull(p.comm)) && fs[2] == Field("cmdline", TextOrNull(p.cmdline))
  {
    FieldsAt(p);
    hide NumberFields, DocOf;
    var fs := DocOf(p).fields;
    assert fs[0] == fs[..3][0] && fs[1] == fs[..3][1] && fs[2] == fs[..3][2];
  }

  lemma StringsPrintable(p: Process)
    requires Printable(p)
    ensures (p.comm.Some? ==> NulFree(p.comm.value)) && (p.cmdline.Some? ==> NulFree(p.cmdline.value))
  {
    hide NumberFields, RowsFit, NulFree;
  }

  method WriteHead(out: string, p: Process, ghost full: string) returns (r: string)
    requires Printable(p) && |DocOf(p).fields| == N_NUMBERS + 8 && Writing(out, DocOf(p).fields, 0, full)
    ensures Writing(r, DocOf(p).fields, 3, full)
  {
    hide NumberFields, DocOf, FieldText, Writing, Printable, NulFree;
    ghost var fs := DocOf(p).fields;
    HeadFields(p);
    StringsPrintable(p);
    Advance(out, fs, 0, full);
    r := WriteNumberField(out, "pid", DInt(p.pid));
    r := r + ",";
    Advance(r, fs, 1, full);
    r := WriteTextField(r, "comm", p.comm);
    r := r + ",";
    Advance(r, fs, 2, full);
    r := WriteTextField(r, "cmdline", p.cmdline);
    r := r + ",";
  }

  method WriteNumbers(out: string, p: Process, ghost full: string) returns (r: string)
    requires |p.numbers| == N_NUMBERS
    requires |DocOf(p).fields| == N_NUMBERS + 8 && Writing(out, DocOf(p).fields, 3, full)
    ensures Writing(r, DocOf(p).fields, N_NUMBERS + 3, full)
  {
    ghost var fs := DocOf(p).fields;
    FieldsAt(p);
    hide NumberFields, DocOf, FieldText, Writing;
    r := out;
    for i := 0 to N_NUMBERS
      invariant Writing(r, fs, 3 + i, full)
    {
      Advance(r, fs, 3 + i, full);
      assert DocOf(p).fields[3 + i] == NumberDocAt(p.numbers, i);
      r := WriteNumberField(r, NumberFields()[i].key, NumberDoc(NumberFields()[i], p.numbers[i]));
      r := r + ",";
    }
  }

  method WriteLists(out: string, p: Process, ghost full: string) returns (r: string)
    requires Printable(p) && |DocOf(p).fields| == N_NUMBERS + 8 && Writing(out, DocOf(p).fields, N_NUMBERS + 3, full)
    ensures Writing(r, DocOf(p).fields, N_NUMBERS + 7, full)
  {
    ghost var fs, n := DocOf(p).fields, N_NUMBERS;
    FieldsAt(p);
    RowsOf(p);
    ghost var ls := fs[n + 3..n + 7];
    assert fs[n + 3] == ls[0] && fs[n + 4] == ls[1] && fs[n + 5] == ls[2] && fs[n + 6] == ls[3];
    hide NumberFields, DocOf, FieldText, Writing, RowsFit, RowsDoc, Printable;
    Advance(out, fs, n + 3, full);
    r := WriteRowsField(out, "target_counters", COUNTER_KEYS, p.counters);
    r := r + ",";
    Advance(r, fs, n + 4, full);
    r := WriteRowsField(r, "target_samples", SAMPLE_KEYS, p.samples);
    r := r + ",";
    Advance(r, fs, n + 5, full);
    r := WriteNumberField(r, "target_samples_lost", DInt(p.samplesLost));
    r := r + ",";
    Advance(r, fs, n + 6, full);
    r := WriteRowsField(r, "target_maps", MAP_KEYS, p.maps);
    r := r + ",";
  }

  method WriteRowsField(out: string, key: string, keys: seq<string>, rows: seq<Row>) returns (r: string)
    requires RowsFit(keys, rows) && |keys| > 0
    ensures r == out + FieldText(Field(key, RowsDoc(keys, rows)))
  {
    hide RowsDoc, RowsFit, Text;
    r := WriteRows(out + Key(key), keys, rows);
  }

  /** print_process_json: the process, then its children from the eldest on. */
  method WriteProcess(out: string, p: Process) returns (r: string)
    requires Printable(p)
    ensures r == out + Text(DocOf(p))
    decreases p, 1
  {
    ghost var fs, full := DocOf(p).fields, out + Text(DocOf(p));
    ghost var items := ChildrenField(p);
    PrintableKids(p);
    Opened(out, fs);
    hide NumberFields, DocOf, FieldText, Writing, Text;
    r := WriteHead(out + "{", p, full);
    r := WriteNumbers(r, p, full);
    r := WriteLists(r, p, full);
    Advance(r, fs, N_NUMBERS + 7, full);
    r := WriteChildrenField(r, p, items);
    r := r + "}";
  }

  method WriteChildrenField(out: string, p: Process, ghost items: seq<Doc>) returns (r: string)
    requires forall i :: 0 <= i < |p.children| ==> Printable(p.children[i])
    requires |items| == |p.children| && forall i :: 0 <= i < |items| ==> items[i] == DocOf(p.children[i])
    ensures r == out + FieldText(Field("children", DArray(items)))
    decreases p, 0
  {
    hide NumberFields, DocOf, Text, Quoted, Printable;
    ghost var start, full := out + Key("children"), out + Key("children") + Text(DArray(items));
    r := out + Key("children") + "[";
    ItemsOpened(start, items);
    var first := true;
    for i := 0 to |p.children|
      invariant first == (i == 0)
      invariant if i == 0 then r == start + "[" else WritingItems(r, items, i, full)
    {
      if !first {
        r := r + ",";
      }
      AdvanceItems(r, items, i, full);
      r := WriteProcess(r, p.children[i]);
      first := false;
    }
    r := r + "]";
  }

  /**
   Parsing a printed process tree succeeds, takes in all of it, and gives back the same tree: pids, comms, numbers,
   lists, and children from the eldest to the youngest.
   */
  method PrintAndParse(p: Process) returns (q: Option<Process>)
    requires Printable(p)
    ensures q == Some(p)
  {
    var text := WriteProcess("", p);
    assert text == Text(DocOf(p));
    DocumentRoundTrip(DocOf(p));
    ProcessReadsBack(p);
    hide DocOf, Text, Meaning, ReadProcess;
    var j, error := JsonParse(text);
    return if j.Some? then Some(ReadProcess(j.value)) else None;
  }

  /** The same as a law about the printed text and what the parser makes of it. */
  lemma PrintedTreeRoundTrip(p: Process)
    requires Printable(p)
    ensures var r := Document(Text(DocOf(p)));
            r.Ok? && r.next == |Text(DocOf(p))| && ReadProcess(r.value) == p
  {
    hide DocOf, Text, Meaning, ReadProcess;
    DocumentRoundTrip(DocOf(p));
    ProcessReadsBack(p);
  }

  // ---- looking printed fields up by key ---------------------------------------------------------

  predicate NotChildren(key: string) {
    key != "" && (key[0] != 'c' || |key| != 8)
  }

  lemma NumberKeysDiffer(i: nat)
    requires i < N_NUMBERS
    ensures NotChildren(NumberFields()[i].key)
  {
  }

  lemma HeadKeys(p: Process, i: nat)
    requires i < 3
    ensures NotChildren(HeadDocs(p)[i].key)
  {
  }

  lemma ListKeys(p: Process, i: nat)
    requires i < 4
    ensures NotChildren(ListDocs(p)[i].key)
  {
  }

  lemma ChildrenIsLast(p: Process, i: nat)
    requires |DocOf(p).fields| == N_NUMBERS + 8 && i < N_NUMBERS + 7
    ensures NotChildren(DocOf(p).fields[i].key)
  {
    var fs, n := DocOf(p).fields, N_NUMBERS;
    FieldsAt(p);
    HeadSizes(p);
    hide NumberFields, DocOf, NotChildren, HeadDocs, ListDocs, NumberDoc;
    if i < 3 {
      assert fs[i] == fs[..3][i];
      HeadKeys(p, i);
    } else if i < n + 3 {
      var k: nat := i - 3;
      assert DocOf(p).fields[3 + k] == NumberDocAt(p.numbers, k);
      NumberKeysDiffer(k);
    } else {
      assert fs[i] == fs[n + 3..n + 7][i - n - 3];
      ListKeys(p, i - n - 3);
    }
  }

  /** json_object_get finds the pid and comm of a printed process. */
  lemma PidAndCommFound(p: Process)
    ensures var j := Meaning(DocOf(p));
            && ObjectGet(j, "pid") == Some(JNumber(p.pid as real))
            && ObjectGet(j, "comm") == Some(Meaning(TextOrNull(p.comm)))
  {
    var j, fs := Meaning(DocOf(p)), DocOf(p).fields;
    FieldsAt(p);
    assert fs[0] == fs[..3][0] && fs[1] == fs[..3][1];
    FieldReadsBack(p, 0);
    FieldReadsBack(p, 1);
    hide NumberFields, DocOf, FieldMeanings;
    FindsFirst(j.members, 0, 0);
    FindsFirst(j.members, 0, 1);
  }

  /** json_object_get finds the children of a printed process, eldest first. */
  lemma ChildrenFound(p: Process) returns (items: seq<Doc>)
    ensures |items| == |p.children| && forall i :: 0 <= i < |items| ==> items[i] == DocOf(p.children[i])
    ensures ArrayItems(ObjectGet(Meaning(DocOf(p)), "children")) == Meanings(items, 0)
  {
    var n, j := N_NUMBERS, Meaning(DocOf(p));
    items := ChildrenField(p);
    FieldReadsBack(p, n + 7);
    MeaningOfArray(items);
    hide NumberFields, DocOf, Meaning, Meanings;
    forall i | 0 <= i < n + 7
      ensures j.members[i].key != "children"
    {
      FieldReadsBack(p, i);
      KeyIsNotChildren(p, i);
    }
    FindsFirst(j.members, 0, n + 7);
  }

  lemma KeyIsNotChildren(p: Process, i: nat)
    requires |DocOf(p).fields| == N_NUMBERS + 8 && i < N_NUMBERS + 7
    ensures DocOf(p).fields[i].key != "children"
  {
    hide NumberFields, DocOf, NotChildren;
    ChildrenIsLast(p, i);
    NotChildrenMeans(DocOf(p).fields[i].key);
  }

  lemma NotChildrenMeans(key: string)
    requires NotChildren(key)
    ensures key != "children"
  {
    assert |"children"| == 8 && "children"[0] == 'c';
  }
}
