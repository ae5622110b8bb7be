/**
 The columns of a stored run (store.c): which value of the record each column holds, and how numbers in text are read.
 */
module RunSchema {
  import opened Decimals
  import opened JsonReader
  import opened JsonStrings
  import opened Options
  import opened RunStore

  /** Where a value stands in a record: under a key, or under a key of a part, or of a part of a part. */
  datatype Place = Top(key: string) | In(part: string, key: string) | Deep(part: string, inner: string, key: string)

  /** What a column makes of the value there; the default is for a value of another type, or none. */
  datatype Kind = String(default: Value) | Number | Integer | Flag | Mask | IntegerOrNull | FlagOrNull

  datatype Column = Column(name: string, place: Place, kind: Kind)

  /** Columns of the runs table, but for the key, start time and command, which are kept, and the path of the file. */
  const COLUMNS: seq<Column> := [
    Column("run_index_schema_version", Top("schema_version"), String(Text(""))),
    Column("collector", Top("collector"), String(Text("wspy"))),
    Column("wspy_version", Top("wspy_version"), String(SqlNull)),
    Column("cpu_vendor", Top("cpu_vendor"), String(SqlNull)),
    Column("cpu_family", Top("cpu_family"), Integer),
    Column("cpu_model", Top("cpu_model"), Integer),
    Column("finish_time", Top("finish_time"), String(SqlNull)),
    Column("elapsed_seconds", Top("elapsed_seconds"), Number),
    Column("exit_known", In("exit_status", "known"), Flag),
    Column("exit_exited", In("exit_status", "exited"), Flag),
    Column("exit_code", In("exit_status", "exit_code"), Integer),
    Column("exit_signaled", In("exit_status", "signaled"), Flag),
    Column("exit_term_signal", In("exit_status", "term_signal"), Integer),
    Column("per_core", In("options", "per_core"), Flag),
    Column("system_flag", In("options", "system"), Flag),
    Column("csv_flag", In("options", "csv"), Flag),
    Column("tree_flag", In("options", "tree"), Flag),
    Column("interval_seconds", In("options", "interval_seconds"), Integer),
    Column("counter_mask", In("options", "counter_mask"), String(SqlNull)),
    Column("counter_mask_int", In("options", "counter_mask"), Mask),
    Column("counters_requested", In("counter_coverage", "requested"), Integer),
    Column("counters_measured", In("counter_coverage", "measured"), Integer),
    Column("output_path", In("output_files", "output_path"), String(SqlNull)),
    Column("tree_output_path", In("output_files", "tree_output_path"), String(SqlNull)),
    Column("manifest_path", In("output_files", "manifest_path"), String(SqlNull)),
    Column("preset_name", In("configuration_provenance", "preset"), String(SqlNull)),
    Column("config_name", In("configuration_provenance", "configuration"), String(SqlNull)),
    Column("affinity_mode", Deep("options", "affinity", "mode"), String(SqlNull)),
    Column("affinity_requested", Deep("options", "affinity", "requested"), String(SqlNull)),
    Column("affinity_cpus", Deep("options", "affinity", "cpus"), String(SqlNull))]

  /** Columns of the run_environment table. */
  const ENVIRONMENT: seq<Column> := [
    Column("virt_role", In("environment", "virt_role"), String(SqlNull)),
    Column("hypervisor_vendor", In("environment", "hypervisor_vendor"), String(SqlNull)),
    Column("microcode_version", In("environment", "microcode_version"), String(SqlNull)),
    Column("bios_vendor", In("environment", "bios_vendor"), String(SqlNull)),
    Column("bios_version", In("environment", "bios_version"), String(SqlNull)),
    Column("bios_date", In("environment", "bios_date"), String(SqlNull)),
    Column("cpu_governor", In("environment", "cpu_governor"), String(SqlNull)),
    Column("cpu_scaling_driver", In("environment", "cpu_scaling_driver"), String(SqlNull)),
    Column("cpu_governor_uniform", In("environment", "cpu_governor_uniform"), FlagOrNull),
    Column("memory_total_kb", In("environment", "memory_total_kb"), IntegerOrNull),
    Column("compiler_version", In("environment", "compiler_version"), String(SqlNull)),
    Column("libc_version", In("environment", "libc_version"), String(SqlNull)),
    Column("captured_count", In("environment_coverage", "captured"), Integer),
    Column("probed_count", In("environment_coverage", "probed"), Integer)]

  function At(record: Json, place: Place): Option<Json> {
    match place
    case Top(key) => ObjectGet(record, key)
    case In(part, key) => Under(ObjectGet(record, part), key)
    case Deep(part, inner, key) => Under(Under(ObjectGet(record, part), inner), key)
  }

  function Under(o: Option<Json>, key: string): Option<Json> {
    match o
    case None => None
    case Some(j) => ObjectGet(j, key)
  }

  /** k is x without what is behind its point. */
  predicate IsIntegerPart(k: int, x: real) {
    if x < 0.0 then k as real - 1.0 < x <= k as real <= 0.0 else 0.0 <= k as real <= x < k as real + 1.0
  }

  predicate IsInteger(v: Value, x: real) {
    v.Whole? && IsIntegerPart(v.n, x)
  }

  /** A signed 64-bit number that is m modulo 2 to the 64th. */
  predicate IsSigned64(v: Value, m: int) {
    v.Whole? && -0x8000_0000_0000_0000 <= v.n < 0x8000_0000_0000_0000 && (v.n - m) % 0x1_0000_0000_0000_0000 == 0
  }

  /** What a column of a kind holds for the value at its place. */
  predicate Stores(v: Value, o: Option<Json>, kind: Kind) {
    match kind
    case String(default) => v == match o { case Some(JString(s)) => Text(s) case _ => default }
    case Number => v == match o { case Some(JNumber(x)) => Float(x) case _ => Float(0.0) }
    case Integer => (match o case Some(JNumber(x)) => IsInteger(v, x) case _ => v == Whole(0))
    case Flag => v == Whole(if o == Some(JBool(true)) then 1 else 0)
    case Mask => (match o case Some(JString(s)) => IsSigned64(v, Strtoul16(s)) case _ => v == Whole(0))
    case IntegerOrNull => (match o case Some(JNumber(x)) => IsInteger(v, x) case _ => v == SqlNull)
    case FlagOrNull => v == match o { case Some(JBool(b)) => Whole(if b then 1 else 0) case _ => SqlNull }
  }

  ghost predicate AllStore(vs: seq<Value>, record: Json, columns: seq<Column>) {
    |vs| >= |columns|
    && forall i :: 0 <= i < |columns| ==> Stores(vs[i], At(record, columns[i].place), columns[i].kind)
  }

  // ---- the readers of a column ------------------------------------------------------------------

  lemma TruncatedIs(x: real)
    ensures IsIntegerPart(Truncated(x), x)
  {
  }

  lemma TextStores(record: Json, part: string, inner: string, key: string)
    ensures Stores(TextOrNull(Some(record), key), At(record, Top(key)), String(SqlNull))
    ensures Stores(TextOrNull(Part(Some(record), part), key), At(record, In(part, key)), String(SqlNull))
    ensures Stores(TextOrNull(Part(Part(Some(record), part), inner), key), At(record, Deep(part, inner, key)),
                   String(SqlNull))
  {
    hide ObjectGet;
  }

  lemma IntegerStores(record: Json, part: string, key: string)
    ensures Stores(IntOf(Some(record), key), At(record, Top(key)), Integer)
    ensures Stores(IntOf(Part(Some(record), part), key), At(record, In(part, key)), Integer)
    ensures Stores(NumberOrNull(Part(Some(record), part), key), At(record, In(part, key)), IntegerOrNull)
  {
    hide ObjectGet, Truncated, IsIntegerPart;
    var o, p := At(record, Top(key)), At(record, In(part, key));
    TruncatedIs(if o.Some? && o.value.JNumber? then o.value.n else 0.0);
    TruncatedIs(if p.Some? && p.value.JNumber? then p.value.n else 0.0);
    TruncatedZero();
  }

  lemma TruncatedZero()
    ensures Truncated(0.0) == 0
  {
  }

  lemma FlagStores(record: Json, part: string, key: string)
    ensures Stores(BoolOf(Part(Some(record), part), key), At(record, In(part, key)), Flag)
    ensures Stores(BoolOrNull(Part(Some(record), part), key), At(record, In(part, key)), FlagOrNull)
  {
    hide ObjectGet;
  }

  lemma MaskStores(record: Json, part: string)
    ensures Stores(MaskOf(Part(Some(record), part)), At(record, In(part, "counter_mask")), Mask)
  {
    hide ObjectGet, Strtoul16;
  }

  lemma DefaultedStores(record: Json, key: string, default: string)
    ensures Stores(Text(GetString(record, key, default)), At(record, Top(key)), String(Text(default)))
    ensures Stores(Float(GetNumber(record, key, 0.0)), At(record, Top(key)), Number)
  {
    hide ObjectGet;
  }

  // ---- whole rows -------------------------------------------------------------------------------

  /** Every column of an accepted record's row holds what stands at its place in the record. */
  lemma ColumnsStore(record: Json, path: string)
    ensures AllStore(Columns(record, path), record, COLUMNS)
    ensures |Columns(record, path)| == |COLUMNS| + 1 && Columns(record, path)[|COLUMNS|] == Text(path)
  {
    hide TextOrNull, IntOf, BoolOf, MaskOf, Stores, At, ObjectGet, GetString, GetNumber;
    DefaultedStores(record, "schema_version", "");
    DefaultedStores(record, "collector", "wspy");
    DefaultedStores(record, "elapsed_seconds", "");
    TextStores(record, "", "", "wspy_version");
    TextStores(record, "", "", "cpu_vendor");
    TextStores(record, "", "", "finish_time");
    IntegerStores(record, "", "cpu_family");
    IntegerStores(record, "", "cpu_model");
    IntegerStores(record, "exit_status", "exit_code");
    IntegerStores(record, "exit_status", "term_signal");
    IntegerStores(record, "options", "interval_seconds");
    IntegerStores(record, "counter_coverage", "requested");
    IntegerStores(record, "counter_coverage", "measured");
    FlagStores(record, "exit_status", "known");
    FlagStores(record, "exit_status", "exited");
    FlagStores(record, "exit_status", "signaled");
    FlagStores(record, "options", "per_core");
    FlagStores(record, "options", "system");
    FlagStores(record, "options", "csv");
    FlagStores(record, "options", "tree");
    MaskStores(record, "options");
    TextStores(record, "options", "", "counter_mask");
    TextStores(record, "output_files", "", "output_path");
    TextStores(record, "output_files", "", "tree_output_path");
    TextStores(record, "output_files", "", "manifest_path");
    TextStores(record, "configuration_provenance", "", "preset");
    TextStores(record, "configuration_provenance", "", "configuration");
    TextStores(record, "options", "affinity", "mode");
    TextStores(record, "options", "affinity", "requested");
    TextStores(record, "options", "affinity", "cpus");
  }

  /** A record with an environment stores each of its values in the column for it; one without stores none. */
  lemma EnvironmentStores(record: Json)
    ensures RecordEnvironment(record).Some? <==> ObjectGet(record, "environment").Some?
    ensures RecordEnvironment(record).Some? ==>
              |RecordEnvironment(record).value| == |ENVIRONMENT|
              && AllStore(RecordEnvironment(record).value, record, ENVIRONMENT)
  {
    hide TextOrNull, IntOf, BoolOrNull, NumberOrNull, Stores, At, ObjectGet;
    TextStores(record, "environment", "", "virt_role");
    TextStores(record, "environment", "", "hypervisor_vendor");
    TextStores(record, "environment", "", "microcode_version");
    TextStores(record, "environment", "", "bios_vendor");
    TextStores(record, "environment", "", "bios_version");
    TextStores(record, "environment", "", "bios_date");
    TextStores(record, "environment", "", "cpu_governor");
    TextStores(record, "environment", "", "cpu_scaling_driver");
    TextStores(record, "environment", "", "compiler_version");
    TextStores(record, "environment", "", "libc_version");
    FlagStores(record, "environment", "cpu_governor_uniform");
    IntegerStores(record, "environment", "memory_total_kb");
    IntegerStores(record, "environment_coverage", "captured");
    IntegerStores(record, "environment_coverage", "probed");
  }

  // ---- a counter mask as text -------------------------------------------------------------------

  /** Hexadecimal text as strtoul takes it in base 16. */
  datatype HexNumeral = HexNumeral(blanks: string, sign: string, prefix: string, digits: string)

  predicate ValidHex(n: HexNumeral) {
    && (forall i :: 0 <= i < |n.blanks| ==> IsSpace(n.blanks[i]))
    && n.sign in {"", "+", "-"} && n.prefix in {"", "0x", "0X"}
    && n.digits != "" && AreHex(n.digits, 0, |n.digits|)
  }

  function HexNumeralText(n: HexNumeral): string {
    n.blanks + (n.sign + (n.prefix + n.digits))
  }

  /** Its value; the largest number when that does not fit, and modulo 2 to the 64th when it is negative. */
  function HexNumeralValue(n: HexNumeral): int
    requires ValidHex(n)
  {
    var v := HexValueOf(n.digits, 0, |n.digits|);
    if v >= 0x1_0000_0000_0000_0000 then 0xffff_ffff_ffff_ffff
    else (if n.sign == "-" then 0 - v else v) % 0x1_0000_0000_0000_0000
  }

  lemma SignAt(t: string, p: nat, n: HexNumeral)
    requires ValidHex(n) && HasAt(t, p, n.sign) && HasAt(t, p + |n.sign|, n.prefix)
    requires HasAt(t, p + |n.sign| + |n.prefix|, n.digits)
    ensures !IsSpace(Peek(t, p)) && (Peek(t, p) == '-' <==> n.sign == "-")
    ensures Peek(t, p) == '-' || Peek(t, p) == '+' <==> n.sign != ""
  {
    hide HasAt;
    CharAt(t, p + |n.sign| + |n.prefix|, n.digits, 0);
    if n.sign != "" {
      CharAt(t, p, n.sign, 0);
    } else if n.prefix != "" {
      CharAt(t, p, n.prefix, 0);
    }
  }

  lemma PrefixAt(t: string, p: nat, n: HexNumeral)
    requires ValidHex(n) && HasAt(t, p, n.prefix) && HasAt(t, p + |n.prefix|, n.digits)
    requires n.prefix == "" ==> !IsLetter(Peek(t, p + |n.digits|), 'x')
    ensures Peek(t, p) == '0' && IsLetter(Peek(t, p + 1), 'x') && HexDigit(Peek(t, p + 2)) >= 0 <==> n.prefix != ""
  {
    hide HasAt;
    CharAt(t, p + |n.prefix|, n.digits, 0);
    if n.prefix != "" {
      CharAt(t, p, n.prefix, 0);
      CharAt(t, p, n.prefix, 1);
    } else if |n.digits| > 1 {
      CharAt(t, p, n.digits, 1);
    }
  }

  /** Where strtoul finds the parts of a number. */
  lemma StrtoulIs(t: string, p: nat, q: nat, d: nat, e: nat, minus: bool)
    requires SkipEnd(t, 0) == p && (Peek(t, p) == '-' <==> minus)
    requires q == if Peek(t, p) == '-' || Peek(t, p) == '+' then p + 1 else p
    requires d == if Peek(t, q) == '0' && IsLetter(Peek(t, q + 1), 'x') && HexDigit(Peek(t, q + 2)) >= 0 then q + 2
                  else q
    requires d <= |t| && HexEnd(t, d) == e
    ensures var v := HexValueOf(t, d, e);
            Strtoul16(t) == if v > ULONG_MAX then ULONG_MAX else if minus && v > 0 then ULONG_MAX + 1 - v else v
  {
    hide HexDigit, HexValueOf, SkipEnd, HexEnd;
  }

  lemma Modulo64(v: nat)
    requires v <= ULONG_MAX
    ensures v % 0x1_0000_0000_0000_0000 == v
    ensures (0 - v) % 0x1_0000_0000_0000_0000 == if v > 0 then ULONG_MAX + 1 - v else v
  {
  }

  /** Text that starts with a numeral is read as its value, whatever stands behind its last digit. */
  lemma StrtoulReads(t: string, n: HexNumeral)
    requires ValidHex(n) && HasAt(t, 0, HexNumeralText(n)) && HexDigit(Peek(t, |HexNumeralText(n)|)) < 0
    requires n.prefix == "" ==> !IsLetter(Peek(t, |HexNumeralText(n)|), 'x')
    ensures Strtoul16(t) == HexNumeralValue(n)
  {
    hide HasAt, HexDigit, HexValueOf, IsSpace, SkipEnd, HexEnd, Strtoul16, IsLetter, Peek;
    var p := |n.blanks|;
    var q := p + |n.sign|;
    var d := q + |n.prefix|;
    HasBoth(t, 0, n.blanks, n.sign + (n.prefix + n.digits));
    HasBoth(t, p, n.sign, n.prefix + n.digits);
    HasBoth(t, q, n.prefix, n.digits);
    HexDigitsAt(t, d, n.digits, |n.digits|);
    HexEndAt(t, d, d + |n.digits|);
    SignAt(t, p, n);
    PrefixAt(t, q, n);
    SpacesSkipped(t, 0, n.blanks);
    StrtoulIs(t, p, q, d, d + |n.digits|, n.sign == "-");
    if HexValueOf(t, d, d + |n.digits|) <= ULONG_MAX {
      Modulo64(HexValueOf(t, d, d + |n.digits|));
    }
  }

  // ---- arguments and options --------------------------------------------------------------------

  /** Word i of the command is this string. */
  predicate HasWord(record: Json, i: nat, word: string) {
    match ObjectGet(record, "command")
    case Some(JArray(items)) => i < |items| && items[i] == JString(word)
    case _ => false
  }

  /** The argument rows are the words of the command that are strings, each under its position. */
  lemma ArgumentsStore(record: Json, i: nat)
    ensures i in RecordArgs(record) ==> HasWord(record, i, RecordArgs(record)[i])
    ensures forall word :: HasWord(record, i, word) ==> i in RecordArgs(record)
  {
    hide ObjectGet;
  }

  /** Entry i of the options in the configuration provenance gives this name and value. */
  predicate HasOption(record: Json, i: nat, name: string, value: string) {
    match Under(ObjectGet(record, "configuration_provenance"), "options")
    case Some(JArray(items)) =>
      i < |items| && ObjectGet(items[i], "name") == Some(JString(name))
      && ObjectGet(items[i], "value") == Some(JString(value))
    case _ => false
  }

  ghost predicate NoLaterOption(record: Json, i: nat, name: string) {
    forall j: nat, value :: HasOption(record, j, name, value) ==> j < i
  }

  /** The option rows are the options that some entry gives a value, with the value of the last such entry. */
  lemma OptionsStore(record: Json, name: string)
    ensures name in RecordOptions(record) ==>
              exists i: nat :: HasOption(record, i, name, RecordOptions(record)[name])
                               && NoLaterOption(record, i + 1, name)
    ensures name !in RecordOptions(record) ==> NoLaterOption(record, 0, name)
  {
    hide ObjectGet, OptionsOf;
    var items := OptionItems(record);
    LastValueCounts(items, |items|, name);
    forall i: nat, value
      ensures HasOption(record, i, name, value) <==> i < |items| && Gives(items[i], name, value)
    {
    }
    if name in RecordOptions(record) {
      var i: nat :| i < |items| && Gives(items[i], name, RecordOptions(record)[name])
                    && NotGiven(items, i + 1, |items|, name);
      assert HasOption(record, i, name, RecordOptions(record)[name]) && NoLaterOption(record, i + 1, name);
    }
  }
}
