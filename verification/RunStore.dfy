/**
 The run catalog (store.c): upserting run-index records keyed by host and run id, refusing a record that collides with
 a different run, and ingesting a growing file of records in batches from a saved offset.
 */
module RunStore {
  import opened Decimals
  import opened JsonReader
  import opened JsonStrings
  import opened LineSplit
  import opened Options

  const BATCH := 5000

  datatype Key = Key(hostname: string, runId: string)

  datatype Value = SqlNull | Text(s: string) | Whole(n: int) | Float(r: real)

  /** A runs row with the rows that hang off it. The time of ingestion is left out. */
  datatype Row = Row(startTime: string, command: string, columns: seq<Value>, args: map<nat, string>,
                     options: map<string, string>, environment: Option<seq<Value>>)

  type Tables = map<Key, Row>

  // ---- what a record says -----------------------------------------------------------------------

  function Part(o: Option<Json>, key: string): Option<Json> {
    if o.Some? then ObjectGet(o.value, key) else None
  }

  function StringOf(o: Option<Json>): Option<string> {
    if o.Some? && o.value.JString? then Some(o.value.s) else None
  }

  function TextOrNull(o: Option<Json>, key: string): Value {
    var s := StringOf(Part(o, key));
    if s.Some? then Text(s.value) else SqlNull
  }

  /** (int) of a number: the part before the decimal point. */
  function Truncated(r: real): int {
    if r >= 0.0 then r.Floor else -((-r).Floor)
  }

  function IntOf(o: Option<Json>, key: string): Value {
    Whole(if o.Some? then Truncated(GetNumber(o.value, key, 0.0)) else 0)
  }

  function BoolOf(o: Option<Json>, key: string): Value {
    Whole(if o.Some? && GetBool(o.value, key, false) then 1 else 0)
  }

  const ULONG_MAX := 0xffff_ffff_ffff_ffff

  /** strtoul in base 16. */
  function Strtoul16(s: string): (v: nat)
    ensures v <= ULONG_MAX
  {
    var p := SkipEnd(s, 0);
    var q := if Peek(s, p) == '-' || Peek(s, p) == '+' then p + 1 else p;
    var d := if Peek(s, q) == '0' && IsLetter(Peek(s, q + 1), 'x') && HexDigit(Peek(s, q + 2)) >= 0 then q + 2 else q;
    var v := HexValueOf(s, d, HexEnd(s, d));
    if v > ULONG_MAX then ULONG_MAX else if Peek(s, p) == '-' && v > 0 then ULONG_MAX + 1 - v else v
  }

  /** The counter mask as the signed 64-bit number a column holds. */
  function MaskOf(o: Option<Json>): Value {
    var s := StringOf(Part(o, "counter_mask"));
    var v := if s.Some? then Strtoul16(s.value) else 0;
    Whole(if v > ULONG_MAX / 2 then v - ULONG_MAX - 1 else v)
  }

  /** The first word of the command, when there is one. */
  function Command0(record: Json): Option<string> {
    var items := ArrayItems(ObjectGet(record, "command"));
    if items != [] then StringOf(Some(items[0])) else None
  }

  /** The columns that every accepted record overwrites, in the order of the statement. */
  function Columns(record: Json, path: string): seq<Value> {
    var r := Some(record);
    var exit, opts, cov := Part(r, "exit_status"), Part(r, "options"), Part(r, "counter_coverage");
    var out, prov := Part(r, "output_files"), Part(r, "configuration_provenance");
    var aff := Part(opts, "affinity");
    [Text(GetString(record, "schema_version", "")), Text(GetString(record, "collector", "wspy")),
     TextOrNull(r, "wspy_version"), TextOrNull(r, "cpu_vendor"), IntOf(r, "cpu_family"), IntOf(r, "cpu_model"),
     TextOrNull(r, "finish_time"), Float(GetNumber(record, "elapsed_seconds", 0.0)),
     BoolOf(exit, "known"), BoolOf(exit, "exited"), IntOf(exit, "exit_code"), BoolOf(exit, "signaled"),
     IntOf(exit, "term_signal"), BoolOf(opts, "per_core"), BoolOf(opts, "system"), BoolOf(opts, "csv"),
     BoolOf(opts, "tree"), IntOf(opts, "interval_seconds"), TextOrNull(opts, "counter_mask"),
     MaskOf(opts), IntOf(cov, "requested"), IntOf(cov, "measured"), TextOrNull(out, "output_path"),
     TextOrNull(out, "tree_output_path"), TextOrNull(out, "manifest_path"), TextOrNull(prov, "preset"),
     TextOrNull(prov, "configuration"), TextOrNull(aff, "mode"), TextOrNull(aff, "requested"),
     TextOrNull(aff, "cpus"), Text(path)]
  }

  /** The command words among the first m items, by position. */
  function ArgsOf(items: seq<Json>, m: nat): map<nat, string>
    requires m <= |items|
  {
    map i: nat | i < m && items[i].JString? :: items[i].s
  }

  /** Item gives an option this name and value. */
  predicate Gives(item: Json, name: string, value: string) {
    StringOf(ObjectGet(item, "name")) == Some(name) && StringOf(ObjectGet(item, "value")) == Some(value)
  }

  predicate GivesSome(item: Json, name: string) {
    StringOf(ObjectGet(item, "name")) == Some(name) && StringOf(ObjectGet(item, "value")).Some?
  }

  /** The options among the first m items, by name. */
  function OptionsOf(items: seq<Json>, m: nat): map<string, string>
    requires m <= |items|
  {
    if m == 0 then map[]
    else
      var item := items[m - 1];
      var name, value := StringOf(ObjectGet(item, "name")), StringOf(ObjectGet(item, "value"));
      if name.Some? && value.Some? then OptionsOf(items, m - 1)[name.value := value.value] else OptionsOf(items, m - 1)
  }

  /** No item from i up to m gives the option a value. */
  ghost predicate NotGiven(items: seq<Json>, i: nat, m: nat, name: string)
    requires m <= |items|
  {
    forall j :: i <= j < m ==> !GivesSome(items[j], name)
  }

  /** Value is the one given last for the name among the first m items. */
  ghost predicate GivenLast(items: seq<Json>, m: nat, name: string, value: string)
    requires m <= |items|
  {
    exists i: nat :: i < m && Gives(items[i], name, value) && NotGiven(items, i + 1, m, name)
  }

  /** An option is stored exactly when some item gives it a value, and with the value given last. */
  lemma {:induction false} LastValueCounts(items: seq<Json>, m: nat, name: string)
    requires m <= |items|
    ensures var options := OptionsOf(items, m);
            if name in options then GivenLast(items, m, name, options[name]) else NotGiven(items, 0, m, name)
  {
    hide NotGiven, GivenLast;
    if m == 0 {
      NoneGiven(items, name);
    } else {
      LastValueCounts(items, m - 1, name);
      var name', value := StringOf(ObjectGet(items[m - 1], "name")), StringOf(ObjectGet(items[m - 1], "value"));
      if name' == Some(name) && value.Some? {
        GivenNow(items, m, name, value.value);
      } else {
        NotGivenNow(items, m, name);
      }
    }
  }

  lemma NoneGiven(items: seq<Json>, name: string)
    ensures NotGiven(items, 0, 0, name)
  {
  }

  lemma GivenNow(items: seq<Json>, m: nat, name: string, value: string)
    requires 0 < m <= |items| && Gives(items[m - 1], name, value)
    ensures GivenLast(items, m, name, value)
  {
    assert NotGiven(items, m, m, name);
  }

  /** An item that does not give the option a value leaves it as it was. */
  lemma NotGivenNow(items: seq<Json>, m: nat, name: string)
    requires 0 < m <= |items| && !GivesSome(items[m - 1], name)
    ensures NotGiven(items, 0, m - 1, name) ==> NotGiven(items, 0, m, name)
    ensures forall value :: GivenLast(items, m - 1, name, value) ==> GivenLast(items, m, name, value)
  {
    forall value | GivenLast(items, m - 1, name, value)
      ensures GivenLast(items, m, name, value)
    {
      var i: nat :| i < m - 1 && Gives(items[i], name, value) && NotGiven(items, i + 1, m - 1, name);
      assert NotGiven(items, i + 1, m, name);
    }
  }

  function CommandItems(record: Json): seq<Json> {
    ArrayItems(ObjectGet(record, "command"))
  }

  function OptionItems(record: Json): seq<Json> {
    ArrayItems(Part(ObjectGet(record, "configuration_provenance"), "options"))
  }

  function RecordArgs(record: Json): map<nat, string> {
    ArgsOf(CommandItems(record), |CommandItems(record)|)
  }

  function RecordOptions(record: Json): map<string, string> {
    OptionsOf(OptionItems(record), |OptionItems(record)|)
  }

  /** The environment row, when the record has an environment at all. */
  function RecordEnvironment(record: Json): Option<seq<Value>> {
    var env, cov := ObjectGet(record, "environment"), ObjectGet(record, "environment_coverage");
    if env.None? then None
    else
      Some([TextOrNull(env, "virt_role"), TextOrNull(env, "hypervisor_vendor"), TextOrNull(env, "microcode_version"),
            TextOrNull(env, "bios_vendor"), TextOrNull(env, "bios_version"), TextOrNull(env, "bios_date"),
            TextOrNull(env, "cpu_governor"), TextOrNull(env, "cpu_scaling_driver"),
            BoolOrNull(env, "cpu_governor_uniform"), NumberOrNull(env, "memory_total_kb"),
            TextOrNull(env, "compiler_version"), TextOrNull(env, "libc_version"),
            IntOf(cov, "captured"), IntOf(cov, "probed")])
  }

  function BoolOrNull(o: Option<Json>, key: string): Value {
    var v := Part(o, key);
    if v.Some? && v.value.JBool? then Whole(if v.value.b then 1 else 0) else SqlNull
  }

  function NumberOrNull(o: Option<Json>, key: string): Value {
    var v := Part(o, key);
    if v.Some? && v.value.JNumber? then Whole(Truncated(v.value.n)) else SqlNull
  }

  /** The key of a record; none when its host, run id or start time is missing. */
  function KeyOf(record: Json): Option<Key> {
    var hostname, runId := StringOf(ObjectGet(record, "hostname")), StringOf(ObjectGet(record, "run_id"));
    if hostname.Some? && runId.Some? && StringOf(ObjectGet(record, "start_time")).Some? then
      Some(Key(hostname.value, runId.value))
    else None
  }

  function StartTime(record: Json): string {
    GetString(record, "start_time", "")
  }

  // ---- upserting --------------------------------------------------------------------------------

  /** A record may overwrite a row when it starts at the same time and, if it says so, runs the same command. */
  predicate Accepted(startTime: string, command: string, record: Json) {
    StartTime(record) == startTime && (Command0(record).Some? ==> Command0(record).value == command)
  }

  function NewRow(record: Json, path: string): Row {
    Row(StartTime(record), if Command0(record).Some? then Command0(record).value else "", Columns(record, path),
        RecordArgs(record), RecordOptions(record), RecordEnvironment(record))
  }

  function Overwritten(row: Row, record: Json, path: string): Row {
    Row(row.startTime, row.command, Columns(record, path), RecordArgs(record), RecordOptions(record),
        if RecordEnvironment(record).Some? then RecordEnvironment(record) else row.environment)
  }

  function UpsertRow(o: Option<Row>, record: Json, path: string): Row {
    if o.None? then NewRow(record, path)
    else if Accepted(o.value.startTime, o.value.command, record) then Overwritten(o.value, record, path)
    else o.value
  }

  function Lookup(t: Tables, k: Key): Option<Row> {
    if k in t then Some(t[k]) else None
  }

  function Upsert(t: Tables, record: Json, path: string): Tables {
    var k := KeyOf(record);
    if k.None? then t else t[k.value := UpsertRow(Lookup(t, k.value), record, path)]
  }

  /** A line that is not a JSON document is skipped. */
  function UpsertLine(t: Tables, line: string, path: string): Tables {
    var d := Document(line);
    if d.Ok? then Upsert(t, d.value, path) else t
  }

  /** The tables after the first m lines. */
  function UpsertLines(t: Tables, lines: seq<string>, m: nat, path: string): Tables
    requires m <= |lines|
  {
    if m == 0 then t else UpsertLine(UpsertLines(t, lines, m - 1, path), lines[m - 1], path)
  }

  datatype Outcome = Malformed | Collision | Updated | New

  function OutcomeOf(t: Tables, record: Json): Outcome {
    var k := KeyOf(record);
    if k.None? then Malformed
    else if k.value !in t then New
    else if Accepted(t[k.value].startTime, t[k.value].command, record) then Updated
    else Collision
  }

  // ---- what becomes of a record, on its strings -------------------------------------------------

  /** The record names its host, run and start time. */
  predicate Identifies(record: Json, k: Key, startTime: string) {
    && ObjectGet(record, "hostname") == Some(JString(k.hostname))
    && ObjectGet(record, "run_id") == Some(JString(k.runId))
    && ObjectGet(record, "start_time") == Some(JString(startTime))
  }

  /** The record's command starts with this word. */
  predicate Runs(record: Json, word: string) {
    var command := ObjectGet(record, "command");
    command.Some? && command.value.JArray? && command.value.items != [] && command.value.items[0] == JString(word)
  }

  /** The record starts at another time than the row, or its command starts with another word. */
  ghost predicate Collides(row: Row, record: Json, startTime: string) {
    startTime != row.startTime || exists word :: Runs(record, word) && word != row.command
  }

  /** The row holds what the record says; an environment that the record does not have stays as it was. */
  ghost predicate Holds(row: Row, record: Json, path: string, environment: Option<seq<Value>>) {
    && row.columns == Columns(record, path) && row.args == RecordArgs(record) && row.options == RecordOptions(record)
    && row.environment == if ObjectGet(record, "environment").Some? then RecordEnvironment(record) else environment
  }

  /** The row after a record of the same run: start time and command are those it had. */
  ghost predicate Overwrites(row: Row, after: Row, record: Json, path: string) {
    Holds(after, record, path, row.environment) && after.startTime == row.startTime && after.command == row.command
  }

  /** A record without one of the three strings that identify a run is malformed and changes nothing. */
  lemma Unidentified(t: Tables, record: Json, path: string)
    requires forall k, startTime :: !Identifies(record, k, startTime)
    ensures Upsert(t, record, path) == t && OutcomeOf(t, record) == Malformed
  {
    if KeyOf(record).Some? {
      KeyIdentifies(record);
    }
  }

  lemma KeyIdentifies(record: Json)
    requires KeyOf(record).Some?
    ensures Identifies(record, KeyOf(record).value, StartTime(record))
  {
  }

  /** A record of a run that has no row adds one, with its start time and the first word of its command, if any. */
  lemma NewRunStored(t: Tables, record: Json, path: string, k: Key, startTime: string)
    requires Identifies(record, k, startTime) && k !in t
    ensures OutcomeOf(t, record) == New
    ensures var after := Upsert(t, record, path);
            && k in after && after == t[k := after[k]] && Holds(after[k], record, path, None)
            && after[k].startTime == startTime
            && (if exists word :: Runs(record, word) then Runs(record, after[k].command) else after[k].command == "")
  {
    hide Columns, RecordArgs, RecordOptions, ArrayItems, ObjectGet;
    CommandIsFirstWord(record);
  }

  lemma CommandIsFirstWord(record: Json)
    ensures forall word :: Runs(record, word) <==> Command0(record) == Some(word)
  {
  }

  /**
   A record under the key of a stored run collides exactly when it starts at another time or runs another command; then
   the row is left alone. Otherwise the row takes over everything the record says, and keeps start time and command.
   */
  lemma StoredRunUpserted(t: Tables, record: Json, path: string, k: Key, startTime: string)
    requires Identifies(record, k, startTime) && k in t
    ensures Collides(t[k], record, startTime) ==> Upsert(t, record, path) == t && OutcomeOf(t, record) == Collision
    ensures !Collides(t[k], record, startTime) ==>
              var after := Upsert(t, record, path);
              && k in after && Overwrites(t[k], after[k], record, path) && after == t[k := after[k]]
              && OutcomeOf(t, record) == Updated
  {
    hide Columns, RecordArgs, RecordOptions, Command0;
    CommandIsFirstWord(record);
    if Collides(t[k], record, startTime) {
      assert t == t[k := t[k]];
    }
  }

  /** How many of the first m lines hold a JSON document. */
  function DocumentsIn(lines: seq<string>, m: nat): nat
    requires m <= |lines|
  {
    if m == 0 then 0 else DocumentsIn(lines, m - 1) + One(Document(lines[m - 1]).Ok?)
  }

  function One(b: bool): nat {
    if b then 1 else 0
  }

  // ---- the store --------------------------------------------------------------------------------

  class Store {
    var runs: Tables        // as the open connection sees them
    var durable: Tables     // as committed
    var offset: nat
    var lastSize: nat
    var recordsSeen: nat
    var recordsNew: nat
    var recordsUpdated: nat
    var recordsCollision: nat
    var recordsMalformed: nat

    constructor ()
      ensures runs == durable == map[] && offset == lastSize == 0
      ensures recordsSeen == recordsNew == recordsUpdated == recordsCollision == recordsMalformed == 0
    {
      runs, durable, offset, lastSize := map[], map[], 0, 0;
      recordsSeen, recordsNew, recordsUpdated, recordsCollision, recordsMalformed := 0, 0, 0, 0, 0;
    }

    /** How many records were dealt with, one way or another. */
    ghost function Dealt(): nat
      reads this
    {
      recordsNew + recordsUpdated + recordsCollision + recordsMalformed
    }

    /** Between ingests nothing is uncommitted, and the offset lies within the file as it was last seen. */
    ghost predicate Settled()
      reads this`runs, this`durable, this`offset, this`lastSize
    {
      runs == durable && offset <= lastSize
    }

    /** A row for each string of the command, under its position. */
    method ReplaceArgs(record: Json) returns (args: map<nat, string>)
      ensures args == RecordArgs(record)
      ensures forall i: nat :: i in args <==> i < |CommandItems(record)| && CommandItems(record)[i].JString?
      ensures forall i :: i in args ==> args[i] == CommandItems(record)[i].s
    {
      args := map[];
      var items := CommandItems(record);
      for i := 0 to |items|
        invariant args == ArgsOf(items, i)
      {
        if !items[i].JString? {
          continue;
        }
        args := args[i := items[i].s];
      }
    }

    /** A row for each option that is given a value, with the value given last. */
    method ReplaceOptions(record: Json) returns (options: map<string, string>)
      ensures options == RecordOptions(record)
      ensures forall name :: name in options ==>
                GivenLast(OptionItems(record), |OptionItems(record)|, name, options[name])
      ensures forall name :: name !in options ==> NotGiven(OptionItems(record), 0, |OptionItems(record)|, name)
    {
      options := map[];
      var items := OptionItems(record);
      for i := 0 to |items|
        invariant options == OptionsOf(items, i)
      {
        var name, value := StringOf(ObjectGet(items[i], "name")), StringOf(ObjectGet(items[i], "value"));
        if name.None? || value.None? {
          continue;
        }
        options := options[name.value := value.value];
      }
      forall name: string
        ensures if name in options then GivenLast(items, |items|, name, options[name])
                else NotGiven(items, 0, |items|, name)
      {
        LastValueCounts(items, |items|, name);
      }
    }

    /** upsert_run: a collision leaves the row alone; start time and command are never overwritten. */
    method UpsertRun(record: Json, path: string)
      modifies this`runs, this`recordsNew, this`recordsUpdated, this`recordsCollision, this`recordsMalformed
      ensures runs == Upsert(old(runs), record, path) && Dealt() == old(Dealt()) + 1
      ensures recordsNew == old(recordsNew) + One(OutcomeOf(old(runs), record) == New)
      ensures recordsUpdated == old(recordsUpdated) + One(OutcomeOf(old(runs), record) == Updated)
      ensures recordsCollision == old(recordsCollision) + One(OutcomeOf(old(runs), record) == Collision)
      ensures recordsNew - old(recordsNew) == |runs| - |old(runs)|
      ensures forall k, startTime {:trigger Identifies(record, k, startTime)} ::
                Identifies(record, k, startTime) && k in old(runs) ==>
                  if Collides(old(runs)[k], record, startTime)
                  then runs == old(runs) && recordsCollision == old(recordsCollision) + 1
                  else k in runs && Overwrites(old(runs)[k], runs[k], record, path) && runs == old(runs)[k := runs[k]]
                       && recordsUpdated == old(recordsUpdated) + 1
    {
      hide Columns, RecordArgs, RecordOptions, RecordEnvironment, Command0, StartTime, Collides, Overwrites, Identifies;
      forall k, startTime | Identifies(record, k, startTime) && k in runs {
        StoredRunUpserted(runs, record, path, k, startTime);
      }
      var k := KeyOf(record);
      if k.None? {
        recordsMalformed := recordsMalformed + 1;
        return;
      }
      var existing := Lookup(runs, k.value);
      if existing.Some? && !Accepted(existing.value.startTime, existing.value.command, record) {
        recordsCollision := recordsCollision + 1;
        assert runs == runs[k.value := existing.value];
        return;
      }
      var args := ReplaceArgs(record);
      var options := ReplaceOptions(record);
      var env := RecordEnvironment(record);
      if existing.None? {
        var command := Command0(record);
        runs := runs[k.value := Row(StartTime(record), if command.Some? then command.value else "",
                                    Columns(record, path), args, options, env)];
        recordsNew := recordsNew + 1;
      } else {
        var row := existing.value;
        runs := runs[k.value := row.(columns := Columns(record, path), args := args, options := options,
                                     environment := if env.Some? then env else row.environment)];
        recordsUpdated := recordsUpdated + 1;
      }
    }

    /** One line of the file. */
    method IngestLine(line: string, path: string)
      modifies this`runs, this`recordsSeen
      modifies this`recordsNew, this`recordsUpdated, this`recordsCollision, this`recordsMalformed
      ensures runs == UpsertLine(old(runs), line, path) && Dealt() == old(Dealt()) + 1
      ensures recordsSeen == old(recordsSeen) + One(Document(line).Ok?)
      ensures recordsNew - old(recordsNew) == |runs| - |old(runs)|
    {
      hide Upsert;
      var root, error := JsonParse(line);
      if root.None? {
        recordsMalformed := recordsMalformed + 1;
        return;
      }
      recordsSeen := recordsSeen + 1;
      UpsertRun(root.value, path);
    }

    /**
     The batch loop, up to line stop. Every BATCH lines what is done so far is committed; what follows the last commit
     is lost if the program dies there.
     */
    method IngestLines(lines: seq<string>, stop: nat, path: string)
      requires stop <= |lines| && runs == durable
      modifies this`runs, this`durable, this`recordsSeen
      modifies this`recordsNew, this`recordsUpdated, this`recordsCollision, this`recordsMalformed
      ensures runs == UpsertLines(old(runs), lines, stop, path) && Dealt() == old(Dealt()) + stop
      ensures durable == UpsertLines(old(runs), lines, Committed(stop), path)
      ensures recordsSeen == old(recordsSeen) + DocumentsIn(lines, stop)
      ensures recordsNew - old(recordsNew) == |runs| - |old(runs)|
    {
      hide UpsertLine;
      ghost var start := runs;
      for i := 0 to stop
        invariant runs == UpsertLines(start, lines, i, path) && Dealt() == old(Dealt()) + i
        invariant recordsSeen == old(recordsSeen) + DocumentsIn(lines, i)
        invariant recordsNew - old(recordsNew) == |runs| - |start|
        invariant durable == UpsertLines(start, lines, Committed(i), path)
      {
        if i > 0 && i % BATCH == 0 {
          durable := runs;
        }
        CommittedNext(i);
        IngestLine(lines[i], path);
      }
    }

    /** get_source_offset: a file that shrank is read from the start again. */
    method GetSourceOffset(text: string) returns (start: nat)
      ensures start == StartOffset(|text|, offset, lastSize)
    {
      if |text| < lastSize {
        return 0;
      }
      return offset;
    }

    /** ingest_run_index_file, run to its end; every line is counted once, and records_new counts the rows added. */
    method IngestFile(text: string, path: string)
      requires Settled()
      modifies this
      ensures Settled()
      ensures var lines := Lines(text, StartOffset(|text|, old(offset), old(lastSize)));
              && runs == UpsertLines(old(runs), lines, |lines|, path)
              && Dealt() == old(Dealt()) + |lines|
              && recordsSeen == old(recordsSeen) + DocumentsIn(lines, |lines|)
      ensures recordsNew - old(recordsNew) == |runs| - |old(runs)|
      ensures offset == LinesEnd(text, StartOffset(|text|, old(offset), old(lastSize))) && lastSize == |text|
    {
      var start := GetSourceOffset(text);
      var lines, consumed := SplitCompleteLines(text, start);
      IngestLines(lines, |lines|, path);
      durable := runs;
      offset, lastSize := start + consumed, |text|;
    }

    /**
     The same, dying after it has dealt with stop lines, so that only whole batches are kept; or, once it has dealt with
     all of them, after the last commit, so that everything is kept. The offset stays.
     */
    method IngestAndDie(text: string, stop: nat, committed: bool, path: string)
      requires Settled()
      requires var lines := Lines(text, StartOffset(|text|, offset, lastSize));
               stop <= |lines| && (committed ==> stop == |lines|)
      modifies this`runs, this`durable, this`recordsSeen
      modifies this`recordsNew, this`recordsUpdated, this`recordsCollision, this`recordsMalformed
      ensures Settled()
      ensures var lines := Lines(text, StartOffset(|text|, offset, lastSize));
              runs == UpsertLines(old(runs), lines, if committed then |lines| else Committed(stop), path)
    {
      var start := GetSourceOffset(text);
      var lines, consumed := SplitCompleteLines(text, start);
      IngestLines(lines, stop, path);
      if committed {
        durable := runs;
      }
      runs := durable;
    }
  }

  function StartOffset(size: nat, offset: nat, lastSize: nat): nat {
    if size < lastSize then 0 else offset
  }

  /** How many of the first n lines dealt with are committed: all whole batches before the last line. */
  function Committed(n: nat): (c: nat)
    ensures c <= n
  {
    if n == 0 then 0 else (n - 1) / BATCH * BATCH
  }

  lemma CommittedNext(i: nat)
    ensures Committed(i + 1) == if i > 0 && i % BATCH == 0 then i else Committed(i)
  {
  }

  // ---- the counter mask as text -----------------------------------------------------------------

  /** What "%x" prints. */
  function HexText(n: nat): (s: string)
    ensures s != ""
  {
    (if n < 16 then "" else HexText(n / 16)) + [HexChar(n % 16)]
  }

  lemma HexTextIs(n: nat)
    ensures HexText(n) == (if n < 16 then "" else HexText(n / 16)) + [HexChar(n % 16)]
  {
  }

  lemma {:induction false} HexTextAt(t: string, p: nat, n: nat)
    requires HasAt(t, p, HexText(n))
    ensures AreHex(t, p, p + |HexText(n)|) && HexValueOf(t, p, p + |HexText(n)|) == n
  {
    HexTextIs(n);
    hide HexText, HasAt, HexChar, AreHex, HexValueOf;
    var front := if n < 16 then "" else HexText(n / 16);
    HasBoth(t, p, front, [HexChar(n % 16)]);
    HasChar(t, p + |front|, HexChar(n % 16));
    if n < 16 {
      NoHexDigits(t, p);
    } else {
      HexTextAt(t, p, n / 16);
    }
    OneHexDigit(t, p, p + |front|);
  }

  lemma NoHexDigits(t: string, p: nat)
    requires p <= |t|
    ensures AreHex(t, p, p) && HexValueOf(t, p, p) == 0
  {
  }

  lemma OneHexDigit(t: string, p: nat, e: nat)
    requires p <= e < |t| && AreHex(t, p, e) && HexDigit(t[e]) >= 0
    ensures AreHex(t, p, e + 1) && HexValueOf(t, p, e + 1) == HexValueOf(t, p, e) * 16 + HexDigit(t[e])
  {
  }

  /**
   The mask that a run index prints as 0x and hexadecimal digits is stored as the number it was, as long as it has at
   most 63 bits, as the 32-bit masks of the program do; a larger one is stored less 2 to the 64th.
   */
  lemma MaskRoundTrip(o: Option<Json>, n: nat)
    requires n <= ULONG_MAX && StringOf(Part(o, "counter_mask")) == Some("0x" + HexText(n))
    ensures MaskOf(o) == Whole(if n <= ULONG_MAX / 2 then n else n - ULONG_MAX - 1)
  {
    hide HexText, Strtoul16;
    PrintedMask(n);
  }

  lemma PrintedMask(n: nat)
    requires n <= ULONG_MAX
    ensures Strtoul16("0x" + HexText(n)) == n
  {
    var t := "0x" + HexText(n);
    assert t[2..] == HexText(n);
    assert HasAt(t, 2, HexText(n));
    HexTextAt(t, 2, n);
    HexEndAt(t, 2, |t|);
    assert t[0] == '0' && t[1] == 'x' && HexDigit(t[2]) >= 0;
    assert SkipEnd(t, 0) == 0;
  }
}
