/**
 Why ingestion may be interrupted (store.c): replaying lines over tables that already saw some of them ends in the
 same tables, so any schedule of appends, ingests and crashes agrees with one ingest of the whole file.
 */
module IngestLaws {
  import opened JsonReader
  import opened JsonStrings
  import opened LineSplit
  import opened Options
  import opened RunStore

  // ---- one key at a time ------------------------------------------------------------------------

  /** The record a line holds for key k, if it holds one. */
  function RecordFor(line: string, k: Key): Option<Json> {
    var d := Document(line);
    if d.Ok? && KeyOf(d.value) == Some(k) then Some(d.value) else None
  }

  function RowStep(o: Option<Row>, line: string, k: Key, path: string): Option<Row> {
    var r := RecordFor(line, k);
    if r.Some? then Some(UpsertRow(o, r.value, path)) else o
  }

  /** What the first m lines make of the row of k. */
  function RowAfter(o: Option<Row>, lines: seq<string>, m: nat, k: Key, path: string): Option<Row>
    requires m <= |lines|
  {
    if m == 0 then o else RowStep(RowAfter(o, lines, m - 1, k, path), lines[m - 1], k, path)
  }

  lemma UpsertLineAt(t: Tables, line: string, k: Key, path: string)
    ensures Lookup(UpsertLine(t, line, path), k) == RowStep(Lookup(t, k), line, k, path)
  {
    hide UpsertRow, Document, KeyOf;
  }

  lemma {:induction false} UpsertLinesAt(t: Tables, lines: seq<string>, m: nat, k: Key, path: string)
    requires m <= |lines|
    ensures Lookup(UpsertLines(t, lines, m, path), k) == RowAfter(Lookup(t, k), lines, m, k, path)
  {
    hide UpsertLine, RowStep, Lookup;
    if m > 0 {
      UpsertLinesAt(t, lines, m - 1, k, path);
      UpsertLineAt(UpsertLines(t, lines, m - 1, path), lines[m - 1], k, path);
    }
  }

  lemma SameTables(t: Tables, u: Tables)
    requires forall k :: Lookup(t, k) == Lookup(u, k)
    ensures t == u
  {
    forall k
      ensures k in t <==> k in u
      ensures k in t ==> t[k] == u[k]
    {
      assert Lookup(t, k) == Lookup(u, k);
    }
    assert t.Keys == u.Keys;
  }

  // ---- identity never changes -------------------------------------------------------------------

  predicate SameRun(x: Row, y: Row) {
    x.startTime == y.startTime && x.command == y.command
  }

  /** A row keeps its start time and command whatever lines come. */
  lemma {:induction false} IdentityIsFixed(x: Row, lines: seq<string>, m: nat, k: Key, path: string)
    requires m <= |lines|
    ensures RowAfter(Some(x), lines, m, k, path).Some? && SameRun(RowAfter(Some(x), lines, m, k, path).value, x)
  {
    hide RecordFor, Columns, RecordArgs, RecordOptions, RecordEnvironment, Accepted;
    if m > 0 {
      IdentityIsFixed(x, lines, m - 1, k, path);
    }
  }

  /** The tables form of it: no ingest changes the start time or command of a stored run. */
  lemma StoredRunsKeepIdentity(t: Tables, lines: seq<string>, m: nat, path: string, k: Key)
    requires m <= |lines| && k in t
    ensures var u := UpsertLines(t, lines, m, path); k in u && SameRun(u[k], t[k])
  {
    hide RowAfter, SameRun, UpsertLines;
    UpsertLinesAt(t, lines, m, k, path);
    IdentityIsFixed(t[k], lines, m, k, path);
  }

  /** Lines of which none is for k leave it absent; once it is there, some line was for it. */
  lemma {:induction false} AbsentMeansNoRecord(lines: seq<string>, m: nat, k: Key, path: string)
    requires m <= |lines| && RowAfter(None, lines, m, k, path).None?
    ensures forall i :: 0 <= i < m ==> RecordFor(lines[i], k).None?
  {
    hide RecordFor;
    if m > 0 {
      AbsentMeansNoRecord(lines, m - 1, k, path);
    }
  }

  // ---- which lines a run accepts ----------------------------------------------------------------

  /** Line i is for k and is accepted by a run like x. */
  predicate AcceptedLine(x: Row, line: string, k: Key) {
    var r := RecordFor(line, k);
    r.Some? && Accepted(x.startTime, x.command, r.value)
  }

  predicate BringsEnvironment(x: Row, line: string, k: Key) {
    AcceptedLine(x, line, k) && RecordEnvironment(RecordFor(line, k).value).Some?
  }

  predicate AcceptsAny(x: Row, lines: seq<string>, m: nat, k: Key)
    requires m <= |lines|
  {
    m > 0 && (AcceptsAny(x, lines, m - 1, k) || AcceptedLine(x, lines[m - 1], k))
  }

  predicate AcceptsEnvironment(x: Row, lines: seq<string>, m: nat, k: Key)
    requires m <= |lines|
  {
    m > 0 && (AcceptsEnvironment(x, lines, m - 1, k) || BringsEnvironment(x, lines[m - 1], k))
  }

  function EnvironmentOf(o: Option<Row>): Option<seq<Value>> {
    if o.Some? then o.value.environment else None
  }

  predicate SameContents(x: Row, y: Row) {
    x.columns == y.columns && x.args == y.args && x.options == y.options
  }

  /** How row x, which lines make of o, compares with row z, which they make of a row y of the same run. */
  ghost predicate Tracks(o: Option<Row>, x: Row, y: Row, z: Row, any: bool, env: bool) {
    && SameRun(z, x)
    && (if any then SameContents(z, x) else z == y && o == Some(x))
    && (if env then z.environment == x.environment
        else z.environment == y.environment && x.environment == EnvironmentOf(o))
  }

  /** What one more line does to both. */
  lemma TracksStep(o: Option<Row>, x: Row, y: Row, z: Row, any: bool, env: bool, line: string, k: Key, path: string)
    requires Tracks(o, x, y, z, any, env)
    ensures var x', z' := RowStep(Some(x), line, k, path).value, RowStep(Some(z), line, k, path).value;
            Tracks(o, x', y, z', any || AcceptedLine(x, line, k), env || BringsEnvironment(x, line, k))
  {
    hide RecordFor, Columns, RecordArgs, RecordOptions, RecordEnvironment, StartTime, Command0;
  }

  lemma SameAccepts(x: Row, y: Row, line: string, k: Key)
    requires SameRun(x, y)
    ensures AcceptedLine(x, line, k) == AcceptedLine(y, line, k)
    ensures BringsEnvironment(x, line, k) == BringsEnvironment(y, line, k)
  {
    hide RecordFor, StartTime, Command0, RecordEnvironment;
  }

  lemma {:induction false} AcceptsNothing(y: Row, lines: seq<string>, m: nat, k: Key)
    requires m <= |lines| && forall i :: 0 <= i < m ==> RecordFor(lines[i], k).None?
    ensures !AcceptsAny(y, lines, m, k) && !AcceptsEnvironment(y, lines, m, k)
  {
    hide RecordFor, Accepted, RecordEnvironment;
    if m > 0 {
      AcceptsNothing(y, lines, m - 1, k);
    }
  }

  lemma {:induction false} NothingFor(o: Option<Row>, lines: seq<string>, m: nat, k: Key, path: string)
    requires m <= |lines| && forall i :: 0 <= i < m ==> RecordFor(lines[i], k).None?
    ensures RowAfter(o, lines, m, k, path) == o
  {
    hide RecordFor, UpsertRow;
    if m > 0 {
      NothingFor(o, lines, m - 1, k, path);
    }
  }

  /** The line that brings a run into the tables. */
  lemma FirstLineTracks(y: Row, line: string, k: Key, path: string)
    requires RowStep(None, line, k, path).Some? && SameRun(y, RowStep(None, line, k, path).value)
    ensures var x, z := RowStep(None, line, k, path).value, RowStep(Some(y), line, k, path).value;
            AcceptedLine(y, line, k) && Tracks(None, x, y, z, true, BringsEnvironment(y, line, k))
  {
    hide RecordFor, Columns, RecordArgs, RecordOptions, RecordEnvironment, StartTime;
  }

  lemma SameRunBack(x: Row, y: Row, z: Row)
    requires SameRun(y, x) && SameRun(x, z)
    ensures SameRun(y, z) && SameRun(z, y)
  {
  }

  /** Applying lines to another row of the same run tracks applying them where they belong. */
  lemma {:induction false} Replay(o: Option<Row>, lines: seq<string>, m: nat, k: Key, path: string, y: Row)
    requires m <= |lines| && RowAfter(o, lines, m, k, path).Some? && SameRun(y, RowAfter(o, lines, m, k, path).value)
    ensures RowAfter(Some(y), lines, m, k, path).Some?
    ensures Tracks(o, RowAfter(o, lines, m, k, path).value, y, RowAfter(Some(y), lines, m, k, path).value,
                   AcceptsAny(y, lines, m, k), AcceptsEnvironment(y, lines, m, k))
  {
    hide RowStep, SameRun, AcceptedLine, BringsEnvironment;
    if m == 0 {
      NothingApplied(o.value, y);
    } else {
      var before, last := RowAfter(o, lines, m - 1, k, path), lines[m - 1];
      IdentityIsFixed(y, lines, m - 1, k, path);
      assert RowAfter(o, lines, m, k, path) == RowStep(before, last, k, path);
      assert AcceptsAny(y, lines, m, k) == (AcceptsAny(y, lines, m - 1, k) || AcceptedLine(y, last, k));
      assert AcceptsEnvironment(y, lines, m, k)
          == (AcceptsEnvironment(y, lines, m - 1, k) || BringsEnvironment(y, last, k));
      var z := RowAfter(Some(y), lines, m - 1, k, path).value;
      assert RowAfter(Some(y), lines, m, k, path) == RowStep(Some(z), last, k, path);
      hide RowAfter, AcceptsAny, AcceptsEnvironment, Tracks;
      if before.None? {
        AbsentStays(o, lines, m - 1, k, path);
        AbsentMeansNoRecord(lines, m - 1, k, path);
        NothingFor(Some(y), lines, m - 1, k, path);
        AcceptsNothing(y, lines, m - 1, k);
        FirstLineTracks(y, last, k, path);
        StepKeepsRun(y, last, k, path);
      } else {
        StepKeepsRun(before.value, last, k, path);
        StepKeepsRun(z, last, k, path);
        SameRunBack(RowStep(before, last, k, path).value, y, before.value);
        Replay(o, lines, m - 1, k, path, y);
        SameAccepts(before.value, y, last, k);
        TracksStep(o, before.value, y, z, AcceptsAny(y, lines, m - 1, k), AcceptsEnvironment(y, lines, m - 1, k),
                   last, k, path);
      }
    }
  }

  lemma NothingApplied(x: Row, y: Row)
    requires SameRun(y, x)
    ensures Tracks(Some(x), x, y, y, false, false)
  {
  }

  lemma AbsentStays(o: Option<Row>, lines: seq<string>, m: nat, k: Key, path: string)
    requires m <= |lines| && RowAfter(o, lines, m, k, path).None?
    ensures o.None?
  {
    if o.Some? {
      IdentityIsFixed(o.value, lines, m, k, path);
    }
  }

  lemma StepKeepsRun(x: Row, line: string, k: Key, path: string)
    ensures RowStep(Some(x), line, k, path).Some?
    ensures SameRun(x, RowStep(Some(x), line, k, path).value) && SameRun(RowStep(Some(x), line, k, path).value, x)
  {
    hide RecordFor, Columns, RecordArgs, RecordOptions, RecordEnvironment, Accepted;
  }

  // ---- rows that have seen some of the lines already --------------------------------------------

  /** Row y is what an interrupted replay of the first n lines over o may have left. */
  ghost predicate Between(o: Option<Row>, lines: seq<string>, n: nat, k: Key, path: string, y: Option<Row>)
    requires n <= |lines|
  {
    if y.None? then o.None?
    else
      var x := RowAfter(o, lines, n, k, path);
      && x.Some? && SameRun(y.value, x.value)
      && (y.value.environment == EnvironmentOf(o) || AcceptsEnvironment(y.value, lines, n, k))
      && (AcceptsAny(y.value, lines, n, k) || y == o)
  }

  /** Nothing done yet is between. */
  lemma StartIsBetween(o: Option<Row>, lines: seq<string>, n: nat, k: Key, path: string)
    requires n <= |lines|
    ensures Between(o, lines, n, k, path, o)
  {
    hide RowAfter, AcceptsAny, AcceptsEnvironment;
    if o.Some? {
      IdentityIsFixed(o.value, lines, n, k, path);
    }
  }

  /** Replaying all the lines over a row that is between ends where one uninterrupted replay does. */
  lemma BetweenCatchesUp(o: Option<Row>, lines: seq<string>, n: nat, k: Key, path: string, y: Option<Row>)
    requires n <= |lines| && Between(o, lines, n, k, path, y)
    ensures RowAfter(y, lines, n, k, path) == RowAfter(o, lines, n, k, path)
  {
    hide RowAfter, AcceptsAny, AcceptsEnvironment;
    if y.Some? {
      Replay(o, lines, n, k, path, y.value);
    }
  }

  lemma {:induction false} RowAfterPrefix(o: Option<Row>, lines: seq<string>, more: seq<string>, m: nat, k: Key,
                                          path: string)
    requires m <= |lines|
    ensures RowAfter(o, lines + more, m, k, path) == RowAfter(o, lines, m, k, path)
  {
    hide RowStep;
    if m > 0 {
      RowAfterPrefix(o, lines, more, m - 1, k, path);
    }
  }

  lemma {:induction false} RowAfterJoin(o: Option<Row>, lines: seq<string>, more: seq<string>, m: nat, k: Key,
                                        path: string)
    requires m <= |more|
    ensures RowAfter(o, lines + more, |lines| + m, k, path)
            == RowAfter(RowAfter(o, lines, |lines|, k, path), more, m, k, path)
  {
    hide RowStep;
    if m == 0 {
      RowAfterPrefix(o, lines, more, |lines|, k, path);
    } else {
      RowAfterJoin(o, lines, more, m - 1, k, path);
    }
  }

  lemma {:induction false} AcceptsMore(y: Row, lines: seq<string>, more: seq<string>, m: nat, n: nat, k: Key)
    requires m <= |lines| && m <= n <= |lines + more|
    ensures AcceptsAny(y, lines, m, k) ==> AcceptsAny(y, lines + more, n, k)
    ensures AcceptsEnvironment(y, lines, m, k) ==> AcceptsEnvironment(y, lines + more, n, k)
    decreases n
  {
    hide AcceptedLine, BringsEnvironment;
    if m < n {
      AcceptsMore(y, lines, more, m, n - 1, k);
    } else if m > 0 {
      AcceptsMore(y, lines, more, m - 1, n - 1, k);
    }
  }

  lemma {:induction false} SameAcceptsAll(x: Row, y: Row, lines: seq<string>, m: nat, k: Key)
    requires m <= |lines| && SameRun(x, y)
    ensures AcceptsAny(x, lines, m, k) == AcceptsAny(y, lines, m, k)
    ensures AcceptsEnvironment(x, lines, m, k) == AcceptsEnvironment(y, lines, m, k)
  {
    hide AcceptedLine, BringsEnvironment, SameRun;
    if m > 0 {
      SameAcceptsAll(x, y, lines, m - 1, k);
      SameAccepts(x, y, lines[m - 1], k);
    }
  }

  /** Being between stays true when more lines are appended. */
  lemma BetweenGrows(o: Option<Row>, lines: seq<string>, more: seq<string>, k: Key, path: string, y: Option<Row>)
    requires Between(o, lines, |lines|, k, path, y)
    ensures Between(o, lines + more, |lines + more|, k, path, y)
  {
    hide RowAfter, AcceptsAny, AcceptsEnvironment;
    if y.Some? {
      RowAfterJoin(o, lines, more, |more|, k, path);
      IdentityIsFixed(RowAfter(o, lines, |lines|, k, path).value, more, |more|, k, path);
      AcceptsMore(y.value, lines, more, |lines|, |lines + more|, k);
    }
  }

  /** An accepted line leaves a mark that later lines do not undo. */
  lemma PartlyReplayed(o: Option<Row>, lines: seq<string>, c: nat, k: Key, path: string, y: Option<Row>)
    requires c <= |lines| && Between(o, lines, |lines|, k, path, y)
    ensures Between(o, lines, |lines|, k, path, RowAfter(y, lines, c, k, path))
  {
    var front, back := lines[..c], lines[c..];
    assert lines == front + back;
    RowAfterPrefix(y, front, back, c, k, path);
    hide RowAfter, AcceptsAny, AcceptsEnvironment;
    var z := RowAfter(y, front, c, k, path);
    if y.Some? {
      Replay(y, front, c, k, path, y.value) by { IdentityIsFixed(y.value, front, c, k, path); }
      KeepsBetween(o, front, back, k, path, y.value, z);
    } else if z.Some? {
      ArrivesBetween(front, back, k, path, z.value);
    }
  }

  /** A row that is there already, after replaying the front of the lines. */
  lemma KeepsBetween(o: Option<Row>, front: seq<string>, back: seq<string>, k: Key, path: string, y: Row,
                     z: Option<Row>)
    requires Between(o, front + back, |front + back|, k, path, Some(y))
    requires z == RowAfter(Some(y), front, |front|, k, path) && z.Some?
    requires Tracks(Some(y), z.value, y, z.value, AcceptsAny(y, front, |front|, k),
                    AcceptsEnvironment(y, front, |front|, k))
    ensures Between(o, front + back, |front + back|, k, path, z)
  {
    hide RowAfter, AcceptsAny, AcceptsEnvironment;
    var lines := front + back;
    IdentityIsFixed(y, front, |front|, k, path);
    SameAcceptsAll(z.value, y, lines, |lines|, k);
    AcceptsMore(y, front, back, |front|, |lines|, k);
  }

  /** A row that the front of the lines brings in. */
  lemma ArrivesBetween(front: seq<string>, back: seq<string>, k: Key, path: string, z: Row)
    requires RowAfter(None, front, |front|, k, path) == Some(z)
    ensures Between(None, front + back, |front + back|, k, path, Some(z))
  {
    hide RowAfter, AcceptsAny, AcceptsEnvironment;
    var lines := front + back;
    RowAfterJoin(None, front, back, |back|, k, path);
    IdentityIsFixed(z, back, |back|, k, path);
    Replay(None, front, |front|, k, path, z);
    AcceptsMore(z, front, back, |front|, |lines|, k);
  }

  // ---- schedules --------------------------------------------------------------------------------

  /** The file, what is saved about it, the committed tables, and the lines that completed ingests have dealt with. */
  datatype World = World(text: string, offset: nat, lastSize: nat, tables: Tables, done: seq<string>)

  datatype Event =
    | Append(w: string)      // the writer adds to the file
    | Ingest                 // one ingest, run to its end
    | Die(committed: nat)    // an ingest that dies with this many lines committed, and the offset not saved

  function Start(w: World): nat {
    StartOffset(|w.text|, w.offset, w.lastSize)
  }

  function StepWorld(w: World, e: Event, path: string): World {
    match e
    case Append(more) => w.(text := w.text + more)
    case Ingest =>
      if Start(w) > |w.text| then w
      else
        var lines := Lines(w.text, Start(w));
        World(w.text, LinesEnd(w.text, Start(w)), |w.text|, UpsertLines(w.tables, lines, |lines|, path), w.done + lines)
    case Die(committed) =>
      if Start(w) > |w.text| then w
      else
        var lines := Lines(w.text, Start(w));
        w.(tables := UpsertLines(w.tables, lines, if committed < |lines| then committed else |lines|, path))
  }

  function RunWorld(events: seq<Event>, m: nat, path: string): World
    requires m <= |events|
  {
    if m == 0 then World("", 0, 0, map[], []) else StepWorld(RunWorld(events, m - 1, path), events[m - 1], path)
  }

  /** The tables that one ingest of the whole text makes. */
  function Batch(lines: seq<string>, path: string): Tables {
    UpsertLines(map[], lines, |lines|, path)
  }

  /**
   The offset is a line boundary, the lines dealt with and those behind the offset are all complete lines of the file,
   and every row is between: what an interrupted replay of the latter over the former may have left.
   */
  ghost predicate WorldInv(w: World, path: string) {
    && w.offset <= |w.text| && w.lastSize <= |w.text|
    && (w.offset == 0 || w.text[w.offset - 1] == '\n')
    && Lines(w.text, 0) == w.done + Lines(w.text, w.offset)
    && LinesEnd(w.text, 0) == LinesEnd(w.text, w.offset)
    && RowsBetween(w.done, Lines(w.text, w.offset), w.tables, path)
  }

  ghost predicate RowsBetween(done: seq<string>, lines: seq<string>, t: Tables, path: string) {
    forall k {:trigger Lookup(t, k)} :: Between(Lookup(Batch(done, path), k), lines, |lines|, k, path, Lookup(t, k))
  }

  lemma RowsBetweenGrow(done: seq<string>, lines: seq<string>, more: seq<string>, t: Tables, path: string)
    requires RowsBetween(done, lines, t, path)
    ensures RowsBetween(done, lines + more, t, path)
  {
    hide Between, Batch;
    forall k {:trigger Lookup(t, k)}
      ensures Between(Lookup(Batch(done, path), k), lines + more, |lines + more|, k, path, Lookup(t, k))
    {
      BetweenGrows(Lookup(Batch(done, path), k), lines, more, k, path, Lookup(t, k));
    }
  }

  lemma RowsBetweenPartly(done: seq<string>, lines: seq<string>, t: Tables, c: nat, path: string)
    requires c <= |lines| && RowsBetween(done, lines, t, path)
    ensures RowsBetween(done, lines, UpsertLines(t, lines, c, path), path)
  {
    hide Between, Batch, UpsertLines;
    var u := UpsertLines(t, lines, c, path);
    forall k {:trigger Lookup(u, k)}
      ensures Between(Lookup(Batch(done, path), k), lines, |lines|, k, path, Lookup(u, k))
    {
      UpsertLinesAt(t, lines, c, k, path);
      PartlyReplayed(Lookup(Batch(done, path), k), lines, c, k, path, Lookup(t, k));
    }
  }

  /** A completed ingest catches up with one ingest of everything. */
  lemma RowsCatchUp(done: seq<string>, lines: seq<string>, t: Tables, path: string)
    requires RowsBetween(done, lines, t, path)
    ensures UpsertLines(t, lines, |lines|, path) == Batch(done + lines, path)
  {
    hide Between, UpsertLines, Lookup;
    var u, v := UpsertLines(t, lines, |lines|, path), Batch(done + lines, path);
    forall k
      ensures Lookup(u, k) == Lookup(v, k)
    {
      var o := Lookup(Batch(done, path), k);
      UpsertLinesAt(t, lines, |lines|, k, path);
      UpsertLinesAt(map[], done, |done|, k, path);
      UpsertLinesAt(map[], done + lines, |done + lines|, k, path);
      RowAfterJoin(Lookup(map[], k), done, lines, |lines|, k, path);
      assert Between(o, lines, |lines|, k, path, Lookup(t, k));
      BetweenCatchesUp(o, lines, |lines|, k, path, Lookup(t, k));
    }
    SameTables(u, v);
  }

  lemma NothingToDo(done: seq<string>, path: string)
    ensures RowsBetween(done, [], Batch(done, path), path)
  {
    hide Between, Batch;
    var t := Batch(done, path);
    forall k {:trigger Lookup(t, k)}
      ensures Between(Lookup(t, k), [], 0, k, path, Lookup(t, k))
    {
      StartIsBetween(Lookup(t, k), [], 0, k, path);
    }
  }

  lemma NoLinesLeft(t: string, p: nat)
    requires p <= |t|
    ensures Lines(t, LinesEnd(t, p)) == [] && LinesEnd(t, LinesEnd(t, p)) == LinesEnd(t, p)
  {
  }

  lemma AppendKeepsInv(w: World, more: string, path: string)
    requires WorldInv(w, path)
    ensures WorldInv(StepWorld(w, Append(more), path), path)
  {
    hide RowsBetween, Lines, LinesEnd, Batch;
    var t, p := w.text, w.offset;
    var rest := Lines(t + more, LinesEnd(t, p));
    ResumeAtEnd(t, more, 0);
    ResumeAtEnd(t, more, p);
    RowsBetweenGrow(w.done, Lines(t, p), rest, w.tables, path);
    assert w.done + (Lines(t, p) + rest) == w.done + Lines(t, p) + rest;
  }

  lemma IngestKeepsInv(w: World, path: string)
    requires WorldInv(w, path)
    ensures var v := StepWorld(w, Ingest, path);
            WorldInv(v, path) && v.tables == Batch(v.done, path) && v.done == Lines(w.text, 0)
  {
    hide RowsBetween, Lines, LinesEnd, Batch, UpsertLines;
    var t, p := w.text, w.offset;
    RowsCatchUp(w.done, Lines(t, p), w.tables, path);
    NothingToDo(w.done + Lines(t, p), path);
    NoLinesLeft(t, p);
    EndIsBoundary(t, p);
    EndIsBoundary(t, 0);
    assert w.done + Lines(t, p) + [] == w.done + Lines(t, p);
  }

  lemma DieKeepsInv(w: World, committed: nat, path: string)
    requires WorldInv(w, path)
    ensures WorldInv(StepWorld(w, Die(committed), path), path)
  {
    hide RowsBetween, Lines, LinesEnd, Batch, UpsertLines;
    var lines := Lines(w.text, w.offset);
    RowsBetweenPartly(w.done, lines, w.tables, if committed < |lines| then committed else |lines|, path);
  }

  lemma {:induction false} RunKeepsInv(events: seq<Event>, m: nat, path: string)
    requires m <= |events|
    ensures WorldInv(RunWorld(events, m, path), path)
  {
    if m == 0 {
      hide RowsBetween, Batch;
      NothingToDo([], path);
      assert Lines("", 0) == [];
      assert Batch([], path) == map[];
    } else {
      RunKeepsInv(events, m - 1, path);
      hide WorldInv, StepWorld;
      var w := RunWorld(events, m - 1, path);
      match events[m - 1] {
        case Append(more) => AppendKeepsInv(w, more, path);
        case Ingest => IngestKeepsInv(w, path);
        case Die(committed) => DieKeepsInv(w, committed, path);
      }
    }
  }

  /**
   Any schedule of appends, ingests and crashes, followed by one completed ingest, leaves the tables that a single
   ingest of the whole file makes; the completed ingests have dealt with exactly its complete non-blank lines, each
   once and in order; and the saved offset is the line boundary behind the last of them.
   */
  lemma AnySchedule(events: seq<Event>, path: string)
    ensures var w := RunWorld(events, |events|, path);
            var v := StepWorld(w, Ingest, path);
            && v.tables == Batch(Lines(v.text, 0), path)
            && v.done == Lines(v.text, 0)
            && v.offset == LinesEnd(v.text, 0)
            && v.lastSize == |v.text| && (v.offset == 0 || v.text[v.offset - 1] == '\n')
  {
    hide Batch, Lines, LinesEnd, RowsBetween, UpsertLines, RunWorld;
    RunKeepsInv(events, |events|, path);
    IngestKeepsInv(RunWorld(events, |events|, path), path);
  }

  /** Whatever has happened, the offset is a line boundary and completed ingests have dealt with the lines before it. */
  lemma OffsetIsBoundary(events: seq<Event>, m: nat, path: string)
    requires m <= |events|
    ensures var w := RunWorld(events, m, path);
            && w.offset <= |w.text| && (w.offset == 0 || w.text[w.offset - 1] == '\n')
            && w.done + Lines(w.text, w.offset) == Lines(w.text, 0)
  {
    hide Batch, Lines, LinesEnd, RowsBetween;
    RunKeepsInv(events, m, path);
  }

  // ---- where an ingest resumes ------------------------------------------------------------------

  /**
   Where an ingest of t resumes when the last one saw u. A file that is shorter than it was is read from the start. Any
   other is read from behind the lines of u: no line of it is missed, split or repeated exactly when the bytes before
   that point are unchanged. What is saved after a completed ingest of u is the end of its lines and its size
   (AnySchedule).
   */
  lemma ResumeIff(u: string, t: string)
    ensures var e := LinesEnd(u, 0);
            var start := StartOffset(|t|, e, |u|);
            && start <= |t|
            && (|t| < |u| ==> start == 0)
            && (|t| >= |u| ==> start == e && (AllLines(u, 0) + AllLines(t, e) == AllLines(t, 0) <==> t[..e] == u[..e]))
  {
    hide AllLines, LinesEnd;
    if |t| >= |u| {
      ResumesIff(u, t);
    }
  }

  /** Then no line that is ingested, no non-blank one, is missed or repeated either; above all in a file that grew. */
  lemma ResumePoint(u: string, t: string)
    requires |t| >= |u| && (u <= t || t[..LinesEnd(u, 0)] == u[..LinesEnd(u, 0)])
    ensures var start := StartOffset(|t|, LinesEnd(u, 0), |u|);
            start <= |t| && Lines(u, 0) + Lines(t, start) == Lines(t, 0)
  {
    hide Lines, AllLines, LinesEnd, NonBlank;
    var e := LinesEnd(u, 0);
    if u <= t {
      assert u == t[..|u|];
      assert t[..|u|][..e] == t[..e];
    }
    ResumesIff(u, t);
    LinesAreNonBlank(u, 0);
    LinesAreNonBlank(t, e);
    LinesAreNonBlank(t, 0);
    NonBlankBoth(AllLines(u, 0), AllLines(t, e));
  }

  /** A file that was replaced, and has grown to its old size again, is read from the middle: here a line is lost. */
  lemma ReplacedFileIsSkipped()
    ensures var u, t := "a\n", "b\nc\n";
            Lines(t, 0) == ["b", "c"] && Lines(t, StartOffset(|t|, LinesEnd(u, 0), |u|)) == ["c"]
  {
    var u, t := "a\n", "b\nc\n";
    assert LineEnd(u, 0) == 1 && LinesEnd(u, 2) == 2 && LinesEnd(u, 0) == 2;
    assert LineEnd(t, 0) == 1 && LineEnd(t, 2) == 3;
    assert Lines(t, 4) == [] && t[2..3] == "c" && t[0..1] == "b";
    assert Lines(t, 2) == ["c"];
  }
}
