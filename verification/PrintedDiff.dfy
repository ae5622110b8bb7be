/**
 Diffing exported process trees (proctree.c): what the diff reads from a printed process is what was printed, so the
 merge of two exports compares the processes themselves.
 */
module PrintedDiff {
  import opened CommGroups
  import opened JsonPrint
  import opened JsonReader
  import opened Options
  import opened ProcDiff
  import opened ProcJson
  import DiffLaws

  /** A printed process as the reader hands it to the diff. */
  function Export(p: Process): Json {
    Meaning(DocOf(p))
  }

  /** The children a diff finds in an exported process are its children, eldest first. */
  lemma KidsOfExport(p: Process)
    ensures |Kids(Export(p))| == |p.children|
    ensures forall i :: 0 <= i < |p.children| ==> Kids(Export(p))[i] == Export(p.children[i])
  {
    hide DocOf, Meaning;
    var items := ChildrenFound(p);
    forall i | 0 <= i < |p.children|
      ensures Kids(Export(p))[i] == Export(p.children[i])
    {
      ItemMeaningAt(items, 0, i);
    }
  }

  /** It goes by its own comm, or by a question mark when it has none. */
  lemma CommOfExport(p: Process)
    ensures Comm(Export(p)) == if p.comm.Some? then p.comm.value else "?"
  {
    PidAndCommFound(p);
    hide DocOf;
  }

  // ---- metrics ----------------------------------------------------------------------------------

  /** Numeric field k is printed under the key of metric m. */
  predicate IsMetric(m: nat, k: nat)
    requires m < N_METRICS && k < N_NUMBERS
  {
    NumberFields()[k].key == DIFF_METRICS[m]
  }

  const METRIC_FIELDS: seq<nat> := [4, 5, 11, 13, 15, 20, 21, 23, 31, 33, 35, 37]

  lemma FirstMetrics(m: nat)
    requires m < 2
    ensures METRIC_FIELDS[m] < N_NUMBERS && IsMetric(m, METRIC_FIELDS[m])
  {
    if m == 0 {
    }
  }

  lemma WaitMetrics(m: nat)
    requires 2 <= m < 5
    ensures METRIC_FIELDS[m] < N_NUMBERS && IsMetric(m, METRIC_FIELDS[m])
  {
    if m == 2 {
    } else if m == 3 {
    }
  }

  lemma LastMetrics(m: nat)
    requires 5 <= m < 12
    ensures METRIC_FIELDS[m] < N_NUMBERS && IsMetric(m, METRIC_FIELDS[m])
  {
    if m == 5 {
    } else if m == 6 {
    } else if m == 7 {
    } else if m == 8 {
    } else if m == 9 {
    } else if m == 10 {
    }
  }

  /** Some numeric field is printed under the key of every metric. */
  lemma EveryMetricIsPrinted(m: nat) returns (k: nat)
    requires m < N_METRICS
    ensures k < N_NUMBERS && IsMetric(m, k)
  {
    hide IsMetric;
    if m < 2 {
      FirstMetrics(m);
    } else if m < 5 {
      WaitMetrics(m);
    } else {
      LastMetrics(m);
    }
    k := METRIC_FIELDS[m];
  }

  /** What stands in the document for a numeric field. */
  function Printed(field: NumberField, n: int): real {
    if field.Whole? then n as real else n as real / 1_000_000.0
  }

  /** Metrics have longer keys than the other fields, or begin otherwise. */
  predicate LikeMetric(key: string) {
    |key| >= 12 && key[0] != 't'
  }

  lemma MetricsAreLong(m: nat)
    requires m < N_METRICS
    ensures LikeMetric(DIFF_METRICS[m])
  {
  }

  lemma OtherHeadKeys(p: Process, i: nat)
    requires i < 3
    ensures !LikeMetric(HeadDocs(p)[i].key)
  {
  }

  lemma OtherListKeys(p: Process, i: nat)
    requires i < 4
    ensures !LikeMetric(ListDocs(p)[i].key)
  {
  }

  /** A field of a printed process under a key like that of a metric is one of its numbers. */
  lemma LikeMetricIsNumber(p: Process, i: nat)
    requires i < |DocOf(p).fields| && LikeMetric(DocOf(p).fields[i].key)
    ensures 3 <= i < 3 + N_NUMBERS && DocOf(p).fields[i] == NumberDocAt(p.numbers, i - 3)
  {
    var fs, n := DocOf(p).fields, N_NUMBERS;
    FieldsAt(p);
    HeadSizes(p);
    var last := fs[n + 7];
    assert last.key == "children";
    hide NumberFields, DocOf, HeadDocs, ListDocs, NumberDoc, NumberDocAt, LikeMetric;
    if i < 3 {
      assert fs[i] == fs[..3][i];
      OtherHeadKeys(p, i);
    } else if i < n + 3 {
      var k: nat := i - 3;
      assert DocOf(p).fields[3 + k] == NumberDocAt(p.numbers, k);
    } else if i < n + 7 {
      assert fs[i] == fs[n + 3..n + 7][i - n - 3];
      OtherListKeys(p, i - n - 3);
    } else {
      ChildrenIsShort();
    }
  }

  lemma ChildrenIsShort()
    ensures !LikeMetric("children")
  {
  }

  lemma NumberIsPrinted(p: Process, k: nat)
    requires Printable(p) && k < N_NUMBERS
    ensures Meaning(NumberDocAt(p.numbers, k).value) == JNumber(Printed(NumberFields()[k], p.numbers[k]))
    ensures NumberDocAt(p.numbers, k).key == NumberFields()[k].key
  {
    assert NumberFields()[k].Whole? ==> p.numbers[k] >= 0;
    hide NumberFields, Printable;
  }

  /** The value that a diff reads for a metric is the number printed for the field of that key. */
  lemma MetricOfExport(p: Process, m: nat) returns (k: nat)
    requires Printable(p) && m < N_METRICS
    ensures k < N_NUMBERS && IsMetric(m, k)
    ensures GetNumber(Export(p), DIFF_METRICS[m], 0.0) == Printed(NumberFields()[k], p.numbers[k])
  {
    var j, key := Export(p), DIFF_METRICS[m];
    var some := EveryMetricIsPrinted(m);
    FieldsAt(p);
    FieldReadsBack(p, 3 + some);
    NumberIsPrinted(p, some);
    MetricsAreLong(m);
    hide NumberFields, DocOf, Meaning, Printable, LikeMetric;
    assert j.members[3 + some].key == key;
    var v := ObjectGet(j, key);
    var i :| 0 <= i < |j.members| && j.members[i] == Member(key, v.value);
    FieldReadsBackAt(p, i);
    LikeMetricIsNumber(p, i);
    k := i - 3;
    NumberIsPrinted(p, k);
  }

  lemma FieldReadsBackAt(p: Process, i: nat)
    requires Export(p).JObject? && i < |Export(p).members|
    ensures i < |DocOf(p).fields|
    ensures Export(p).members[i] == Member(DocOf(p).fields[i].key, Meaning(DocOf(p).fields[i].value))
  {
    hide NumberFields;
    FieldReadsBack(p, i);
  }

  // ---- the merge of two exports -----------------------------------------------------------------

  /**
   Merging the exports of two processes gives a matched node whose delta for each metric is what was printed of process
   b less what was printed of process a, and which goes by the comm of process a.
   */
  lemma DeltaOfExports(a: Process, b: Process, parentPath: string, occurrence: nat, threshold: real, m: nat)
    returns (ka: nat, kb: nat)
    requires Printable(a) && Printable(b) && m < N_METRICS
    ensures ka < N_NUMBERS && kb < N_NUMBERS && IsMetric(m, ka) && IsMetric(m, kb)
    ensures var n := Merge(Some(Export(a)), Some(Export(b)), parentPath, occurrence, threshold);
            && n.status == Matched && n.comm == (if a.comm.Some? then a.comm.value else "?")
            && |n.delta| == N_METRICS
            && Printed(NumberFields()[ka], a.numbers[ka]) + n.delta[m] == Printed(NumberFields()[kb], b.numbers[kb])
  {
    hide NumberFields, DocOf, Meaning, Merge, Printable, Printed, Deltas, GetNumber, Comm;
    var ja, jb := Export(a), Export(b);
    DiffLaws.MergedSides(Some(ja), Some(jb), parentPath, occurrence, threshold);
    DiffLaws.DeltaAt(Some(ja), Some(jb), N_METRICS, m);
    CommOfExport(a);
    ka := MetricOfExport(a, m);
    kb := MetricOfExport(b, m);
  }
}
