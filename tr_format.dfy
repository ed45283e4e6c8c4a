/**
 * `SearchThread.format` of TodoReview.py: the records are sorted by
 * (priority, match name), cut by `groupby` into maximal runs of equal match
 * name, and each run is shown as a header with the run's name and length
 * followed by its records numbered from 1. Since runs are cut in sorted
 * order, one match name can head several groups.
 */
module TodoReviewFormat {
  import opened Strings
  import opened StableSort
  import opened TodoReviewSearch

  /** The sort key `(m['priority'], m['match'].match_name)`. */
  function RecordKey(r: TodoRecord): (int, string) {
    (r.priority, r.result.matchName)
  }

  /** Python's `<` on (int, str) tuples: by priority, then by name. */
  predicate KeyLess(a: (int, string), b: (int, string)) {
    a.0 < b.0 || (a.0 == b.0 && StrLess(a.1, b.1))
  }

  lemma KeyLessIsStrictTotalOrder()
    ensures StrictTotalOrder(KeyLess)
  {
    forall a: (int, string) ensures !KeyLess(a, a) {
      StrLessIrreflexive(a.1);
    }
    forall a: (int, string), b: (int, string), c: (int, string) | KeyLess(a, b) && KeyLess(b, c)
      ensures KeyLess(a, c)
    {
      if a.0 == b.0 == c.0 {
        StrLessTransitive(a.1, b.1, c.1);
      }
    }
    forall a: (int, string), b: (int, string) | a != b ensures KeyLess(a, b) || KeyLess(b, a) {
      if a.0 == b.0 {
        StrLessTotal(a.1, b.1);
      }
    }
  }

  /**
   * `sorted(result, key=...)`: the same records, ordered by priority and
   * then by match name, records with equal keys in search order.
   */
  function SortRecords(records: seq<TodoRecord>): (sorted: seq<TodoRecord>)
    ensures |sorted| == |records| && multiset(sorted) == multiset(records)
    ensures forall i, j :: 0 <= i < j < |sorted| ==> !KeyLess(RecordKey(sorted[j]), RecordKey(sorted[i]))
    ensures forall k :: WithKey(sorted, RecordKey, k) == WithKey(records, RecordKey, k)
  {
    SortPermutes(records, RecordKey, KeyLess);
    KeyLessIsStrictTotalOrder();
    SortSorted(records, RecordKey, KeyLess);
    SortByKeyStable(records);
    assert |Sort(records, RecordKey, KeyLess)| == |multiset(records)|;
    Sort(records, RecordKey, KeyLess)
  }

  lemma SortByKeyStable(records: seq<TodoRecord>)
    ensures forall k :: WithKey(Sort(records, RecordKey, KeyLess), RecordKey, k) == WithKey(records, RecordKey, k)
  {
    KeyLessIsStrictTotalOrder();
    forall k {
      SortStable(records, RecordKey, KeyLess, k);
    }
  }

  function Name(r: TodoRecord): string {
    r.result.matchName
  }

  /** The runs laid end to end. */
  function Flatten(runs: seq<seq<TodoRecord>>): seq<TodoRecord> {
    if runs == [] then [] else runs[0] + Flatten(runs[1..])
  }

  /** Every run is non-empty and all of its records carry the same match name. */
  ghost predicate UniformRuns(runs: seq<seq<TodoRecord>>) {
    forall i :: 0 <= i < |runs| ==> runs[i] != [] && forall k :: 0 <= k < |runs[i]| ==> Name(runs[i][k]) == Name(runs[i][0])
  }

  /** Neighbouring runs carry different match names, so no run could be longer. */
  ghost predicate MaximalRuns(runs: seq<seq<TodoRecord>>)
    requires UniformRuns(runs)
  {
    forall i :: 0 <= i < |runs| - 1 ==> Name(runs[i][0]) != Name(runs[i + 1][0])
  }

  /**
   * `groupby(result, key=match_name)`: the records cut into maximal runs of
   * equal match name, in order.
   */
  function GroupRuns(records: seq<TodoRecord>): (runs: seq<seq<TodoRecord>>)
    ensures Flatten(runs) == records
    ensures UniformRuns(runs) && MaximalRuns(runs)
    ensures runs != [] ==> runs[0][0] == records[0]
  {
    if records == [] then []
    else
      var rest := GroupRuns(records[1..]);
      if rest != [] && Name(rest[0][0]) == Name(records[0]) then
        ExtendFirstRun(records, rest);
        [[records[0]] + rest[0]] + rest[1..]
      else
        OpenNewRun(records, rest);
        [[records[0]]] + rest
  }

  /** The first record joins the first run when that run has its name. */
  lemma ExtendFirstRun(records: seq<TodoRecord>, rest: seq<seq<TodoRecord>>)
    requires records != [] && Flatten(rest) == records[1..] && UniformRuns(rest) && MaximalRuns(rest)
    requires rest != [] && Name(rest[0][0]) == Name(records[0])
    ensures var runs := [[records[0]] + rest[0]] + rest[1..];
            Flatten(runs) == records && UniformRuns(runs) && MaximalRuns(runs) && runs[0][0] == records[0]
  {
    var runs := [[records[0]] + rest[0]] + rest[1..];
    assert runs[1..] == rest[1..];
    FlattenStep(runs);
    FlattenStep(rest);
    PrependFirst(records, Flatten(runs), Flatten(rest), rest[0], Flatten(rest[1..]));
    assert forall i :: 1 <= i < |runs| ==> runs[i] == rest[i];
  }

  /** The first record opens a run of its own when the first run has another name. */
  lemma OpenNewRun(records: seq<TodoRecord>, rest: seq<seq<TodoRecord>>)
    requires records != [] && Flatten(rest) == records[1..] && UniformRuns(rest) && MaximalRuns(rest)
    requires rest != [] ==> Name(rest[0][0]) != Name(records[0])
    ensures var runs := [[records[0]]] + rest;
            Flatten(runs) == records && UniformRuns(runs) && MaximalRuns(runs) && runs[0][0] == records[0]
  {
    var runs := [[records[0]]] + rest;
    assert runs[1..] == rest;
    FlattenStep(runs);
    assert records == [records[0]] + records[1..];
    assert forall i :: 1 <= i < |runs| ==> runs[i] == rest[i - 1];
  }

  /** `x` is `records` when it is `records[0]` followed by `y`, and `y` is the rest of `records`. */
  lemma PrependFirst(records: seq<TodoRecord>, x: seq<TodoRecord>, y: seq<TodoRecord>, first: seq<TodoRecord>, more: seq<TodoRecord>)
    requires records != [] && x == ([records[0]] + first) + more && y == first + more && y == records[1..]
    ensures x == records
  {
    assert records == [records[0]] + records[1..];
  }

  /** A line of the formatted output: a group header, or a numbered result. */
  datatype FormattedLine = Header(name: string, count: nat) | ResultLine(index: nat, record: TodoRecord)

  /** One group: its header with the run's name and length, then the run's records numbered from 1. */
  function RunLines(run: seq<TodoRecord>): (lines: seq<FormattedLine>)
    requires run != []
    ensures |lines| == |run| + 1
  {
    [Header(Name(run[0]), |run|)] + seq(|run|, k requires 0 <= k < |run| => ResultLine(k + 1, run[k]))
  }

  function FormatRuns(runs: seq<seq<TodoRecord>>): seq<FormattedLine>
    requires forall i :: 0 <= i < |runs| ==> runs[i] != []
  {
    if runs == [] then [] else RunLines(runs[0]) + FormatRuns(runs[1..])
  }

  /** `list(format(result))`: the groups of the sorted records, one after another. */
  function Format(records: seq<TodoRecord>): seq<FormattedLine> {
    FormatRuns(GroupRuns(SortRecords(records)))
  }

  /** The records of the result lines, in order. */
  function ResultRecords(lines: seq<FormattedLine>): seq<TodoRecord> {
    if lines == [] then []
    else (if lines[0].ResultLine? then [lines[0].record] else []) + ResultRecords(lines[1..])
  }

  lemma {:induction false} ResultRecordsAppend(a: seq<FormattedLine>, b: seq<FormattedLine>)
    ensures ResultRecords(a + b) == ResultRecords(a) + ResultRecords(b)
  {
    if a != [] {
      ResultRecordsAppend(a[1..], b);
      assert (a + b)[1..] == a[1..] + b;
    } else {
      assert a + b == b;
    }
  }

  lemma {:induction false} RunResultRecords(run: seq<TodoRecord>, from: nat)
    requires run != [] && from <= |run|
    ensures ResultRecords(RunLines(run)[from + 1..]) == run[from..]
    decreases |run| - from
  {
    var lines := RunLines(run);
    if from < |run| {
      RunResultRecords(run, from + 1);
      assert lines[from + 1..][1..] == lines[from + 2..];
      assert run[from..] == [run[from]] + run[from + 1..];
    } else {
      assert lines[from + 1..] == [];
    }
  }

  lemma {:induction false} FormatRunsResultRecords(runs: seq<seq<TodoRecord>>)
    requires forall i :: 0 <= i < |runs| ==> runs[i] != []
    ensures ResultRecords(FormatRuns(runs)) == Flatten(runs)
  {
    if runs != [] {
      var lines, tail := RunLines(runs[0]), FormatRuns(runs[1..]);
      FormatRunsStep(runs);
      ResultRecordsAppend(lines, tail);
      RunLinesRecords(runs[0]);
      FormatRunsResultRecords(runs[1..]);
      FlattenStep(runs);
      Substitute(ResultRecords(FormatRuns(runs)), ResultRecords(lines + tail), ResultRecords(lines), ResultRecords(tail),
                 runs[0], Flatten(runs[1..]), Flatten(runs));
    }
  }

  lemma FormatRunsStep(runs: seq<seq<TodoRecord>>)
    requires runs != [] && forall i :: 0 <= i < |runs| ==> runs[i] != []
    ensures FormatRuns(runs) == RunLines(runs[0]) + FormatRuns(runs[1..])
  {
  }

  lemma FlattenStep(runs: seq<seq<TodoRecord>>)
    requires runs != []
    ensures Flatten(runs) == runs[0] + Flatten(runs[1..])
  {
  }

  /** Equals for equals in a concatenation. */
  lemma Substitute<T>(x: seq<T>, y: seq<T>, a: seq<T>, b: seq<T>, a': seq<T>, b': seq<T>, z: seq<T>)
    requires y == a + b && a == a' && b == b' && z == a' + b'
    requires x == y
    ensures x == z
  {
  }

  /** The result lines of one group carry the run's records, in order. */
  lemma RunLinesRecords(run: seq<TodoRecord>)
    requires run != []
    ensures ResultRecords(RunLines(run)) == run
  {
    var lines := RunLines(run);
    RunResultRecords(run, 0);
    assert lines == [lines[0]] + lines[1..];
    ResultRecordsAppend([lines[0]], lines[1..]);
    assert run[0..] == run;
  }

  /**
   * The result lines carry exactly the sorted records, in sorted order: there
   * are as many result lines as records.
   */
  lemma FormatShowsEveryRecord(records: seq<TodoRecord>)
    ensures ResultRecords(Format(records)) == SortRecords(records)
    ensures |ResultRecords(Format(records))| == |records|
  {
    FormatRunsResultRecords(GroupRuns(SortRecords(records)));
  }

  /**
   * The header at `h` opens a group: its count is at least 1, the next
   * `count` lines are results numbered 1 to `count` carrying the header's
   * name, and the line after them, if any, is a header for another name.
   */
  ghost predicate HeaderOpensGroup(lines: seq<FormattedLine>, h: nat)
    requires h < |lines| && lines[h].Header?
  {
    var name, count := lines[h].name, lines[h].count;
    1 <= count && h + count < |lines| &&
    (forall j :: h < j <= h + count ==>
       lines[j].ResultLine? && lines[j].index == j - h && Name(lines[j].record) == name) &&
    (h + count + 1 < |lines| ==> lines[h + count + 1].Header? && lines[h + count + 1].name != name)
  }

  /** The structure of the formatted output of any list of runs that `groupby` can produce. */
  ghost predicate WellGrouped(lines: seq<FormattedLine>) {
    (lines != [] ==> lines[0].Header?) &&
    forall h :: 0 <= h < |lines| && lines[h].Header? ==> HeaderOpensGroup(lines, h)
  }

  lemma FormatRunsStartsWithHeader(runs: seq<seq<TodoRecord>>)
    requires runs != [] && forall i :: 0 <= i < |runs| ==> runs[i] != []
    ensures FormatRuns(runs) != [] && FormatRuns(runs)[0] == Header(Name(runs[0][0]), |runs[0]|)
  {
  }

  /** A header that opens a group in `tail` still opens it with lines put in front. */
  lemma ShiftedHeaderOpensGroup(head: seq<FormattedLine>, tail: seq<FormattedLine>, h: nat)
    requires |head| <= h < |head| + |tail| && tail[h - |head|].Header? && HeaderOpensGroup(tail, h - |head|)
    ensures (head + tail)[h] == tail[h - |head|] && HeaderOpensGroup(head + tail, h)
  {
    var lines, t := head + tail, h - |head|;
    forall j | h < j <= h + tail[t].count
      ensures lines[j].ResultLine? && lines[j].index == j - h && Name(lines[j].record) == tail[t].name
    {
      assert lines[j] == tail[j - |head|];
    }
    if h + tail[t].count + 1 < |lines| {
      assert lines[h + tail[t].count + 1] == tail[t + tail[t].count + 1];
    }
  }


  /** The header of a run opens a group when the next line is a header for another name. */
  lemma RunHeaderOpensGroup(run: seq<TodoRecord>, tail: seq<FormattedLine>)
    requires run != [] && forall k :: 0 <= k < |run| ==> Name(run[k]) == Name(run[0])
    requires tail != [] ==> tail[0].Header? && tail[0].name != Name(run[0])
    ensures (RunLines(run) + tail)[0].Header? && HeaderOpensGroup(RunLines(run) + tail, 0)
  {
    var head := RunLines(run);
    var lines := head + tail;
    forall j | 0 < j <= |run| ensures lines[j].ResultLine? && lines[j].index == j && Name(lines[j].record) == Name(run[0]) {
      assert lines[j] == head[j];
    }
    if |tail| > 0 {
      assert lines[|run| + 1] == tail[0];
    }
  }

  lemma DropFirstRun(runs: seq<seq<TodoRecord>>)
    requires runs != [] && UniformRuns(runs) && MaximalRuns(runs)
    ensures UniformRuns(runs[1..]) && MaximalRuns(runs[1..])
    ensures forall k :: 0 <= k < |runs[0]| ==> Name(runs[0][k]) == Name(runs[0][0])
    ensures |runs| > 1 ==> Name(runs[1][0]) != Name(runs[0][0])
  {
    assert forall i :: 0 <= i < |runs| - 1 ==> runs[1..][i] == runs[i + 1];
  }

  lemma {:induction false} FormatRunsWellGrouped(runs: seq<seq<TodoRecord>>)
    requires UniformRuns(runs) && MaximalRuns(runs)
    ensures WellGrouped(FormatRuns(runs))
  {
    if runs != [] {
      DropFirstRun(runs);
      FormatRunsWellGrouped(runs[1..]);
      if |runs| > 1 {
        FormatRunsStartsWithHeader(runs[1..]);
      }
      WellGroupedPrepend(runs[0], FormatRuns(runs[1..]));
      FormatRunsStep(runs);
    }
  }

  /** Putting a group for a uniform run in front of well-grouped lines that start with another name keeps them well grouped. */
  lemma WellGroupedPrepend(run: seq<TodoRecord>, tail: seq<FormattedLine>)
    requires run != [] && forall k :: 0 <= k < |run| ==> Name(run[k]) == Name(run[0])
    requires WellGrouped(tail)
    requires tail != [] ==> tail[0].Header? && tail[0].name != Name(run[0])
    ensures WellGrouped(RunLines(run) + tail)
  {
    var head := RunLines(run);
    var lines := head + tail;
    RunHeaderOpensGroup(run, tail);
    forall j | 0 < j < |head| ensures lines[j].ResultLine? {
      assert lines[j] == head[j];
    }
    forall h | |head| <= h < |lines| && lines[h].Header? ensures HeaderOpensGroup(lines, h) {
      ShiftedHeaderOpensGroup(head, tail, h);
    }
  }

  /**
   * Every header of the output opens a group whose count is the length of
   * its run, with items numbered from 1, and the first line is a header.
   */
  lemma FormatIsWellGrouped(records: seq<TodoRecord>)
    ensures WellGrouped(Format(records))
  {
    FormatRunsWellGrouped(GroupRuns(SortRecords(records)));
  }

  lemma SortThree(a1: TodoRecord, b: TodoRecord, a2: TodoRecord)
    requires a1.priority < b.priority < a2.priority
    ensures SortRecords([a1, b, a2]) == [a1, b, a2]
  {
    assert Insert(a2, [], RecordKey, KeyLess) == [a2];
    assert Sort([a2], RecordKey, KeyLess) == [a2] by {
      assert [a2][1..] == [];
    }
    assert Insert(b, [a2], RecordKey, KeyLess) == [b, a2];
    assert Sort([b, a2], RecordKey, KeyLess) == [b, a2] by {
      assert [b, a2][1..] == [a2];
    }
    assert Insert(a1, [b, a2], RecordKey, KeyLess) == [a1, b, a2];
    assert [a1, b, a2][1..] == [b, a2];
  }

  lemma GroupThree(a1: TodoRecord, b: TodoRecord, a2: TodoRecord)
    requires Name(a1) == Name(a2) != Name(b)
    ensures GroupRuns([a1, b, a2]) == [[a1], [b], [a2]]
  {
    assert [a1, b, a2][1..] == [b, a2];
    assert [b, a2][1..] == [a2];
    assert [a2][1..] == [];
    assert GroupRuns([a2]) == [[a2]];
    assert GroupRuns([b, a2]) == [[b], [a2]];
  }

  lemma FormatThreeRuns(a1: TodoRecord, b: TodoRecord, a2: TodoRecord)
    ensures FormatRuns([[a1], [b], [a2]]) ==
              [Header(Name(a1), 1), ResultLine(1, a1), Header(Name(b), 1), ResultLine(1, b), Header(Name(a2), 1), ResultLine(1, a2)]
  {
    var runs := [[a1], [b], [a2]];
    assert runs[1..] == [[b], [a2]] && runs[1..][1..] == [[a2]] && runs[1..][1..][1..] == [];
    assert FormatRuns([[a2]]) == RunLines([a2]) + FormatRuns([]);
    assert FormatRuns([[b], [a2]]) == RunLines([b]) + FormatRuns([[a2]]);
    assert FormatRuns(runs) == RunLines([a1]) + FormatRuns([[b], [a2]]);
    assert RunLines([a1]) == [Header(Name(a1), 1), ResultLine(1, a1)];
    assert RunLines([b]) == [Header(Name(b), 1), ResultLine(1, b)];
    assert RunLines([a2]) == [Header(Name(a2), 1), ResultLine(1, a2)];
  }

  /**
   * One match name can head several groups: names `n`, `m`, `n` with
   * increasing priorities sort into three runs and give three headers.
   */
  lemma NameCanHeadSeveralGroups(a1: TodoRecord, b: TodoRecord, a2: TodoRecord)
    requires Name(a1) == Name(a2) != Name(b)
    requires a1.priority < b.priority < a2.priority
    ensures Format([a1, b, a2]) ==
              [Header(Name(a1), 1), ResultLine(1, a1), Header(Name(b), 1), ResultLine(1, b), Header(Name(a1), 1), ResultLine(1, a2)]
  {
    SortThree(a1, b, a2);
    GroupThree(a1, b, a2);
    FormatThreeRuns(a1, b, a2);
  }
}
