/**
 * `TodoSearchEngine.search` of ReviewMyself.py: every file the walk yields is
 * read line by line; a line the todo matcher accepts and whose stripped
 * `todo` capture is not empty becomes a record, with a priority read from
 * the priority matcher (9999 when there is none). An exception while a file
 * is read ends that file: the records already produced are kept, and the
 * processed-file counter is incremented once per file whatever happens.
 */
module ReviewMyselfSearch {
  import opened Wrappers
  import opened Strings
  import opened PyInt
  import opened MatchGroups
  import opened FileTree
  import opened Progress
  import opened ReviewMyselfWalk

  /** The priority every record gets when the priority matcher gives none. */
  const DefaultPriority: int := 9999

  /** A priority-matcher hit: the whole matched text (`group(0)`) and its `groupdict()`. */
  datatype PriorityMatch = PriorityMatch(group0: string, groups: GroupDict)

  /** The dictionary each found annotation is yielded as. */
  datatype Record = Record(filepath: Path, linenum: nat, todo: string, priority: int)

  /** What one line contributes: nothing, a record's text and priority, or an exception. */
  datatype LineOutcome = Skip | Emit(todo: string, priority: int) | Raise

  /** Python's `str()` of a captured group's value. */
  function GroupText(value: Option<string>): string {
    match value
    case None => "None"
    case Some(text) => text
  }

  /**
   * The todo text as written: `str(match_groups["todo"]).strip()` when the
   * key exists, so a `todo` group that took no part in the match becomes the
   * text "None".
   */
  function TodoCaptureAsWritten(groups: GroupDict): (todo: string)
    ensures !HasGroup(groups, "todo") ==> todo == []
    ensures GroupLookup(groups, "todo") == Some(None) ==> todo == "None"
  {
    match GroupLookup(groups, "todo")
    case None => ""
    case Some(value) => Strip(GroupText(value))
  }

  /**
   * The todo text as evidently intended: the stripped capture, and the empty
   * text when the `todo` group is missing or took no part in the match.
   */
  function TodoCapture(groups: GroupDict): (todo: string)
    ensures GroupLookup(groups, "todo").Some? && GroupLookup(groups, "todo").value.Some? ==>
              todo == Strip(GroupLookup(groups, "todo").value.value)
    ensures (GroupLookup(groups, "todo").None? || GroupLookup(groups, "todo").value.None?) ==> todo == []
  {
    match GroupLookup(groups, "todo")
    case Some(Some(text)) => Strip(text)
    case _ => ""
  }

  /** Both capture rules agree whenever the `todo` group took part in the match. */
  lemma CaptureAgreesWhenGroupMatched(groups: GroupDict)
    requires GroupLookup(groups, "todo") != Some(None)
    ensures TodoCapture(groups) == TodoCaptureAsWritten(groups)
  {
  }

  /**
   * A line matched through another branch of the pattern, so that the
   * `todo` group took no part: as written the capture is the non-empty text
   * `None` and the line would yield a record; the corrected capture is empty
   * and the line yields nothing.
   */
  lemma UnmatchedTodoGroupExample(todoFilter: string -> Option<GroupDict>, priorityFilter: string -> Option<PriorityMatch>,
                                  line: string, groups: GroupDict)
    requires groups == [("todo", None)] && todoFilter(line) == Some(groups)
    ensures TodoCaptureAsWritten(groups) == "None" && TodoCaptureAsWritten(groups) != []
    ensures TodoCapture(groups) == [] && ScanLine(todoFilter, priorityFilter, line) == Skip
  {
    assert GroupLookup(groups, "todo") == Some(None);
  }

  /**
   * The priority and final text of a non-empty todo, or `None` when
   * resolving it raises: `int(None)` for a `priority` group that took no part
   * in the match, or `int()` of text that is no integer.
   */
  function ResolvePriority(todo: string, found: Option<PriorityMatch>): (r: Option<(string, int)>)
    ensures found.None? ==> r == Some((todo, DefaultPriority))
    ensures found.Some? && !HasGroup(found.value.groups, "priority") ==> r == Some((todo, DefaultPriority))
    ensures found.Some? && GroupLookup(found.value.groups, "priority") == Some(None) ==> r.None?
    ensures found.Some? && GroupLookup(found.value.groups, "priority").Some? &&
            GroupLookup(found.value.groups, "priority").value.Some? ==>
              var text := GroupLookup(found.value.groups, "priority").value.value;
              (r.None? <==> ParseInt(text).None?) &&
              (r.Some? ==> r.value == (ReplaceAll(todo, found.value.group0, ""), ParseInt(text).value))
  {
    match found
    case None => Some((todo, DefaultPriority))
    case Some(m) =>
      match GroupLookup(m.groups, "priority")
      case None => Some((todo, DefaultPriority))
      case Some(None) => None
      case Some(Some(text)) =>
        match ParseInt(text)
        case None => None
        case Some(p) => Some((ReplaceAll(todo, m.group0, ""), p))
  }

  /** What one line read from a file contributes. */
  function ScanLine(todoFilter: string -> Option<GroupDict>, priorityFilter: string -> Option<PriorityMatch>,
                    line: string): LineOutcome
  {
    match todoFilter(line)
    case None => Skip
    case Some(groups) =>
      var todo := TodoCapture(groups);
      if todo == [] then Skip
      else
        match ResolvePriority(todo, priorityFilter(todo))
        case None => Raise
        case Some((text, priority)) => Emit(text, priority)
  }

  /** The matchers of one search, as a classification of lines. */
  function Classifier(todoFilter: string -> Option<GroupDict>, priorityFilter: string -> Option<PriorityMatch>): string -> LineOutcome {
    line => ScanLine(todoFilter, priorityFilter, line)
  }

  /**
   * The records of `lines[i..]`, numbered from `i + 1`; an exception ends
   * the file and drops nothing produced before it.
   */
  function ScanFrom(classify: string -> LineOutcome, path: Path, lines: seq<string>, i: nat): seq<Record>
    requires i <= |lines|
    decreases |lines| - i
  {
    if i == |lines| then []
    else LineRecords(classify(lines[i]), path, i, ScanFrom(classify, path, lines, i + 1))
  }

  /** What line `i` (0-based) adds in front of the records `later` of the lines after it. */
  function LineRecords(outcome: LineOutcome, path: Path, i: nat, later: seq<Record>): seq<Record> {
    match outcome
    case Skip => later
    case Emit(todo, priority) => [Record(path, i + 1, todo, priority)] + later
    case Raise => []
  }

  /**
   * The records of one walked path: none when opening fails (a missing path
   * or a directory), else those of the lines read before any failure.
   */
  function FileRecords(todoFilter: string -> Option<GroupDict>, priorityFilter: string -> Option<PriorityMatch>,
                       fs: Node, path: Path): seq<Record>
  {
    match Lookup(fs, path)
    case Some(File(_, content)) => ScanFrom(Classifier(todoFilter, priorityFilter), path, content.lines, 0)
    case _ => []
  }

  /** The records of the walked paths, file after file. */
  function SearchRecords(todoFilter: string -> Option<GroupDict>, priorityFilter: string -> Option<PriorityMatch>,
                         fs: Node, paths: seq<Path>): seq<Record>
  {
    if paths == [] then []
    else SearchRecords(todoFilter, priorityFilter, fs, paths[..|paths| - 1])
         + FileRecords(todoFilter, priorityFilter, fs, paths[|paths| - 1])
  }

  /**
   * Reading one opened file: lines are numbered from 1 and scanned until the
   * end or until one raises.
   */
  method ScanLines(classify: string -> LineOutcome, path: Path, lines: seq<string>) returns (records: seq<Record>)
    ensures records == ScanFrom(classify, path, lines, 0)
  {
    records := [];
    var linenum := 1;
    var failed := false;
    ghost var whole := ScanFrom(classify, path, lines, 0);
    ghost var rest := whole;
    while linenum <= |lines| && !failed
      invariant 1 <= linenum <= |lines| + 1
      invariant records + rest == whole
      invariant rest == if failed then [] else ScanFrom(classify, path, lines, linenum - 1)
      decreases |lines| + 1 - linenum, if failed then 0 else 1
    {
      var outcome := classify(lines[linenum - 1]);
      ghost var later := ScanFrom(classify, path, lines, linenum);
      ScanFromUnfold(classify, path, lines, linenum - 1);
      ScanLineStep(records, outcome, path, linenum - 1, later, whole);
      match outcome {
        case Skip =>
          linenum := linenum + 1;
          rest := later;
        case Emit(todo, priority) =>
          records := records + [Record(path, linenum, todo, priority)];
          linenum := linenum + 1;
          rest := later;
        case Raise =>
          failed := true;
          rest := [];
      }
    }
  }

  lemma ScanFromUnfold(classify: string -> LineOutcome, path: Path, lines: seq<string>, i: nat)
    requires i < |lines|
    ensures ScanFrom(classify, path, lines, i)
            == LineRecords(classify(lines[i]), path, i, ScanFrom(classify, path, lines, i + 1))
  {
  }

  /** How one scanned line moves the loop's records forward. */
  lemma ScanLineStep(records: seq<Record>, outcome: LineOutcome, path: Path, i: nat, later: seq<Record>, whole: seq<Record>)
    requires records + LineRecords(outcome, path, i, later) == whole
    ensures outcome.Skip? ==> records + later == whole
    ensures outcome.Emit? ==> (records + [Record(path, i + 1, outcome.todo, outcome.priority)]) + later == whole
    ensures outcome.Raise? ==> records + [] == whole
  {
    if outcome.Emit? {
      assert (records + [Record(path, i + 1, outcome.todo, outcome.priority)]) + later
          == records + ([Record(path, i + 1, outcome.todo, outcome.priority)] + later);
    }
  }

  /** A record comes from a line of its file: its number is 1-based and that line emits it. */
  lemma {:induction false} ScanFromSound(classify: string -> LineOutcome, path: Path, lines: seq<string>, i: nat, r: Record)
    requires i <= |lines| && r in ScanFrom(classify, path, lines, i)
    ensures r.filepath == path && i + 1 <= r.linenum <= |lines|
    ensures classify(lines[r.linenum - 1]) == Emit(r.todo, r.priority)
    decreases |lines| - i
  {
    if classify(lines[i]) != Emit(r.todo, r.priority) || r.linenum != i + 1 || r.filepath != path {
      ScanFromSound(classify, path, lines, i + 1, r);
    }
  }

  /** Records of one file are in strictly increasing line order, all after line `i`. */
  lemma {:induction false} ScanFromOrdered(classify: string -> LineOutcome, path: Path, lines: seq<string>, i: nat)
    requires i <= |lines|
    ensures Ordered(ScanFrom(classify, path, lines, i), i)
    decreases |lines| - i
  {
    if i < |lines| {
      ScanFromOrdered(classify, path, lines, i + 1);
      LineRecordsOrdered(classify(lines[i]), path, i,
                         ScanFrom(classify, path, lines, i + 1));
    }
  }

  /** Line numbers above `i`, strictly increasing. */
  ghost predicate Ordered(records: seq<Record>, i: nat) {
    (forall a :: 0 <= a < |records| ==> records[a].linenum > i) &&
    (forall a, b :: 0 <= a < b < |records| ==> records[a].linenum < records[b].linenum)
  }

  lemma LineRecordsOrdered(outcome: LineOutcome, path: Path, i: nat, later: seq<Record>)
    requires Ordered(later, i + 1)
    ensures Ordered(LineRecords(outcome, path, i, later), i)
  {
    if outcome.Emit? {
      var rs := LineRecords(outcome, path, i, later);
      assert forall a :: 1 <= a < |rs| ==> rs[a] == later[a - 1];
    }
  }

  /**
   * Records produced before an exception are kept: when line `k` raises,
   * the file yields exactly what its first `k` lines yield.
   */
  lemma {:induction false} RaiseKeepsEarlierRecords(classify: string -> LineOutcome, path: Path, lines: seq<string>, k: nat, i: nat)
    requires i <= k < |lines| && classify(lines[k]) == Raise
    ensures ScanFrom(classify, path, lines, i) == ScanFrom(classify, path, lines[..k], i)
    decreases k - i
  {
    var prefix := lines[..k];
    if i < k {
      RaiseKeepsEarlierRecords(classify, path, lines, k, i + 1);
      assert prefix[i] == lines[i];
      ScanFromStep(classify, path, lines, prefix, i);
    } else {
      assert |prefix| == i;
    }
  }

  /** `ScanFrom` at `i` depends only on line `i` and on what follows it. */
  lemma ScanFromStep(classify: string -> LineOutcome, path: Path, lines: seq<string>, others: seq<string>, i: nat)
    requires i < |lines| && i < |others| && lines[i] == others[i]
    requires ScanFrom(classify, path, lines, i + 1) == ScanFrom(classify, path, others, i + 1)
    ensures ScanFrom(classify, path, lines, i) == ScanFrom(classify, path, others, i)
  {
    assert ScanFrom(classify, path, lines, i)
        == LineRecords(classify(lines[i]), path, i, ScanFrom(classify, path, lines, i + 1));
  }

  /**
   * A line yields a record exactly when the todo matcher accepts it, the
   * capture is not empty and its priority resolves; the record's priority is
   * 9999 unless a `priority` group was found, in which case it is that
   * group's integer and the matched token is removed from the text.
   */
  lemma EmitCharacterised(todoFilter: string -> Option<GroupDict>, priorityFilter: string -> Option<PriorityMatch>,
                          line: string)
    ensures ScanLine(todoFilter, priorityFilter, line).Emit? <==>
              todoFilter(line).Some? && TodoCapture(todoFilter(line).value) != [] &&
              ResolvePriority(TodoCapture(todoFilter(line).value), priorityFilter(TodoCapture(todoFilter(line).value))).Some?
    ensures ScanLine(todoFilter, priorityFilter, line).Emit? ==>
              var todo := TodoCapture(todoFilter(line).value);
              var found := priorityFilter(todo);
              var outcome := ScanLine(todoFilter, priorityFilter, line);
              if found.None? || !HasGroup(found.value.groups, "priority") then
                outcome.priority == DefaultPriority && outcome.todo == todo
              else
                Some(outcome.priority) == ParseInt(GroupLookup(found.value.groups, "priority").value.value) &&
                outcome.todo == ReplaceAll(todo, found.value.group0, "")
  {
  }

  /** `TodoSearchEngine`: its configuration and its processed-file counter. */
  class TodoSearchEngine {
    var pathsToSearch: seq<Path>
    var todoFilter: string -> Option<GroupDict>
    var priorityFilter: string -> Option<PriorityMatch>
    var ignoredDirPatterns: seq<string>
    var onlyCareFilePatterns: seq<string>
    const counter: Counter

    /** A new engine, configured as `ReviewMyselfImpl.run` configures it, with a fresh counter. */
    constructor (pathsToSearch: seq<Path>, todoFilter: string -> Option<GroupDict>,
                 priorityFilter: string -> Option<PriorityMatch>,
                 ignoredDirPatterns: seq<string>, onlyCareFilePatterns: seq<string>)
      ensures this.pathsToSearch == pathsToSearch && this.todoFilter == todoFilter
      ensures this.priorityFilter == priorityFilter
      ensures this.ignoredDirPatterns == ignoredDirPatterns && this.onlyCareFilePatterns == onlyCareFilePatterns
      ensures fresh(counter) && counter.current == 0
    {
      this.pathsToSearch := pathsToSearch;
      this.todoFilter := todoFilter;
      this.priorityFilter := priorityFilter;
      this.ignoredDirPatterns := ignoredDirPatterns;
      this.onlyCareFilePatterns := onlyCareFilePatterns;
      counter := new Counter();
    }

    /** The paths `walk()` yields for this configuration. */
    ghost function Walked(fs: Node): seq<Path>
      reads this
    {
      WalkRoots(fs, pathsToSearch, onlyCareFilePatterns, ignoredDirPatterns)
    }

    /**
     * `search()`: the records of every walked file in walk order, with the
     * counter incremented exactly once per walked path.
     */
    method Search(fs: Node) returns (records: seq<Record>)
      modifies counter
      ensures records == SearchRecords(todoFilter, priorityFilter, fs, Walked(fs))
      ensures counter.current == old(counter.current) + |Walked(fs)|
    {
      var paths := Walk(fs, pathsToSearch, onlyCareFilePatterns, ignoredDirPatterns);
      records := [];
      for i := 0 to |paths|
        invariant records == SearchRecords(todoFilter, priorityFilter, fs, paths[..i])
        invariant counter.current == old(counter.current) + i
      {
        var found := ScanPath(todoFilter, priorityFilter, fs, paths[i]);
        SearchRecordsStep(todoFilter, priorityFilter, fs, paths, i);
        records := records + found;
        counter.Increment();
      }
      assert paths[..|paths|] == paths;
    }
  }

  /** One pass of the loop over the walked paths: open the path and scan it when it is a file. */
  method ScanPath(todoFilter: string -> Option<GroupDict>, priorityFilter: string -> Option<PriorityMatch>,
                  fs: Node, path: Path) returns (found: seq<Record>)
    ensures found == FileRecords(todoFilter, priorityFilter, fs, path)
  {
    found := [];
    var entry := Lookup(fs, path);
    if entry.Some? && entry.value.File? {
      found := ScanLines(Classifier(todoFilter, priorityFilter), path, entry.value.content.lines);
    }
  }

  lemma SearchRecordsStep(todoFilter: string -> Option<GroupDict>, priorityFilter: string -> Option<PriorityMatch>,
                          fs: Node, paths: seq<Path>, i: nat)
    requires i < |paths|
    ensures SearchRecords(todoFilter, priorityFilter, fs, paths[..i + 1])
            == SearchRecords(todoFilter, priorityFilter, fs, paths[..i]) + FileRecords(todoFilter, priorityFilter, fs, paths[i])
  {
    assert paths[..i + 1][..i] == paths[..i];
  }

  /** Every searched record comes from a walked path and a line of that file that emits it. */
  lemma {:induction false} SearchRecordsSound(todoFilter: string -> Option<GroupDict>, priorityFilter: string -> Option<PriorityMatch>,
                                              fs: Node, paths: seq<Path>, r: Record)
    requires r in SearchRecords(todoFilter, priorityFilter, fs, paths)
    ensures r.filepath in paths
    ensures exists name, content :: Lookup(fs, r.filepath) == Some(File(name, content)) &&
              1 <= r.linenum <= |content.lines| &&
              ScanLine(todoFilter, priorityFilter, content.lines[r.linenum - 1]) == Emit(r.todo, r.priority)
  {
    var last := paths[|paths| - 1];
    if r in SearchRecords(todoFilter, priorityFilter, fs, paths[..|paths| - 1]) {
      SearchRecordsSound(todoFilter, priorityFilter, fs, paths[..|paths| - 1], r);
    } else {
      match Lookup(fs, last) {
        case Some(File(name, content)) =>
          ScanFromSound(Classifier(todoFilter, priorityFilter), last, content.lines, 0, r);
      }
    }
  }

  /**
   * With a priority group named `priority`: the capture `TODO(2): fix this`,
   * with a priority match `(2)` whose `priority` group holds `2`, gives
   * priority 2 and the text `TODO: fix this`.
   */
  lemma PriorityExample(capture: string, token: string, digits: string)
    requires capture == "TODO(2): fix this" && token == "(2)" && digits == "2"
    ensures ResolvePriority(capture, Some(PriorityMatch(token, [("priority", Some(digits))])))
            == Some(("TODO: fix this", 2))
  {
    TokenRemovedExample(capture, token, "TODO: fix this");
    ParseIntDigits(digits);
    assert DigitsValue(digits) == 2 by {
      assert digits[..0] == [];
    }
    assert GroupLookup([("priority", Some(digits))], "priority") == Some(Some(digits));
  }

  /** Removing the token `(2)` from `TODO(2): fix this` leaves `TODO: fix this`. */
  lemma TokenRemovedExample(capture: string, token: string, text: string)
    requires capture == "TODO(2): fix this" && token == "(2)" && text == "TODO: fix this"
    ensures ReplaceAll(capture, token, "") == text
  {
    var before, after := "TODO", ": fix this";
    ExampleParts(capture, before, token, after, text);
    ReplaceSingleOccurrence(before, token, after, "");
  }

  /** `TODO(2): fix this` is `TODO`, the token and `: fix this`; without the token it is `TODO: fix this`. */
  lemma ExampleParts(capture: string, before: string, token: string, after: string, text: string)
    requires capture == "TODO(2): fix this" && before == "TODO" && token == "(2)" && after == ": fix this"
    requires text == "TODO: fix this"
    ensures capture == before + token + after && text == before + "" + after
  {
    assert capture == before + token + after;
  }

  /**
   * With an unnamed priority group (`\(([0-9]{1,2})\)`), the match has no
   * `priority` key: the record keeps priority 9999 and its token.
   */
  lemma UnnamedPriorityGroupExample()
    ensures ResolvePriority("TODO(2): fix this", Some(PriorityMatch("(2)", [])))
            == Some(("TODO(2): fix this", DefaultPriority))
  {
  }
}
