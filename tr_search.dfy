/**
 * `TodoSearchEngine` of TodoReview.py, the older variant of the scanner:
 * every file below each root directory is read line by line, every match of
 * the todo pattern contributes one record per named group whose text is not
 * empty, and each record's priority is read from the first `(d)` or `(dd)`
 * token of its text, 100 when there is none. The processed-file counter is
 * incremented once per walked file, whether reading it succeeds or not.
 */
module TodoReviewSearch {
  import opened Wrappers
  import opened PyInt
  import opened MatchGroups
  import opened FileTree
  import opened Progress
  import ReviewMyselfWalk

  /** The priority of a text without a priority token. */
  const NoPriority: int := 100

  /**
   * `text` holds the token `(digits)` at position `i`, with one or two
   * decimal digits: a match of `\(([0-9]{1,2})\)` starting there.
   */
  ghost predicate IsToken(text: string, i: int, digits: string) {
    1 <= |digits| <= 2 && AllDigits(digits) && 0 <= i && i + |digits| + 2 <= |text| &&
    text[i..i + |digits| + 2] == "(" + digits + ")"
  }

  /**
   * The value of the token at position `i`, as the pattern tries it: two
   * digits first, then one.
   */
  function TokenAt(text: string, i: nat): Option<nat> {
    if i + 4 <= |text| && text[i] == '(' && IsDigit(text[i + 1]) && IsDigit(text[i + 2]) && text[i + 3] == ')' then
      Some(10 * DigitValue(text[i + 1]) + DigitValue(text[i + 2]))
    else if i + 3 <= |text| && text[i] == '(' && IsDigit(text[i + 1]) && text[i + 2] == ')' then
      Some(DigitValue(text[i + 1]))
    else None
  }

  /** A token the pattern matches is the one `TokenAt` reads, and its value is its digits' value. */
  lemma TokenAtComplete(text: string, i: nat, digits: string)
    requires IsToken(text, i, digits)
    ensures TokenAt(text, i) == Some(DigitsValue(digits))
  {
    TokenCharacters(text, i, digits);
    if |digits| == 2 {
      TwoDigitsValue(digits);
      assert IsDigit(text[i + 1]) && IsDigit(text[i + 2]);
    } else {
      OneDigitValue(digits);
      assert text[i + 2] == ')';
    }
  }

  /** The characters of a token: the parentheses around its digits. */
  lemma TokenCharacters(text: string, i: nat, digits: string)
    requires IsToken(text, i, digits)
    ensures text[i] == '(' && text[i + |digits| + 1] == ')'
    ensures forall k :: 0 <= k < |digits| ==> text[i + 1 + k] == digits[k]
  {
    var m := text[i..i + |digits| + 2];
    assert m[0] == text[i] && m[|m| - 1] == text[i + |digits| + 1];
    assert forall k :: 0 <= k < |digits| ==> text[i + 1 + k] == m[1 + k] == digits[k];
  }

  /** The value of two digits. */
  lemma TwoDigitsValue(digits: string)
    requires |digits| == 2 && AllDigits(digits)
    ensures DigitsValue(digits) == 10 * DigitValue(digits[0]) + DigitValue(digits[1])
  {
    var first := digits[..1];
    assert first[..0] == [] && first[0] == digits[0];
    assert DigitsValue(first) == DigitValue(digits[0]);
  }

  /** The value of one digit. */
  lemma OneDigitValue(digits: string)
    requires |digits| == 1 && AllDigits(digits)
    ensures DigitsValue(digits) == DigitValue(digits[0])
  {
    assert digits[..0] == [];
  }

  /** Whatever `TokenAt` reads is a token the pattern matches. */
  lemma TokenAtSound(text: string, i: nat)
    requires TokenAt(text, i).Some?
    ensures exists digits :: IsToken(text, i, digits) && DigitsValue(digits) == TokenAt(text, i).value
  {
    if i + 4 <= |text| && text[i] == '(' && IsDigit(text[i + 1]) && IsDigit(text[i + 2]) && text[i + 3] == ')' {
      var digits := text[i + 1..i + 3];
      assert text[i..i + 4] == "(" + digits + ")";
      assert digits[..1] == [digits[0]] && digits[..1][..0] == [];
      assert DigitsValue(digits[..1]) == DigitValue(text[i + 1]);
      assert DigitsValue(digits) == 10 * DigitValue(text[i + 1]) + DigitValue(text[i + 2]);
      assert IsToken(text, i, digits);
    } else {
      assert i + 3 <= |text| && text[i] == '(' && IsDigit(text[i + 1]) && text[i + 2] == ')';
      var digits := text[i + 1..i + 2];
      assert text[i..i + 3] == "(" + digits + ")";
      assert digits[..0] == [];
      assert DigitsValue(digits) == DigitValue(text[i + 1]);
      assert IsToken(text, i, digits);
    }
  }

  /** `priority_filter.search(text)` from position `from`: the leftmost token's value. */
  function FindToken(text: string, from: nat): (r: Option<nat>)
    ensures r.None? <==> forall j :: from <= j < |text| ==> TokenAt(text, j).None?
    ensures r.Some? ==> r.value <= 99
    ensures r.Some? ==> exists j :: from <= j < |text| && TokenAt(text, j) == r &&
                                    forall k :: from <= k < j ==> TokenAt(text, k).None?
    decreases |text| - from
  {
    if from >= |text| then None
    else if TokenAt(text, from).Some? then TokenAt(text, from)
    else FindToken(text, from + 1)
  }

  /**
   * A record's priority: the value of the first `(d)` or `(dd)` token of
   * its text, or 100. The text itself is left as it is.
   */
  function Priority(text: string): (p: int)
    ensures 0 <= p <= NoPriority
  {
    match FindToken(text, 0)
    case None => NoPriority
    case Some(v) => v
  }

  /**
   * The priority against the pattern: 100 exactly when no token occurs,
   * otherwise the value of a token that no other token starts before.
   */
  lemma PriorityIsLeftmostToken(text: string)
    ensures Priority(text) == NoPriority <==> forall i, digits :: !IsToken(text, i, digits)
    ensures Priority(text) < NoPriority ==>
              exists i, digits :: IsToken(text, i, digits) && DigitsValue(digits) == Priority(text) &&
                                  forall j, d :: 0 <= j < i ==> !IsToken(text, j, d)
  {
    var found := FindToken(text, 0);
    if found.None? {
      forall i, digits | IsToken(text, i, digits) ensures false {
        TokenAtComplete(text, i, digits);
      }
    } else {
      var i :| 0 <= i < |text| && TokenAt(text, i) == found && forall k :: 0 <= k < i ==> TokenAt(text, k).None?;
      TokenAtSound(text, i);
      var digits :| IsToken(text, i, digits) && DigitsValue(digits) == found.value;
      forall j, d | 0 <= j < i ensures !IsToken(text, j, d) {
        if IsToken(text, j, d) {
          TokenAtComplete(text, j, d);
        }
      }
      assert IsToken(text, i, digits);
    }
  }

  /** `(123)` has three digits and `()` none: neither is a token, so both give 100. */
  lemma NoTokenExamples(three: string, empty: string)
    requires three == "(123)" && empty == "()"
    ensures Priority(three) == NoPriority && Priority(empty) == NoPriority
  {
    forall j | 0 <= j < |three| ensures TokenAt(three, j).None? {
    }
    forall j | 0 <= j < |empty| ensures TokenAt(empty, j).None? {
    }
  }

  /** In `fix (7) then (42)` the leftmost token wins: the priority is 7. */
  lemma LeftmostTokenExample(text: string)
    requires text == "fix (7) then (42)"
    ensures Priority(text) == 7
  {
    forall j | 0 <= j < 4 ensures TokenAt(text, j).None? {
    }
    assert TokenAt(text, 4) == Some(7);
  }

  /** A named group's hit: the `Result` named tuple. */
  datatype Result = Result(matchName: string, matchText: string)

  /** The dictionary each found annotation is yielded as. */
  datatype TodoRecord = TodoRecord(filepath: Path, linenum: nat, result: Result, priority: int)

  /** The named groups of one match whose text is present and not empty, in dictionary order. */
  function MatchResults(groups: GroupDict): (results: seq<Result>)
    ensures forall r :: r in results <==>
              r.matchText != [] && exists i :: 0 <= i < |groups| && groups[i] == (r.matchName, Some(r.matchText))
  {
    if groups == [] then []
    else
      var rest := MatchResults(groups[1..]);
      assert forall i :: 1 <= i < |groups| ==> groups[i] == groups[1..][i - 1];
      match groups[0].1
      case Some(text) =>
        if text != [] then
          var r := Result(groups[0].0, text);
          assert forall x :: x in [r] + rest <==> x == r || x in rest;
          [r] + rest
        else rest
      case None => rest
  }

  /** The records of one match, each with the priority read from its own text. */
  function MatchRecords(path: Path, linenum: nat, results: seq<Result>): (records: seq<TodoRecord>)
    ensures |records| == |results|
    ensures forall k :: 0 <= k < |results| ==>
              records[k] == TodoRecord(path, linenum, results[k], Priority(results[k].matchText))
  {
    seq(|results|, k requires 0 <= k < |results| => TodoRecord(path, linenum, results[k], Priority(results[k].matchText)))
  }

  /** The records of one line: the matches of `finditer` in order, each contributing its results. */
  function LineRecords(path: Path, linenum: nat, matches: seq<GroupDict>): seq<TodoRecord> {
    if matches == [] then []
    else LineRecords(path, linenum, matches[..|matches| - 1]) + MatchRecords(path, linenum, MatchResults(matches[|matches| - 1]))
  }

  /** The records of the lines read, the line at index `k` numbered `k + 1`. */
  function LinesRecords(finditer: string -> seq<GroupDict>, path: Path, lines: seq<string>): seq<TodoRecord> {
    if lines == [] then []
    else LinesRecords(finditer, path, lines[..|lines| - 1]) + LineRecords(path, |lines|, finditer(lines[|lines| - 1]))
  }

  /**
   * The records of one walked path: none when opening fails, else those of
   * every line read before reading ends or fails.
   */
  function FileRecords(finditer: string -> seq<GroupDict>, fs: Node, path: Path): seq<TodoRecord> {
    match Lookup(fs, path)
    case Some(File(_, content)) => LinesRecords(finditer, path, content.lines)
    case _ => []
  }

  /** The records of the walked paths, file after file. */
  function SearchRecords(finditer: string -> seq<GroupDict>, fs: Node, paths: seq<Path>): seq<TodoRecord> {
    if paths == [] then []
    else SearchRecords(finditer, fs, paths[..|paths| - 1]) + FileRecords(finditer, fs, paths[|paths| - 1])
  }

  /** What `walk(path_to_search)` reports for one root: the files below it, nothing for a file or a missing path. */
  function WalkRoot(fs: Node, root: Path): seq<Path> {
    match Lookup(fs, root)
    case None => []
    case Some(node) => AllFiles(root, node)
  }

  /** `TodoSearchEngine.walk`: the roots in order. */
  function WalkRoots(fs: Node, roots: seq<Path>): seq<Path> {
    if roots == [] then [] else WalkRoots(fs, roots[..|roots| - 1]) + WalkRoot(fs, roots[|roots| - 1])
  }

  /**
   * A root yields exactly the files below it when it is a directory, and
   * nothing at all when it is a plain file or does not exist.
   */
  lemma WalkRootExactly(fs: Node, root: Path, p: Path)
    ensures p in WalkRoot(fs, root) <==>
              Lookup(fs, root).Some? && |p| > |root| && p[..|root|] == root &&
              IsFileBelow(Lookup(fs, root).value, p[|root|..])
  {
    if Lookup(fs, root).Some? {
      AllFilesExactly(root, Lookup(fs, root).value, p);
    }
  }

  /** A root that is a plain file contributes nothing, since `os.walk` of a file is empty. */
  lemma FileRootYieldsNothing(fs: Node, root: Path)
    requires Lookup(fs, root).Some? && Lookup(fs, root).value.File?
    ensures WalkRoot(fs, root) == []
  {
  }

  /** The matches of one line, each contributing one record per non-empty named group. */
  method ScanMatches(path: Path, linenum: nat, matches: seq<GroupDict>) returns (records: seq<TodoRecord>)
    ensures records == LineRecords(path, linenum, matches)
  {
    records := [];
    for m := 0 to |matches|
      invariant records == LineRecords(path, linenum, matches[..m])
    {
      LineRecordsStep(path, linenum, matches, m);
      var results := MatchResults(matches[m]);
      ghost var before := records;
      for k := 0 to |results|
        invariant records == before + MatchRecords(path, linenum, results[..k])
      {
        var priority := Priority(results[k].matchText);
        MatchRecordsStep(before, records, path, linenum, results, k);
        records := records + [TodoRecord(path, linenum, results[k], priority)];
      }
      assert results[..|results|] == results;
    }
    assert matches[..|matches|] == matches;
  }

  /** One more match adds its own records after those of the earlier matches. */
  lemma LineRecordsStep(path: Path, linenum: nat, matches: seq<GroupDict>, m: nat)
    requires m < |matches|
    ensures LineRecords(path, linenum, matches[..m + 1]) ==
            LineRecords(path, linenum, matches[..m]) + MatchRecords(path, linenum, MatchResults(matches[m]))
  {
    assert matches[..m + 1][..m] == matches[..m];
  }

  /** One more named group's record extends the records of a match by exactly that record. */
  lemma MatchRecordsStep(before: seq<TodoRecord>, records: seq<TodoRecord>, path: Path, linenum: nat, results: seq<Result>, k: nat)
    requires k < |results| && records == before + MatchRecords(path, linenum, results[..k])
    ensures records + [TodoRecord(path, linenum, results[k], Priority(results[k].matchText))] ==
            before + MatchRecords(path, linenum, results[..k + 1])
  {
  }

  /** Reading one opened file: lines are enumerated from 0 and recorded with number `linenum + 1`. */
  method ScanLines(finditer: string -> seq<GroupDict>, path: Path, lines: seq<string>) returns (records: seq<TodoRecord>)
    ensures records == LinesRecords(finditer, path, lines)
  {
    records := [];
    for linenum := 0 to |lines|
      invariant records == LinesRecords(finditer, path, lines[..linenum])
    {
      assert lines[..linenum + 1][..linenum] == lines[..linenum];
      var found := ScanMatches(path, linenum + 1, finditer(lines[linenum]));
      records := records + found;
    }
    assert lines[..|lines|] == lines;
  }

  /** `TodoSearchEngine`: the roots, the compiled todo pattern, and the counter it shares. */
  class TodoSearchEngine {
    const pathsToSearch: seq<Path>
    const finditer: string -> seq<GroupDict>
    const counter: Counter

    constructor (pathsToSearch: seq<Path>, finditer: string -> seq<GroupDict>, counter: Counter)
      ensures this.pathsToSearch == pathsToSearch && this.finditer == finditer && this.counter == counter
    {
      this.pathsToSearch := pathsToSearch;
      this.finditer := finditer;
      this.counter := counter;
    }

    /** `walk()`: the `os.walk` loop over each root, no directory pruned. */
    method Walk(fs: Node) returns (paths: seq<Path>)
      ensures paths == WalkRoots(fs, pathsToSearch)
    {
      paths := [];
      for i := 0 to |pathsToSearch|
        invariant paths == WalkRoots(fs, pathsToSearch[..i])
      {
        var below := WalkOneRoot(fs, pathsToSearch[i]);
        WalkRootsStep(fs, pathsToSearch, i);
        paths := paths + below;
      }
      assert pathsToSearch[..|pathsToSearch|] == pathsToSearch;
    }

    /** The body of the walk loop for one root: `os.walk` of it, which is empty for a file or a missing path. */
    method WalkOneRoot(fs: Node, root: Path) returns (below: seq<Path>)
      ensures below == WalkRoot(fs, root)
    {
      below := [];
      var entry := Lookup(fs, root);
      if entry.Some? {
        below := ReviewMyselfWalk.OsWalk(root, entry.value, [], []);
        ReviewMyselfWalk.WalkDirWithoutPatterns(root, entry.value);
      }
    }

    /**
     * `search()`: the records of every walked file in walk order, with the
     * counter incremented exactly once per walked path.
     */
    method Search(fs: Node) returns (records: seq<TodoRecord>)
      modifies counter
      ensures records == SearchRecords(finditer, fs, WalkRoots(fs, pathsToSearch))
      ensures counter.current == old(counter.current) + |WalkRoots(fs, pathsToSearch)|
    {
      var paths := Walk(fs);
      records := [];
      for i := 0 to |paths|
        invariant records == SearchRecords(finditer, fs, paths[..i])
        invariant counter.current == old(counter.current) + i
      {
        var found := ScanPath(fs, paths[i]);
        SearchRecordsStep(finditer, fs, paths, i);
        records := records + found;
        counter.Increment();
      }
      assert paths[..|paths|] == paths;
    }

    /** The body of the search loop for one walked path: open it, or find nothing when opening fails. */
    method ScanPath(fs: Node, path: Path) returns (found: seq<TodoRecord>)
      ensures found == FileRecords(finditer, fs, path)
    {
      found := [];
      var entry := Lookup(fs, path);
      if entry.Some? && entry.value.File? {
        found := ScanLines(finditer, path, entry.value.content.lines);
      }
    }
  }

  /** One more root adds its own files after those of the earlier roots. */
  lemma WalkRootsStep(fs: Node, roots: seq<Path>, i: nat)
    requires i < |roots|
    ensures WalkRoots(fs, roots[..i + 1]) == WalkRoots(fs, roots[..i]) + WalkRoot(fs, roots[i])
  {
    assert roots[..i + 1][..i] == roots[..i];
  }

  /** One more walked path adds its own records after those of the earlier paths. */
  lemma SearchRecordsStep(finditer: string -> seq<GroupDict>, fs: Node, paths: seq<Path>, i: nat)
    requires i < |paths|
    ensures SearchRecords(finditer, fs, paths[..i + 1]) ==
            SearchRecords(finditer, fs, paths[..i]) + FileRecords(finditer, fs, paths[i])
  {
    assert paths[..i + 1][..i] == paths[..i];
  }

  /** Every record of a line carries that line's number, a non-empty group text and the text's priority. */
  lemma {:induction false} LineRecordsSound(path: Path, linenum: nat, matches: seq<GroupDict>, r: TodoRecord)
    requires r in LineRecords(path, linenum, matches)
    ensures r.filepath == path && r.linenum == linenum && r.result.matchText != []
    ensures r.priority == Priority(r.result.matchText)
    ensures exists groups :: groups in matches && r.result in MatchResults(groups)
  {
    var init := matches[..|matches| - 1];
    if r in LineRecords(path, linenum, init) {
      LineRecordsSound(path, linenum, init, r);
      var groups :| groups in init && r.result in MatchResults(groups);
      assert groups in matches;
    } else {
      var results := MatchResults(matches[|matches| - 1]);
      var k :| 0 <= k < |results| && MatchRecords(path, linenum, results)[k] == r;
      assert r.result == results[k];
    }
  }

  /** Line numbers are 1-based: every record of a file names one of its lines. */
  lemma LinesRecordsSound(finditer: string -> seq<GroupDict>, path: Path, lines: seq<string>, r: TodoRecord)
    requires r in LinesRecords(finditer, path, lines)
    ensures r.filepath == path && 1 <= r.linenum <= |lines|
    ensures r.result.matchText != [] && r.priority == Priority(r.result.matchText)
    ensures exists groups :: groups in finditer(lines[r.linenum - 1]) && r.result in MatchResults(groups)
  {
    var groups := LinesRecordOrigin(finditer, path, lines, r);
  }

  /** The match of its own line that a record of a file comes from. */
  lemma {:induction false} LinesRecordOrigin(finditer: string -> seq<GroupDict>, path: Path, lines: seq<string>, r: TodoRecord)
    returns (groups: GroupDict)
    requires r in LinesRecords(finditer, path, lines)
    ensures r.filepath == path && 1 <= r.linenum <= |lines|
    ensures r.result.matchText != [] && r.priority == Priority(r.result.matchText)
    ensures groups in finditer(lines[r.linenum - 1]) && r.result in MatchResults(groups)
  {
    var init := lines[..|lines| - 1];
    if r in LinesRecords(finditer, path, init) {
      groups := LinesRecordOrigin(finditer, path, init, r);
      EarlierLine(lines, r.linenum - 1);
    } else {
      groups := LastLineOrigin(path, |lines|, finditer(lines[|lines| - 1]), r);
    }
  }

  /** Dropping the last line keeps the lines before it. */
  lemma EarlierLine(lines: seq<string>, k: nat)
    requires k < |lines| - 1
    ensures lines[..|lines| - 1][k] == lines[k]
  {
  }

  /** The match that a record of one line comes from. */
  lemma LastLineOrigin(path: Path, linenum: nat, matches: seq<GroupDict>, r: TodoRecord) returns (groups: GroupDict)
    requires r in LineRecords(path, linenum, matches)
    ensures r.filepath == path && r.linenum == linenum && r.result.matchText != []
    ensures r.priority == Priority(r.result.matchText)
    ensures groups in matches && r.result in MatchResults(groups)
  {
    LineRecordsSound(path, linenum, matches, r);
    groups :| groups in matches && r.result in MatchResults(groups);
  }

  /** A match whose groups are all empty or absent contributes no record. */
  lemma {:induction false} EmptyGroupsContributeNothing(groups: GroupDict)
    requires forall i :: 0 <= i < |groups| ==> groups[i].1.None? || groups[i].1 == Some([])
    ensures MatchResults(groups) == []
  {
    if groups != [] {
      assert forall i :: 1 <= i < |groups| ==> groups[1..][i - 1] == groups[i];
      EmptyGroupsContributeNothing(groups[1..]);
    }
  }
}
