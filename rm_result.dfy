/**
 * The result list of ReviewMyself.py: `ReviewMyselfShowResultCommand` sorts
 * the records by priority, shows each with its 1-based index, its path
 * shortened against the searched roots and a priority label, and selects the
 * first one; `ReviewMyselfNavigateResultCommand` moves the selection up or
 * down with wrap-around; `ReviewMyselfGotoCommand` opens the selected record.
 */
module ReviewMyselfResult {
  import opened Wrappers
  import opened Strings
  import opened PyInt
  import opened FileTree
  import opened StableSort
  import opened ReviewMyselfUtil
  import opened ReviewMyselfSearch

  function PriorityKey(r: Record): int {
    r.priority
  }

  predicate IntLess(a: int, b: int) {
    a < b
  }

  lemma IntLessIsStrictTotalOrder()
    ensures StrictTotalOrder(IntLess)
  {
  }

  /**
   * `sorted(results, key=lambda result: result['priority'])`: the same
   * records, by non-decreasing priority, and records of equal priority in
   * search order.
   */
  function SortResults(results: seq<Record>): (sorted: seq<Record>)
    ensures |sorted| == |results| && multiset(sorted) == multiset(results)
    ensures forall i, j :: 0 <= i < j < |sorted| ==> sorted[i].priority <= sorted[j].priority
    ensures forall p :: WithKey(sorted, PriorityKey, p) == WithKey(results, PriorityKey, p)
  {
    SortPermutes(results, PriorityKey, IntLess);
    IntLessIsStrictTotalOrder();
    SortSorted(results, PriorityKey, IntLess);
    SortByPriorityStable(results);
    assert |Sort(results, PriorityKey, IntLess)| == |multiset(results)|;
    Sort(results, PriorityKey, IntLess)
  }

  lemma SortByPriorityStable(results: seq<Record>)
    ensures forall p :: WithKey(Sort(results, PriorityKey, IntLess), PriorityKey, p) == WithKey(results, PriorityKey, p)
  {
    forall p {
      SortStable(results, PriorityKey, IntLess, p);
    }
  }

  /**
   * The priority column: empty for the default priority 9999, else `p`, the
   * number and a dot.
   */
  function PriorityLabel(priority: int): (text: string)
    ensures text == [] <==> priority == DefaultPriority
    ensures text != [] ==> |text| >= 3 && text[0] == 'p' && text[|text| - 1] == '.'
  {
    if priority == DefaultPriority then "" else "p" + IntToString(priority) + "."
  }

  /** A shown label reads back as the record's priority. */
  lemma PriorityLabelReadsBack(priority: int)
    requires priority != DefaultPriority
    ensures var text := PriorityLabel(priority);
            ParseInt(text[1..|text| - 1]) == Some(priority)
  {
    var digits := IntToString(priority);
    ParseIntToString(priority);
    assert ("p" + digits + ".")[1..|digits| + 1] == digits;
  }

  /**
   * One root applied to a displayed path, as written: when the path starts
   * with the root, EVERY occurrence of the root text in the path is replaced
   * by the root's base name.
   */
  function MinimizeOneAsWritten(filepath: string, root: string): (shown: string)
    ensures !StartsWith(filepath, root) ==> shown == filepath
    ensures StartsWith(filepath, root) && root != [] ==>
              StartsWith(shown, GetBasenameFromPath(root)) &&
              shown[|GetBasenameFromPath(root)|..] == ReplaceAll(filepath[|root|..], root, GetBasenameFromPath(root))
  {
    if StartsWith(filepath, root) then
      var name := GetBasenameFromPath(root);
      if root == [] then ReplaceAll(filepath, root, name)
      else
        BelowRoot(root, filepath[|root|..], filepath);
        ReplaceAllAtStart(root, filepath[|root|..], name);
        ReplaceAll(filepath, root, name)
    else filepath
  }

  /**
   * One root applied to a displayed path, as evidently intended: the leading
   * root is replaced by its base name and the rest of the path is kept.
   */
  function MinimizeOne(filepath: string, root: string): (shown: string)
    ensures !StartsWith(filepath, root) ==> shown == filepath
    ensures StartsWith(filepath, root) ==>
              StartsWith(shown, GetBasenameFromPath(root)) && EndsWith(shown, filepath[|root|..]) &&
              |shown| == |GetBasenameFromPath(root)| + |filepath| - |root|
  {
    if StartsWith(filepath, root) then GetBasenameFromPath(root) + filepath[|root|..] else filepath
  }

  /** The displayed path after the loop over all roots, one root after another. */
  function MinimizedPath(filepath: string, roots: seq<string>): string {
    if roots == [] then filepath
    else MinimizeOne(MinimizedPath(filepath, roots[..|roots| - 1]), roots[|roots| - 1])
  }

  /** The shortening loop of `ReviewMyselfShowResultCommand.run`, with the intended replacement. */
  method MinimizePath(filepath: string, roots: seq<string>) returns (minimized: string)
    ensures minimized == MinimizedPath(filepath, roots)
  {
    minimized := filepath;
    for i := 0 to |roots|
      invariant minimized == MinimizedPath(filepath, roots[..i])
    {
      assert roots[..i + 1][..i] == roots[..i];
      if StartsWith(minimized, roots[i]) {
        minimized := GetBasenameFromPath(roots[i]) + minimized[|roots[i]|..];
      }
    }
    assert roots[..|roots|] == roots;
  }

  /** A path that no root prefixes at any step is shown unchanged. */
  lemma {:induction false} MinimizedPathUnchanged(filepath: string, roots: seq<string>)
    requires forall i :: 0 <= i < |roots| ==> !StartsWith(filepath, roots[i])
    ensures MinimizedPath(filepath, roots) == filepath
  {
    if roots != [] {
      MinimizedPathUnchanged(filepath, roots[..|roots| - 1]);
    }
  }

  /** With one root, a file below it is shown as the root's base name followed by the rest of its path. */
  lemma SingleRootMinimized(root: string, rest: string)
    ensures MinimizedPath(root + rest, [root]) == GetBasenameFromPath(root) + rest
  {
    assert [root][..0] == [];
    assert StartsWith(root + rest, root);
    assert (root + rest)[|root|..] == rest;
  }

  /**
   * The replacement as written rewrites a second occurrence of the root:
   * with root `/a`, the file `/a/b/a/c` is shown as `a/ba/c`, where the
   * intended display is `a/b/a/c`.
   */
  lemma MinimizeAsWrittenRewritesInside(root: string, filepath: string)
    requires root == "/a" && filepath == "/a/b/a/c"
    ensures MinimizeOneAsWritten(filepath, root) == "a/ba/c"
    ensures MinimizeOne(filepath, root) == "a/b/a/c"
  {
    var name, mid, last := "a", "/b", "/c";
    RootBasename(root, name);
    var afterFirst := mid + root + last;
    BelowRoot(root, afterFirst, filepath);
    MinimizeBelowRoot(root, afterFirst, filepath, name);
    NoStartBefore(mid, root + last, root);
    ReplacedAfterFirst(root, mid, last, name);
    LastUnchanged(root, last, name);
    SpellAsWritten(name, mid, last);
    SpellCorrected(name, afterFirst);
  }

  /**
   * Both rules on a path below the root: the root's base name followed by
   * the rest of the path, in which the rule as written also replaces every
   * further occurrence of the root (see `ReplacedAfterFirst`) while the
   * intended rule keeps it.
   */
  lemma MinimizeBelowRoot(root: string, rest: string, filepath: string, name: string)
    requires root != [] && StartsWith(filepath, root) && filepath[|root|..] == rest && filepath == root + rest
    requires name == GetBasenameFromPath(root)
    ensures MinimizeOneAsWritten(filepath, root) == name + ReplaceAll(rest, root, name)
    ensures MinimizeOne(filepath, root) == name + rest
  {
    ReplaceAllAtStart(root, rest, name);
  }

  /** A path made of the root and what follows it starts with the root, and cutting the root off gives back what follows. */
  lemma BelowRoot(root: string, rest: string, filepath: string)
    requires filepath == root + rest
    ensures StartsWith(filepath, root) && filepath[|root|..] == rest
  {
  }

  lemma SpellAsWritten(name: string, mid: string, last: string)
    requires name == "a" && mid == "/b" && last == "/c"
    ensures name + (mid + name + last) == "a/ba/c"
  {
  }

  lemma SpellCorrected(name: string, rest: string)
    requires name == "a" && rest == "/b" + "/a" + "/c"
    ensures name + rest == "a/b/a/c"
  {
  }

  lemma RootBasename(root: string, name: string)
    requires root == "/a" && name == "a"
    ensures GetBasenameFromPath(root) == name
  {
    assert root == [] + ['/'] + name;
    BasenameAfterLastSep([], '/', name);
  }

  /**
   * `replace` does not stop at the first occurrence: once the scan passes a
   * stretch `mid` where the root does not start, the next occurrence of the
   * root is replaced as well.
   */
  lemma ReplacedAfterFirst(root: string, mid: string, last: string, name: string)
    requires root != [] && NoStartWithin(mid, root + last, root)
    ensures ReplaceAll(mid + root + last, root, name) == mid + name + ReplaceAll(last, root, name)
  {
    var rest := root + last;
    ReplaceAllKeepsPrefix(mid, rest, root, name);
    ReplaceAllAtStart(root, last, name);
    AppendBoth(mid, root, last, ReplaceAll(mid + rest, root, name), ReplaceAll(rest, root, name), name, ReplaceAll(last, root, name));
  }

  /** Gluing two rewritten stretches together, with the associativity of `+` kept out of the recursive definitions. */
  lemma AppendBoth(mid: string, root: string, last: string, x: string, y: string, name: string, w: string)
    requires x == mid + y && y == name + w
    ensures x == mid + name + w && mid + root + last == mid + (root + last)
  {
  }

  /** Neither `/b/a/c` nor `b/a/c` starts with `/a`. */
  lemma NoStartBefore(mid: string, rest: string, root: string)
    requires mid == "/b" && rest == "/a/c" && root == "/a"
    ensures NoStartWithin(mid, rest, root)
  {
    assert (mid + rest)[..2] == "/b";
    assert mid[1..] == "b" && (mid[1..] + rest)[0] == 'b';
    assert mid[1..][1..] == [];
  }

  lemma LastUnchanged(root: string, last: string, name: string)
    requires root == "/a" && last == "/c"
    ensures ReplaceAll(last, root, name) == last
  {
    assert last[..2] == "/c";
    assert last[1..] == "c" && last[1..][1..] == [];
    assert last + [] == last && last[1..] + [] == last[1..];
    ReplaceAllKeepsPrefix(last, [], root, name);
  }

  /** What a result line shows, apart from padding: index, path, line number, priority label, text. */
  datatype ShownResult = ShownResult(index: nat, filepath: string, linenum: nat, priorityLabel: string, todo: string)

  /** The line shown for the record at 1-based position `index`. */
  function Shown(index: nat, r: Record, roots: seq<string>): ShownResult {
    ShownResult(index, MinimizedPath(PathText(r.filepath), roots), r.linenum, PriorityLabel(r.priority), r.todo)
  }

  /**
   * The selection after a move: `up` and `down` step by one and wrap around
   * the ends; no results, or any other direction, keep the selection.
   */
  function NavigatedIndex(index: int, count: nat, direction: string): (next: int)
    ensures (count == 0 || (direction != "up" && direction != "down")) ==> next == index
    ensures count > 0 && (direction == "up" || direction == "down") ==> 0 <= next < count
  {
    if count == 0 then index
    else
      var stepped := if direction == "up" then index - 1 else if direction == "down" then index + 1 else index;
      if direction != "up" && direction != "down" then index
      else if stepped < 0 then count - 1
      else if stepped > count - 1 then 0
      else stepped
  }

  /** `down` from the last result gives the first, `up` from the first or from no selection gives the last. */
  lemma NavigationWrapsAround(count: nat)
    requires count > 0
    ensures NavigatedIndex(count - 1, count, "down") == 0
    ensures NavigatedIndex(0, count, "up") == count - 1
    ensures NavigatedIndex(-1, count, "up") == count - 1
    ensures NavigatedIndex(-1, count, "down") == 0
  {
  }

  /**
   * From a selected result, `down` moves to the next one and `up` to the
   * previous one around a cycle of `count` positions, so each undoes the other.
   */
  lemma NavigationIsCyclic(index: int, count: nat)
    requires 0 <= index < count
    ensures NavigatedIndex(index, count, "down") == if index == count - 1 then 0 else index + 1
    ensures NavigatedIndex(index, count, "up") == if index == 0 then count - 1 else index - 1
    ensures NavigatedIndex(NavigatedIndex(index, count, "down"), count, "up") == index
    ensures NavigatedIndex(NavigatedIndex(index, count, "up"), count, "down") == index
  {
  }

  /** The record `ReviewMyselfGotoCommand` acts on: only an index inside the list selects one. */
  function SelectedResult(results: seq<Record>, index: int): (target: Option<Record>)
    ensures target.Some? <==> 0 <= index <= |results| - 1
    ensures target.Some? ==> target.value == results[index]
  {
    if index < 0 || index > |results| - 1 then None else Some(results[index])
  }

  /** The result lines of `ReviewMyselfShowResultCommand.run`, numbered from 1. */
  method ShownLines(sorted: seq<Record>, pathsToSearch: seq<string>) returns (lines: seq<ShownResult>)
    ensures |lines| == |sorted|
    ensures forall k :: 0 <= k < |lines| ==> lines[k] == Shown(k + 1, sorted[k], pathsToSearch)
  {
    lines := [];
    for i := 0 to |sorted|
      invariant |lines| == i
      invariant forall k :: 0 <= k < i ==> lines[k] == Shown(k + 1, sorted[k], pathsToSearch)
    {
      var line := ShowOne(i + 1, sorted[i], pathsToSearch);
      lines := lines + [line];
    }
  }

  /** One result line: the record's path shortened root by root, and its priority label. */
  method ShowOne(index: nat, r: Record, pathsToSearch: seq<string>) returns (line: ShownResult)
    ensures line == Shown(index, r, pathsToSearch)
  {
    var filepath := MinimizePath(PathText(r.filepath), pathsToSearch);
    line := ShownResult(index, filepath, r.linenum, PriorityLabel(r.priority), r.todo);
  }

  /** The result view: the shown lines, the record behind each, and the selected index. */
  class ResultView {
    var results: seq<Record>
    var shown: seq<ShownResult>
    var selectedIndex: int

    /** A view with nothing shown; a missing `selected_index` reads as -1. */
    constructor ()
      ensures results == [] && shown == [] && selectedIndex == -1
    {
      results := [];
      shown := [];
      selectedIndex := -1;
    }

    /**
     * `ReviewMyselfShowResultCommand.run`: the records sorted by priority,
     * one line each with its 1-based index, then the selection reset to -1
     * and moved down, onto the first result when there is one.
     */
    method ShowResult(pathsToSearch: seq<string>, found: seq<Record>)
      modifies this
      ensures results == SortResults(found)
      ensures |shown| == |results| && forall i :: 0 <= i < |shown| ==> shown[i] == Shown(i + 1, results[i], pathsToSearch)
      ensures selectedIndex == (if found == [] then -1 else 0)
    {
      var sorted := SortResults(found);
      var lines := ShownLines(sorted, pathsToSearch);
      results, shown := sorted, lines;
      selectedIndex := -1;
      NavigateResult("down");
    }

    /** `ReviewMyselfNavigateResultCommand.run`: only the selected index changes. */
    method NavigateResult(direction: string)
      modifies this
      ensures results == old(results) && shown == old(shown)
      ensures selectedIndex == NavigatedIndex(old(selectedIndex), |results|, direction)
    {
      var count := |results|;
      if count <= 0 {
        return;
      }
      var index := selectedIndex;
      if direction == "up" {
        index := index - 1;
      } else if direction == "down" {
        index := index + 1;
      } else {
        return;
      }
      if index < 0 {
        index := count - 1;
      } else if index > count - 1 {
        index := 0;
      }
      selectedIndex := index;
    }

    /** `ReviewMyselfGotoCommand.run`: the selected record, when the index selects one. */
    method GotoTarget() returns (target: Option<Record>)
      ensures target == SelectedResult(results, selectedIndex)
    {
      if |results| <= 0 {
        return None;
      }
      if selectedIndex < 0 || selectedIndex > |results| - 1 {
        return None;
      }
      target := Some(results[selectedIndex]);
    }
  }
}
