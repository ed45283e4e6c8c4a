# Annotation scanners of SublimeReviewMyself, modelled in Dafny

SublimeReviewMyself ships two variants of a Sublime Text plugin. Each scans source trees for TODO-style annotations and lists them in a result view.

- **ReviewMyself** (`ReviewMyself.py`):
  - walks each root with `os.walk`, pruning ignored directories and keeping only "care" files;
  - reads every file line by line, takes the `todo` capture of a user regular expression and strips it;
  - resolves an optional `priority` capture (default 9999) and removes the matched token from the text;
  - sorts the records stably by priority, shortens their paths by the search roots, and lets the user move a wrapping selection through the list.
- **TodoReview** (`TodoReview.py`), the older variant:
  - emits one record per non-empty named group of every match;
  - reads the priority from the first `(d)` or `(dd)` token (default 100);
  - sorts by `(priority, match name)` and groups consecutive runs of one name under a header;
  - keeps any selection Python accepts as a list index and clamps only out-of-range ones.

The model has one module per component. The regular-expression engines are parameters:
- a line matcher returning a group dictionary;
- a priority matcher returning the whole match and its groups;
- `finditer` returning a list of group dictionaries.

The file system is a tree of `Node` values. A file holds the lines that can be read and a flag saying whether reading fails after them. Paths are sequences of names.

Where the source changes state step by step, the model is imperative and proved against a specification function:
- `Counter.increment`;
- the `os.walk` loop, with its in-place `filenames[:]` and `dirnames[:]` assignments;
- the nested search loops;
- `filterByUnixPatterns`;
- the path-shortening loop;
- the result-view selection.

The pure parts are functions with lemmas: base names, settings lookup, priority parsing, `sorted`, `groupby`, and the formatter.

## Model

| member | source | states |
|---|---|---|
| Strings.Strip | ReviewMyself.py:121 | `str.strip`: the result is a contiguous slice of the input, neither starts nor ends with whitespace, everything cut away is whitespace, and an already trimmed string is unchanged |
| Strings.ReplaceAllSelf | ReviewMyself.py:131 | `str.replace(t, t)` changes nothing, for empty and non-empty `t` alike |
| Strings.ReplaceAllAbsent | ReviewMyself.py:131 | a non-empty target that does not occur leaves the string unchanged |
| Strings.ReplaceAllKeepsPrefix | ReviewMyself.py:131 | positions where no occurrence starts are copied unchanged; replacement acts only after them |
| Strings.MismatchNoStart | ReviewMyself.py:131 | a prefix with no character equal to the target's first holds no occurrence |
| Strings.ReplaceSingleOccurrence | ReviewMyself.py:131 | with a single occurrence `a + t + b`, `replace` yields `a + r + b` |
| Strings.ReplaceAllAtStart | ReviewMyself.py:131 | an occurrence at the start is replaced and scanning resumes after it (no overlap) |
| Strings.StrLessIrreflexive | TodoReview.py:140 | Python's `str` `<` is irreflexive |
| Strings.StrLessTransitive | TodoReview.py:140 | Python's `str` `<` is transitive |
| Strings.StrLessTotal | TodoReview.py:140 | of two different strings, one is less than the other |
| PyInt.NatToString | ReviewMyself.py:228 | `str(n)` is a non-empty run of digits with no leading zero |
| PyInt.NatToStringValue | ReviewMyself.py:228 | the digits of `str(n)` have the value `n` |
| PyInt.ParseIntToString | ReviewMyself.py:130 | `int(str(i)) == i` for every integer, negative ones included |
| PyInt.ParseIntDigits | TodoReview.py:67 | `int` of a bare run of digits is the value of those digits |
| PyInt.ParseInt | ReviewMyself.py:130 | `int()` succeeds exactly when the stripped text is digits with at most one leading sign; its value is that of the digits, negated after a `-` |
| PyInt.ParseIntPaddedSigned | ReviewMyself.py:130 | `int(" -07 ")` is -7: surrounding whitespace, a sign and a leading zero are accepted |
| PyInt.ParseIntRejectsNonDigit | ReviewMyself.py:130 | any non-digit after the first character of the stripped text (`1a`, `1 2`) makes `int()` raise |
| NtPath.TailStart | ReviewMyself.py:48 | the tail starts just after the last `/` or `\`, and holds no separator |
| NtPath.RStripSeps | ReviewMyself.py:48 | the head loses exactly its trailing separators |
| NtPath.Split | ReviewMyself.py:48 | `ntpath.split`: the tail is the whole last component (no separator, ends the path, preceded by a separator or the start); the head is a prefix followed only by separators before the tail, keeps no trailing separator unless it consists of separators only, and is empty exactly when the path has no separator |
| NtPath.Basename | ReviewMyself.py:49 | `ntpath.basename` is the whole last component: no separator, ends the path, preceded by a separator or the start, empty exactly when the path is empty or ends with a separator |
| Glob.StarMatchesEverything | ReviewMyself.py:26 | the pattern `*` matches every name, the empty one included |
| Glob.LiteralMatch | ReviewMyself.py:26 | a pattern without wildcards matches exactly the name spelled the same |
| Glob.StarSuffix | ReviewMyself.py:26 | `*` followed by literal text matches exactly the names ending with that text |
| MatchGroups.GroupLookup | ReviewMyself.py:120-121 | looking up a group name finds nothing exactly when the name is not a key; otherwise it returns the value stored under that name |
| LayeredSettings.Settings.Get | ReviewMyself.py:56-57 | the top layer wins, then the fallback layer, then the caller's default |
| LayeredSettings.GetIsMergedLookup | TodoReview.py:33-34 | the layered lookup is a lookup in the union of both layers where the top one overrides |
| Progress.Counter.Increment | ReviewMyself.py:297-300 | the count goes up by exactly one |
| Progress.Counter.constructor | ReviewMyself.py:279-280 | a new counter starts at 0 |
| FileTree.FileNames | ReviewMyself.py:99 | `filenames` holds exactly the names of the directory's files |
| FileTree.DirNames | ReviewMyself.py:99 | `dirnames` holds exactly the names of its sub-directories |
| FileTree.ChildNamed | ReviewMyself.py:99 | descending by name finds an entry of that name, and finds nothing exactly when no entry has it |
| FileTree.ChildNamedFindsEntry | ReviewMyself.py:99 | in a directory whose entry names are unique, every entry is the one its name finds |
| FileTree.Joined | ReviewMyself.py:107 | `os.path.join(dirpath, name)` for every name, in order |
| FileTree.AllFilesSound | TodoReview.py:45-49 | every path an unpruned `os.walk` reports is the directory joined with the path to a file below it |
| FileTree.AllFilesComplete | TodoReview.py:45-49 | every file below the directory is reported |
| FileTree.AllFilesExactly | TodoReview.py:45-49 | an unpruned walk reports exactly the files below the directory |
| StableSort.SortPermutes | ReviewMyself.py:180 | `sorted` returns a permutation of its input |
| StableSort.SortSorted | ReviewMyself.py:180 | `sorted` orders its result by the key, for any strict total order |
| StableSort.SortStable | ReviewMyself.py:180 | `sorted` is stable: for every key, the elements with that key keep their input order |
| StableSort.InsertPermutes | ReviewMyself.py:180 | inserting one element adds exactly that element |
| StableSort.InsertSorted | ReviewMyself.py:180 | inserting into a sorted sequence keeps it sorted |
| StableSort.InsertWithKey | ReviewMyself.py:180 | insertion puts an element before the equal keys it meets, so their relative order is preserved |
| StableSort.WithKeyAppend | ReviewMyself.py:180 | selecting the elements of one key distributes over concatenation |
| ReviewMyselfUtil.IsMatchUnixPatterns | ReviewMyself.py:24-28 | true exactly when some pattern matches; false for an empty pattern list |
| ReviewMyselfUtil.Filtered | ReviewMyself.py:30-37 | keeps exactly the texts for which "matches some pattern" equals `keep_if_match` |
| ReviewMyselfUtil.FilteredIsSubsequence | ReviewMyself.py:30-37 | the kept texts are a subsequence of the input, in input order |
| ReviewMyselfUtil.FilterByUnixPatterns | ReviewMyself.py:30-37 | the append loop returns `Filtered`: exactly the texts whose match result equals `keep_if_match` |
| ReviewMyselfUtil.GetBasenameFromPath | ReviewMyself.py:46-49 | the base name never contains `/` or `\` |
| ReviewMyselfUtil.BasenameIsLastComponent | ReviewMyself.py:46-49 | a path not ending in a separator gives its last component: non-empty, a suffix, preceded by a separator or the whole path |
| ReviewMyselfUtil.TrailingSepIgnored | ReviewMyself.py:46-49 | a trailing `/` or `\` does not change the base name |
| ReviewMyselfUtil.BasenameAfterLastSep | ReviewMyself.py:46-49 | the text after the last separator is the base name |
| ReviewMyselfUtil.DocumentedExamplesSlash | ReviewMyself.py:42-43 | `a/b/c/` and `a/b/c` give `c` |
| ReviewMyselfUtil.DocumentedExamplesBackslash | ReviewMyself.py:42-43 | `\a\b\c` and `\a\b\c\` give `c` |
| ReviewMyselfUtil.DocumentedExampleRelativeBackslash | ReviewMyself.py:42-43 | `a\b\c` gives `c` |
| ReviewMyselfUtil.DocumentedExamplesDotDot | ReviewMyself.py:42-43 | `a/b/../../a/b/c/` and `a/b/../../a/b/c` give `c`; `..` is not resolved |
| ReviewMyselfWalk.WalkRoot | ReviewMyself.py:92-99 | a missing root yields nothing; a root that is a file yields exactly itself, unfiltered |
| ReviewMyselfWalk.OsWalk | ReviewMyself.py:99-108 | the top-down walk with in-place filtering yields `WalkDir`: the kept files, then the walks of the kept sub-directories |
| ReviewMyselfWalk.JoinNames | ReviewMyself.py:106-108 | the yield loop over `filenames` produces the joined paths in order |
| ReviewMyselfWalk.WalkSubdirectories | ReviewMyself.py:99 | descending into the names left in `dirnames`, in order, yields `WalkSubdirs` |
| ReviewMyselfWalk.Walk | ReviewMyself.py:91-108 | the loop over the roots yields each root's contribution in order |
| ReviewMyselfWalk.WalkDirSound | ReviewMyself.py:99-108 | every yielded path is the directory joined with an eligible path: no pruned directory on the way, care patterns met |
| ReviewMyselfWalk.WalkDirComplete | ReviewMyself.py:99-108 | every eligible file is yielded |
| ReviewMyselfWalk.WalkDirExactly | ReviewMyself.py:99-108 | the walk yields exactly the eligible files |
| ReviewMyselfWalk.EligibleComponents | ReviewMyself.py:103-104 | on the way to an eligible file no directory name matches an ignore pattern, and the file name matches a care pattern when there are any |
| ReviewMyselfWalk.WalkDirGuarantees | ReviewMyself.py:99-108 | for every yielded path: it lies below the root, no directory between them is ignored, and care patterns are met |
| ReviewMyselfWalk.IgnoredPatternsKeepFiles | ReviewMyself.py:100-104 | whether a file of the walked directory is yielded depends on the care patterns only, never on the ignore patterns |
| ReviewMyselfWalk.WalkDirWithoutPatterns | ReviewMyself.py:99-108 | with no patterns the walk is the plain `os.walk` of every file |
| ReviewMyselfSearch.TodoCaptureAsWritten | ReviewMyself.py:119-121 | as written: no `todo` key gives the empty text, and a `todo` group that did not take part gives the text `None` |
| ReviewMyselfSearch.TodoCapture | ReviewMyself.py:119-121 | corrected: the stripped capture when the group took part, otherwise the empty text |
| ReviewMyselfSearch.UnmatchedTodoGroupExample | ReviewMyself.py:119-123 | as written, a `todo` group that took no part gives the non-empty text `None`, so the line would emit a record; the corrected capture is empty and the line emits nothing |
| ReviewMyselfSearch.CaptureAgreesWhenGroupMatched | ReviewMyself.py:119-121 | both capture rules agree unless the `todo` group was present but did not take part |
| ReviewMyselfSearch.ResolvePriority | ReviewMyself.py:124-131 | 9999 and the text unchanged when nothing or no `priority` group is found; otherwise `int()` of the group, failing when `int()` raises, with every occurrence of the matched token removed |
| ReviewMyselfSearch.ScanLines | ReviewMyself.py:114-138 | the line loop numbers lines from 1 and returns `ScanFrom`: the records of the lines before the first one that raises; it uses the corrected `TodoCapture` of the first Findings row, so a line whose `todo` group took no part yields no record here, where the program yields one with text `None` |
| ReviewMyselfSearch.ScanFromSound | ReviewMyself.py:114-138 | every record of a file carries its path and a 1-based line number of a line that emits exactly that record |
| ReviewMyselfSearch.ScanFromOrdered | ReviewMyself.py:114 | the records of one file are in strictly increasing line order |
| ReviewMyselfSearch.RaiseKeepsEarlierRecords | ReviewMyself.py:140-144 | when line `k` raises, the file yields exactly the records of its first `k` lines, so earlier records are kept |
| ReviewMyselfSearch.ScanFromStep | ReviewMyself.py:114 | the records from line `i` on depend only on line `i` and the lines after it |
| ReviewMyselfSearch.EmitCharacterised | ReviewMyself.py:115-138 | a line yields a record exactly when it matches, the capture is non-empty and the priority resolves; the priority is 9999 with the text intact, or the parsed integer with the token removed |
| ReviewMyselfSearch.TodoSearchEngine.Search | ReviewMyself.py:110-149 | the records of every walked file in walk order; the counter goes up by exactly the number of walked paths, whether reading succeeds or fails; records follow the corrected `TodoCapture` of the first Findings row, so they differ from the program's on lines whose `todo` group took no part |
| ReviewMyselfSearch.ScanPath | ReviewMyself.py:112-149 | a path that cannot be opened contributes nothing; a file contributes its scanned lines |
| ReviewMyselfSearch.SearchRecordsSound | ReviewMyself.py:110-138 | every record names a walked path that is a file, and a 1-based line of it that emits exactly that record |
| ReviewMyselfSearch.PriorityExample | ReviewMyself.py:124-131 | `TODO(2): fix this` with priority group `2` gives priority 2 and text `TODO: fix this` |
| ReviewMyselfSearch.TokenRemovedExample | ReviewMyself.py:131 | removing `(2)` from `TODO(2): fix this` leaves `TODO: fix this` |
| ReviewMyselfSearch.UnnamedPriorityGroupExample | ReviewMyself.py:126-131 | a priority match without a `priority` group keeps 9999 and the token |
| ReviewMyselfResult.IntLessIsStrictTotalOrder | ReviewMyself.py:180 | `<` on priorities is a strict total order |
| ReviewMyselfResult.SortResults | ReviewMyself.py:180 | the results sorted by priority: a permutation, non-decreasing in priority, equal priorities in search order |
| ReviewMyselfResult.SortByPriorityStable | ReviewMyself.py:180 | records of equal priority keep their search order |
| ReviewMyselfResult.PriorityLabel | ReviewMyself.py:228 | the label is empty exactly when the priority is 9999, else `p<number>.` |
| ReviewMyselfResult.PriorityLabelReadsBack | ReviewMyself.py:228 | the number inside a shown label reads back as the priority |
| ReviewMyselfResult.MinimizeOneAsWritten | ReviewMyself.py:220-222 | as written: a path not starting with the root is unchanged; one starting with a non-empty root shows the root's base name followed by the rest of the path with every further occurrence of the root replaced too |
| ReviewMyselfResult.MinimizeOne | ReviewMyself.py:220-222 | corrected: a path starting with the root shows the root's base name followed by the rest of the path; other paths are unchanged |
| ReviewMyselfResult.MinimizeBelowRoot | ReviewMyself.py:220-222 | for every path `root + rest`: as written the display is the base name followed by `rest` with the root replaced throughout, corrected it is the base name followed by `rest` itself |
| ReviewMyselfResult.MinimizePath | ReviewMyself.py:219-222 | the loop over the roots applies them one after another |
| ReviewMyselfResult.MinimizedPathUnchanged | ReviewMyself.py:219-222 | a path that no root prefixes is shown unchanged |
| ReviewMyselfResult.SingleRootMinimized | ReviewMyself.py:219-222 | with one root, `root + rest` is shown as the root's base name followed by `rest` |
| ReviewMyselfResult.MinimizeAsWrittenRewritesInside | ReviewMyself.py:220-222 | as written, root `/a` turns `/a/b/a/c` into `a/ba/c`; the corrected rule gives `a/b/a/c` |
| ReviewMyselfResult.ReplacedAfterFirst | ReviewMyself.py:222 | for every root, and every `mid` in which the root does not start, `replace` on `mid + root + last` keeps `mid`, rewrites that later occurrence of the root and goes on rewriting `last` |
| ReviewMyselfResult.NavigatedIndex | ReviewMyself.py:352-375 | with results and direction `up` or `down` the new index lies in `[0, count)`; otherwise the index is unchanged |
| ReviewMyselfResult.NavigationWrapsAround | ReviewMyself.py:370-373 | `down` from the last gives the first; `up` from the first or from no selection (-1) gives the last |
| ReviewMyselfResult.NavigationIsCyclic | ReviewMyself.py:362-373 | from a selected result `down` and `up` step around a cycle and undo each other |
| ReviewMyselfResult.SelectedResult | ReviewMyself.py:396-401 | Goto acts exactly when `0 <= index <= count - 1`, on the record at that index |
| ReviewMyselfResult.ShownLines | ReviewMyself.py:218-229 | one line per sorted record, numbered from 1 |
| ReviewMyselfResult.ShowOne | ReviewMyself.py:219-229 | one result line: the shortened path and the priority label; the path is shortened by the corrected `MinimizeOne` of the second Findings row, so a root that reappears inside the path is kept here where the program rewrites it |
| ReviewMyselfResult.ResultView.ShowResult | ReviewMyself.py:177-244 | the shown results are the sorted records, one line each; then the selection is reset to -1 and moved down, onto the first result when there is one; lines use the corrected path shortening of the second Findings row |
| ReviewMyselfResult.ResultView.NavigateResult | ReviewMyself.py:352-375 | only the selected index changes, to `NavigatedIndex` of the old one |
| ReviewMyselfResult.ResultView.GotoTarget | ReviewMyself.py:388-404 | the record Goto opens is `SelectedResult` of the stored index |
| TodoReviewSearch.TokenAtComplete | TodoReview.py:55 | a token matched by `\(([0-9]{1,2})\)` is read with the value of its digits |
| TodoReviewSearch.TokenAtSound | TodoReview.py:55 | whatever is read at a position is a token the pattern matches there |
| TodoReviewSearch.FindToken | TodoReview.py:64 | the search finds nothing exactly when no position holds a token; otherwise it returns the value (at most 99) of a token before which none starts |
| TodoReviewSearch.Priority | TodoReview.py:64-69 | the priority lies in 0..100 |
| TodoReviewSearch.PriorityIsLeftmostToken | TodoReview.py:64-69 | 100 exactly when no token occurs; otherwise the value of the leftmost token |
| TodoReviewSearch.NoTokenExamples | TodoReview.py:55 | `(123)` and `()` hold no token and give 100 |
| TodoReviewSearch.LeftmostTokenExample | TodoReview.py:64-67 | in `fix (7) then (42)` the leftmost token wins: 7 |
| TodoReviewSearch.MatchResults | TodoReview.py:62 | a match contributes exactly its named groups with present, non-empty text |
| TodoReviewSearch.MatchRecords | TodoReview.py:63-76 | one record per result, with the line number and the priority of its own text; the text itself is not altered |
| TodoReviewSearch.ScanMatches | TodoReview.py:61-76 | the loop over the matches of a line returns `LineRecords`: each match's records, in order |
| TodoReviewSearch.ScanLines | TodoReview.py:60-76 | the line loop records line `linenum` as `linenum + 1` |
| TodoReviewSearch.TodoSearchEngine.Walk | TodoReview.py:42-49 | the loop over the roots yields each root's files, in order |
| TodoReviewSearch.TodoSearchEngine.WalkOneRoot | TodoReview.py:44-49 | one root: `os.walk` of it, nothing for a file or a missing path |
| TodoReviewSearch.WalkRootExactly | TodoReview.py:42-49 | a root yields exactly the files below it when it is a directory |
| TodoReviewSearch.FileRootYieldsNothing | TodoReview.py:45 | a root that is a plain file yields nothing |
| TodoReviewSearch.TodoSearchEngine.Search | TodoReview.py:51-83 | the records of every walked file in walk order; the counter goes up by exactly the number of walked files, whatever happens while reading |
| TodoReviewSearch.TodoSearchEngine.ScanPath | TodoReview.py:58-83 | a path that cannot be opened contributes nothing |
| TodoReviewSearch.LineRecordsSound | TodoReview.py:61-76 | every record of a line carries that line's number, a non-empty group text, that text's priority, and comes from one of the line's matches |
| TodoReviewSearch.LinesRecordsSound | TodoReview.py:60-76 | line numbers are 1-based: every record of a file names one of its lines and comes from a match of that line |
| TodoReviewSearch.EmptyGroupsContributeNothing | TodoReview.py:62 | a match whose groups are all empty or absent contributes no record |
| TodoReviewFormat.KeyLessIsStrictTotalOrder | TodoReview.py:140 | tuple `<` on `(priority, match_name)` is a strict total order |
| TodoReviewFormat.SortRecords | TodoReview.py:140 | sorted by priority then name: a permutation, ordered, equal keys in search order |
| TodoReviewFormat.SortByKeyStable | TodoReview.py:140 | records with equal keys keep their search order |
| TodoReviewFormat.GroupRuns | TodoReview.py:142-143 | `groupby` cuts the records into non-empty runs of one name that concatenate back to the records, with neighbouring runs of different names |
| TodoReviewFormat.RunLines | TodoReview.py:145-154 | a group is one header plus one line per record |
| TodoReviewFormat.RunLinesRecords | TodoReview.py:146-154 | the result lines of a group carry the run's records in order |
| TodoReviewFormat.FormatRunsResultRecords | TodoReview.py:142-154 | the result lines of all groups carry the runs laid end to end |
| TodoReviewFormat.FormatShowsEveryRecord | TodoReview.py:139-154 | the result lines carry exactly the sorted records, so there are as many result lines as records |
| TodoReviewFormat.FormatRunsWellGrouped | TodoReview.py:142-154 | every header's count is the length of its run, its items are numbered from 1 and carry its name, and the next header has another name |
| TodoReviewFormat.WellGroupedPrepend | TodoReview.py:142-154 | a group in front of well-grouped lines that start with another name keeps them well grouped |
| TodoReviewFormat.FormatIsWellGrouped | TodoReview.py:139-154 | the whole output is well grouped |
| TodoReviewFormat.NameCanHeadSeveralGroups | TodoReview.py:140-145 | names `n`, `m`, `n` with increasing priorities give three headers, two of them for `n` |
| TodoReviewNavigate.StartValue | TodoReview.py:240-245 | a start value exists exactly for the four directions: -1 forward, 0 backward |
| TodoReviewNavigate.Step | TodoReview.py:247-252 | a step exists exactly for the directions that have a start value |
| TodoReviewNavigate.Clamp | TodoReview.py:261-269 | an index the list accepts is kept, negatives included; below `-len` gives 0; from `len` up gives `len - 1` |
| TodoReviewNavigate.ListPosition | TodoReview.py:262 | a valid Python index denotes a position inside the list |
| TodoReviewNavigate.NavigateSelectsValidIndex | TodoReview.py:258-271 | a move always stores an index the list accepts, and targets the result it denotes |
| TodoReviewNavigate.NavigateMovesIffKnown | TodoReview.py:254-259 | no results means no move; with results the selection moves exactly for the four known directions |
| TodoReviewNavigate.ValidStepIsStored | TodoReview.py:258-262 | a step landing on a valid index stores that index unchanged |
| TodoReviewNavigate.ForwardFromNothingSelectsFirst | TodoReview.py:240-259 | `forward` with nothing selected selects the first result |
| TodoReviewNavigate.BackwardFromNothingSelectsLast | TodoReview.py:240-262 | `backward` with nothing selected stores -1, the last result |
| TodoReviewNavigate.EndsAreAsymmetric | TodoReview.py:258-269 | backward from the first result wraps to the last; forward from the last stays on it |
| TodoReviewNavigate.SkipsStopAtTheEnds | TodoReview.py:261-269 | a skip past either end stops on the first or the last result |
| TodoReviewNavigate.ResultView.NavigateResults | TodoReview.py:236-271 | the outcome is `Navigate` of the stored selection; the selection is stored only when the view moves |
| TodoReviewNavigate.ResultView.ClearSelection | TodoReview.py:277-280 | the stored selection is forgotten |

## Left out

- Sublime Text UI: views, regions, layouts, status messages, opening files, `do_when` polling, and the region-to-result dictionaries. `GotoComment` and `MouseGotoComment` only open files through these, so they are not modelled. `GotoComment` (TodoReview.py:287-288) indexes the result regions with the stored selection, defaulting to -1: with nothing selected it opens the last result, it neither steps nor clamps, and with no results it raises `IndexError`. `MouseGotoComment` (TodoReview.py:302-308) opens the result on the caret's line instead.
- Threads and the counter's `RLock`: the model scans sequentially. Timing (`startTimer`, `getDeltaTime`) is left out.
- Regular expressions:
  - Python's `re` engine on user patterns is a parameter: the line matcher, the priority matcher and `finditer`.
  - The IGNORECASE flag and the joining of patterns with `|` are left out, since they live inside those parameters.
  - TodoReview's fixed priority pattern is modelled concretely.
- `fnmatch` is modelled with `*` and `?` only. Character classes `[...]` and case normalisation by the operating system are left out.
- Real file system and canonicalisation (`realpath`, `expanduser`, `abspath`): roots are taken as already canonical paths in one tree. UTF-8 decoding failures and open errors are the "reading fails" flag of a file.
- Drive letters and UNC prefixes in `ntpath.split`.
- PyInt.ParseInt: does not accept underscores or non-ASCII digits, which Python's `int()` does.
- Display text: the header lines, padding widths, the usage text, `render_spaces`, the `# From:` session header and TodoReview's `dirname/basename` display path. TodoReview's `.upper()` of the group name in a header (TodoReview.py:145) and ReviewMyself's `show_linenum` switch (ReviewMyself.py:209) are left out with them. `ShownResult` keeps the index, the shortened path, the line number, the priority label and the todo text of a line, but not their layout.
- The `auto_show_context` preview that navigation triggers, and `ReviewMyselfSelectResultCommand` (caret position to index).
- With a priority pattern whose group is unnamed, such as `\(([0-9]{1,2})\)`, the match has no `priority` key, so ReviewMyself.py:129 keeps 9999 and leaves the token in the text (`ReviewMyselfSearch.UnnamedPriorityGroupExample`). With a group named `priority`, `TODO(2): fix this` gives priority 2 and the text `TODO: fix this` (`ReviewMyselfSearch.PriorityExample`).
- Directory listings are taken as they come: `FileTree.ChildNamed` takes the first entry of a name, and only `FileTree.ChildNamedFindsEntry` assumes the names are unique (`FileTree.UniqueNames`), as a real file system guarantees.

## Findings

| source | as written | input that shows it | evidently intended | confidence | as-written member | corrected member |
|---|---|---|---|---|---|---|
| ReviewMyself.py:120-121 | `str(match_groups["todo"]).strip()` turns a `todo` group that did not take part in the match (value `None`) into the text `None`, which is non-empty, so a record with todo text `None` is emitted | a todo pattern alternation such as `(?P<todo>TODO.*)\|FIXME` matching a line through the `FIXME` branch | an unmatched `todo` group gives the empty text, so no record is emitted | not executed | ReviewMyselfSearch.UnmatchedTodoGroupExample | ReviewMyselfSearch.TodoCapture |
| ReviewMyself.py:220-222 | after checking `startswith(path_to_search)`, `str.replace` replaces every occurrence of the root in the path, not only the leading one | root `/a`, file `/a/b/a/c`: shown as `a/ba/c` | replace only the leading root: `a/b/a/c` | not executed | ReviewMyselfResult.MinimizeAsWrittenRewritesInside | ReviewMyselfResult.MinimizeOne |
