/** `Util` of ReviewMyself.py: glob-list tests and filters, and base names. */
module ReviewMyselfUtil {
  import opened Strings
  import opened Glob
  import opened NtPath

  /** `Util.isMatchUnixPatterns`: some pattern of the list matches `text`. */
  function IsMatchUnixPatterns(text: string, patterns: seq<string>): (r: bool)
    ensures r <==> exists i :: 0 <= i < |patterns| && FnMatch(text, patterns[i])
    ensures patterns == [] ==> !r
  {
    if patterns == [] then false
    else
      var rest := IsMatchUnixPatterns(text, patterns[1..]);
      assert forall i :: 1 <= i < |patterns| ==> patterns[i] == patterns[1..][i - 1];
      FnMatch(text, patterns[0]) || rest
  }

  /**
   * The texts a filter keeps: those for which "matches some pattern" equals
   * `keepIfMatch`, in their original order.
   */
  function Filtered(texts: seq<string>, patterns: seq<string>, keepIfMatch: bool): (r: seq<string>)
    ensures |r| <= |texts|
    ensures forall t :: t in r <==> t in texts && IsMatchUnixPatterns(t, patterns) == keepIfMatch
  {
    if texts == [] then []
    else
      var init := Filtered(texts[..|texts| - 1], patterns, keepIfMatch);
      var last := texts[|texts| - 1];
      assert forall t :: t in texts <==> t in texts[..|texts| - 1] || t == last by {
        assert texts == texts[..|texts| - 1] + [last];
      }
      if IsMatchUnixPatterns(last, patterns) == keepIfMatch then init + [last] else init
  }

  /** `a` can be obtained from `b` by deleting elements: order is kept. */
  predicate IsSubsequence(a: seq<string>, b: seq<string>)
    decreases |b|
  {
    if a == [] then true
    else if b == [] then false
    else if a[|a| - 1] == b[|b| - 1] then IsSubsequence(a[..|a| - 1], b[..|b| - 1])
    else IsSubsequence(a, b[..|b| - 1])
  }

  lemma {:induction false} FilteredIsSubsequence(texts: seq<string>, patterns: seq<string>, keepIfMatch: bool)
    ensures IsSubsequence(Filtered(texts, patterns, keepIfMatch), texts)
    decreases |texts|
  {
    if texts != [] {
      var init := texts[..|texts| - 1];
      var r := Filtered(texts, patterns, keepIfMatch);
      FilteredIsSubsequence(init, patterns, keepIfMatch);
      if r != Filtered(init, patterns, keepIfMatch) {
        assert r[..|r| - 1] == Filtered(init, patterns, keepIfMatch);
      } else if r != [] {
        SubsequenceOfLonger(r, init, texts[|texts| - 1]);
      }
    }
  }

  lemma {:induction false} SubsequenceOfLonger(a: seq<string>, b: seq<string>, x: string)
    requires IsSubsequence(a, b)
    ensures IsSubsequence(a, b + [x])
    decreases |b|, 1
  {
    var b' := b + [x];
    assert b'[..|b'| - 1] == b;
    if a != [] && a[|a| - 1] == x {
      // the last element of a pairs with x; the rest is a subsequence of b already
      SubsequenceDropLast(a, b);
    }
  }

  lemma {:induction false} SubsequenceDropLast(a: seq<string>, b: seq<string>)
    requires a != [] && IsSubsequence(a, b)
    ensures IsSubsequence(a[..|a| - 1], b)
    decreases |b|, 0
  {
    var a' := a[..|a| - 1];
    if a[|a| - 1] == b[|b| - 1] {
      if a' != [] {
        SubsequenceOfLonger(a', b[..|b| - 1], b[|b| - 1]);
        assert b[..|b| - 1] + [b[|b| - 1]] == b;
      }
    } else {
      SubsequenceDropLast(a, b[..|b| - 1]);
      if a' != [] {
        SubsequenceOfLonger(a', b[..|b| - 1], b[|b| - 1]);
        assert b[..|b| - 1] + [b[|b| - 1]] == b;
      }
    }
  }

  /**
   * `Util.filterByUnixPatterns`: appends, in order, each text for which
   * `keep_if_match == isMatchUnixPatterns(text, patterns)`.
   */
  method FilterByUnixPatterns(texts: seq<string>, patterns: seq<string>, keepIfMatch: bool)
    returns (filteredTexts: seq<string>)
    ensures filteredTexts == Filtered(texts, patterns, keepIfMatch)
    ensures forall t :: t in filteredTexts <==> t in texts && IsMatchUnixPatterns(t, patterns) == keepIfMatch
  {
    filteredTexts := [];
    for i := 0 to |texts|
      invariant filteredTexts == Filtered(texts[..i], patterns, keepIfMatch)
    {
      assert texts[..i + 1][..i] == texts[..i];
      if keepIfMatch == IsMatchUnixPatterns(texts[i], patterns) {
        filteredTexts := filteredTexts + [texts[i]];
      }
    }
    assert texts[..|texts|] == texts;
  }

  /**
   * `Util.getBasenameFromPath`: the tail of `ntpath.split`, or when the path
   * ends with a separator, the base name of the head.
   */
  function GetBasenameFromPath(path: string): (r: string)
    ensures NoSeps(r)
  {
    var (head, tail) := Split(path);
    if tail != [] then tail else Basename(head)
  }

  /** A path that does not end with a separator gives its last component. */
  lemma BasenameIsLastComponent(path: string)
    requires path != [] && !IsSep(path[|path| - 1])
    ensures var r := GetBasenameFromPath(path);
            r != [] && EndsWith(path, r) && (|r| == |path| || IsSep(path[|path| - |r| - 1]))
  {
    var i := TailStart(path);
    assert path[i..] == path[|path| - (|path| - i)..];
  }

  /** A trailing `/` or `\` does not change the base name. */
  lemma TrailingSepIgnored(path: string, sep: char)
    requires IsSep(sep)
    ensures GetBasenameFromPath(path + [sep]) == GetBasenameFromPath(path)
  {
    var p := path + [sep];
    assert TailStart(p) == |p|;
    assert p[..|p|] == p;
    assert p[..|p| - 1] == path;
    var stripped := RStripSeps(p);
    assert stripped == RStripSeps(path);
    if path == [] {
    } else if IsSep(path[|path| - 1]) {
      assert TailStart(path) == |path|;
      assert path[..|path|] == path;
      if stripped == [] {
        AllSepsBasename(p);
        AllSepsBasename(path);
      }
    } else {
      assert stripped == path;
    }
  }

  lemma AllSepsBasename(s: string)
    requires AllSeps(s)
    ensures Basename(s) == []
  {
  }

  /** The text after the last separator is the base name, when there is some. */
  lemma BasenameAfterLastSep(prefix: string, sep: char, name: string)
    requires IsSep(sep) && name != [] && NoSeps(name)
    ensures GetBasenameFromPath(prefix + [sep] + name) == name
  {
    var p := prefix + [sep] + name;
    TailStartAfterSep(p, |prefix| + 1);
    assert p[|prefix| + 1..] == name;
  }

  lemma {:induction false} TailStartAfterSep(p: string, k: nat)
    requires 0 < k <= |p| && IsSep(p[k - 1]) && NoSeps(p[k..])
    ensures TailStart(p) == k
    decreases |p| - k
  {
    if k < |p| {
      var init := p[..|p| - 1];
      assert init[k..] == p[k..|p| - 1];
      TailStartAfterSep(init, k);
    }
  }

  /** `getBasenameFromPath` of `prefix + sep + "c"`, and of it with a trailing `sep`, is `c`. */
  lemma ExampleGivesC(prefix: string, sep: char, path: string, withSep: string)
    requires IsSep(sep) && path == prefix + [sep] + "c" && withSep == path + [sep]
    ensures GetBasenameFromPath(path) == "c"
    ensures GetBasenameFromPath(withSep) == "c"
  {
    BasenameAfterLastSep(prefix, sep, "c");
    TrailingSepIgnored(path, sep);
  }

  /** Examples `a/b/c/` and `a/b/c` of the `getBasenameFromPath` docstring. */
  lemma DocumentedExamplesSlash(path: string, withSep: string)
    requires path == "a/b/c" && withSep == "a/b/c/"
    ensures GetBasenameFromPath(withSep) == "c" && GetBasenameFromPath(path) == "c"
  {
    ExampleGivesC("a/b", '/', path, withSep);
  }

  /** Examples `\\a\\b\\c` and `\\a\\b\\c\\` of the `getBasenameFromPath` docstring. */
  lemma DocumentedExamplesBackslash(path: string, withSep: string)
    requires path == "\\a\\b\\c" && withSep == "\\a\\b\\c\\"
    ensures GetBasenameFromPath(path) == "c" && GetBasenameFromPath(withSep) == "c"
  {
    ExampleGivesC("\\a\\b", '\\', path, withSep);
  }

  /** Example `a\\b\\c` of the `getBasenameFromPath` docstring. */
  lemma DocumentedExampleRelativeBackslash(path: string)
    requires path == "a\\b\\c"
    ensures GetBasenameFromPath(path) == "c"
  {
    ExampleGivesC("a\\b", '\\', path, path + ['\\']);
  }

  /** Examples of the `getBasenameFromPath` docstring with `..` components, which are not resolved. */
  lemma DocumentedExamplesDotDot(path: string, withSep: string)
    requires path == "a/b/../../a/b/c" && withSep == "a/b/../../a/b/c/"
    ensures GetBasenameFromPath(withSep) == "c" && GetBasenameFromPath(path) == "c"
  {
    ExampleGivesC("a/b/../../a/b", '/', path, withSep);
  }
}
