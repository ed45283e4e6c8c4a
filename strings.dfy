/**
 * The few Python string operations the scanners rely on: `str.isspace`,
 * `str.strip`, `str.startswith`, `str.replace` and the ordering of `str`
 * values, stated over `seq<char>`.
 */
module Strings {

  /** The characters Python's `str.isspace` accepts (and `str.strip` removes). */
  predicate IsSpace(c: char) {
    var n := c as int;
    n == 0x20 || 0x09 <= n <= 0x0D || 0x1C <= n <= 0x1F || n == 0x85 || n == 0xA0
    || n == 0x1680 || 0x2000 <= n <= 0x200A || n == 0x2028 || n == 0x2029
    || n == 0x202F || n == 0x205F || n == 0x3000
  }

  /** Number of whitespace characters at the front of `s`. */
  function LeadingSpaces(s: string): (k: nat)
    ensures k <= |s|
    ensures forall i :: 0 <= i < k ==> IsSpace(s[i])
    ensures k == |s| || !IsSpace(s[k])
  {
    if s == [] || !IsSpace(s[0]) then 0 else 1 + LeadingSpaces(s[1..])
  }

  /** Number of whitespace characters at the back of `s`. */
  function TrailingSpaces(s: string): (k: nat)
    ensures k <= |s|
    ensures forall i :: |s| - k <= i < |s| ==> IsSpace(s[i])
    ensures k == |s| || !IsSpace(s[|s| - 1 - k])
  {
    if s == [] || !IsSpace(s[|s| - 1]) then 0 else 1 + TrailingSpaces(s[..|s| - 1])
  }

  /**
   * `s.strip()`: `s` without its leading and trailing whitespace. The result
   * is the contiguous middle of `s`, it neither starts nor ends with
   * whitespace, and everything cut away is whitespace.
   */
  function Strip(s: string): (r: string)
    ensures |r| <= |s|
    ensures r == [] || (!IsSpace(r[0]) && !IsSpace(r[|r| - 1]))
    ensures LeadingSpaces(s) + |r| <= |s| && r == s[LeadingSpaces(s)..LeadingSpaces(s) + |r|]
    ensures forall k :: LeadingSpaces(s) + |r| <= k < |s| ==> IsSpace(s[k])
    ensures (s == [] || (!IsSpace(s[0]) && !IsSpace(s[|s| - 1]))) ==> r == s
  {
    var i := LeadingSpaces(s);
    var rest := s[i..];
    var j := TrailingSpaces(rest);
    StripMiddle(s, i, j);
    StripEnds(s, i, j);
    StripCutsSpaces(s, i, j);
    rest[..|rest| - j]
  }

  /** The part `Strip` keeps is the slice of `s` between the cut-away ends. */
  lemma StripMiddle(s: string, i: nat, j: nat)
    requires i <= |s| && j <= |s| - i
    ensures s[i..][..|s[i..]| - j] == s[i..i + (|s| - i - j)]
  {
  }

  /** The kept part starts at the first character that is not a space and ends before the trailing spaces. */
  lemma StripEnds(s: string, i: nat, j: nat)
    requires i == LeadingSpaces(s) && j == TrailingSpaces(s[i..])
    ensures var r := s[i..][..|s[i..]| - j];
            r == [] || (!IsSpace(r[0]) && !IsSpace(r[|r| - 1]))
  {
    var rest := s[i..];
    var r := rest[..|rest| - j];
    if r != [] {
      assert r[0] == s[i];
      assert r[|r| - 1] == rest[|rest| - 1 - j];
    }
  }

  /** Everything after the kept part is whitespace. */
  lemma StripCutsSpaces(s: string, i: nat, j: nat)
    requires i == LeadingSpaces(s) && j == TrailingSpaces(s[i..])
    ensures forall k :: i + (|s[i..]| - j) <= k < |s| ==> IsSpace(s[k])
  {
    var rest := s[i..];
    forall k | i + (|rest| - j) <= k < |s|
      ensures IsSpace(s[k])
    {
      assert s[k] == rest[k - i];
    }
  }

  /** `s.startswith(prefix)`. */
  predicate StartsWith(s: string, prefix: string) {
    |prefix| <= |s| && s[..|prefix|] == prefix
  }

  /** `s.endswith(suffix)`. */
  predicate EndsWith(s: string, suffix: string) {
    |suffix| <= |s| && s[|s| - |suffix|..] == suffix
  }

  /** True when `pattern` occurs in `s` starting at index `i`. */
  predicate OccursAt(s: string, pattern: string, i: int) {
    0 <= i <= |s| - |pattern| && s[i..i + |pattern|] == pattern
  }

  /** True when `pattern` occurs in `s` at some position. */
  ghost predicate Occurs(s: string, pattern: string) {
    exists i :: OccursAt(s, pattern, i)
  }

  /**
   * `s.replace(target, replacement)`: every occurrence of `target`, scanned left to right
   * without overlap, replaced by `replacement`. Python inserts `replacement` before every
   * character and at the end when `target` is empty; so does this.
   */
  function ReplaceAll(s: string, target: string, replacement: string): string
    decreases |s|
  {
    if target == [] then
      replacement + (if s == [] then [] else [s[0]] + ReplaceAll(s[1..], target, replacement))
    else if StartsWith(s, target) then
      replacement + ReplaceAll(s[|target|..], target, replacement)
    else if s == [] then
      []
    else
      [s[0]] + ReplaceAll(s[1..], target, replacement)
  }

  /** Replacing a string by itself changes nothing, whether or not it is empty. */
  lemma {:induction false} ReplaceAllSelf(s: string, target: string)
    ensures ReplaceAll(s, target, target) == s
    decreases |s|
  {
    if target == [] {
      if s != [] {
        ReplaceAllSelf(s[1..], target);
      }
    } else if StartsWith(s, target) {
      ReplaceAllSelf(s[|target|..], target);
      assert s == target + s[|target|..];
    } else if s != [] {
      ReplaceAllSelf(s[1..], target);
      assert s == [s[0]] + s[1..];
    }
  }

  /** A non-empty string that does not occur in `s` leaves `s` unchanged. */
  lemma {:induction false} ReplaceAllAbsent(s: string, target: string, replacement: string)
    requires target != [] && !Occurs(s, target)
    ensures ReplaceAll(s, target, replacement) == s
    decreases |s|
  {
    assert !OccursAt(s, target, 0);
    assert !StartsWith(s, target) by {
      if |target| <= |s| {
        assert s[..|target|] == s[0..|target|];
      }
    }
    if s != [] {
      forall i ensures !OccursAt(s[1..], target, i) {
        assert !OccursAt(s, target, i + 1);
        if 0 <= i <= |s[1..]| - |target| {
          assert s[1..][i..i + |target|] == s[i + 1..i + 1 + |target|];
        }
      }
      ReplaceAllAbsent(s[1..], target, replacement);
      assert s == [s[0]] + s[1..];
    }
  }

  /** No occurrence of `target` starts inside `a` when `a` is followed by `rest`. */
  predicate NoStartWithin(a: string, rest: string, target: string)
    decreases |a|
  {
    a == [] || (!StartsWith(a + rest, target) && NoStartWithin(a[1..], rest, target))
  }

  /**
   * Positions where `target` does not start are copied unchanged: when no
   * occurrence starts inside the prefix `a`, replacing acts only on `rest`.
   */
  lemma {:induction false} ReplaceAllKeepsPrefix(a: string, rest: string, target: string, replacement: string)
    requires target != [] && NoStartWithin(a, rest, target)
    ensures ReplaceAll(a + rest, target, replacement) == a + ReplaceAll(rest, target, replacement)
    decreases |a|
  {
    if a == [] {
      assert a + rest == rest;
    } else {
      CopyFirstOfPrefix(a, rest, target, replacement);
      ReplaceAllKeepsPrefix(a[1..], rest, target, replacement);
      PrependFirst(a, ReplaceAll(a + rest, target, replacement), ReplaceAll(a[1..] + rest, target, replacement),
                   ReplaceAll(rest, target, replacement));
    }
  }

  lemma PrependFirst(a: string, x: string, y: string, z: string)
    requires a != [] && x == [a[0]] + y && y == a[1..] + z
    ensures x == a + z
  {
    assert a == [a[0]] + a[1..];
  }

  lemma CopyFirstOfPrefix(a: string, rest: string, target: string, replacement: string)
    requires target != [] && a != [] && !StartsWith(a + rest, target)
    ensures ReplaceAll(a + rest, target, replacement) == [a[0]] + ReplaceAll(a[1..] + rest, target, replacement)
  {
    assert (a + rest)[1..] == a[1..] + rest;
  }

  /** A prefix none of whose characters is the first of `target` holds no occurrence of it. */
  lemma {:induction false} MismatchNoStart(a: string, rest: string, target: string)
    requires target != [] && forall i :: 0 <= i < |a| ==> a[i] != target[0]
    ensures NoStartWithin(a, rest, target)
    decreases |a|
  {
    if a != [] {
      assert (a + rest)[0] == a[0];
      if |target| <= |a + rest| {
        assert (a + rest)[..|target|][0] == a[0];
      }
      MismatchNoStart(a[1..], rest, target);
    }
  }

  /**
   * A string whose only occurrence of `target` is one marked spot: when no
   * other character of `a` or `b` can start `target`, replacing in
   * `a + target + b` gives `a + replacement + b`.
   */
  lemma ReplaceSingleOccurrence(a: string, target: string, b: string, replacement: string)
    requires target != []
    requires forall i :: 0 <= i < |a| ==> a[i] != target[0]
    requires forall i :: 0 <= i < |b| ==> b[i] != target[0]
    ensures ReplaceAll(a + target + b, target, replacement) == a + replacement + b
  {
    calc {
      ReplaceAll(a + target + b, target, replacement);
      { assert a + target + b == a + (target + b);
        MismatchNoStart(a, target + b, target);
        ReplaceAllKeepsPrefix(a, target + b, target, replacement); }
      a + ReplaceAll(target + b, target, replacement);
      { ReplaceAllAtStart(target, b, replacement); }
      a + (replacement + ReplaceAll(b, target, replacement));
      { assert b + [] == b;
        MismatchNoStart(b, [], target);
        ReplaceAllKeepsPrefix(b, [], target, replacement); }
      a + (replacement + (b + ReplaceAll([], target, replacement)));
      a + replacement + b;
    }
  }

  /** An occurrence at the very start is replaced, and the scan resumes after it. */
  lemma ReplaceAllAtStart(target: string, rest: string, replacement: string)
    requires target != []
    ensures ReplaceAll(target + rest, target, replacement) == replacement + ReplaceAll(rest, target, replacement)
  {
    assert StartsWith(target + rest, target);
    assert (target + rest)[|target|..] == rest;
  }

  /** Python's `<` on `str`: lexicographic by code point, a proper prefix first. */
  predicate StrLess(a: string, b: string)
    decreases |a|
  {
    if a == [] then b != []
    else if b == [] then false
    else a[0] < b[0] || (a[0] == b[0] && StrLess(a[1..], b[1..]))
  }

  lemma {:induction false} StrLessIrreflexive(a: string)
    ensures !StrLess(a, a)
    decreases |a|
  {
    if a != [] {
      StrLessIrreflexive(a[1..]);
    }
  }

  lemma {:induction false} StrLessTransitive(a: string, b: string, c: string)
    requires StrLess(a, b) && StrLess(b, c)
    ensures StrLess(a, c)
    decreases |a|
  {
    if a != [] && b != [] && c != [] && a[0] == b[0] && b[0] == c[0] {
      StrLessTransitive(a[1..], b[1..], c[1..]);
    }
  }

  lemma {:induction false} StrLessTotal(a: string, b: string)
    requires a != b
    ensures StrLess(a, b) || StrLess(b, a)
    decreases |a|
  {
    if a != [] && b != [] && a[0] == b[0] {
      assert a == [a[0]] + a[1..] && b == [b[0]] + b[1..];
      StrLessTotal(a[1..], b[1..]);
    }
  }
}
