/**
 * `ntpath.split` and `ntpath.basename`: Windows path splitting, where both
 * `/` and `\` separate path components. Drive letters and UNC prefixes are
 * not part of this model.
 */
module NtPath {
  import opened Strings

  predicate IsSep(c: char) {
    c == '/' || c == '\\'
  }

  predicate NoSeps(s: string) {
    forall i :: 0 <= i < |s| ==> !IsSep(s[i])
  }

  predicate AllSeps(s: string) {
    forall i :: 0 <= i < |s| ==> IsSep(s[i])
  }

  /** Index just past the last separator of `p`, or 0 when `p` has none. */
  function TailStart(p: string): (i: nat)
    ensures i <= |p| && NoSeps(p[i..])
    ensures i == 0 || IsSep(p[i - 1])
  {
    if p == [] || IsSep(p[|p| - 1]) then |p|
    else
      var i := TailStart(p[..|p| - 1]);
      assert p[i..] == p[..|p| - 1][i..] + [p[|p| - 1]];
      i
  }

  /** `s.rstrip("/\\")`: `s` without its trailing separators. */
  function RStripSeps(s: string): (r: string)
    ensures |r| <= |s| && r == s[..|r|]
    ensures r == [] || !IsSep(r[|r| - 1])
    ensures AllSeps(s[|r|..])
  {
    if s == [] || !IsSep(s[|s| - 1]) then s
    else
      var r := RStripSeps(s[..|s| - 1]);
      assert s[|r|..] == s[..|s| - 1][|r|..] + [s[|s| - 1]];
      r
  }

  /**
   * `ntpath.split(p)`: the tail is everything after the last separator; the
   * head is everything before it with trailing separators removed, unless
   * that would leave nothing, in which case the separators stay.
   */
  function Split(p: string): (r: (string, string))
    ensures NoSeps(r.1) && EndsWith(p, r.1)
    ensures |r.1| == |p| || IsSep(p[|p| - |r.1| - 1])
    ensures r.1 == [] <==> (p == [] || IsSep(p[|p| - 1]))
    ensures StartsWith(p, r.0) && |r.0| + |r.1| <= |p|
    ensures AllSeps(p[|r.0|..|p| - |r.1|])
    ensures r.0 == [] || !IsSep(r.0[|r.0| - 1]) || AllSeps(r.0)
    ensures r.0 == [] <==> NoSeps(p)
  {
    var i := TailStart(p);
    var head := p[..i];
    var stripped := RStripSeps(head);
    assert i > 0 ==> IsSep(p[i - 1]) && head[i - 1] == p[i - 1];
    assert NoSeps(p) ==> i == 0;
    assert i == 0 ==> p[i..] == p;
    assert stripped == [] ==> head[|stripped|..] == head;
    (if stripped == [] then head else stripped, p[i..])
  }

  /** `ntpath.basename(p)`: the tail of `ntpath.split(p)`, the whole last component. */
  function Basename(p: string): (r: string)
    ensures NoSeps(r) && EndsWith(p, r)
    ensures |r| == |p| || IsSep(p[|p| - |r| - 1])
    ensures r == [] <==> (p == [] || IsSep(p[|p| - 1]))
  {
    Split(p).1
  }
}
