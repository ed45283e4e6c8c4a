/**
 * Shell-style name patterns as `fnmatch.fnmatch` reads them, limited to the
 * two wildcards `*` (any run of characters, possibly empty) and `?` (exactly
 * one character); every other pattern character matches only itself. The
 * whole name must match.
 */
module Glob {
  import opened Strings

  predicate IsWildcard(c: char) {
    c == '*' || c == '?'
  }

  predicate NoWildcards(pattern: string) {
    forall i :: 0 <= i < |pattern| ==> !IsWildcard(pattern[i])
  }

  predicate FnMatch(name: string, pattern: string)
    decreases |name| + |pattern|
  {
    if pattern == [] then name == []
    else if pattern[0] == '*' then
      FnMatch(name, pattern[1..]) || (name != [] && FnMatch(name[1..], pattern))
    else if pattern[0] == '?' then
      name != [] && FnMatch(name[1..], pattern[1..])
    else
      name != [] && name[0] == pattern[0] && FnMatch(name[1..], pattern[1..])
  }

  /** `*` alone matches every name, the empty one included. */
  lemma {:induction false} StarMatchesEverything(name: string)
    ensures FnMatch(name, "*")
    decreases |name|
  {
    if name != [] {
      StarMatchesEverything(name[1..]);
    }
  }

  /** A pattern without wildcards matches exactly the name spelled the same. */
  lemma {:induction false} LiteralMatch(name: string, pattern: string)
    requires NoWildcards(pattern)
    ensures FnMatch(name, pattern) <==> name == pattern
    decreases |pattern|
  {
    if pattern != [] {
      LiteralMatch(if name == [] then [] else name[1..], pattern[1..]);
      if name != [] && name[1..] == pattern[1..] && name[0] == pattern[0] {
        assert name == [name[0]] + name[1..];
        assert pattern == [pattern[0]] + pattern[1..];
      }
    }
  }

  /**
   * `*` followed by literal text, as in `*.png`, matches exactly the names
   * that end with that text.
   */
  lemma {:induction false} StarSuffix(name: string, suffix: string)
    requires NoWildcards(suffix)
    ensures FnMatch(name, "*" + suffix) <==> EndsWith(name, suffix)
    decreases |name|
  {
    var pattern := "*" + suffix;
    assert pattern[0] == '*' && pattern[1..] == suffix;
    assert FnMatch(name, pattern) ==
           (FnMatch(name, suffix) || (name != [] && FnMatch(name[1..], pattern)));
    LiteralMatch(name, suffix);
    if name == [] {
      assert EndsWith(name, suffix) <==> suffix == [];
    } else {
      StarSuffix(name[1..], suffix);
      EndsWithTail(name, suffix);
    }
  }

  /** A non-empty name ends with a text iff it is that text or its tail ends with it. */
  lemma EndsWithTail(name: string, suffix: string)
    requires name != []
    ensures EndsWith(name, suffix) <==> (name == suffix || EndsWith(name[1..], suffix))
  {
    if |suffix| <= |name[1..]| {
      assert name[1..][|name[1..]| - |suffix|..] == name[|name| - |suffix|..];
    }
  }
}
