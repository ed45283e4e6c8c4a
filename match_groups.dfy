/**
 * What a regular-expression match hands back to the scanners: the
 * `groupdict()` of a match, an ordered list of (group name, captured text)
 * pairs, where the text is absent when the group did not take part in the
 * match. The regular-expression engines themselves are not modelled; the
 * scanners take them as given matcher functions returning these values.
 */
module MatchGroups {
  import opened Wrappers

  type GroupDict = seq<(string, Option<string>)>

  /** Whether `name` is a key of the group dictionary. */
  predicate HasGroup(groups: GroupDict, name: string) {
    exists i :: 0 <= i < |groups| && groups[i].0 == name
  }

  /**
   * `groups[name]` when `name in groups`: `None` when the key is missing,
   * otherwise the value stored under its first occurrence.
   */
  function GroupLookup(groups: GroupDict, name: string): (r: Option<Option<string>>)
    ensures r.None? <==> !HasGroup(groups, name)
    ensures r.Some? ==> exists i :: 0 <= i < |groups| && groups[i] == (name, r.value)
  {
    if groups == [] then None
    else if groups[0].0 == name then Some(groups[0].1)
    else
      var r := GroupLookup(groups[1..], name);
      assert forall i :: 1 <= i < |groups| ==> groups[i] == groups[1..][i - 1];
      r
  }
}
