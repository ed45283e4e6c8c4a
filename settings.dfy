/**
 * Layered settings lookup. Both plugins read a setting from a per-view layer
 * first, then from the package's settings file, then fall back to the
 * default the caller passes.
 */
module LayeredSettings {

  /**
   * `top` is the layer consulted first (the view's settings dictionary),
   * `fallback` the one consulted next (the package's settings file).
   */
  datatype Settings<V> = Settings(top: map<string, V>, fallback: map<string, V>) {

    /** `Settings.get(field, default)`. */
    function Get(field: string, defaultValue: V): (r: V)
      ensures field in top ==> r == top[field]
      ensures field !in top && field in fallback ==> r == fallback[field]
      ensures field !in top && field !in fallback ==> r == defaultValue
    {
      if field in top then top[field]
      else if field in fallback then fallback[field]
      else defaultValue
    }
  }

  /**
   * The layered lookup is a lookup in the union of the two layers in which
   * the top layer overrides the fallback.
   */
  lemma GetIsMergedLookup<V>(s: Settings<V>, field: string, defaultValue: V)
    ensures var merged := s.fallback + s.top;
            s.Get(field, defaultValue) == if field in merged then merged[field] else defaultValue
  {
  }
}
