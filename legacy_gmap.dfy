/**
 * The older grow-only map of src/gmap.rs: string keys, mergeable values,
 * over a hash map. Its merge visits the other map's entries and merges each
 * into an existing entry or inserts it, which is `GrowMap.Merge`.
 */
module LegacyGrowMap {
  import opened MergeLaws
  import GrowMap
  import GrowSet

  class GMap<V> {
    const join: (V, V) -> V
    var entries: map<string, V>

    /** The tuple-struct constructor `GMap(entries)`. */
    constructor Wrap(join: (V, V) -> V, entries: map<string, V>)
      ensures this.join == join && this.entries == entries
    {
      this.join := join;
      this.entries := entries;
    }

    /** `merge_mut`: each entry of `other` merged into the one under its key, or inserted. */
    method MergeMut(other: map<string, V>)
      modifies this
      ensures entries == GrowMap.Merge(join, old(entries), other)
    {
      var rest := other.Keys;
      while rest != {}
        invariant rest <= other.Keys
        invariant entries == GrowMap.Merge(join, old(entries), other - rest)
        decreases rest
      {
        var key :| key in rest;
        ghost var done := other - (rest - {key});
        GrowMap.MergeByInserts(join, old(entries), done, key);
        assert done - {key} == other - rest;
        if key in entries {
          entries := entries[key := join(entries[key], other[key])];
        } else {
          entries := entries[key := other[key]];
        }
        rest := rest - {key};
      }
      assert other - rest == other;
    }
  }

  /** The property tests over `GMap<GSet<bool>>`: the merge is a semilattice join. */
  lemma MergeLawsOverGSet(a: map<string, set<bool>>, b: map<string, set<bool>>, c: map<string, set<bool>>)
    ensures GrowMap.Merge(GrowSet.Merge, a, a) == a
    ensures GrowMap.Merge(GrowSet.Merge, a, b) == GrowMap.Merge(GrowSet.Merge, b, a)
    ensures GrowMap.Merge(GrowSet.Merge, GrowMap.Merge(GrowSet.Merge, a, b), c)
         == GrowMap.Merge(GrowSet.Merge, a, GrowMap.Merge(GrowSet.Merge, b, c))
  {
    GrowSet.MergeIsSemilattice<bool>();
    GrowMap.MergeIdempotent(GrowSet.Merge, a);
    GrowMap.MergeCommutative(GrowSet.Merge, a, b);
    GrowMap.MergeAssociative(GrowSet.Merge, a, b, c);
  }
}
