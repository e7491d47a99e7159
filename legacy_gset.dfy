/**
 * The older grow-only set of src/gset.rs, over a hash set. Its merge drains
 * the other set into this one item by item; the result is the union, the
 * same join as `GrowSet.Merge`.
 */
module LegacyGrowSet {
  import GrowSet

  class GSet<T(==)> {
    var items: set<T>

    /** `new`: the empty set. */
    constructor New()
      ensures items == {}
    {
      items := {};
    }

    /** `insert`: adds the item and removes nothing. */
    method Insert(item: T)
      modifies this
      ensures items == old(items) + {item}
    {
      items := items + {item};
    }

    /** `merge_mut`: drain `other`, inserting each item. */
    method MergeMut(other: set<T>)
      modifies this
      ensures items == GrowSet.Merge(old(items), other)
    {
      var rest := other;
      while rest != {}
        invariant rest <= other
        invariant items == old(items) + (other - rest)
        decreases rest
      {
        var item :| item in rest;
        Insert(item);
        rest := rest - {item};
      }
    }
  }

  /** The property tests over `GSet<bool>`: the union is a semilattice join. */
  lemma MergeLawsOverBool(a: set<bool>, b: set<bool>, c: set<bool>)
    ensures GrowSet.Merge(a, a) == a
    ensures GrowSet.Merge(a, b) == GrowSet.Merge(b, a)
    ensures GrowSet.Merge(GrowSet.Merge(a, b), c) == GrowSet.Merge(a, GrowSet.Merge(b, c))
  {
    GrowSet.MergeIdempotent(a);
    GrowSet.MergeCommutative(a, b);
    GrowSet.MergeAssociative(a, b, c);
  }
}
