/**
 * The grow-only set `GSet<T>` of src/crdt/gset.rs: insertion only, and merge
 * is set union (`BTreeSet::append`).
 */
module GrowSet {
  import opened MergeLaws

  /** The consuming merge: union. */
  function Merge<T>(a: set<T>, b: set<T>): (r: set<T>)
    ensures a <= r && b <= r
    ensures forall x :: x in r ==> x in a || x in b
  {
    a + b
  }

  lemma MergeIdempotent<T>(v: set<T>)
    ensures Merge(v, v) == v
  {
  }

  lemma MergeCommutative<T>(a: set<T>, b: set<T>)
    ensures Merge(a, b) == Merge(b, a)
  {
  }

  lemma MergeAssociative<T>(a: set<T>, b: set<T>, c: set<T>)
    ensures Merge(Merge(a, b), c) == Merge(a, Merge(b, c))
  {
  }

  /** Union is a semilattice, so a `GSet` can be the value type of a grow-only map. */
  lemma MergeIsSemilattice<T(!new)>()
    ensures Semilattice(Merge<T>)
  {
    forall v: set<T> | true ensures Merge(v, v) == v { MergeIdempotent(v); }
    forall a: set<T>, b: set<T> | true ensures Merge(a, b) == Merge(b, a) { MergeCommutative(a, b); }
    forall a: set<T>, b: set<T>, c: set<T> | true ensures Merge(Merge(a, b), c) == Merge(a, Merge(b, c)) {
      MergeAssociative(a, b, c);
    }
  }

  /** A grow-only set updated in place. */
  class MutableGSet<T(==)> {
    var items: set<T>

    /**
     * The empty set. src/crdt/gset.rs has no constructor of its own; this one
     * stands for building a `GSet` around an empty `BTreeSet`.
     */
    constructor Empty()
      ensures items == {}
    {
      items := {};
    }

    /** `insert`: adds the item and removes nothing. */
    method Insert(item: T)
      modifies this
      ensures items == old(items) + {item}
    {
      items := items + {item};
    }

    /** `merge_mut`: `append` moves every item of `other` in; nothing is removed. */
    method MergeMut(other: set<T>)
      modifies this
      ensures items == Merge(old(items), other)
      ensures old(items) <= items
    {
      items := items + other;
    }
  }
}
