/**
 * `Max<T>` of src/crdt/max.rs, the simplest join: merging keeps the larger
 * value. `T` is any totally ordered type; the model takes the integers (the
 * tests' `bool`, with `false < true`, is the two-element case).
 */
module MaxRegister {
  import opened MergeLaws

  datatype Max = Max(value: int)

  /** `From<T>`: wrap a value. */
  function From(t: int): (m: Max)
    ensures m.value == t
  {
    Max(t)
  }

  /** The consuming merge: `other` replaces `self` only when it is strictly greater. */
  function Merge(a: Max, b: Max): (r: Max)
    ensures r == a || r == b
    ensures r.value >= a.value && r.value >= b.value
  {
    if b.value > a.value then b else a
  }

  /** The merge is the maximum of the two values, and a smaller or equal `other` changes nothing. */
  lemma MergeIsMaximum(a: Max, b: Max)
    ensures Merge(a, b).value >= a.value && Merge(a, b).value >= b.value
    ensures Merge(a, b) == a || Merge(a, b) == b
    ensures b.value <= a.value ==> Merge(a, b) == a
  {
  }

  lemma MergeIdempotent(v: Max)
    ensures Merge(v, v) == v
  {
  }

  lemma MergeCommutative(a: Max, b: Max)
    ensures Merge(a, b) == Merge(b, a)
  {
  }

  lemma MergeAssociative(a: Max, b: Max, c: Max)
    ensures Merge(Merge(a, b), c) == Merge(a, Merge(b, c))
  {
  }

  /** The three laws at once, in the form the generic containers ask of their value type. */
  lemma MergeIsSemilattice()
    ensures Semilattice(Merge)
  {
    forall v | true ensures Merge(v, v) == v { MergeIdempotent(v); }
    forall a, b | true ensures Merge(a, b) == Merge(b, a) { MergeCommutative(a, b); }
    forall a, b, c | true ensures Merge(Merge(a, b), c) == Merge(a, Merge(b, c)) {
      MergeAssociative(a, b, c);
    }
  }

  /** A `Max` updated in place by `merge_mut`. */
  class MutableMax {
    var value: int

    constructor From(t: int)
      ensures value == t
    {
      value := t;
    }

    method MergeMut(other: Max)
      modifies this
      ensures Max(value) == Merge(Max(old(value)), other)
    {
      if other.value > value {
        value := other.value;
      }
    }
  }
}
