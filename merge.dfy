/**
 * The merge contract every replicated type implements (src/merge.rs): a
 * consuming `merge(self, other) -> Self` that must be idempotent, commutative
 * and associative. Throughout the model the consuming form is a pure function
 * `Merge(a, b)` of each type, and the in-place `merge_mut` of each type is a
 * method whose postcondition is that its new state equals `Merge(old, other)`.
 * A type's merge is passed to generic containers as a function value `join`.
 */
module MergeLaws {

  /** `test_idempotent`: merging a value with itself gives it back. */
  ghost predicate Idempotent<T(!new)>(join: (T, T) -> T) {
    forall v :: join(v, v) == v
  }

  /** `test_commutative`: the order of the two operands does not matter. */
  ghost predicate Commutative<T(!new)>(join: (T, T) -> T) {
    forall a, b :: join(a, b) == join(b, a)
  }

  /** `test_associative`: the grouping of three merges does not matter. */
  ghost predicate Associative<T(!new)>(join: (T, T) -> T) {
    forall a, b, c :: join(join(a, b), c) == join(a, join(b, c))
  }

  ghost predicate Semilattice<T(!new)>(join: (T, T) -> T) {
    Idempotent(join) && Commutative(join) && Associative(join)
  }

  /** The order a merge induces: `a` is below `b` when merging `a` into `b` changes nothing. */
  ghost predicate Below<T>(join: (T, T) -> T, a: T, b: T) {
    join(b, a) == b
  }

  /**
   * The three laws make `Below` a partial order in which `join(a, b)` is the
   * least upper bound of `a` and `b`: the sense in which a merge is a join.
   */
  lemma JoinIsLeastUpperBound<T(!new)>(join: (T, T) -> T, a: T, b: T, c: T)
    requires Semilattice(join)
    ensures Below(join, a, a)
    ensures Below(join, a, b) && Below(join, b, a) ==> a == b
    ensures Below(join, a, b) && Below(join, b, c) ==> Below(join, a, c)
    ensures Below(join, a, join(a, b)) && Below(join, b, join(a, b))
    ensures Below(join, a, c) && Below(join, b, c) ==> Below(join, join(a, b), c)
  {
    if Below(join, a, b) && Below(join, b, a) {
      calc {
        a;
        join(a, b);
        join(b, a);
        b;
      }
    }
    if Below(join, a, b) && Below(join, b, c) {
      calc {
        join(c, a);
        join(join(c, b), a);
        join(c, join(b, a));
        join(c, b);
        c;
      }
    }
    calc {
      join(join(a, b), a);
      join(a, join(a, b));
      join(join(a, a), b);
      join(a, b);
    }
    calc {
      join(join(a, b), b);
      join(a, join(b, b));
      join(a, b);
    }
    if Below(join, a, c) && Below(join, b, c) {
      calc {
        join(c, join(a, b));
        join(join(c, a), b);
        join(c, b);
        c;
      }
    }
  }
}
