/**
 * The two-phase map `TwoPMap<K, V>` of src/crdt/twopmap.rs: values (merged
 * by their own join on conflict) and a grow-only set of removed keys. A
 * removed key stays removed: later inserts of it are ignored and merges
 * drop it.
 */
module TwoPhaseMap {
  import opened MergeLaws
  import GrowMap

  datatype TwoPMap<K, V> = TwoPMap(adds: map<K, V>, removes: set<K>)

  /** `Default::default()`. */
  function Default<K, V>(): TwoPMap<K, V> {
    TwoPMap(map[], {})
  }

  /** `insert(key, value)`: ignored for a removed key, otherwise insert or merge. */
  function InsertUnlessRemoved<K, V>(join: (V, V) -> V, m: TwoPMap<K, V>, k: K, v: V): (r: TwoPMap<K, V>)
    ensures r.removes == m.removes
    ensures k in m.removes ==> r == m
    ensures k !in m.removes ==> r.adds == GrowMap.InsertOrMerge(join, m.adds, k, v)
  {
    if k in m.removes then m else m.(adds := GrowMap.InsertOrMerge(join, m.adds, k, v))
  }

  /** `remove(key)`: drop the value and remember the key as removed for good. */
  function RemoveForever<K, V>(m: TwoPMap<K, V>, k: K): (r: TwoPMap<K, V>)
    ensures k in r.removes && k !in r.adds
    ensures r.removes == m.removes + {k}
    ensures r.adds == m.adds - {k}
  {
    TwoPMap(m.adds - {k}, m.removes + {k})
  }

  /**
   * The consuming merge: the union of the removed keys; the entries of both
   * sides merged key by key, except under removed keys.
   */
  function Merge<K, V>(join: (V, V) -> V, a: TwoPMap<K, V>, b: TwoPMap<K, V>): (r: TwoPMap<K, V>)
    ensures r.removes == a.removes + b.removes
    ensures r.adds.Keys == (a.adds.Keys + b.adds.Keys) - r.removes
    ensures r.adds.Keys !! r.removes
  {
    var removes := a.removes + b.removes;
    TwoPMap(GrowMap.Merge(join, a.adds, b.adds) - removes, removes)
  }

  /** No key is both present and removed. */
  ghost predicate Disjoint<K, V>(m: TwoPMap<K, V>) {
    m.adds.Keys !! m.removes
  }

  lemma DefaultDisjoint<K, V>()
    ensures Disjoint(Default<K, V>())
  {
  }

  lemma InsertPreservesDisjoint<K, V>(join: (V, V) -> V, m: TwoPMap<K, V>, k: K, v: V)
    requires Disjoint(m)
    ensures Disjoint(InsertUnlessRemoved(join, m, k, v))
  {
  }

  lemma RemovePreservesDisjoint<K, V>(m: TwoPMap<K, V>, k: K)
    requires Disjoint(m)
    ensures Disjoint(RemoveForever(m, k))
  {
  }

  /**
   * A key removed on either side is removed and absent after a merge, and a
   * key absent from both removed sets keeps the merged entry of both sides.
   */
  lemma MergeRemovedWins<K, V>(join: (V, V) -> V, a: TwoPMap<K, V>, b: TwoPMap<K, V>, k: K)
    ensures Disjoint(Merge(join, a, b))
    ensures k in a.removes || k in b.removes ==> k in Merge(join, a, b).removes && k !in Merge(join, a, b).adds
    ensures k !in a.removes && k !in b.removes && (k in a.adds || k in b.adds) ==>
      k in Merge(join, a, b).adds && Merge(join, a, b).adds[k] == GrowMap.MergedEntry(join, a.adds, b.adds, k)
  {
  }

  /** Once removed, inserting the key again leaves it absent. */
  lemma RemovedKeyStaysRemoved<K, V>(join: (V, V) -> V, m: TwoPMap<K, V>, k: K, j: K, v: V)
    requires Disjoint(m) && k in m.removes
    ensures k in InsertUnlessRemoved(join, m, j, v).removes
    ensures k !in InsertUnlessRemoved(join, m, j, v).adds
  {
  }

  /** Merging a state with itself gives it back exactly when no key is both present and removed. */
  lemma MergeIdempotentIff<K, V(!new)>(join: (V, V) -> V, a: TwoPMap<K, V>)
    requires Idempotent(join)
    ensures Merge(join, a, a) == a <==> Disjoint(a)
  {
    GrowMap.MergeIdempotent(join, a.adds);
    if Disjoint(a) {
      assert a.adds - a.removes == a.adds;
    }
  }

  lemma MergeCommutative<K, V(!new)>(join: (V, V) -> V, a: TwoPMap<K, V>, b: TwoPMap<K, V>)
    requires Commutative(join)
    ensures Merge(join, a, b) == Merge(join, b, a)
  {
    GrowMap.MergeCommutative(join, a.adds, b.adds);
    assert a.removes + b.removes == b.removes + a.removes;
  }

  /** Removing keys before a merge changes nothing once the merge drops a superset of them. */
  lemma RemoveAbsorbed<K, V>(join: (V, V) -> V, x: map<K, V>, y: map<K, V>, s: set<K>, r: set<K>)
    requires s <= r
    ensures GrowMap.Merge(join, x - s, y) - r == GrowMap.Merge(join, x, y) - r
    ensures GrowMap.Merge(join, x, y - s) - r == GrowMap.Merge(join, x, y) - r
  {
  }

  lemma MergeAssociative<K, V(!new)>(join: (V, V) -> V, a: TwoPMap<K, V>, b: TwoPMap<K, V>, c: TwoPMap<K, V>)
    requires Associative(join)
    ensures Merge(join, Merge(join, a, b), c) == Merge(join, a, Merge(join, b, c))
  {
    var r := a.removes + b.removes + c.removes;
    assert a.removes + (b.removes + c.removes) == r;
    RemoveAbsorbed(join, GrowMap.Merge(join, a.adds, b.adds), c.adds, a.removes + b.removes, r);
    RemoveAbsorbed(join, a.adds, GrowMap.Merge(join, b.adds, c.adds), b.removes + c.removes, r);
    GrowMap.MergeAssociative(join, a.adds, b.adds, c.adds);
  }

  /** `other.adds` without the keys in `removes`: what the merge loop's `insert` calls accept. */
  function Accepted<K, V>(m: map<K, V>, removes: set<K>): (r: map<K, V>)
    ensures r.Keys == m.Keys - removes
    ensures forall k :: k in r ==> r[k] == m[k]
  {
    map k | k in m && k !in removes :: m[k]
  }

  /** One step of `merge_mut`'s loop over the other side's entries. */
  lemma MergeStep<K, V>(join: (V, V) -> V, base: map<K, V>, other: map<K, V>, rest: set<K>, key: K, removes: set<K>)
    requires key in rest && rest <= other.Keys
    ensures GrowMap.Merge(join, base, Accepted(other - (rest - {key}), removes)) ==
      if key in removes
      then GrowMap.Merge(join, base, Accepted(other - rest, removes))
      else GrowMap.InsertOrMerge(join, GrowMap.Merge(join, base, Accepted(other - rest, removes)), key, other[key])
  {
    var before := Accepted(other - rest, removes);
    var after := Accepted(other - (rest - {key}), removes);
    if key in removes {
      assert after == before;
    } else {
      GrowMap.MergeByInserts(join, base, after, key);
      assert after - {key} == before;
    }
  }

  /** A two-phase map updated in place. */
  class MutableTwoPMap<K(==), V> {
    const join: (V, V) -> V
    var adds: map<K, V>
    var removes: set<K>

    function State(): TwoPMap<K, V>
      reads this
    {
      TwoPMap(adds, removes)
    }

    constructor Default(join: (V, V) -> V)
      ensures this.join == join
      ensures State() == TwoPMap(map[], {})
    {
      this.join := join;
      adds := map[];
      removes := {};
    }

    method Insert(key: K, value: V)
      modifies this
      ensures State() == InsertUnlessRemoved(join, old(State()), key, value)
    {
      if key in removes {
        return;
      }
      if key in adds {
        adds := adds[key := join(adds[key], value)];
      } else {
        adds := adds[key := value];
      }
    }

    method Remove(key: K)
      modifies this
      ensures State() == RemoveForever(old(State()), key)
    {
      adds := adds - {key};
      removes := removes + {key};
    }

    /** `merge_mut`: take the other side's removes, insert its entries, then drop removed keys. */
    method MergeMut(other: TwoPMap<K, V>)
      modifies this
      ensures State() == Merge(join, old(State()), other)
    {
      removes := removes + other.removes;
      var rest := other.adds.Keys;
      while rest != {}
        invariant rest <= other.adds.Keys
        invariant removes == old(removes) + other.removes
        invariant adds == GrowMap.Merge(join, old(adds), Accepted(other.adds - rest, removes))
        decreases rest
      {
        var key :| key in rest;
        MergeStep(join, old(adds), other.adds, rest, key, removes);
        Insert(key, other.adds[key]);
        rest := rest - {key};
      }
      assert other.adds - rest == other.adds;
      assert Accepted(other.adds, removes) == other.adds - removes;
      RemoveAbsorbed(join, old(adds), other.adds, removes, removes);
      adds := map k | k in adds && k !in removes :: adds[k];
    }
  }
}
