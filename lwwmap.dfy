/**
 * The last-writer-wins map `LWWMap<K, V>` of src/crdt/lwwmap.rs, as written:
 * an `LWWSet` of keys decides membership and a map holds the (mergeable)
 * values. src/crdt.rs declares no module for this file; two of the laws
 * its property tests assert fail on states the tests' own generator can
 * build (see `InsertCanBreakIdempotence` and
 * `MergeNotAssociative`). `VersionedLwwMap` is the corrected design.
 */
module LwwMap {
  import opened Wrappers
  import opened Hlc
  import opened MergeLaws
  import GrowMap
  import LwwSet
  import MaxRegister

  datatype LWWMap<K, V> = LWWMap(keys: LwwSet.LWWSet<K>, values: map<K, V>)

  /** `Default::default()`. */
  function Default<K, V>(): LWWMap<K, V> {
    LWWMap(LwwSet.Default(), map[])
  }

  /**
   * `insert(key, value, clock)`: record the add in the key set, then insert
   * or merge the value, whether or not the add won.
   */
  function InsertAt<K, V>(join: (V, V) -> V, m: LWWMap<K, V>, k: K, v: V, c: Clock): (r: LWWMap<K, V>)
    ensures r.keys == LwwSet.AddAt(m.keys, k, c)
    ensures r.values == GrowMap.InsertOrMerge(join, m.values, k, v)
  {
    LWWMap(LwwSet.AddAt(m.keys, k, c), GrowMap.InsertOrMerge(join, m.values, k, v))
  }

  /** `remove(key, clock)`: drop the value, whatever the clock, and record the remove. */
  function RemoveAt<K, V>(m: LWWMap<K, V>, k: K, c: Clock): (r: LWWMap<K, V>)
    ensures r.keys == LwwSet.RemoveAt(m.keys, k, c)
    ensures k !in r.values && r.values == m.values - {k}
  {
    LWWMap(LwwSet.RemoveAt(m.keys, k, c), m.values - {k})
  }

  /** `values.retain(|key, _| keys.contains(key))`. */
  function Retain<K, V>(values: map<K, V>, keys: LwwSet.LWWSet<K>): (r: map<K, V>)
    ensures forall k :: k in r ==> k in values && LwwSet.Contains(keys, k) && r[k] == values[k]
    ensures forall k :: k in values && LwwSet.Contains(keys, k) ==> k in r
  {
    map k | k in values && LwwSet.Contains(keys, k) :: values[k]
  }

  /**
   * The consuming merge: merge the key sets, keep only own values whose key
   * is still contained, then insert or merge the other side's values for
   * contained keys.
   */
  function Merge<K, V>(join: (V, V) -> V, a: LWWMap<K, V>, b: LWWMap<K, V>): (r: LWWMap<K, V>)
    ensures r.keys == LwwSet.Merge(a.keys, b.keys)
    ensures forall k :: k in r.values ==> LwwSet.Contains(r.keys, k) && (k in a.values || k in b.values)
  {
    var keys := LwwSet.Merge(a.keys, b.keys);
    LWWMap(keys, GrowMap.Merge(join, Retain(a.values, keys), Retain(b.values, keys)))
  }

  /** The invariant under which the laws are stated: every key holding a value is contained. */
  ghost predicate ValuesContained<K, V>(m: LWWMap<K, V>) {
    forall k :: k in m.values ==> LwwSet.Contains(m.keys, k)
  }

  /**
   * After a merge the key sets are merged, a key holds a value exactly when
   * it is contained and either side held a value for it, and that value is
   * the inner merge of the sides' values.
   */
  lemma MergeKeepsValuesOfContainedKeys<K, V>(join: (V, V) -> V, a: LWWMap<K, V>, b: LWWMap<K, V>, k: K)
    ensures Merge(join, a, b).keys == LwwSet.Merge(a.keys, b.keys)
    ensures k in Merge(join, a, b).values <==>
      LwwSet.Contains(Merge(join, a, b).keys, k) && (k in a.values || k in b.values)
    ensures k in Merge(join, a, b).values ==>
      Merge(join, a, b).values[k] == GrowMap.MergedEntry(join, a.values, b.values, k)
    ensures ValuesContained(Merge(join, a, b))
  {
  }

  lemma DefaultValuesContained<K, V>()
    ensures ValuesContained(Default<K, V>())
  {
  }

  /** `remove` keeps the invariant. */
  lemma RemovePreservesValuesContained<K, V>(m: LWWMap<K, V>, k: K, c: Clock)
    requires ValuesContained(m)
    ensures ValuesContained(RemoveAt(m, k, c))
  {
    forall j | j in RemoveAt(m, k, c).values
      ensures LwwSet.Contains(RemoveAt(m, k, c).keys, j)
    {
      assert j != k && j in m.values;
    }
  }

  /** `insert` keeps the invariant exactly when the inserted key is contained afterwards. */
  lemma InsertPreservesValuesContainedIff<K, V>(join: (V, V) -> V, m: LWWMap<K, V>, k: K, v: V, c: Clock)
    requires ValuesContained(m)
    ensures ValuesContained(InsertAt(join, m, k, v, c)) <==> LwwSet.Contains(InsertAt(join, m, k, v, c).keys, k)
  {
    var r := InsertAt(join, m, k, v, c);
    if LwwSet.Contains(r.keys, k) {
      forall j | j in r.values ensures LwwSet.Contains(r.keys, j) {
        if j != k {
          assert j in m.values;
          assert Get(r.keys.adds, j) == Get(m.keys.adds, j);
        }
      }
    }
  }

  /**
   * The `removing_removes_value` test: insert at `c1`, remove at a strictly
   * later `c2`; then the key is neither contained nor holding a value,
   * provided no add already recorded for the key is later than `c2`.
   */
  lemma RemoveAfterInsertRemovesValue<K, V>(join: (V, V) -> V, m: LWWMap<K, V>, k: K, v: V, c1: Clock, c2: Clock)
    requires Lt(c1, c2)
    requires k in m.keys.adds ==> Le(m.keys.adds[k], c2)
    ensures !LwwSet.Contains(RemoveAt(InsertAt(join, m, k, v, c1), k, c2).keys, k)
    ensures k !in RemoveAt(InsertAt(join, m, k, v, c1), k, c2).values
  {
    var r1 := InsertAt(join, m, k, v, c1);
    var r2 := RemoveAt(r1, k, c2);
    MaxClockIsUpperBound(c1, c2);
    if k in m.keys.adds {
      MaxClockIsUpperBound(m.keys.adds[k], c1);
      LtIsStrictTotalOrder(m.keys.adds[k], c1, c2);
    }
    if k in m.keys.removes {
      MaxClockIsUpperBound(m.keys.removes[k], c2);
    }
    LtIsStrictTotalOrder(r1.keys.adds[k], c2, r2.keys.removes[k]);
    LtIsStrictTotalOrder(r2.keys.removes[k], r1.keys.adds[k], c2);
  }

  /**
   * Without that proviso the `removing_removes_value` test claims too much:
   * its base is an arbitrary map, whose generated clocks may lie after the
   * test's own. Here the base already holds an add of the key at `T3`; an
   * insert at `T1` and a remove at `T2` then leave the key contained, with
   * no value.
   */
  lemma RemoveAfterInsertCanLeaveKeyContained()
    ensures
      var base := InsertAt(MaxRegister.Merge, Default(), true, MaxRegister.Max(0), T3);
      var r := RemoveAt(InsertAt(MaxRegister.Merge, base, true, MaxRegister.Max(1), T1), true, T2);
      LwwSet.Contains(r.keys, true) && true !in r.values
  {
    var base := InsertAt(MaxRegister.Merge, Default(), true, MaxRegister.Max(0), T3);
    var r1 := InsertAt(MaxRegister.Merge, base, true, MaxRegister.Max(1), T1);
    assert r1.keys.adds[true] == T3;
    var r := RemoveAt(r1, true, T2);
    assert r.keys.adds[true] == T3 && r.keys.removes[true] == T2;
  }

  /** Merge is commutative on every pair of states. */
  lemma MergeCommutative<K, V(!new)>(join: (V, V) -> V, a: LWWMap<K, V>, b: LWWMap<K, V>)
    requires Commutative(join)
    ensures Merge(join, a, b) == Merge(join, b, a)
  {
    LwwSet.MergeCommutative(a.keys, b.keys);
    var keys := LwwSet.Merge(a.keys, b.keys);
    GrowMap.MergeCommutative(join, Retain(a.values, keys), Retain(b.values, keys));
  }

  /** Merge is idempotent on states whose values all have contained keys. */
  lemma MergeIdempotent<K, V(!new)>(join: (V, V) -> V, a: LWWMap<K, V>)
    requires Idempotent(join)
    requires ValuesContained(a)
    ensures Merge(join, a, a) == a
  {
    LwwSet.MergeIdempotent(a.keys);
    assert Retain(a.values, a.keys) == a.values;
    GrowMap.MergeIdempotent(join, a.values);
  }

  /** Clocks used by the two counterexamples below. */
  const T0: Clock := Clock(0, 0, 0)
  const T1: Clock := Clock(1, 0, 0)
  const T2: Clock := Clock(2, 0, 0)
  const T3: Clock := Clock(3, 0, 0)

  /**
   * A remove at `T2` followed by an insert at the earlier `T1` leaves a value
   * under a key that is not contained; merging that state with itself prunes
   * the value, so `merge(a, a) == a` fails. The tests' generator builds such
   * states (two items with the same key).
   */
  lemma InsertCanBreakIdempotence()
    ensures
      var a := InsertAt(MaxRegister.Merge, RemoveAt(Default(), true, T2), true, MaxRegister.Max(1), T1);
      !ValuesContained(a) && Merge(MaxRegister.Merge, a, a) != a
  {
    var a := InsertAt(MaxRegister.Merge, RemoveAt(Default(), true, T2), true, MaxRegister.Max(1), T1);
    assert a.keys.adds[true] == T1 && a.keys.removes[true] == T2;
    assert !LwwSet.Contains(a.keys, true);
    assert true in a.values;
    LwwSet.MergeIdempotent(a.keys);
    assert true !in Merge(MaxRegister.Merge, a, a).values;
  }

  /**
   * Associativity fails even on states satisfying `ValuesContained`: `a`
   * writes 1 at `T1`; `b` writes at `T0` and removes at `T2`; `c` writes 0
   * at `T3`. Merging `a` with `b` first prunes `a`'s value for good, while
   * merging `b` with `c` first re-adds the key, so `a`'s value survives and
   * is merged with `c`'s.
   */
  lemma MergeNotAssociative()
    ensures
      var a := InsertAt(MaxRegister.Merge, Default(), true, MaxRegister.Max(1), T1);
      var b := RemoveAt(InsertAt(MaxRegister.Merge, Default(), true, MaxRegister.Max(0), T0), true, T2);
      var c := InsertAt(MaxRegister.Merge, Default(), true, MaxRegister.Max(0), T3);
      ValuesContained(a) && ValuesContained(b) && ValuesContained(c) &&
      Merge(MaxRegister.Merge, Merge(MaxRegister.Merge, a, b), c)
        != Merge(MaxRegister.Merge, a, Merge(MaxRegister.Merge, b, c))
  {
    ExampleA();
    ExampleB();
    ExampleC();
    var a := InsertAt(MaxRegister.Merge, Default(), true, MaxRegister.Max(1), T1);
    var b := RemoveAt(InsertAt(MaxRegister.Merge, Default(), true, MaxRegister.Max(0), T0), true, T2);
    var c := InsertAt(MaxRegister.Merge, Default(), true, MaxRegister.Max(0), T3);
    LeftGroupingDropsA(a, b, c);
    RightGroupingKeepsA(a, b, c);
  }

  /** The example's `a`: a single write of 1 at `T1`. */
  lemma ExampleA()
    ensures
      var a := InsertAt(MaxRegister.Merge, Default(), true, MaxRegister.Max(1), T1);
      a.keys.adds == map[true := T1] && a.keys.removes == map[] &&
      a.values == map[true := MaxRegister.Max(1)] && ValuesContained(a)
  {
    var a := InsertAt(MaxRegister.Merge, Default(), true, MaxRegister.Max(1), T1);
    assert a.keys.adds == map[true := T1];
    assert LwwSet.Contains(a.keys, true);
  }

  /** The example's `b`: a write of 0 at `T0`, removed at `T2`. */
  lemma ExampleB()
    ensures
      var b := RemoveAt(InsertAt(MaxRegister.Merge, Default(), true, MaxRegister.Max(0), T0), true, T2);
      b.keys.adds == map[true := T0] && b.keys.removes == map[true := T2] &&
      b.values == map[] && ValuesContained(b)
  {
    var b0 := InsertAt(MaxRegister.Merge, Default(), true, MaxRegister.Max(0), T0);
    assert b0.keys.adds == map[true := T0] && b0.keys.removes == map[];
    var b := RemoveAt(b0, true, T2);
    assert b.keys.removes == map[true := T2];
  }

  /** The example's `c`: a single write of 0 at `T3`. */
  lemma ExampleC()
    ensures
      var c := InsertAt(MaxRegister.Merge, Default(), true, MaxRegister.Max(0), T3);
      c.keys.adds == map[true := T3] && c.keys.removes == map[] &&
      c.values == map[true := MaxRegister.Max(0)] && ValuesContained(c)
  {
    var c := InsertAt(MaxRegister.Merge, Default(), true, MaxRegister.Max(0), T3);
    assert c.keys.adds == map[true := T3];
    assert LwwSet.Contains(c.keys, true);
  }

  /** `(a ⊔ b) ⊔ c` of the example: `a`'s value is pruned before `c` re-adds the key. */
  lemma LeftGroupingDropsA(a: LWWMap<bool, MaxRegister.Max>, b: LWWMap<bool, MaxRegister.Max>, c: LWWMap<bool, MaxRegister.Max>)
    requires a.keys.adds == map[true := T1] && a.keys.removes == map[] && a.values == map[true := MaxRegister.Max(1)]
    requires b.keys.adds == map[true := T0] && b.keys.removes == map[true := T2] && b.values == map[]
    requires c.keys.adds == map[true := T3] && c.keys.removes == map[] && c.values == map[true := MaxRegister.Max(0)]
    ensures Merge(MaxRegister.Merge, Merge(MaxRegister.Merge, a, b), c).values[true] == MaxRegister.Max(0)
  {
    var join := MaxRegister.Merge;
    var ab := Merge(join, a, b);
    assert ab.keys.adds[true] == T1 && ab.keys.removes[true] == T2;
    assert !LwwSet.Contains(ab.keys, true);
    assert ab.values == map[];
    var ab_c := Merge(join, ab, c);
    assert ab_c.keys.adds[true] == T3 && ab_c.keys.removes[true] == T2;
  }

  /** `a ⊔ (b ⊔ c)` of the example: `c` re-adds the key first, so `a`'s value is merged in. */
  lemma RightGroupingKeepsA(a: LWWMap<bool, MaxRegister.Max>, b: LWWMap<bool, MaxRegister.Max>, c: LWWMap<bool, MaxRegister.Max>)
    requires a.keys.adds == map[true := T1] && a.keys.removes == map[] && a.values == map[true := MaxRegister.Max(1)]
    requires b.keys.adds == map[true := T0] && b.keys.removes == map[true := T2] && b.values == map[]
    requires c.keys.adds == map[true := T3] && c.keys.removes == map[] && c.values == map[true := MaxRegister.Max(0)]
    ensures Merge(MaxRegister.Merge, a, Merge(MaxRegister.Merge, b, c)).values[true] == MaxRegister.Max(1)
  {
    var join := MaxRegister.Merge;
    var bc := Merge(join, b, c);
    assert bc.keys.adds[true] == T3 && bc.keys.removes[true] == T2;
    assert bc.values[true] == MaxRegister.Max(0);
    var a_bc := Merge(join, a, bc);
    assert a_bc.keys.adds[true] == T3 && a_bc.keys.removes[true] == T2;
    assert LwwSet.Contains(a_bc.keys, true);
  }

  /** One step of `merge_mut`'s loop over the other side's values. */
  lemma MergeStep<K, V>(join: (V, V) -> V, base: map<K, V>, other: map<K, V>, rest: set<K>, key: K, keys: LwwSet.LWWSet<K>)
    requires key in rest && rest <= other.Keys
    ensures GrowMap.Merge(join, base, Retain(other - (rest - {key}), keys)) ==
      if LwwSet.Contains(keys, key)
      then GrowMap.InsertOrMerge(join, GrowMap.Merge(join, base, Retain(other - rest, keys)), key, other[key])
      else GrowMap.Merge(join, base, Retain(other - rest, keys))
  {
    var before := Retain(other - rest, keys);
    var after := Retain(other - (rest - {key}), keys);
    if LwwSet.Contains(keys, key) {
      GrowMap.MergeByInserts(join, base, after, key);
      assert after - {key} == before;
    } else {
      assert after == before;
    }
  }

  /** An LWW map updated in place; `keys` is the key set it owns. */
  class MutableLWWMap<K(==), V> {
    const join: (V, V) -> V
    const keys: LwwSet.MutableLWWSet<K>
    var values: map<K, V>

    function State(): LWWMap<K, V>
      reads this, keys
    {
      LWWMap(keys.State(), values)
    }

    constructor Default(join: (V, V) -> V)
      ensures this.join == join && fresh(keys)
      ensures State() == LWWMap(LwwSet.LWWSet(map[], map[]), map[])
    {
      this.join := join;
      keys := new LwwSet.MutableLWWSet.Default();
      values := map[];
    }

    method Insert(key: K, value: V, clock: Clock)
      modifies this, keys
      ensures State() == InsertAt(join, old(State()), key, value, clock)
    {
      keys.Insert(key, clock);
      InsertValue(key, value);
    }

    /** `insert_value`: insert or merge into the value map; the key set is untouched. */
    method InsertValue(key: K, value: V)
      modifies this
      ensures values == GrowMap.InsertOrMerge(join, old(values), key, value)
    {
      if key in values {
        values := values[key := join(values[key], value)];
      } else {
        values := values[key := value];
      }
    }

    method Remove(key: K, clock: Clock)
      modifies this, keys
      ensures State() == RemoveAt(old(State()), key, clock)
    {
      values := values - {key};
      keys.Remove(key, clock);
    }

    /** `merge_mut`: key sets first, then pruning, then the other side's values for contained keys. */
    method MergeMut(other: LWWMap<K, V>)
      modifies this, keys
      ensures State() == Merge(join, old(State()), other)
    {
      keys.MergeMut(other.keys);
      ghost var merged := keys.State();
      values := Retain(values, keys.State());
      var rest := other.values.Keys;
      while rest != {}
        invariant rest <= other.values.Keys
        invariant keys.State() == merged
        invariant values == GrowMap.Merge(join, Retain(old(values), merged), Retain(other.values - rest, merged))
        decreases rest
      {
        var key :| key in rest;
        MergeStep(join, Retain(old(values), merged), other.values, rest, key, merged);
        if LwwSet.Contains(keys.State(), key) {
          InsertValue(key, other.values[key]);
        }
        rest := rest - {key};
      }
      assert other.values - rest == other.values;
    }
  }
}
