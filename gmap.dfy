/**
 * The grow-only map `GMap<K, V>` of src/crdt/gmap.rs. `V` is itself
 * mergeable; its merge is the function value `join`. Inserting under a key
 * that is present merges the new value into the existing one (never a plain
 * overwrite), and merging two maps inserts every entry of the other map.
 */
module GrowMap {
  import opened Wrappers
  import opened MergeLaws
  import MaxRegister

  /** `insert`: a vacant key takes the value verbatim, an occupied one merges it in. */
  function InsertOrMerge<K, V>(join: (V, V) -> V, m: map<K, V>, k: K, v: V): (r: map<K, V>)
    ensures r.Keys == m.Keys + {k}
    ensures k in m ==> r[k] == join(m[k], v)
    ensures k !in m ==> r[k] == v
    ensures forall j :: j in m && j != k ==> r[j] == m[j]
  {
    if k in m then m[k := join(m[k], v)] else m[k := v]
  }

  /** What the merge of `a` and `b` holds under a key of either. */
  function MergedEntry<K, V>(join: (V, V) -> V, a: map<K, V>, b: map<K, V>, k: K): V
    requires k in a || k in b
  {
    if k in a && k in b then join(a[k], b[k]) else if k in a then a[k] else b[k]
  }

  /**
   * The consuming merge: keys of both maps, the inner merge on shared keys,
   * the single entry elsewhere.
   */
  function Merge<K, V>(join: (V, V) -> V, a: map<K, V>, b: map<K, V>): (r: map<K, V>)
    ensures r.Keys == a.Keys + b.Keys
    ensures forall k :: k in r ==> r[k] == MergedEntry(join, a, b, k)
  {
    map k | k in a.Keys + b.Keys :: MergedEntry(join, a, b, k)
  }

  /** `get_mut`: a handle exactly when the key is present. */
  function GetMut<K, V>(m: map<K, V>, k: K): (r: Option<V>)
    ensures r.Some? <==> k in m
    ensures r.Some? ==> r.value == m[k]
  {
    Get(m, k)
  }

  /**
   * `merge_mut` inserts the other map's entries one at a time: merging `b`
   * is merging `b` without `k`, then inserting `b[k]`, whatever `k` is taken
   * last. So every iteration order gives the declarative `Merge`.
   */
  lemma MergeByInserts<K, V>(join: (V, V) -> V, a: map<K, V>, b: map<K, V>, k: K)
    requires k in b
    ensures Merge(join, a, b) == InsertOrMerge(join, Merge(join, a, b - {k}), k, b[k])
  {
    var lhs := Merge(join, a, b);
    var rhs := InsertOrMerge(join, Merge(join, a, b - {k}), k, b[k]);
    assert lhs.Keys == rhs.Keys;
    forall j | j in lhs
      ensures lhs[j] == rhs[j]
    {
    }
  }

  /** No entry is ever lost: the keys only grow and a key's entry only advances by merging. */
  lemma InsertOnlyGrows<K, V>(join: (V, V) -> V, m: map<K, V>, k: K, v: V)
    ensures m.Keys <= InsertOrMerge(join, m, k, v).Keys
    ensures forall j :: j in m ==>
      InsertOrMerge(join, m, k, v)[j] == m[j] || InsertOrMerge(join, m, k, v)[j] == join(m[j], v)
  {
  }

  lemma MergeIdempotent<K, V(!new)>(join: (V, V) -> V, a: map<K, V>)
    requires Idempotent(join)
    ensures Merge(join, a, a) == a
  {
    var r := Merge(join, a, a);
    assert r.Keys == a.Keys;
    forall k | k in r ensures r[k] == a[k] {
      assert join(a[k], a[k]) == a[k];
    }
  }

  lemma MergeCommutative<K, V(!new)>(join: (V, V) -> V, a: map<K, V>, b: map<K, V>)
    requires Commutative(join)
    ensures Merge(join, a, b) == Merge(join, b, a)
  {
    var ab, ba := Merge(join, a, b), Merge(join, b, a);
    assert ab.Keys == ba.Keys;
    forall k | k in ab ensures ab[k] == ba[k] {
      if k in a && k in b {
        assert join(a[k], b[k]) == join(b[k], a[k]);
      }
    }
  }

  lemma MergeAssociative<K, V(!new)>(join: (V, V) -> V, a: map<K, V>, b: map<K, V>, c: map<K, V>)
    requires Associative(join)
    ensures Merge(join, Merge(join, a, b), c) == Merge(join, a, Merge(join, b, c))
  {
    var ab_c := Merge(join, Merge(join, a, b), c);
    var a_bc := Merge(join, a, Merge(join, b, c));
    assert ab_c.Keys == a_bc.Keys;
    forall k | k in ab_c ensures ab_c[k] == a_bc[k] {
      if k in a && k in b && k in c {
        assert join(join(a[k], b[k]), c[k]) == join(a[k], join(b[k], c[k]));
      }
    }
  }

  /** The laws at the instance the tests use: `GMap<bool, Max<bool>>`. */
  lemma MergeLawsOverMax(a: map<bool, MaxRegister.Max>, b: map<bool, MaxRegister.Max>, c: map<bool, MaxRegister.Max>)
    ensures Merge(MaxRegister.Merge, a, a) == a
    ensures Merge(MaxRegister.Merge, a, b) == Merge(MaxRegister.Merge, b, a)
    ensures Merge(MaxRegister.Merge, Merge(MaxRegister.Merge, a, b), c)
         == Merge(MaxRegister.Merge, a, Merge(MaxRegister.Merge, b, c))
  {
    MaxRegister.MergeIsSemilattice();
    MergeIdempotent(MaxRegister.Merge, a);
    MergeCommutative(MaxRegister.Merge, a, b);
    MergeAssociative(MaxRegister.Merge, a, b, c);
  }

  /** A grow-only map updated in place; `join` is the merge of its value type. */
  class MutableGMap<K(==), V> {
    const join: (V, V) -> V
    var entries: map<K, V>

    /** `Default::default()`: the empty map. */
    constructor Default(join: (V, V) -> V)
      ensures this.join == join && entries == map[]
    {
      this.join := join;
      entries := map[];
    }

    method Insert(key: K, value: V)
      modifies this
      ensures entries == InsertOrMerge(join, old(entries), key, value)
    {
      if key in entries {
        entries := entries[key := join(entries[key], value)];
      } else {
        entries := entries[key := value];
      }
    }

    /** `get_mut`: whether the key is present, and its current entry. */
    method GetMut(key: K) returns (r: Option<V>)
      ensures r.Some? <==> key in entries
      ensures r.Some? ==> r.value == entries[key]
    {
      r := if key in entries then Some(entries[key]) else None;
    }

    /** `merge_mut`: insert every entry of `other`. */
    method MergeMut(other: map<K, V>)
      modifies this
      ensures entries == Merge(join, old(entries), other)
    {
      var rest := other.Keys;
      while rest != {}
        invariant rest <= other.Keys
        invariant entries == Merge(join, old(entries), other - rest)
        decreases rest
      {
        var key :| key in rest;
        ghost var done := other - (rest - {key});
        MergeByInserts(join, old(entries), done, key);
        assert done - {key} == other - rest;
        Insert(key, other[key]);
        rest := rest - {key};
      }
      assert other - rest == other;
    }
  }
}
