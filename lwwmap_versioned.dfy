/**
 * A corrected last-writer-wins map. Each value is kept under the clock of
 * the write that produced it, so a merge can tell a value written before a
 * key's latest remove (which it drops) from one written after (which it
 * keeps), independently of the order in which replicas are merged. With
 * that change the merge of src/crdt/lwwmap.rs becomes a semilattice join.
 */
module VersionedLwwMap {
  import opened Wrappers
  import opened Hlc
  import opened MergeLaws
  import GrowMap
  import LwwSet

  datatype VersionedLWWMap<K, V> = VersionedLWWMap(keys: LwwSet.LWWSet<K>, versions: map<(K, Clock), V>)

  function Default<K, V>(): VersionedLWWMap<K, V> {
    VersionedLWWMap(LwwSet.Default(), map[])
  }

  /** A value written for key `p.0` at clock `p.1` survives when the write is later than the key's latest remove. */
  predicate Live<K>(removes: map<K, Clock>, p: (K, Clock)) {
    LwwSet.OptionLt(Get(removes, p.0), Some(p.1))
  }

  /** Drop every version not later than its key's latest remove. */
  function Prune<K, V>(vs: map<(K, Clock), V>, removes: map<K, Clock>): (r: map<(K, Clock), V>)
    ensures forall p :: p in r ==> p in vs && Live(removes, p) && r[p] == vs[p]
    ensures forall p :: p in vs && Live(removes, p) ==> p in r
  {
    map p | p in vs && Live(removes, p) :: vs[p]
  }

  /** `insert`: record the add, and keep the value only when the write beats the key's latest remove. */
  function InsertAt<K, V>(join: (V, V) -> V, m: VersionedLWWMap<K, V>, k: K, v: V, c: Clock): (r: VersionedLWWMap<K, V>)
    ensures r.keys == LwwSet.AddAt(m.keys, k, c)
    ensures Live(m.keys.removes, (k, c)) ==> r.versions == GrowMap.InsertOrMerge(join, m.versions, (k, c), v)
    ensures !Live(m.keys.removes, (k, c)) ==> r.versions == m.versions
  {
    var keys := LwwSet.AddAt(m.keys, k, c);
    if Live(keys.removes, (k, c))
    then VersionedLWWMap(keys, GrowMap.InsertOrMerge(join, m.versions, (k, c), v))
    else VersionedLWWMap(keys, m.versions)
  }

  /** `remove`: as in the original, drop every value of the key and record the remove. */
  function RemoveAt<K, V>(m: VersionedLWWMap<K, V>, k: K, c: Clock): (r: VersionedLWWMap<K, V>)
    ensures r.keys == LwwSet.RemoveAt(m.keys, k, c)
    ensures forall p :: p in r.versions ==> p in m.versions && p.0 != k && r.versions[p] == m.versions[p]
    ensures forall p :: p in m.versions && p.0 != k ==> p in r.versions
  {
    VersionedLWWMap(LwwSet.RemoveAt(m.keys, k, c), map p | p in m.versions && p.0 != k :: m.versions[p])
  }

  /** Merge the key sets, merge the versions entry by entry, then drop the versions the merged removes overrule. */
  function Merge<K, V>(join: (V, V) -> V, a: VersionedLWWMap<K, V>, b: VersionedLWWMap<K, V>): (r: VersionedLWWMap<K, V>)
    ensures r.keys == LwwSet.Merge(a.keys, b.keys)
    ensures forall p :: p in r.versions ==> Live(r.keys.removes, p) && (p in a.versions || p in b.versions)
  {
    var keys := LwwSet.Merge(a.keys, b.keys);
    VersionedLWWMap(keys, Prune(GrowMap.Merge(join, a.versions, b.versions), keys.removes))
  }

  /** Every kept version beats its key's latest remove and is no later than its key's latest add. */
  ghost predicate Valid<K, V>(m: VersionedLWWMap<K, V>) {
    forall p :: p in m.versions ==> Live(m.keys.removes, p) && p.0 in m.keys.adds && Le(p.1, m.keys.adds[p.0])
  }

  /** In a valid state every key holding a value is contained in the key set. */
  lemma ValidValuesAreContained<K, V>(m: VersionedLWWMap<K, V>, p: (K, Clock))
    requires Valid(m) && p in m.versions
    ensures LwwSet.Contains(m.keys, p.0)
  {
    if p.0 in m.keys.removes {
      LtIsStrictTotalOrder(m.keys.removes[p.0], p.1, m.keys.adds[p.0]);
    }
  }

  lemma DefaultValid<K, V>()
    ensures Valid(Default<K, V>())
  {
  }

  lemma InsertPreservesValid<K, V>(join: (V, V) -> V, m: VersionedLWWMap<K, V>, k: K, v: V, c: Clock)
    requires Valid(m)
    ensures Valid(InsertAt(join, m, k, v, c))
  {
    var r := InsertAt(join, m, k, v, c);
    forall p | p in r.versions
      ensures Live(r.keys.removes, p) && p.0 in r.keys.adds && Le(p.1, r.keys.adds[p.0])
    {
      if p.0 == k {
        MaxClockIsUpperBound(if k in m.keys.adds then m.keys.adds[k] else c, c);
        if p in m.versions && k in m.keys.adds {
          LeIsTransitive(p.1, m.keys.adds[k], r.keys.adds[k]);
        }
      }
    }
  }

  lemma RemovePreservesValid<K, V>(m: VersionedLWWMap<K, V>, k: K, c: Clock)
    requires Valid(m)
    ensures Valid(RemoveAt(m, k, c))
  {
  }

  lemma MergePreservesValid<K, V>(join: (V, V) -> V, a: VersionedLWWMap<K, V>, b: VersionedLWWMap<K, V>)
    requires Valid(a) && Valid(b)
    ensures Valid(Merge(join, a, b))
  {
    var r := Merge(join, a, b);
    forall p | p in r.versions
      ensures p.0 in r.keys.adds && Le(p.1, r.keys.adds[p.0])
    {
      var k := p.0;
      if p in a.versions {
        MaxClockIsUpperBound(a.keys.adds[k], if k in b.keys.adds then b.keys.adds[k] else a.keys.adds[k]);
        LeIsTransitive(p.1, a.keys.adds[k], r.keys.adds[k]);
      } else {
        MaxClockIsUpperBound(if k in a.keys.adds then a.keys.adds[k] else b.keys.adds[k], b.keys.adds[k]);
        LeIsTransitive(p.1, b.keys.adds[k], r.keys.adds[k]);
      }
    }
  }

  /** `Le` chains. */
  lemma LeIsTransitive(a: Clock, b: Clock, c: Clock)
    requires Le(a, b) && Le(b, c)
    ensures Le(a, c)
  {
    LtIsStrictTotalOrder(a, b, c);
  }

  /**
   * No value written at or before a remove either side has seen survives a
   * merge: a stale value cannot come back through another replica.
   */
  lemma MergeDropsOverruledVersions<K, V>(join: (V, V) -> V, a: VersionedLWWMap<K, V>, b: VersionedLWWMap<K, V>, p: (K, Clock))
    requires p in Merge(join, a, b).versions
    ensures p.0 in a.keys.removes ==> Lt(a.keys.removes[p.0], p.1)
    ensures p.0 in b.keys.removes ==> Lt(b.keys.removes[p.0], p.1)
  {
    var k := p.0;
    var r := Merge(join, a, b).keys.removes;
    if k in a.keys.removes {
      MaxClockIsUpperBound(a.keys.removes[k], if k in b.keys.removes then b.keys.removes[k] else a.keys.removes[k]);
      LtIsStrictTotalOrder(a.keys.removes[k], r[k], p.1);
    }
    if k in b.keys.removes {
      MaxClockIsUpperBound(if k in a.keys.removes then a.keys.removes[k] else b.keys.removes[k], b.keys.removes[k]);
      LtIsStrictTotalOrder(b.keys.removes[k], r[k], p.1);
    }
  }

  /** `r1` is pointwise no later than `r`. */
  ghost predicate RemovesBelow<K>(r1: map<K, Clock>, r: map<K, Clock>) {
    forall k :: k in r1 ==> k in r && Le(r1[k], r[k])
  }

  /** Pruning by older removes before a merge changes nothing once the merge is pruned by newer ones. */
  lemma PruneAbsorbedLeft<K, V>(join: (V, V) -> V, x: map<(K, Clock), V>, y: map<(K, Clock), V>, r1: map<K, Clock>, r: map<K, Clock>)
    requires RemovesBelow(r1, r)
    ensures Prune(GrowMap.Merge(join, Prune(x, r1), y), r) == Prune(GrowMap.Merge(join, x, y), r)
  {
    forall p | p in x && Live(r, p)
      ensures Live(r1, p)
    {
      if p.0 in r1 {
        LtIsStrictTotalOrder(r1[p.0], r[p.0], p.1);
      }
    }
  }

  lemma PruneAbsorbedRight<K, V>(join: (V, V) -> V, x: map<(K, Clock), V>, y: map<(K, Clock), V>, r1: map<K, Clock>, r: map<K, Clock>)
    requires RemovesBelow(r1, r)
    ensures Prune(GrowMap.Merge(join, x, Prune(y, r1)), r) == Prune(GrowMap.Merge(join, x, y), r)
  {
    forall p | p in y && Live(r, p)
      ensures Live(r1, p)
    {
      if p.0 in r1 {
        LtIsStrictTotalOrder(r1[p.0], r[p.0], p.1);
      }
    }
  }

  /** A merge of remove clocks is pointwise at least either side. */
  lemma RemovesBelowMerge<K>(a: map<K, Clock>, b: map<K, Clock>)
    ensures RemovesBelow(a, GrowMap.Merge(MaxClock, a, b))
    ensures RemovesBelow(b, GrowMap.Merge(MaxClock, a, b))
  {
    forall k | k in a ensures Le(a[k], GrowMap.Merge(MaxClock, a, b)[k]) {
      MaxClockIsUpperBound(a[k], if k in b then b[k] else a[k]);
    }
    forall k | k in b ensures Le(b[k], GrowMap.Merge(MaxClock, a, b)[k]) {
      MaxClockIsUpperBound(if k in a then a[k] else b[k], b[k]);
    }
  }

  lemma MergeIdempotent<K, V(!new)>(join: (V, V) -> V, a: VersionedLWWMap<K, V>)
    requires Idempotent(join)
    requires Valid(a)
    ensures Merge(join, a, a) == a
  {
    LwwSet.MergeIdempotent(a.keys);
    GrowMap.MergeIdempotent(join, a.versions);
  }

  lemma MergeCommutative<K, V(!new)>(join: (V, V) -> V, a: VersionedLWWMap<K, V>, b: VersionedLWWMap<K, V>)
    requires Commutative(join)
    ensures Merge(join, a, b) == Merge(join, b, a)
  {
    LwwSet.MergeCommutative(a.keys, b.keys);
    GrowMap.MergeCommutative(join, a.versions, b.versions);
  }

  /** Associative on every triple of states, unlike the original. */
  lemma MergeAssociative<K, V(!new)>(join: (V, V) -> V, a: VersionedLWWMap<K, V>, b: VersionedLWWMap<K, V>, c: VersionedLWWMap<K, V>)
    requires Associative(join)
    ensures Merge(join, Merge(join, a, b), c) == Merge(join, a, Merge(join, b, c))
  {
    LwwSet.MergeAssociative(a.keys, b.keys, c.keys);
    var rab := GrowMap.Merge(MaxClock, a.keys.removes, b.keys.removes);
    var rbc := GrowMap.Merge(MaxClock, b.keys.removes, c.keys.removes);
    var r := GrowMap.Merge(MaxClock, rab, c.keys.removes);
    assert r == GrowMap.Merge(MaxClock, a.keys.removes, rbc);
    RemovesBelowMerge(rab, c.keys.removes);
    RemovesBelowMerge(a.keys.removes, rbc);
    PruneAbsorbedLeft(join, GrowMap.Merge(join, a.versions, b.versions), c.versions, rab, r);
    PruneAbsorbedRight(join, a.versions, GrowMap.Merge(join, b.versions, c.versions), rbc, r);
    GrowMap.MergeAssociative(join, a.versions, b.versions, c.versions);
  }
}
