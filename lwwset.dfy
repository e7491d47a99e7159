/**
 * The last-writer-wins set `LWWSet<T>` of src/crdt/lwwset.rs: for every
 * item, the latest clock at which it was added and the latest clock at which
 * it was removed. An item is a member when its add is strictly later than its
 * remove, an absent entry counting as earlier than every clock.
 */
module LwwSet {
  import opened Wrappers
  import opened Hlc
  import opened MergeLaws
  import GrowMap

  datatype LWWSet<T> = LWWSet(adds: map<T, Clock>, removes: map<T, Clock>)

  /**
   * The empty set, with no add and no remove recorded. src/crdt/lwwset.rs
   * derives no `Default` for `LWWSet`, so the `LWWSet::default()` that the
   * map's `Default` calls does not exist there; this is the value it stands for.
   */
  function Default<T>(): LWWSet<T> {
    LWWSet(map[], map[])
  }

  /** Rust's `<` on `Option<&HybridLogicalClock>`: `None` is below every clock. */
  predicate OptionLt(a: Option<Clock>, b: Option<Clock>) {
    b.Some? && (a.None? || Lt(a.value, b.value))
  }

  /**
   * `if Some(&clock) > m.get(&x) { m.insert(x, clock) }`: keep the strictly
   * later clock. This is a grow-only map insert whose value merge is the
   * maximum of two clocks.
   */
  function RecordIfLater<T>(m: map<T, Clock>, x: T, c: Clock): (r: map<T, Clock>)
    ensures r == GrowMap.InsertOrMerge(MaxClock, m, x, c)
  {
    if OptionLt(Get(m, x), Some(c)) then m[x := c] else m
  }

  /** `insert(item, clock)`: the add clocks record `c` if it is later; removes are untouched. */
  function AddAt<T>(s: LWWSet<T>, x: T, c: Clock): (r: LWWSet<T>)
    ensures r.removes == s.removes
    ensures r.adds == GrowMap.InsertOrMerge(MaxClock, s.adds, x, c)
  {
    s.(adds := RecordIfLater(s.adds, x, c))
  }

  /** `remove(item, clock)`: the remove clocks record `c` if it is later; adds are untouched. */
  function RemoveAt<T>(s: LWWSet<T>, x: T, c: Clock): (r: LWWSet<T>)
    ensures r.adds == s.adds
    ensures r.removes == GrowMap.InsertOrMerge(MaxClock, s.removes, x, c)
  {
    s.(removes := RecordIfLater(s.removes, x, c))
  }

  /**
   * `contains(item)`: `adds.get(item) > removes.get(item)`, that is, an add
   * and either no remove or a strictly earlier one.
   */
  function Contains<T>(s: LWWSet<T>, x: T): (r: bool)
    ensures r <==> x in s.adds && (x !in s.removes || Lt(s.removes[x], s.adds[x]))
  {
    OptionLt(Get(s.removes, x), Get(s.adds, x))
  }

  /** The consuming merge: the per-item maximum of the add clocks and, independently, of the remove clocks. */
  function Merge<T>(a: LWWSet<T>, b: LWWSet<T>): (r: LWWSet<T>)
    ensures r.adds.Keys == a.adds.Keys + b.adds.Keys && r.removes.Keys == a.removes.Keys + b.removes.Keys
    ensures forall x :: x in r.adds ==>
      (x in a.adds && r.adds[x] == a.adds[x]) || (x in b.adds && r.adds[x] == b.adds[x])
    ensures forall x :: x in r.removes ==>
      (x in a.removes && r.removes[x] == a.removes[x]) || (x in b.removes && r.removes[x] == b.removes[x])
    ensures NoClockDecreases(a.adds, r.adds) && NoClockDecreases(b.adds, r.adds)
    ensures NoClockDecreases(a.removes, r.removes) && NoClockDecreases(b.removes, r.removes)
  {
    ClockMergeNeverDecreases(a.adds, b.adds);
    ClockMergeNeverDecreases(a.removes, b.removes);
    LWWSet(GrowMap.Merge(MaxClock, a.adds, b.adds), GrowMap.Merge(MaxClock, a.removes, b.removes))
  }

  /** `insert` records `c` exactly when the item has no add clock or an earlier one. */
  lemma AddRecordsIffLater<T>(s: LWWSet<T>, x: T, c: Clock)
    ensures AddAt(s, x, c).adds == (if x !in s.adds || Lt(s.adds[x], c) then s.adds[x := c] else s.adds)
  {
    if x in s.adds {
      LtIsStrictTotalOrder(s.adds[x], c, s.adds[x]);
    }
  }

  /** Taking the later of two clocks is a semilattice, so every map of clocks merged by it is one too. */
  lemma MaxClockIsSemilattice()
    ensures Semilattice(MaxClock)
  {
    forall v | true ensures MaxClock(v, v) == v {
      LtIsStrictTotalOrder(v, v, v);
    }
    forall a, b | true ensures MaxClock(a, b) == MaxClock(b, a) {
      LtIsStrictTotalOrder(a, b, a);
    }
    forall a, b, c | true ensures MaxClock(MaxClock(a, b), c) == MaxClock(a, MaxClock(b, c)) {
      LtIsStrictTotalOrder(a, b, c);
      LtIsStrictTotalOrder(b, c, a);
      LtIsStrictTotalOrder(c, a, b);
    }
  }

  lemma MergeIdempotent<T>(s: LWWSet<T>)
    ensures Merge(s, s) == s
  {
    MaxClockIsSemilattice();
    GrowMap.MergeIdempotent(MaxClock, s.adds);
    GrowMap.MergeIdempotent(MaxClock, s.removes);
  }

  lemma MergeCommutative<T>(a: LWWSet<T>, b: LWWSet<T>)
    ensures Merge(a, b) == Merge(b, a)
  {
    MaxClockIsSemilattice();
    GrowMap.MergeCommutative(MaxClock, a.adds, b.adds);
    GrowMap.MergeCommutative(MaxClock, a.removes, b.removes);
  }

  lemma MergeAssociative<T>(a: LWWSet<T>, b: LWWSet<T>, c: LWWSet<T>)
    ensures Merge(Merge(a, b), c) == Merge(a, Merge(b, c))
  {
    MaxClockIsSemilattice();
    GrowMap.MergeAssociative(MaxClock, a.adds, b.adds, c.adds);
    GrowMap.MergeAssociative(MaxClock, a.removes, b.removes, c.removes);
  }

  /** `m2` holds every item of `m1` at the same or a later clock. */
  ghost predicate NoClockDecreases<T>(m1: map<T, Clock>, m2: map<T, Clock>) {
    forall x :: x in m1 ==> x in m2 && Le(m1[x], m2[x])
  }

  /** Pointwise maximum never lowers a clock of either side. */
  lemma ClockMergeNeverDecreases<T>(a: map<T, Clock>, b: map<T, Clock>)
    ensures NoClockDecreases(a, GrowMap.Merge(MaxClock, a, b))
    ensures NoClockDecreases(b, GrowMap.Merge(MaxClock, a, b))
  {
    forall x | x in a || x in b
      ensures x in a ==> Le(a[x], GrowMap.Merge(MaxClock, a, b)[x])
      ensures x in b ==> Le(b[x], GrowMap.Merge(MaxClock, a, b)[x])
    {
      if x in a && x in b {
        MaxClockIsUpperBound(a[x], b[x]);
      }
    }
  }

  /** No per-item clock ever decreases under `insert`, `remove` or `merge_mut`. */
  lemma ClocksNeverDecrease<T>(s: LWWSet<T>, o: LWWSet<T>, x: T, c: Clock)
    ensures NoClockDecreases(s.adds, AddAt(s, x, c).adds) && AddAt(s, x, c).removes == s.removes
    ensures NoClockDecreases(s.removes, RemoveAt(s, x, c).removes) && RemoveAt(s, x, c).adds == s.adds
    ensures NoClockDecreases(s.adds, Merge(s, o).adds) && NoClockDecreases(s.removes, Merge(s, o).removes)
  {
    ClockMergeNeverDecreases(s.adds, o.adds);
    ClockMergeNeverDecreases(s.removes, o.removes);
    if x in s.adds {
      MaxClockIsUpperBound(s.adds[x], c);
    }
    if x in s.removes {
      MaxClockIsUpperBound(s.removes[x], c);
    }
  }

  /**
   * A later remove hides an item and a still later add brings it back, when
   * no clock already recorded for the item is later than the new ones.
   */
  lemma RemoveThenReAdd<T>(s: LWWSet<T>, x: T, t1: Clock, t2: Clock, t3: Clock)
    requires Lt(t1, t2) && Lt(t2, t3)
    requires x in s.adds ==> Le(s.adds[x], t2)
    requires x in s.removes ==> Lt(s.removes[x], t3)
    ensures !Contains(RemoveAt(AddAt(s, x, t1), x, t2), x)
    ensures Contains(AddAt(RemoveAt(AddAt(s, x, t1), x, t2), x, t3), x)
  {
    var s1 := AddAt(s, x, t1);
    var s2 := RemoveAt(s1, x, t2);
    var s3 := AddAt(s2, x, t3);
    LtIsStrictTotalOrder(t1, t2, t3);
    MaxClockIsUpperBound(t1, t2);
    if x in s.adds {
      LtIsStrictTotalOrder(s.adds[x], t1, t2);
      LtIsStrictTotalOrder(s.adds[x], t2, t3);
      MaxClockIsUpperBound(s.adds[x], t1);
      LtIsStrictTotalOrder(s1.adds[x], t2, t3);
    }
    if x in s.removes {
      MaxClockIsUpperBound(s.removes[x], t2);
      LtIsStrictTotalOrder(s.removes[x], t2, t3);
    }
    LtIsStrictTotalOrder(s1.adds[x], s2.removes[x], t3);
    LtIsStrictTotalOrder(s2.removes[x], s1.adds[x], t3);
    MaxClockIsUpperBound(s2.adds[x], t3);
    LtIsStrictTotalOrder(s2.removes[x], t3, s3.adds[x]);
  }

  /**
   * Replica A adds `x` at `t1` and replica B removes it at the later `t2`,
   * both starting empty: merging either way gives the same add and remove
   * clocks, and `x` is not a member.
   */
  lemma ConcurrentAddAndRemoveConverge<T>(x: T, t1: Clock, t2: Clock)
    requires Lt(t1, t2)
    ensures Merge(AddAt(Default(), x, t1), RemoveAt(Default(), x, t2))
         == Merge(RemoveAt(Default(), x, t2), AddAt(Default(), x, t1))
    ensures !Contains(Merge(AddAt(Default(), x, t1), RemoveAt(Default(), x, t2)), x)
  {
    var a, b := AddAt(Default<T>(), x, t1), RemoveAt(Default<T>(), x, t2);
    MergeCommutative(a, b);
    var m := Merge(a, b);
    assert m.adds[x] == t1 && m.removes[x] == t2;
    LtIsStrictTotalOrder(t1, t2, t1);
  }

  /** One step of a `merge_mut` pass: recording one more of the other side's clocks. */
  lemma RecordStep<T>(base: map<T, Clock>, other: map<T, Clock>, rest: set<T>, item: T)
    requires item in rest && rest <= other.Keys
    ensures GrowMap.Merge(MaxClock, base, other - (rest - {item}))
         == RecordIfLater(GrowMap.Merge(MaxClock, base, other - rest), item, other[item])
  {
    var done := other - (rest - {item});
    GrowMap.MergeByInserts(MaxClock, base, done, item);
    assert done - {item} == other - rest;
  }

  /** An LWW set updated in place. */
  class MutableLWWSet<T(==)> {
    var adds: map<T, Clock>
    var removes: map<T, Clock>

    function State(): LWWSet<T>
      reads this
    {
      LWWSet(adds, removes)
    }

    /** The empty set of `Default`; the source itself derives no constructor for it. */
    constructor Default()
      ensures State() == LWWSet(map[], map[])
    {
      adds := map[];
      removes := map[];
    }

    method Insert(item: T, clock: Clock)
      modifies this
      ensures State() == AddAt(old(State()), item, clock)
    {
      if OptionLt(Get(adds, item), Some(clock)) {
        adds := adds[item := clock];
      }
    }

    method Remove(item: T, clock: Clock)
      modifies this
      ensures State() == RemoveAt(old(State()), item, clock)
    {
      if OptionLt(Get(removes, item), Some(clock)) {
        removes := removes[item := clock];
      }
    }

    /** `merge_mut`: one pass over the other's adds, then one over its removes. */
    method MergeMut(other: LWWSet<T>)
      modifies this
      ensures State() == Merge(old(State()), other)
    {
      var rest := other.adds.Keys;
      while rest != {}
        invariant rest <= other.adds.Keys
        invariant adds == GrowMap.Merge(MaxClock, old(adds), other.adds - rest)
        invariant removes == old(removes)
        decreases rest
      {
        var item :| item in rest;
        RecordStep(old(adds), other.adds, rest, item);
        if OptionLt(Get(adds, item), Some(other.adds[item])) {
          adds := adds[item := other.adds[item]];
        }
        assert adds == RecordIfLater(GrowMap.Merge(MaxClock, old(adds), other.adds - rest), item, other.adds[item]);
        rest := rest - {item};
      }
      assert other.adds - rest == other.adds;

      rest := other.removes.Keys;
      while rest != {}
        invariant rest <= other.removes.Keys
        invariant removes == GrowMap.Merge(MaxClock, old(removes), other.removes - rest)
        invariant adds == GrowMap.Merge(MaxClock, old(adds), other.adds)
        decreases rest
      {
        var item :| item in rest;
        RecordStep(old(removes), other.removes, rest, item);
        if OptionLt(Get(removes, item), Some(other.removes[item])) {
          removes := removes[item := other.removes[item]];
        }
        assert removes == RecordIfLater(GrowMap.Merge(MaxClock, old(removes), other.removes - rest), item, other.removes[item]);
        rest := rest - {item};
      }
      assert other.removes - rest == other.removes;
    }
  }
}
