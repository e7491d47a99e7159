/**
 * `LWWRegister<T>` of src/crdt/lww.rs: a value stamped with the clock of the
 * write that produced it. Merging keeps the register whose clock is strictly
 * greater; on equal clocks the receiving register is kept.
 */
module LwwRegister {
  import opened Hlc

  datatype LWWRegister<T> = LWWRegister(value: T, clock: Clock)

  /** `LWWRegister::new(value, timestamp)`. */
  function New<T>(value: T, clock: Clock): (r: LWWRegister<T>)
    ensures r.value == value && r.clock == clock
  {
    LWWRegister(value, clock)
  }

  /**
   * The consuming merge: adopt `b` only when its clock is strictly greater.
   * The result is one of the two writes and is no earlier than either.
   */
  function Merge<T>(a: LWWRegister<T>, b: LWWRegister<T>): (r: LWWRegister<T>)
    ensures r == a || r == b
    ensures Le(a.clock, r.clock) && Le(b.clock, r.clock)
  {
    LtIsStrictTotalOrder(a.clock, b.clock, a.clock);
    if Lt(a.clock, b.clock) then b else a
  }

  /**
   * The merged register is one of the two operands, it carries the larger
   * clock, and `b` wins exactly when its clock is strictly greater.
   */
  lemma MergeKeepsLaterWrite<T>(a: LWWRegister<T>, b: LWWRegister<T>)
    ensures Merge(a, b).clock == MaxClock(a.clock, b.clock)
    ensures Merge(a, b) == (if Lt(a.clock, b.clock) then b else a)
    ensures Le(a.clock, Merge(a, b).clock) && Le(b.clock, Merge(a, b).clock)
  {
    MaxClockIsUpperBound(a.clock, b.clock);
  }

  /** On a clock tie the receiving register is kept, whatever the other value is. */
  lemma MergeTieKeepsSelf<T>(a: LWWRegister<T>, b: LWWRegister<T>)
    requires a.clock == b.clock
    ensures Merge(a, b) == a && Merge(b, a) == b
  {
    LtIsStrictTotalOrder(a.clock, a.clock, a.clock);
  }

  lemma MergeIdempotent<T>(v: LWWRegister<T>)
    ensures Merge(v, v) == v
  {
    LtIsStrictTotalOrder(v.clock, v.clock, v.clock);
  }

  /**
   * Two registers that never disagree under one clock: a shared clock means
   * the same write. Distinct clocks, which the source's tests assume, are
   * the special case where no clock is shared.
   */
  ghost predicate Compatible<T>(a: LWWRegister<T>, b: LWWRegister<T>) {
    a.clock == b.clock ==> a == b
  }

  /**
   * The merge commutes exactly on compatible registers: on a clock tie each
   * side keeps itself, so two different writes under one clock do not commute.
   */
  lemma MergeCommutative<T>(a: LWWRegister<T>, b: LWWRegister<T>)
    ensures Merge(a, b) == Merge(b, a) <==> Compatible(a, b)
  {
    LtIsStrictTotalOrder(a.clock, b.clock, a.clock);
    if a.clock == b.clock {
      MergeTieKeepsSelf(a, b);
    }
  }

  /**
   * Associative on every triple: with ties going to the left operand the
   * merge is a left-biased maximum, so only commutativity depends on ties.
   */
  lemma MergeAssociative<T>(a: LWWRegister<T>, b: LWWRegister<T>, c: LWWRegister<T>)
    ensures Merge(Merge(a, b), c) == Merge(a, Merge(b, c))
  {
    LtIsStrictTotalOrder(a.clock, b.clock, c.clock);
    LtIsStrictTotalOrder(b.clock, c.clock, a.clock);
    LtIsStrictTotalOrder(c.clock, a.clock, b.clock);
  }

  /** A register updated in place. */
  class MutableLWWRegister<T> {
    var value: T
    var clock: Clock

    function State(): LWWRegister<T>
      reads this
    {
      LWWRegister(value, clock)
    }

    constructor New(value: T, clock: Clock)
      ensures State() == LWWRegister(value, clock)
    {
      this.value := value;
      this.clock := clock;
    }

    /** A local write: overwrites value and clock without comparing clocks. */
    method Set(value: T, clock: Clock)
      modifies this
      ensures this.value == value && this.clock == clock
    {
      this.value := value;
      this.clock := clock;
    }

    method MergeMut(other: LWWRegister<T>)
      modifies this
      ensures State() == Merge(old(State()), other)
    {
      if Lt(this.clock, other.clock) {
        Set(other.value, other.clock);
      }
    }
  }
}
