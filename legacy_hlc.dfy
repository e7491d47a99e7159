/**
 * The earlier hybrid logical clock of src/hlc.rs. It differs from the clock
 * in `Hlc` in three ways: the counter is a `u64`, equality is written by hand
 * (`PartialEq::eq`), and `PartialOrd` is derived, comparing the fields in
 * declaration order, rather than delegating to `cmp`.
 */
module LegacyHlc {
  import opened Wrappers
  import Hlc

  /** `u64::MAX`. */
  const COUNTER_MAX: int := 0xFFFF_FFFF_FFFF_FFFF

  type Counter = c: int | 0 <= c <= COUNTER_MAX

  datatype Clock = Clock(timestamp: int, counter: Counter, nodeId: Hlc.NodeId)

  /** `HybridLogicalClock::new(node_id)` read at wall-clock time `now`. */
  function NewClock(nodeId: Hlc.NodeId, now: int): (c: Clock)
    ensures c.counter == 0 && c.nodeId == nodeId && c.timestamp == now
  {
    Clock(now, 0, nodeId)
  }

  /** `tick` at wall-clock time `now`; `counter += 1` on a `u64` overflows at `COUNTER_MAX`. */
  function TickClock(c: Clock, now: int): (r: Clock)
    requires now > c.timestamp || c.counter < COUNTER_MAX
    ensures r.nodeId == c.nodeId
    ensures now > c.timestamp ==> r.timestamp == now && r.counter == 0
    ensures now <= c.timestamp ==> r.timestamp == c.timestamp && r.counter == c.counter + 1
    ensures Cmp(c, r) == Hlc.Less
  {
    if now > c.timestamp then Clock(now, 0, c.nodeId)
    else Clock(c.timestamp, c.counter + 1, c.nodeId)
  }

  /** The hand-written `Ord::cmp`: timestamp, then counter, then node id. */
  function Cmp(a: Clock, b: Clock): (r: Hlc.Ordering)
    ensures r == Hlc.Equal <==> a == b
    ensures r == Hlc.Greater <==>
      b.timestamp < a.timestamp ||
      (a.timestamp == b.timestamp && b.counter < a.counter) ||
      (a.timestamp == b.timestamp && a.counter == b.counter && b.nodeId < a.nodeId)
  {
    Hlc.CompareInt(a.timestamp, b.timestamp)
      .Then(Hlc.CompareInt(a.counter, b.counter))
      .Then(Hlc.CompareInt(a.nodeId, b.nodeId))
  }

  /** The hand-written `PartialEq::eq`: all three fields agree. */
  function Eq(a: Clock, b: Clock): (r: bool)
    ensures r <==> a == b
  {
    a.timestamp == b.timestamp && a.counter == b.counter && a.nodeId == b.nodeId
  }

  /** `partial_cmp` of one field: integers are totally ordered, so it is always defined. */
  function FieldPartialCmp(x: int, y: int): Option<Hlc.Ordering> {
    Some(Hlc.CompareInt(x, y))
  }

  /**
   * `#[derive(PartialOrd)]`: compare the fields in declaration order and
   * return the first answer that is not `Some(Equal)`.
   */
  function DerivedPartialCmp(a: Clock, b: Clock): (r: Option<Hlc.Ordering>)
    ensures r.Some?
    ensures r.value == Hlc.Equal <==> a == b
  {
    var byTimestamp := FieldPartialCmp(a.timestamp, b.timestamp);
    if byTimestamp != Some(Hlc.Equal) then byTimestamp
    else
      var byCounter := FieldPartialCmp(a.counter, b.counter);
      if byCounter != Some(Hlc.Equal) then byCounter
      else FieldPartialCmp(a.nodeId, b.nodeId)
  }

  /** The derived `partial_cmp` always answers, and answers what `cmp` does. */
  lemma DerivedPartialCmpAgreesWithCmp(a: Clock, b: Clock)
    ensures DerivedPartialCmp(a, b) == Some(Cmp(a, b))
  {
  }

  /** The comparison is lexicographic on timestamp, counter and node id. */
  lemma CmpIsLexicographic(a: Clock, b: Clock)
    ensures Cmp(a, b) == Hlc.Less <==>
      a.timestamp < b.timestamp ||
      (a.timestamp == b.timestamp && a.counter < b.counter) ||
      (a.timestamp == b.timestamp && a.counter == b.counter && a.nodeId < b.nodeId)
  {
  }

  /** `eq` holds exactly when all three fields agree, and exactly when `cmp` answers `Equal`. */
  lemma EqIsFieldwiseEquality(a: Clock, b: Clock)
    ensures Eq(a, b) <==> a == b
    ensures Eq(a, b) <==> Cmp(a, b) == Hlc.Equal
  {
  }

  /** A legacy clock a replica updates in place. */
  class MutableClock {
    var timestamp: int
    var counter: Counter
    var nodeId: Hlc.NodeId

    function Value(): Clock
      reads this
    {
      Clock(timestamp, counter, nodeId)
    }

    constructor New(nodeId: Hlc.NodeId, now: int)
      ensures Value() == NewClock(nodeId, now)
    {
      this.timestamp := now;
      this.counter := 0;
      this.nodeId := nodeId;
    }

    method Tick(now: int)
      requires now > timestamp || counter < COUNTER_MAX
      modifies this
      ensures Value() == TickClock(old(Value()), now)
    {
      if now > timestamp {
        timestamp := now;
        counter := 0;
      } else {
        counter := counter + 1;
      }
    }
  }
}
