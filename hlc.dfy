/**
 * The hybrid logical clock of src/crdt/hlc.rs: a wall-clock timestamp, a
 * 16-bit tie-break counter and the replica's node id, totally ordered
 * lexicographically. The wall clock (`Utc::now()`) is the parameter `now`,
 * a timestamp is an integer and a node id (a UUID) is its 128-bit value,
 * compared as the UUID's bytes are.
 */
module Hlc {
  import opened Wrappers

  /** `u16::MAX`: the largest counter the source's `u16` field can hold. */
  const COUNTER_MAX: int := 0xFFFF

  type Counter = c: int | 0 <= c <= COUNTER_MAX

  /** A UUID as the unsigned 128-bit number its 16 big-endian bytes spell. */
  type NodeId = n: int | 0 <= n < 0x1_0000_0000_0000_0000_0000_0000_0000_0000

  datatype Clock = Clock(timestamp: int, counter: Counter, nodeId: NodeId)

  /** `std::cmp::Ordering` with its `then` and `reverse`. */
  datatype Ordering = Less | Equal | Greater {
    function Then(next: Ordering): Ordering {
      if this == Equal then next else this
    }

    function Reverse(): Ordering {
      match this
      case Less => Greater
      case Equal => Equal
      case Greater => Less
    }
  }

  /** `Ord::cmp` on an integer field. */
  function CompareInt(x: int, y: int): (o: Ordering)
    ensures o == Less <==> x < y
    ensures o == Equal <==> x == y
  {
    if x < y then Less else if x == y then Equal else Greater
  }

  /** `Ord::cmp`: timestamp, then counter, then node id. */
  function Cmp(a: Clock, b: Clock): (r: Ordering)
    ensures r == Less <==>
      a.timestamp < b.timestamp ||
      (a.timestamp == b.timestamp && a.counter < b.counter) ||
      (a.timestamp == b.timestamp && a.counter == b.counter && a.nodeId < b.nodeId)
    ensures r == Greater <==>
      b.timestamp < a.timestamp ||
      (a.timestamp == b.timestamp && b.counter < a.counter) ||
      (a.timestamp == b.timestamp && a.counter == b.counter && b.nodeId < a.nodeId)
  {
    CompareInt(a.timestamp, b.timestamp)
      .Then(CompareInt(a.counter, b.counter))
      .Then(CompareInt(a.nodeId, b.nodeId))
  }

  /** `PartialOrd::partial_cmp`: always defined, and always `cmp`. */
  function PartialCmp(a: Clock, b: Clock): (r: Option<Ordering>)
    ensures r.Some?
    ensures r.value == Less <==> Cmp(b, a) == Greater
  {
    Some(Cmp(a, b))
  }

  /** Rust's `a < b` on clocks (so `a > b` is `Lt(b, a)`). */
  predicate Lt(a: Clock, b: Clock) {
    PartialCmp(a, b) == Some(Less)
  }

  predicate Le(a: Clock, b: Clock) {
    Lt(a, b) || a == b
  }

  /** The larger of two clocks. */
  function MaxClock(a: Clock, b: Clock): Clock {
    if Lt(a, b) then b else a
  }

  /** `HybridLogicalClock::new(node_id)` read at wall-clock time `now`. */
  function NewClock(nodeId: NodeId, now: int): (c: Clock)
    ensures c.counter == 0 && c.nodeId == nodeId && c.timestamp == now
  {
    Clock(now, 0, nodeId)
  }

  /**
   * `tick` at wall-clock time `now`. When `now` has not moved past the stored
   * timestamp the `u16` counter is incremented, which overflows at
   * `COUNTER_MAX`: that call is excluded by the precondition.
   */
  function TickClock(c: Clock, now: int): (r: Clock)
    requires now > c.timestamp || c.counter < COUNTER_MAX
    ensures r.nodeId == c.nodeId
    ensures now > c.timestamp ==> r.timestamp == now && r.counter == 0
    ensures now <= c.timestamp ==> r.timestamp == c.timestamp && r.counter == c.counter + 1
    ensures Lt(c, r)
  {
    if now > c.timestamp then Clock(now, 0, c.nodeId)
    else Clock(c.timestamp, c.counter + 1, c.nodeId)
  }

  /** The comparison is lexicographic with the timestamp first, then the counter, then the node id. */
  lemma CmpIsLexicographic(a: Clock, b: Clock)
    ensures Lt(a, b) <==>
      a.timestamp < b.timestamp ||
      (a.timestamp == b.timestamp && a.counter < b.counter) ||
      (a.timestamp == b.timestamp && a.counter == b.counter && a.nodeId < b.nodeId)
  {
  }

  /** `cmp` answers `Equal` exactly for the derived field-wise equality. */
  lemma CmpEqualIffSame(a: Clock, b: Clock)
    ensures Cmp(a, b) == Equal <==> a == b
  {
  }

  /** Swapping the operands reverses the answer. */
  lemma CmpAntisymmetric(a: Clock, b: Clock)
    ensures Cmp(b, a) == Cmp(a, b).Reverse()
  {
  }

  /** `<` is a strict total order: irreflexive, transitive and total. */
  lemma LtIsStrictTotalOrder(a: Clock, b: Clock, c: Clock)
    ensures !Lt(a, a)
    ensures Lt(a, b) && Lt(b, c) ==> Lt(a, c)
    ensures Lt(a, b) || a == b || Lt(b, a)
    ensures !(Lt(a, b) && Lt(b, a))
  {
    CmpIsLexicographic(a, b);
    CmpIsLexicographic(b, c);
    CmpIsLexicographic(a, c);
    CmpIsLexicographic(b, a);
    CmpIsLexicographic(a, a);
  }

  /** The larger of two clocks is one of them and is above both. */
  lemma MaxClockIsUpperBound(a: Clock, b: Clock)
    ensures MaxClock(a, b) == a || MaxClock(a, b) == b
    ensures Le(a, MaxClock(a, b)) && Le(b, MaxClock(a, b))
  {
    LtIsStrictTotalOrder(a, b, a);
  }

  /** A clock a replica updates in place: `tick(&mut self)`. */
  class MutableClock {
    var timestamp: int
    var counter: Counter
    var nodeId: NodeId

    function Value(): Clock
      reads this
    {
      Clock(timestamp, counter, nodeId)
    }

    constructor New(nodeId: NodeId, now: int)
      ensures Value() == NewClock(nodeId, now)
    {
      this.timestamp := now;
      this.counter := 0;
      this.nodeId := nodeId;
    }

    method Tick(now: int)
      requires now > timestamp || counter < COUNTER_MAX
      modifies this
      ensures Value() == TickClock(old(Value()), now)
    {
      if now > timestamp {
        timestamp := now;
        counter := 0;
      } else {
        counter := counter + 1;
      }
    }
  }
}
