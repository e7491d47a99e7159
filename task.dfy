/**
 * A to-do task (src/document/task.rs): three independent last-writer-wins
 * registers for when it was added, whether it is complete and its
 * description. The earlier copy in src/replica/task.rs has the same fields,
 * merge and display and no constructor, so both are modelled here.
 */
module DocumentTask {
  import opened Hlc
  import LwwRegister

  /** `added` holds the wall-clock time of creation, as an integer. */
  datatype Task = Task(
    added: LwwRegister.LWWRegister<int>,
    complete: LwwRegister.LWWRegister<bool>,
    description: LwwRegister.LWWRegister<string>)

  /**
   * `Task::new(description, when)`: all three registers stamped with `when`;
   * `now` stands for the wall-clock reading the source takes.
   */
  function New(description: string, when: Clock, now: int): (t: Task)
    ensures t.added.value == now && !t.complete.value && t.description.value == description
    ensures t.added.clock == when && t.complete.clock == when && t.description.clock == when
  {
    Task(LwwRegister.New(now, when), LwwRegister.New(false, when), LwwRegister.New(description, when))
  }

  /**
   * `merge_mut`: each register merged with its counterpart, independently of
   * the others. Every field of the result is one of the two writes of that
   * field and is no earlier than either.
   */
  function Merge(a: Task, b: Task): (r: Task)
    ensures r.added == a.added || r.added == b.added
    ensures r.complete == a.complete || r.complete == b.complete
    ensures r.description == a.description || r.description == b.description
    ensures Le(a.added.clock, r.added.clock) && Le(b.added.clock, r.added.clock)
    ensures Le(a.complete.clock, r.complete.clock) && Le(b.complete.clock, r.complete.clock)
    ensures Le(a.description.clock, r.description.clock) && Le(b.description.clock, r.description.clock)
  {
    Task(
      LwwRegister.Merge(a.added, b.added),
      LwwRegister.Merge(a.complete, b.complete),
      LwwRegister.Merge(a.description, b.description))
  }

  /**
   * Each field of a merge is the later write of that field alone, so merging
   * one field never changes another.
   */
  lemma MergeIsFieldwise(a: Task, b: Task)
    ensures Merge(a, b).added == (if Lt(a.added.clock, b.added.clock) then b.added else a.added)
    ensures Merge(a, b).complete == (if Lt(a.complete.clock, b.complete.clock) then b.complete else a.complete)
    ensures Merge(a, b).description == (if Lt(a.description.clock, b.description.clock) then b.description else a.description)
    ensures Le(a.description.clock, Merge(a, b).description.clock) && Le(b.description.clock, Merge(a, b).description.clock)
  {
    LwwRegister.MergeKeepsLaterWrite(a.added, b.added);
    LwwRegister.MergeKeepsLaterWrite(a.complete, b.complete);
    LwwRegister.MergeKeepsLaterWrite(a.description, b.description);
  }

  /**
   * Two copies of a task whose registers never disagree under one clock:
   * the usual pair a sync merges, where the fields neither replica edited
   * still hold the same write on both sides.
   */
  ghost predicate Compatible(a: Task, b: Task) {
    LwwRegister.Compatible(a.added, b.added) && LwwRegister.Compatible(a.complete, b.complete) &&
    LwwRegister.Compatible(a.description, b.description)
  }

  lemma MergeIdempotent(t: Task)
    ensures Merge(t, t) == t
  {
    LwwRegister.MergeIdempotent(t.added);
    LwwRegister.MergeIdempotent(t.complete);
    LwwRegister.MergeIdempotent(t.description);
  }

  /** The merge commutes exactly on compatible tasks. */
  lemma MergeCommutative(a: Task, b: Task)
    ensures Merge(a, b) == Merge(b, a) <==> Compatible(a, b)
  {
    LwwRegister.MergeCommutative(a.added, b.added);
    LwwRegister.MergeCommutative(a.complete, b.complete);
    LwwRegister.MergeCommutative(a.description, b.description);
  }

  /** Associative on every triple of tasks, as each register merge is. */
  lemma MergeAssociative(a: Task, b: Task, c: Task)
    ensures Merge(Merge(a, b), c) == Merge(a, Merge(b, c))
  {
    LwwRegister.MergeAssociative(a.added, b.added, c.added);
    LwwRegister.MergeAssociative(a.complete, b.complete, c.complete);
    LwwRegister.MergeAssociative(a.description, b.description, c.description);
  }

  /** The status box `Display` prints. */
  function Status(complete: bool): (s: string)
    ensures |s| == 3 && s[0] == '[' && s[2] == ']'
    ensures s[1] == 'x' <==> complete
  {
    if complete then "[x]" else "[ ]"
  }

  /** `Display::fmt`: the status box, a space, then the description. */
  function Display(t: Task): (r: string)
    ensures |r| == 4 + |t.description.value|
    ensures r[..3] == Status(t.complete.value) && r[3] == ' '
    ensures r[4..] == t.description.value
  {
    Status(t.complete.value) + " " + t.description.value
  }

  /**
   * The printed line determines, and is determined by, the completion flag
   * and the description; `added` and all clocks are not shown.
   */
  lemma DisplayShowsCompleteAndDescription(a: Task, b: Task)
    ensures Display(a) == Display(b) <==>
      a.complete.value == b.complete.value && a.description.value == b.description.value
  {
    if Display(a) == Display(b) {
      assert Display(a)[1] == Display(b)[1];
    }
  }

  /** A task updated in place, field by field. */
  class MutableTask {
    var added: LwwRegister.LWWRegister<int>
    var complete: LwwRegister.LWWRegister<bool>
    var description: LwwRegister.LWWRegister<string>

    function Value(): Task
      reads this
    {
      Task(added, complete, description)
    }

    constructor New(description: string, when: Clock, now: int)
      ensures Value() == Task(LwwRegister.LWWRegister(now, when), LwwRegister.LWWRegister(false, when),
        LwwRegister.LWWRegister(description, when))
    {
      added := LwwRegister.New(now, when);
      complete := LwwRegister.New(false, when);
      this.description := LwwRegister.New(description, when);
    }

    /** `merge_mut`: one register at a time. */
    method MergeMut(other: Task)
      modifies this
      ensures Value() == Merge(old(Value()), other)
    {
      added := LwwRegister.Merge(added, other.added);
      complete := LwwRegister.Merge(complete, other.complete);
      description := LwwRegister.Merge(description, other.description);
    }
  }
}
