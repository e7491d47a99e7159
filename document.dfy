/**
 * The task document of src/document.rs: a grow-only map from task id to
 * task, where tasks with the same id are merged register by register.
 * Task ids are random UUIDs in the source; here they are integers supplied
 * by the caller, ordered as the UUIDs' byte order would be.
 */
module TaskDocument {
  import opened Wrappers
  import opened Hlc
  import GrowMap
  import LwwRegister
  import DocumentTask

  type TaskId = int
  type Entry = (TaskId, DocumentTask.Task)

  /**
   * The order `tasks` lists entries in: by the time the task was added, ties
   * broken by id (the map iterates by id and the sort is stable).
   */
  predicate Before(x: Entry, y: Entry) {
    x.1.added.value < y.1.added.value || (x.1.added.value == y.1.added.value && x.0 < y.0)
  }

  predicate Sorted(s: seq<Entry>) {
    forall i, j :: 0 <= i < j < |s| ==> Before(s[i], s[j])
  }

  /** The task `update_task_description` leaves behind: the description register overwritten. */
  function WithDescription(t: DocumentTask.Task, description: string, clock: Clock): (r: DocumentTask.Task)
    ensures r.added == t.added && r.complete == t.complete
    ensures r.description.value == description && r.description.clock == clock
  {
    t.(description := LwwRegister.New(description, clock))
  }

  /** The task `complete_task` leaves behind: the completion register overwritten with `true`. */
  function Completed(t: DocumentTask.Task, clock: Clock): (r: DocumentTask.Task)
    ensures r.added == t.added && r.description == t.description
    ensures r.complete.value && r.complete.clock == clock
  {
    t.(complete := LwwRegister.New(true, clock))
  }

  /**
   * The ordinary sync: one replica completes a task, the other still holds
   * the original. The untouched registers tie with equal writes, and the
   * merge commutes.
   */
  lemma CompletingOneCopyCommutes(t: DocumentTask.Task, clock: Clock)
    requires Lt(t.complete.clock, clock)
    ensures DocumentTask.Compatible(t, Completed(t, clock))
    ensures DocumentTask.Merge(t, Completed(t, clock)) == DocumentTask.Merge(Completed(t, clock), t)
    ensures DocumentTask.Merge(t, Completed(t, clock)) == Completed(t, clock)
  {
    LtIsStrictTotalOrder(t.complete.clock, clock, t.complete.clock);
    DocumentTask.MergeCommutative(t, Completed(t, clock));
    DocumentTask.MergeIdempotent(t);
  }

  /** A completed task shows a checked box and its unchanged description. */
  lemma CompletedTaskShowsChecked(t: DocumentTask.Task, clock: Clock)
    ensures DocumentTask.Display(Completed(t, clock)) == "[x] " + t.description.value
  {
    var d := DocumentTask.Display(Completed(t, clock));
    assert d == d[..3] + [d[3]] + d[4..];
  }

  /** The task merge is idempotent, so merging a document's task map with itself changes nothing. */
  lemma MergeTasksIdempotent(m: map<TaskId, DocumentTask.Task>)
    ensures GrowMap.Merge(DocumentTask.Merge, m, m) == m
  {
    forall t: DocumentTask.Task | true ensures DocumentTask.Merge(t, t) == t {
      DocumentTask.MergeIdempotent(t);
    }
    GrowMap.MergeIdempotent(DocumentTask.Merge, m);
  }

  /** Every task id the two documents share holds compatible copies of the task. */
  ghost predicate SharedCompatible(a: map<TaskId, DocumentTask.Task>, b: map<TaskId, DocumentTask.Task>) {
    forall k :: k in a && k in b ==> DocumentTask.Compatible(a[k], b[k])
  }

  /** Merging two documents commutes exactly when every shared task has compatible copies. */
  lemma MergeTasksCommutative(a: map<TaskId, DocumentTask.Task>, b: map<TaskId, DocumentTask.Task>)
    ensures GrowMap.Merge(DocumentTask.Merge, a, b) == GrowMap.Merge(DocumentTask.Merge, b, a)
        <==> SharedCompatible(a, b)
  {
    var ab := GrowMap.Merge(DocumentTask.Merge, a, b);
    var ba := GrowMap.Merge(DocumentTask.Merge, b, a);
    forall k | k in a && k in b
      ensures ab[k] == ba[k] <==> DocumentTask.Compatible(a[k], b[k])
    {
      DocumentTask.MergeCommutative(a[k], b[k]);
    }
    if SharedCompatible(a, b) {
      assert ab.Keys == ba.Keys;
      forall k | k in ab ensures ab[k] == ba[k] {
      }
    }
  }

  lemma MergeTasksAssociative(a: map<TaskId, DocumentTask.Task>, b: map<TaskId, DocumentTask.Task>, c: map<TaskId, DocumentTask.Task>)
    ensures GrowMap.Merge(DocumentTask.Merge, GrowMap.Merge(DocumentTask.Merge, a, b), c)
         == GrowMap.Merge(DocumentTask.Merge, a, GrowMap.Merge(DocumentTask.Merge, b, c))
  {
    var ab_c := GrowMap.Merge(DocumentTask.Merge, GrowMap.Merge(DocumentTask.Merge, a, b), c);
    var a_bc := GrowMap.Merge(DocumentTask.Merge, a, GrowMap.Merge(DocumentTask.Merge, b, c));
    forall k | k in ab_c ensures ab_c[k] == a_bc[k] {
      if k in a && k in b && k in c {
        DocumentTask.MergeAssociative(a[k], b[k], c[k]);
      }
    }
  }

  /** Some member of a non-empty set. */
  method Pick<T>(s: set<T>) returns (x: T)
    requires s != {}
    ensures x in s
  {
    x :| x in s;
  }

  /** A sequence whose multiset is another's plus `x` has the other's members and `x`. */
  lemma SameMembersPlusOne(s: seq<Entry>, r: seq<Entry>, x: Entry)
    requires multiset(r) == multiset(s) + multiset{x}
    ensures forall e :: e in r <==> e in s || e == x
  {
    forall e ensures e in r <==> e in s || e == x {
      assert e in r <==> e in multiset(r);
      assert e in s <==> e in multiset(s);
    }
  }

  /** Insert `x` into a sorted list of entries whose ids all differ from its id. */
  method InsertSorted(s: seq<Entry>, x: Entry) returns (r: seq<Entry>)
    requires Sorted(s)
    requires forall i :: 0 <= i < |s| ==> s[i].0 != x.0
    ensures Sorted(r)
    ensures multiset(r) == multiset(s) + multiset{x}
  {
    var i := 0;
    while i < |s| && Before(s[i], x)
      invariant 0 <= i <= |s|
      invariant forall j :: 0 <= j < i ==> Before(s[j], x)
    {
      i := i + 1;
    }
    r := s[..i] + [x] + s[i..];
    assert s == s[..i] + s[i..];
  }

  /** A document updated in place; `tasks` is the task map it owns. */
  class Document {
    const tasks: GrowMap.MutableGMap<TaskId, DocumentTask.Task>

    /** The task map merges colliding tasks with the task merge. */
    ghost predicate Valid()
      reads this, tasks
    {
      tasks.join == DocumentTask.Merge
    }

    constructor Default()
      ensures Valid() && fresh(tasks)
      ensures tasks.entries == map[]
    {
      tasks := new GrowMap.MutableGMap.Default(DocumentTask.Merge);
    }

    /**
     * `tasks()`: every entry exactly once, ordered by the time the task was
     * added and then by id.
     */
    method Tasks() returns (r: seq<Entry>)
      ensures Sorted(r)
      ensures forall i :: 0 <= i < |r| ==> r[i].0 in tasks.entries && r[i].1 == tasks.entries[r[i].0]
      ensures forall id :: id in tasks.entries ==> (id, tasks.entries[id]) in r
    {
      r := [];
      var rest := tasks.entries.Keys;
      while rest != {}
        invariant rest <= tasks.entries.Keys
        invariant Sorted(r)
        invariant forall e :: e in r ==> e.0 !in rest && e.0 in tasks.entries && e.1 == tasks.entries[e.0]
        invariant forall id :: id in tasks.entries && id !in rest ==> (id, tasks.entries[id]) in r
        decreases rest
      {
        var key := Pick(rest);
        var entry := (key, tasks.entries[key]);
        ghost var before := r;
        r := InsertSorted(r, entry);
        SameMembersPlusOne(before, r, entry);
        rest := rest - {key};
      }
    }

    /** `add_task`: insert (or merge) a new task under `id`, and return `id`. */
    method AddTask(description: string, clock: Clock, id: TaskId, now: int) returns (r: TaskId)
      requires Valid()
      modifies tasks
      ensures Valid() && r == id
      ensures tasks.entries == GrowMap.InsertOrMerge(DocumentTask.Merge, old(tasks.entries), id, DocumentTask.New(description, clock, now))
    {
      tasks.Insert(id, DocumentTask.New(description, clock, now));
      r := id;
    }

    /** `update_task_description`: overwrite the description of the task under `id`, if any. */
    method UpdateTaskDescription(id: TaskId, description: string, clock: Clock) returns (found: bool)
      requires Valid()
      modifies tasks
      ensures Valid()
      ensures found <==> id in old(tasks.entries)
      ensures found ==> tasks.entries == old(tasks.entries)[id := WithDescription(old(tasks.entries)[id], description, clock)]
      ensures !found ==> tasks.entries == old(tasks.entries)
    {
      var task := tasks.GetMut(id);
      if task.Some? {
        tasks.entries := tasks.entries[id := WithDescription(task.value, description, clock)];
        found := true;
      } else {
        found := false;
      }
    }

    /** `complete_task`: mark the task under `id` complete, if any. */
    method CompleteTask(id: TaskId, clock: Clock) returns (found: bool)
      requires Valid()
      modifies tasks
      ensures Valid()
      ensures found <==> id in old(tasks.entries)
      ensures found ==> tasks.entries == old(tasks.entries)[id := Completed(old(tasks.entries)[id], clock)]
      ensures !found ==> tasks.entries == old(tasks.entries)
    {
      var task := tasks.GetMut(id);
      if task.Some? {
        tasks.entries := tasks.entries[id := Completed(task.value, clock)];
        found := true;
      } else {
        found := false;
      }
    }

    /** `merge_mut`: the grow-only map merge of the task maps. */
    method MergeMut(other: map<TaskId, DocumentTask.Task>)
      requires Valid()
      modifies tasks
      ensures Valid()
      ensures tasks.entries == GrowMap.Merge(DocumentTask.Merge, old(tasks.entries), other)
    {
      tasks.MergeMut(other);
    }
  }
}
