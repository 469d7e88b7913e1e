/**
 The per-core run queue: 32 intrusive first-in-first-out levels indexed by an occupancy word. Each method
 is one step, counter and occupancy updates included.
 */
module RunQueue {
  import opened Occupancy
  import opened Options
  import opened StableSort
  import opened TaskControl

  ghost function TaskAt(s: seq<TaskControlBlock>, i: int): TaskControlBlock? {
    if 0 <= i < |s| then s[i] else null
  }

  class LevelQueue {
    var head: TaskControlBlock?
    var tail: TaskControlBlock?
    var count: nat
    ghost var tasks: seq<TaskControlBlock>

    /** The run_queue_next pointers lead from head through s to tail, and end there. */
    ghost predicate Listed(s: seq<TaskControlBlock>)
      reads `head, `tail, `count, s`runQueueNext
    {
      && Distinct(s) && count == |s| && head == TaskAt(s, 0) && tail == TaskAt(s, |s| - 1)
      && forall i {:trigger s[i].runQueueNext} :: 0 <= i < |s| ==> s[i].runQueueNext == TaskAt(s, i + 1)
    }

    ghost predicate Valid()
      reads this, tasks`runQueueNext
    {
      Listed(tasks)
    }

    constructor ()
      ensures Valid() && tasks == []
    {
      head, tail, count, tasks := null, null, 0, [];
    }

    predicate IsEmpty()
      requires Valid()
      reads this, tasks`runQueueNext
      ensures IsEmpty() <==> tasks == []
    {
      count == 0
    }

    /**
     Link a task behind the others. The level is still a list, of one more task, exactly if the task was
     not on it: linked twice, a task cuts the list short or closes a circle.
     */
    method Push(task: TaskControlBlock)
      requires Valid()
      modifies this, tasks`runQueueNext, task`runQueueNext
      ensures tasks == old(tasks) + [task] && count == |tasks| && (Valid() <==> task !in old(tasks))
      ensures task in old(tasks) ==> forall s: seq<TaskControlBlock> :: !Listed(s)
    {
      ghost var was := tasks;
      task.runQueueNext := null;
      if tail == null {
        head := task;
        tail := task;
      } else {
        tail.runQueueNext := task;
        tail := task;
      }
      count := count + 1;
      tasks := tasks + [task];
      if task in was {
        ghost var p :| 0 <= p < |was| && was[p] == task;
        assert !Distinct(tasks) by {
          assert tasks[p] == tasks[|was|];
        }
        forall s: seq<TaskControlBlock> ensures !Listed(s) {
          if Listed(s) {
            LeadsTo(s, was, p, p);
          }
        }
      }
    }

    /** With the link of the task at p cleared, what is left is a list exactly if that task was last. */
    lemma CutShort(was: seq<TaskControlBlock>, p: nat)
      requires Distinct(was) && p < |was| && count == |was| && head == was[0] && tail == was[|was| - 1]
      requires forall j {:trigger was[j].runQueueNext} ::
        0 <= j < |was| && j != p ==> was[j].runQueueNext == TaskAt(was, j + 1)
      requires was[p].runQueueNext == null
      ensures Listed(was) <==> p == |was| - 1
      ensures p < |was| - 1 ==> forall s: seq<TaskControlBlock> :: !Listed(s)
    {
      forall s: seq<TaskControlBlock> | p < |was| - 1 ensures !Listed(s) {
        if Listed(s) {
          LeadsTo(s, was, p, p);
        }
      }
    }

    /** Up to a task that was on the list already, any list there may be now runs as the old one did. */
    lemma {:induction false} LeadsTo(s: seq<TaskControlBlock>, was: seq<TaskControlBlock>, p: nat, i: nat)
      requires Listed(s) && p < |was| <= |s| && head == was[0] && i <= p
      requires forall j {:trigger was[j].runQueueNext} :: 0 <= j < p ==> was[j].runQueueNext == was[j + 1]
      ensures s[i] == was[i]
      decreases i
    {
      if i > 0 {
        LeadsTo(s, was, p, i - 1);
        assert s[i - 1].runQueueNext == s[i];
        assert was[i - 1].runQueueNext == was[i];
      }
    }

    method Pop() returns (r: Option<TaskControlBlock>)
      requires Valid()
      modifies this, tasks`runQueueNext
      ensures Valid()
      ensures old(tasks) == [] ==> r == None && tasks == []
      ensures old(tasks) != [] ==> r == Some(old(tasks)[0]) && tasks == old(tasks)[1..]
      ensures old(tasks) != [] ==> old(tasks)[0].runQueueNext == null
    {
      if head == null {
        return None;
      }
      var task := head;
      var next := task.runQueueNext;
      head := next;
      if next == null {
        tail := null;
      }
      task.runQueueNext := null;
      count := count - 1;
      tasks := tasks[1..];
      return Some(task);
    }
  }

  /** A list survives the clearing of a task's link if the task is its last, or not on it. */
  ghost predicate Spared(tasks: seq<TaskControlBlock>, task: TaskControlBlock) {
    task in tasks ==> task == tasks[|tasks| - 1]
  }

  function PriorityToLevel(priority: int): (level: nat)
    ensures level < LEVELS
    ensures -16 <= priority <= 15 ==> level == priority + 16
    ensures priority > 15 ==> level == LEVELS - 1
    ensures priority < -16 ==> level == 0
  {
    var clamped := if priority < -16 then -16 else if priority > 15 then 15 else priority;
    clamped + 16
  }

  /** What the occupancy word and the length say about the tasks queued. */
  ghost predicate Tallies(arrivals: seq<Item<TaskControlBlock>>, occupancy: bv32, len: nat) {
    && len == |arrivals|
    && (forall k :: 0 <= k < |arrivals| ==> 0 <= arrivals[k].key < LEVELS)
    && forall n: nat :: n < LEVELS ==> (HasLevel(occupancy, n) <==> Class(arrivals, n) != [])
  }

  /** The same, and no task is queued twice. */
  ghost predicate Books(arrivals: seq<Item<TaskControlBlock>>, occupancy: bv32, len: nat) {
    DistinctItems(arrivals) && Tallies(arrivals, occupancy, len)
  }

  ghost function TasksAt(arrivals: seq<Item<TaskControlBlock>>, level: nat): seq<TaskControlBlock> {
    Vals(Class(arrivals, level))
  }

  lemma TaskQueued(a: seq<Item<TaskControlBlock>>, level: nat, i: nat) returns (k: nat)
    requires i < |TasksAt(a, level)|
    ensures k < |a| && a[k].key == level && a[k].val == TasksAt(a, level)[i]
  {
    ClassIn(a, level, Class(a, level)[i]);
    k :| 0 <= k < |a| && a[k] == Class(a, level)[i];
  }

  /** A task is on one level only. */
  lemma OnOneLevel(a: seq<Item<TaskControlBlock>>, m: nat, n: nat)
    requires DistinctItems(a) && m != n
    ensures forall t <- TasksAt(a, m) :: t !in TasksAt(a, n)
    ensures forall t <- TasksAt(a, m) :: t in Vals(a)
  {
    hide TasksAt;
    forall i | 0 <= i < |TasksAt(a, m)|
      ensures TasksAt(a, m)[i] !in TasksAt(a, n) && TasksAt(a, m)[i] in Vals(a)
    {
      var k := TaskQueued(a, m, i);
      assert Vals(a)[k] == a[k].val;
      forall j | 0 <= j < |TasksAt(a, n)| ensures TasksAt(a, m)[i] != TasksAt(a, n)[j] {
        var l := TaskQueued(a, n, j);
      }
    }
  }

  lemma ArriveAt(a: seq<Item<TaskControlBlock>>, x: Item<TaskControlBlock>, n: nat)
    ensures Class(a + [x], n) == Class(a, n) + if n == x.key then [x] else []
    ensures TasksAt(a + [x], n) == TasksAt(a, n) + if n == x.key then [x.val] else []
  {
    ClassConcat(a, [x], n);
    ClassOne(x, n);
  }

  /** The word and the length come out right even for a task queued already; only distinctness is lost. */
  lemma ArriveBooks(a: seq<Item<TaskControlBlock>>, occupancy: bv32, len: nat, x: Item<TaskControlBlock>)
    requires Books(a, occupancy, len) && 0 <= x.key < LEVELS
    ensures Tallies(a + [x], Add(occupancy, x.key), len + 1)
    ensures DistinctItems(a + [x]) <==> x.val !in Vals(a)
  {
    hide Add, HasLevel, Class;
    forall n: nat | n < LEVELS
      ensures HasLevel(Add(occupancy, x.key), n) <==> Class(a + [x], n) != []
    {
      ArriveAt(a, x, n);
      AddHas(occupancy, x.key, n);
    }
    if x.val in Vals(a) {
      var k :| 0 <= k < |a| && Vals(a)[k] == x.val;
      assert (a + [x])[k].val == (a + [x])[|a|].val;
    } else {
      forall i | 0 <= i < |a| ensures a[i].val != x.val {
        assert Vals(a)[i] == a[i].val;
      }
    }
  }

  /** The highest occupied level holds the oldest task of the highest level queued. */
  lemma HighestHasOldest(a: seq<Item<TaskControlBlock>>, occupancy: bv32, len: nat) returns (j: nat)
    requires Books(a, occupancy, len) && occupancy != 0
    ensures LeadingZeros(occupancy) < LEVELS
    ensures j < |a| && IsOldestOfHighest(a, j, a[j]) && a[j].key == 31 - LeadingZeros(occupancy)
  {
    HighestLevel(occupancy);
    var level := 31 - LeadingZeros(occupancy);
    hide HasLevel, LeadingZeros, Class;
    forall k | 0 <= k < |a| ensures a[k].key <= level {
      ClassHas(a, k);
    }
    j := FirstOfClass(a, level);
    ClassIn(a, level, Class(a, level)[0]);
  }

  lemma DepartAt(a: seq<Item<TaskControlBlock>>, j: nat, x: Item<TaskControlBlock>, n: nat)
    requires IsOldestOfHighest(a, j, x)
    ensures Class(a, n) == (if n == x.key then [x] else []) + Class(RemoveAt(a, j), n)
    ensures TasksAt(a, n) == (if n == x.key then [x.val] else []) + TasksAt(RemoveAt(a, j), n)
  {
    OldestLeaves(a, j, x, n);
  }

  lemma DepartBooks(a: seq<Item<TaskControlBlock>>, occupancy: bv32, len: nat, j: nat, x: Item<TaskControlBlock>)
    requires Books(a, occupancy, len) && IsOldestOfHighest(a, j, x)
    ensures len > 0 && 0 <= x.key < LEVELS
    ensures var b := RemoveAt(a, j);
      Books(b, if TasksAt(b, x.key) == [] then Remove(occupancy, x.key) else occupancy, len - 1)
  {
    var b := RemoveAt(a, j);
    hide Remove, HasLevel, Class;
    forall n: nat | n < LEVELS
      ensures Class(a, n) != [] <==> n == x.key || Class(b, n) != []
      ensures HasLevel(Remove(occupancy, x.key), n) <==> n != x.key && HasLevel(occupancy, n)
    {
      DepartAt(a, j, x, n);
      RemoveHas(occupancy, x.key, n);
    }
    assert TasksAt(b, x.key) == [] <==> Class(b, x.key) == [];
    assert DistinctItems(b);
  }

  lemma NoneQueued(a: seq<Item<TaskControlBlock>>, occupancy: bv32, len: nat)
    requires Books(a, occupancy, len)
    ensures occupancy == 0 <==> a == []
  {
    ZeroIffNone(occupancy);
    if a != [] {
      ClassHas(a, 0);
    }
  }

  /** The tasks of every level. */
  ghost function LevelsOf(a: seq<Item<TaskControlBlock>>): (ts: seq<seq<TaskControlBlock>>)
    ensures |ts| == LEVELS && forall n: nat :: n < LEVELS ==> ts[n] == TasksAt(a, n)
  {
    seq(LEVELS, n requires 0 <= n => TasksAt(a, n))
  }

  ghost predicate Apart(ts: seq<seq<TaskControlBlock>>) {
    forall m, n :: 0 <= m < |ts| && 0 <= n < |ts| && m != n ==> forall i :: 0 <= i < |ts[m]| ==> ts[m][i] !in ts[n]
  }

  ghost predicate Within(ts: seq<seq<TaskControlBlock>>, all: seq<TaskControlBlock>) {
    forall n, i :: 0 <= n < |ts| && 0 <= i < |ts[n]| ==> ts[n][i] in all
  }

  lemma LevelsApart(a: seq<Item<TaskControlBlock>>, occupancy: bv32, len: nat)
    requires Books(a, occupancy, len)
    ensures Apart(LevelsOf(a)) && Within(LevelsOf(a), Vals(a))
  {
    hide TasksAt, DistinctItems, HasLevel, Class;
    var ts := LevelsOf(a);
    forall m, n | 0 <= m < LEVELS && 0 <= n < LEVELS && m != n
      ensures forall i :: 0 <= i < |ts[m]| ==> ts[m][i] !in ts[n]
    {
      OnOneLevel(a, m, n);
    }
    forall n, i | 0 <= n < LEVELS && 0 <= i < |ts[n]| ensures ts[n][i] in Vals(a) {
      var k := TaskQueued(a, n, i);
      assert Vals(a)[k] == a[k].val;
    }
  }

  lemma LevelsArrive(a: seq<Item<TaskControlBlock>>, x: Item<TaskControlBlock>)
    requires 0 <= x.key < LEVELS
    ensures LevelsOf(a + [x]) == LevelsOf(a)[x.key := LevelsOf(a)[x.key] + [x.val]]
    ensures Vals(a + [x]) == Vals(a) + [x.val]
  {
    hide TasksAt;
    forall n: nat | n < LEVELS
      ensures TasksAt(a + [x], n) == if n == x.key then TasksAt(a, n) + [x.val] else TasksAt(a, n)
    {
      ArriveAt(a, x, n);
    }
  }

  lemma LevelsDepart(a: seq<Item<TaskControlBlock>>, j: nat, x: Item<TaskControlBlock>)
    requires IsOldestOfHighest(a, j, x) && 0 <= x.key < LEVELS
    ensures var ts := LevelsOf(a);
      && ts[x.key] != [] && ts[x.key][0] == x.val
      && LevelsOf(RemoveAt(a, j)) == ts[x.key := ts[x.key][1..]]
  {
    hide TasksAt;
    forall n: nat | n < LEVELS
      ensures n == x.key ==> TasksAt(a, n) != [] && TasksAt(a, n)[0] == x.val
      ensures TasksAt(RemoveAt(a, j), n) == if n == x.key then TasksAt(a, n)[1..] else TasksAt(a, n)
    {
      DepartAt(a, j, x, n);
    }
  }

  /** How many tasks are queued on the levels below n. */
  ghost function Sizes(a: seq<Item<TaskControlBlock>>, n: nat): nat {
    if n == 0 then 0 else Sizes(a, n - 1) + |Class(a, n - 1)|
  }

  lemma {:induction false} SizesStep(a: seq<Item<TaskControlBlock>>, n: nat)
    requires a != [] && a[|a| - 1].key >= 0
    ensures Sizes(a, n) == Sizes(a[..|a| - 1], n) + if a[|a| - 1].key < n then 1 else 0
  {
    if n > 0 {
      SizesStep(a, n - 1);
    }
  }

  lemma {:induction false} SizesAll(a: seq<Item<TaskControlBlock>>, n: nat)
    requires forall k :: 0 <= k < |a| ==> 0 <= a[k].key < n
    ensures Sizes(a, n) == |a|
    decreases |a|
  {
    if a == [] {
      SizesNone(n);
    } else {
      SizesStep(a, n);
      SizesAll(a[..|a| - 1], n);
    }
  }

  lemma {:induction false} SizesNone(n: nat)
    ensures Sizes([], n) == 0
  {
    if n > 0 {
      SizesNone(n - 1);
    }
  }

  /** All that follows once the oldest task of the highest level has left. */
  lemma DepartAll(a: seq<Item<TaskControlBlock>>, occupancy: bv32, len: nat, j: nat, level: nat)
    requires Books(a, occupancy, len) && j < |a| && IsOldestOfHighest(a, j, a[j]) && a[j].key == level
    ensures level < LEVELS && len > 0
    ensures var b, ts := RemoveAt(a, j), LevelsOf(a);
      && Books(b, if TasksAt(b, level) == [] then Occupancy.Remove(occupancy, level) else occupancy, len - 1)
      && ts[level] != [] && ts[level][0] == a[j].val && LevelsOf(b) == ts[level := ts[level][1..]]
      && Apart(ts) && Within(LevelsOf(b), Vals(b))
  {
    hide Books, HasLevel, Class, TasksAt, LevelsOf, Vals, Apart, Within, IsOldestOfHighest, RemoveAt, Occupancy.Remove;
    var b := RemoveAt(a, j);
    DepartBooks(a, occupancy, len, j, a[j]);
    LevelsApart(a, occupancy, len);
    LevelsDepart(a, j, a[j]);
    LevelsApart(b, if TasksAt(b, level) == [] then Occupancy.Remove(occupancy, level) else occupancy, len - 1);
  }

  class RunQueue {
    const levels: seq<LevelQueue>
    var occupancy: bv32
    var len: nat
    /** The tasks queued, each with its level when it was enqueued, in the order they were. */
    ghost var arrivals: seq<Item<TaskControlBlock>>

    ghost predicate Shape() {
      |levels| == LEVELS && forall i, j :: 0 <= i < LEVELS && 0 <= j < LEVELS && i != j ==> levels[i] != levels[j]
    }

    /** Every level is a well-formed list of its tasks in ts. */
    ghost predicate Holds(ts: seq<seq<TaskControlBlock>>, all: seq<TaskControlBlock>)
      reads levels, all`runQueueNext
    {
      && Shape() && |ts| == LEVELS && Within(ts, all)
      && forall n :: 0 <= n < LEVELS ==> levels[n].tasks == ts[n] && levels[n].Valid()
    }

    ghost predicate Valid()
      reads this, levels, Vals(arrivals)`runQueueNext
    {
      Books(arrivals, occupancy, len) && Holds(LevelsOf(arrivals), Vals(arrivals))
    }

    /**
     What linking a task behind the tasks ts[level] leaves of each level: a list of its tasks exactly if the
     task was not on this level, and on any other level if it was the last one there or not on it.
     */
    ghost predicate Linked(ts: seq<seq<TaskControlBlock>>, all: seq<TaskControlBlock>, level: nat,
                           task: TaskControlBlock)
      requires level < LEVELS && |ts| == LEVELS
      reads levels, all`runQueueNext
    {
      var after := ts[level := ts[level] + [task]];
      && Shape() && Within(after, all)
      && (forall n :: 0 <= n < LEVELS ==> levels[n].tasks == after[n] && levels[n].count == |after[n]|)
      && (levels[level].Valid() <==> task !in ts[level])
      && forall n :: 0 <= n < LEVELS && n != level ==> (levels[n].Valid() <==> Spared(ts[n], task))
    }

    lemma LinkedCount(ts: seq<seq<TaskControlBlock>>, level: nat, task: TaskControlBlock)
      requires level < LEVELS && |ts| == LEVELS && Linked(ts, Vals(arrivals), level, task)
      requires LevelsOf(arrivals) == ts[level := ts[level] + [task]] && Tallies(arrivals, occupancy, len)
      ensures Counted()
    {
      hide LevelsOf, Vals, Tallies, Within, Spared, Counted;
      TalliesCount();
    }

    static method NewLevels() returns (levels: seq<LevelQueue>)
      ensures |levels| == LEVELS && fresh(levels)
      ensures forall i, j :: 0 <= i < LEVELS && 0 <= j < LEVELS && i != j ==> levels[i] != levels[j]
      ensures forall n :: 0 <= n < LEVELS ==> levels[n].tasks == [] && levels[n].Valid()
    {
      levels := [];
      while |levels| < LEVELS
        invariant |levels| <= LEVELS && fresh(levels)
        invariant forall i, j :: 0 <= i < |levels| && 0 <= j < |levels| && i != j ==> levels[i] != levels[j]
        invariant forall n :: 0 <= n < |levels| ==> levels[n].tasks == [] && levels[n].Valid()
      {
        var level := new LevelQueue();
        levels := levels + [level];
      }
    }

    constructor ()
      ensures Valid() && arrivals == [] && fresh(levels)
    {
      var ls := NewLevels();
      levels, occupancy, len, arrivals := ls, 0, 0, [];
      new;
      ZeroIffNone(0);
    }

    /** The sum of the counts of the levels below n. */
    ghost function Counts(n: nat): nat
      requires n <= |levels|
      reads levels
    {
      if n == 0 then 0 else Counts(n - 1) + levels[n - 1].count
    }

    /** The length is the sum of the levels' counts, and a level is occupied exactly if its bit is set. */
    ghost predicate Counted()
      reads this, levels
    {
      && |levels| == LEVELS && len == Counts(LEVELS)
      && forall n: nat :: n < LEVELS ==> (HasLevel(occupancy, n) <==> levels[n].count > 0)
    }

    lemma {:induction false} CountsAreSizes(n: nat)
      requires n <= |levels| && forall m :: 0 <= m < n ==> levels[m].count == |Class(arrivals, m)|
      ensures Counts(n) == Sizes(arrivals, n)
    {
      if n > 0 {
        CountsAreSizes(n - 1);
      }
    }

    lemma TalliesCount()
      requires Shape() && Tallies(arrivals, occupancy, len)
      requires forall n :: 0 <= n < LEVELS ==> levels[n].count == |LevelsOf(arrivals)[n]|
      ensures Counted()
    {
      hide HasLevel, Class;
      assert forall n: nat :: n < LEVELS ==> levels[n].count == |TasksAt(arrivals, n)|;
      SizesAll(arrivals, LEVELS);
      CountsAreSizes(LEVELS);
    }

    lemma LenAndOccupancy()
      requires Valid()
      ensures Counted()
    {
      hide HasLevel, Class, TasksAt;
      assert forall n :: 0 <= n < LEVELS ==> levels[n].Valid();
      TalliesCount();
    }

    /** What linking a task on one level does to that level, and to another level. */
    method PushAt(level: nat, task: TaskControlBlock,
                  ghost ts: seq<seq<TaskControlBlock>>, ghost all: seq<TaskControlBlock>)
      requires Holds(ts, all) && Apart(ts) && level < LEVELS
      modifies levels, all`runQueueNext, task`runQueueNext
      ensures task !in all ==> Holds(ts[level := ts[level] + [task]], all + [task])
      ensures Linked(ts, all + [task], level, task)
      ensures (forall n :: 0 <= n < LEVELS ==> levels[n].Valid()) <==>
              task !in ts[level] && forall m :: 0 <= m < LEVELS && task in ts[m] ==> task == ts[m][|ts[m]| - 1]
      ensures forall n :: 0 <= n < LEVELS && !levels[n].Valid() ==>
                forall s: seq<TaskControlBlock> :: !levels[n].Listed(s)
    {
      assert forall i :: 0 <= i < |ts[level]| ==> ts[level][i] in all;
      levels[level].Push(task);
      if task !in all {
        forall n | 0 <= n < LEVELS ensures task !in ts[n] {
          assert forall i :: 0 <= i < |ts[n]| ==> ts[n][i] in all;
        }
      }
      forall n | 0 <= n < LEVELS && n != level
        ensures levels[n].tasks == ts[n] && levels[n].count == |ts[n]|
        ensures levels[n].Valid() <==> Spared(ts[n], task)
        ensures !Spared(ts[n], task) ==> forall s: seq<TaskControlBlock> :: !levels[n].Listed(s)
      {
        assert levels[n] != levels[level];
        if task in ts[n] {
          ghost var p :| 0 <= p < |ts[n]| && ts[n][p] == task;
          levels[n].CutShort(ts[n], p);
        }
      }
    }

    method PopAt(level: nat, ghost ts: seq<seq<TaskControlBlock>>, ghost all: seq<TaskControlBlock>)
      returns (r: Option<TaskControlBlock>)
      requires Holds(ts, all) && Apart(ts) && level < LEVELS
      modifies levels, all`runQueueNext
      ensures if ts[level] == [] then r == None && Holds(ts, all)
              else r == Some(ts[level][0]) && Holds(ts[level := ts[level][1..]], all)
    {
      assert forall i :: 0 <= i < |ts[level]| ==> ts[level][i] in all;
      r := levels[level].Pop();
      forall n | 0 <= n < LEVELS && n != level
        ensures levels[n].tasks == ts[n] && levels[n].Valid()
      {
        assert levels[n] != levels[level];
      }
    }

    lemma ShapeHolds(ts: seq<seq<TaskControlBlock>>, all: seq<TaskControlBlock>)
      requires Holds(ts, all)
      ensures Shape()
    {
    }

    /** Fewer nodes suffice if all those linked are among them. */
    lemma Narrow(ts: seq<seq<TaskControlBlock>>, all: seq<TaskControlBlock>, fewer: seq<TaskControlBlock>)
      requires Holds(ts, all) && Within(ts, fewer)
      ensures Holds(ts, fewer)
    {
    }

    /**
     Queue a task on the level of its effective priority. The length and the occupancy word come out right
     in every case. All levels are lists afterwards exactly if the task was not on this level and not
     on another one before its last task; a level that is not has no list any more at all.
     */
    method Enqueue(task: TaskControlBlock)
      requires Valid()
      modifies this, levels, Vals(arrivals)`runQueueNext, task`runQueueNext
      ensures arrivals == old(arrivals) + [Item(task, PriorityToLevel(task.effectivePriority))]
      ensures Valid() <==> task !in old(Vals(arrivals))
      ensures Counted()
      ensures Linked(old(LevelsOf(arrivals)), Vals(arrivals), PriorityToLevel(task.effectivePriority), task)
      ensures forall n :: 0 <= n < LEVELS && !levels[n].Valid() ==>
                forall s: seq<TaskControlBlock> :: !levels[n].Listed(s)
      ensures (forall n :: 0 <= n < LEVELS ==> levels[n].Valid()) <==>
              var level, ts := PriorityToLevel(task.effectivePriority), old(LevelsOf(arrivals));
              task !in ts[level] && forall m :: 0 <= m < LEVELS && task in ts[m] ==> task == ts[m][|ts[m]| - 1]
    {
      hide Tallies, DistinctItems, Holds, LevelsOf, Vals, Apart, Within, Add, Linked, Counted, PriorityToLevel;
      hide LevelQueue.Valid, LevelQueue.Listed, TasksAt;
      var level := PriorityToLevel(task.effectivePriority);
      ghost var x, ts := Item(task, level), LevelsOf(arrivals);
      ArriveBooks(arrivals, occupancy, len, x);
      LevelsApart(arrivals, occupancy, len);
      LevelsArrive(arrivals, x);
      ShapeHolds(ts, Vals(arrivals));
      PushAt(level, task, ts, Vals(arrivals));
      occupancy := Add(occupancy, level);
      len := len + 1;
      arrivals := arrivals + [x];
      LinkedCount(ts, level, task);
    }

    /** Take the task that has waited longest on the highest level occupied. */
    method Dequeue() returns (r: Option<TaskControlBlock>, ghost j: nat)
      requires Valid()
      modifies this, levels, Vals(arrivals)`runQueueNext
      ensures Valid()
      ensures old(arrivals) == [] ==> r == None && arrivals == []
      ensures old(arrivals) != [] ==> j < |old(arrivals)| && r == Some(old(arrivals)[j].val)
      ensures old(arrivals) != [] ==> IsOldestOfHighest(old(arrivals), j, old(arrivals)[j])
      ensures old(arrivals) != [] ==> arrivals == RemoveAt(old(arrivals), j)
    {
      hide Books, Holds, LevelsOf, Vals, Apart, Within, LeadingZeros, TasksAt, Class;
      hide Occupancy.Remove, IsOldestOfHighest, RemoveAt;
      var bitmap := occupancy;
      j := 0;
      NoneQueued(arrivals, occupancy, len);
      if bitmap == 0 {
        return None, j;
      }
      ghost var a := arrivals;
      var level := 31 - LeadingZeros(bitmap);
      j := HighestHasOldest(a, occupancy, len);
      DepartAll(a, occupancy, len, j, level);
      r := PopAt(level, LevelsOf(a), Vals(a));
      if r.None? {
        // The level was found occupied, so there is never a retry.
        assert false;
      }
      arrivals := RemoveAt(a, j);
      Narrow(LevelsOf(arrivals), Vals(a), Vals(arrivals));
      if LevelEmpty(level) {
        occupancy := Occupancy.Remove(occupancy, level);
      }
      len := len - 1;
    }

    predicate LevelEmpty(level: nat)
      requires level < LEVELS && Holds(LevelsOf(arrivals), Vals(arrivals))
      reads this, levels, Vals(arrivals)`runQueueNext
      ensures LevelEmpty(level) <==> TasksAt(arrivals, level) == []
    {
      levels[level].IsEmpty()
    }
  }
}
