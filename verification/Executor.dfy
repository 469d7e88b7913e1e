/** One core's executor: draining its run queue into its deque, and polling one task for its quantum. */
module Executor {
  import opened Numbers
  import opened Options
  import opened RunQueue
  import opened StableSort
  import opened TaskControl
  import opened TaskProtocol

  /** How a call of poll_task ends. */
  datatype Outcome = Skipped | Completed | Expired

  /** How often a future that stays pending is polled before its quantum has expired. */
  function Allowance(quantum: int): nat {
    if quantum == -0x8000_0000 then 0x8000_0000 else if quantum <= 1 then 1 else quantum
  }

  class Executor {
    const coreId: nat
    const runQueue: RunQueue
    const defaultQuantum: int
    /** The tasks pushed on this core's deque, in order. */
    var worker: seq<TaskControlBlock>
    var pollsExecuted: nat
    var tasksCompleted: nat

    constructor (coreId: nat, runQueue: RunQueue, defaultQuantum: int)
      ensures this.coreId == coreId && this.runQueue == runQueue && this.defaultQuantum == defaultQuantum
      ensures worker == [] && pollsExecuted == 0 && tasksCompleted == 0
    {
      this.coreId, this.runQueue, this.defaultQuantum := coreId, runQueue, defaultQuantum;
      worker, pollsExecuted, tasksCompleted := [], 0, 0;
    }

    /** Move every queued task to the deque: highest level first, oldest first within a level. */
    method DrainRunQueue() returns (ghost out: seq<Item<TaskControlBlock>>)
      requires runQueue.Valid()
      modifies `worker, runQueue, runQueue.levels, Vals(runQueue.arrivals)`runQueueNext
      ensures runQueue.Valid() && runQueue.arrivals == []
      ensures IsStableSort(old(runQueue.arrivals), out)
      ensures forall o :: IsStableSort(old(runQueue.arrivals), o) ==> o == out
      ensures worker == old(worker) + Vals(out)
    {
      hide Drained, Vals, IsStableSort, IsOldestOfHighest, RemoveAt, RunQueue.Valid;
      out := [];
      ghost var queued := runQueue.arrivals;
      NothingDrained(queued);
      while true
        invariant runQueue.Valid() && Drained(queued, out, runQueue.arrivals)
        invariant Among(Vals(runQueue.arrivals), Vals(queued))
        invariant worker == old(worker) + Vals(out)
        decreases |runQueue.arrivals|
      {
        ghost var rest := runQueue.arrivals;
        var task, j := runQueue.Dequeue();
        if task.None? {
          DrainedIsStableSort(queued, out);
          forall o | IsStableSort(queued, o) ensures o == out {
            StableSortUnique(queued, o, out);
          }
          return;
        }
        DrainStep(queued, out, rest, j, rest[j]);
        worker := worker + [task.value];
        ValsMore(out, rest[j]);
        out := out + [rest[j]];
        RemoveAmong(rest, j, queued);
      }
    }

    /**
     The start of a round of the run loop, with nobody stealing meanwhile: empty the run queue into the
     deque and pop from the deque's other end. What arrived highest is pushed first, so what is popped is
     the newest arrival of the lowest level.
     */
    method NextTask() returns (r: Option<TaskControlBlock>, ghost out: seq<Item<TaskControlBlock>>, ghost j: nat)
      requires runQueue.Valid()
      modifies `worker, runQueue, runQueue.levels, Vals(runQueue.arrivals)`runQueueNext
      ensures runQueue.Valid() && runQueue.arrivals == []
      ensures IsStableSort(old(runQueue.arrivals), out)
      ensures r.Some? ==> worker + [r.value] == old(worker) + Vals(out)
      ensures r.None? ==> worker == [] && old(worker) == [] && old(runQueue.arrivals) == []
      ensures old(runQueue.arrivals) != [] ==>
        && j < |old(runQueue.arrivals)| && r == Some(old(runQueue.arrivals)[j].val)
        && IsNewestOfLowest(old(runQueue.arrivals), j, old(runQueue.arrivals)[j])
    {
      hide IsStableSort, RunQueue.Valid;
      j := 0;
      out := DrainRunQueue();
      SortedSize(old(runQueue.arrivals), out);
      if worker == [] {
        return None, out, j;
      }
      r := Some(worker[|worker| - 1]);
      worker := worker[..|worker| - 1];
      if out != [] {
        j := BackIsNewestOfLowest(old(runQueue.arrivals), out);
      }
    }

    /** The task is well-formed and this core is at the given place in polling it. */
    ghost predicate Stands(task: TaskControlBlock, pc: CorePc)
      reads task`state, task`quantumRemaining, task`machine
    {
      task.Valid() && coreId < |task.machine.cores| && task.machine.cores[coreId] == pc
    }

    /**
     Poll a task until it finishes or has used up its quantum. Other cores and wakers run between any
     two accesses to it, but the two transitions out of Running never fail, and a task whose quantum
     has expired is still Running: it goes back on this core's deque. ready tells for each poll of the
     future, of which there have been some before, whether it is finished then.
     */
    method PollTask(task: TaskControlBlock, ready: nat -> bool, before: nat)
      returns (outcome: Outcome, ghost polls: nat)
      requires Stands(task, Away) && I32_MIN <= defaultQuantum <= I32_MAX
      modifies `worker, `pollsExecuted, `tasksCompleted
      modifies task`state, task`quantumRemaining, task`machine, task`currentCore
      modifies task`effectivePriority, task`basePriority, task`decayCounter
      ensures Stands(task, Away)
      ensures pollsExecuted == old(pollsExecuted) + polls && polls <= Allowance(defaultQuantum)
      ensures outcome == Skipped ==> polls == 0
      ensures outcome == Completed ==> polls > 0 && ready(before + polls - 1) && task.state == Dead
      ensures outcome == Expired ==> polls == Allowance(defaultQuantum)
      ensures forall i :: before <= i < before + (if outcome == Completed then polls - 1 else polls) ==> !ready(i)
      ensures worker == old(worker) + if outcome == Expired then [task] else []
      ensures task.undisturbed ==> (outcome == Skipped <==> old(task.state) != Ready)
      ensures outcome == Completed ==> task.currentCore == 0xFFFF_FFFF
      ensures outcome == Expired && task.undisturbed ==> task.state == Ready && task.currentCore == 0xFFFF_FFFF
      ensures task.undisturbed ==>
        task.CurrentPace() == if outcome == Expired then Decayed(old(task.CurrentPace())) else old(task.CurrentPace())
      ensures tasksCompleted == old(tasksCompleted) + if outcome == Completed then 1 else 0
    {
      hide Stands, Left, Decayed;
      var n := before;
      polls := 0;
      var won := Begin(task);
      if !won {
        outcome := Skipped;
        return;
      }
      NothingSpent(defaultQuantum);
      while true
        invariant Stands(task, Polling)
        invariant task.quantumRemaining == Left(defaultQuantum, polls) && polls < Allowance(defaultQuantum)
        invariant pollsExecuted == old(pollsExecuted) + polls
        invariant n == before + polls && forall i :: before <= i < n ==> !ready(i)
        invariant task.undisturbed ==> task.CurrentPace() == old(task.CurrentPace())
        invariant worker == old(worker) && tasksCompleted == old(tasksCompleted)
        decreases Allowance(defaultQuantum) - polls
      {
        var answer := ready(n);
        PollOnce(task, answer);
        n, polls := n + 1, polls + 1;
        if answer {
          Complete(task);
          outcome := Completed;
          return;
        }
        pollsExecuted := pollsExecuted + 1;
        TickLeft(defaultQuantum, polls);
        var remaining := Tick(task);
        if remaining <= 0 {
          Expire(task);
          outcome := Expired;
          return;
        }
      }
    }

    /**
     The run loop while nothing arrives, nobody steals and nobody else touches the deque's last task: a
     task whose quantum expires goes back where the next round pops, so that every round polls the same
     task until it finishes, and the tasks below it wait however low its priority decays.
     */
    method RunAlone(rounds: nat, ready: nat -> bool, ghost last: TaskControlBlock, ghost below: seq<TaskControlBlock>)
      returns (ghost expired: nat, ghost polls: nat)
      requires runQueue.Valid() && runQueue.arrivals == [] && worker == below + [last]
      requires Stands(last, Away) && last.undisturbed && last.state == Ready && I32_MIN <= defaultQuantum <= I32_MAX
      modifies `worker, `pollsExecuted, `tasksCompleted, runQueue, runQueue.levels
      modifies last`state, last`quantumRemaining, last`machine, last`currentCore
      modifies last`effectivePriority, last`basePriority, last`decayCounter
      ensures runQueue.Valid() && runQueue.arrivals == []
      ensures last.CurrentPace() == Spend(old(last.CurrentPace()), expired)
      ensures Unspent(old(last.CurrentPace())) ==>
        last.effectivePriority == old(last.basePriority) - Min(8, expired / 4)
      ensures pollsExecuted == old(pollsExecuted) + expired * Allowance(defaultQuantum) + polls
      ensures expired == rounds ==> worker == below + [last] && last.state == Ready && polls == 0
      ensures expired != rounds ==> expired < rounds && worker == below && last.state == Dead
      ensures expired != rounds ==> 0 < polls <= Allowance(defaultQuantum)
      ensures var n := expired * Allowance(defaultQuantum) + polls;
        && (forall i :: 0 <= i < (if expired == rounds then n else n - 1) ==> !ready(i))
        && (expired != rounds ==> ready(n - 1))
    {
      hide Stands, Decayed, RunQueue.Valid, Allowance, Vals, IsStableSort;
      expired, polls := 0, 0;
      var done: nat := 0;
      for i := 0 to rounds
        invariant runQueue.Valid() && runQueue.arrivals == [] && worker == below + [last] && expired == i
        invariant Stands(last, Away) && last.state == Ready
        invariant last.CurrentPace() == Spend(old(last.CurrentPace()), i)
        invariant pollsExecuted == old(pollsExecuted) + i * Allowance(defaultQuantum)
        invariant done == i * Allowance(defaultQuantum) && forall j :: 0 <= j < done ==> !ready(j)
      {
        var task, out, j := NextTask();
        SortedSize([], out);
        assert worker + [task.value] == below + [last];
        assert task == Some(last) && worker == below by {
          assert (worker + [task.value])[|worker|] == (below + [last])[|below|];
          assert (worker + [task.value])[..|worker|] == (below + [last])[..|below|];
        }
        var count := pollsExecuted;
        var outcome, n := PollTask(task.value, ready, done);
        if outcome.Completed? {
          polls := n;
          PaceAfter(old(last.CurrentPace()), expired);
          return;
        }
        expired := expired + 1;
        done := done + (pollsExecuted - count);
      }
      PaceAfter(old(last.CurrentPace()), expired);
    }

    /** Win the task and give it a fresh quantum. */
    method Begin(task: TaskControlBlock) returns (won: bool)
      requires Stands(task, Away)
      modifies task`state, task`quantumRemaining, task`machine, task`currentCore
      modifies task`effectivePriority, task`basePriority, task`decayCounter
      ensures Stands(task, if won then Polling else Away)
      ensures won ==> task.quantumRemaining == defaultQuantum
      ensures won && task.undisturbed ==> task.currentCore == coreId
      ensures task.undisturbed ==> (won <==> old(task.state) == Ready)
      ensures task.undisturbed ==> task.CurrentPace() == old(task.CurrentPace())
    {
      hide Inv, WrapI32, Decayed;
      task.Preempt(coreId);
      won := task.Transition(Ready, Running);
      task.Did(Start(coreId));
      if !won {
        return;
      }
      task.Preempt(coreId);
      task.currentCore := coreId;
      task.Preempt(coreId);
      task.quantumRemaining := defaultQuantum;
      task.Did(Allot(coreId, defaultQuantum));
    }

    /** The future's poll; what it answers is its own affair. */
    method PollOnce(task: TaskControlBlock, ready: bool)
      requires Stands(task, Polling)
      modifies task`state, task`quantumRemaining, task`machine, task`currentCore
      modifies task`effectivePriority, task`basePriority, task`decayCounter
      ensures Stands(task, if ready then Finished else Pended)
      ensures task.quantumRemaining == old(task.quantumRemaining)
      ensures task.undisturbed ==> task.CurrentPace() == old(task.CurrentPace())
    {
      hide Inv, WrapI32, Decayed;
      task.Preempt(coreId);
      task.Did(if ready then PollReady(coreId) else PollPending(coreId));
    }

    method Tick(task: TaskControlBlock) returns (remaining: int)
      requires Stands(task, Pended)
      modifies task`state, task`quantumRemaining, task`machine, task`currentCore
      modifies task`effectivePriority, task`basePriority, task`decayCounter
      ensures Stands(task, if remaining <= 0 then Spent else Polling)
      ensures task.quantumRemaining == WrapI32(old(task.quantumRemaining) - 1) == remaining
      ensures task.undisturbed ==> task.CurrentPace() == old(task.CurrentPace())
    {
      hide Inv, WrapI32, Decayed;
      task.Preempt(coreId);
      remaining := task.ConsumeTick();
      task.Did(TaskProtocol.Tick(coreId));
    }

    /** The future is finished: retire the task. */
    method Complete(task: TaskControlBlock)
      requires Stands(task, Finished)
      modifies `pollsExecuted, `tasksCompleted
      modifies task`state, task`quantumRemaining, task`machine, task`currentCore
      modifies task`effectivePriority, task`basePriority, task`decayCounter
      ensures Stands(task, Away) && task.state == Dead && task.currentCore == 0xFFFF_FFFF
      ensures task.undisturbed ==> task.CurrentPace() == old(task.CurrentPace())
      ensures pollsExecuted == old(pollsExecuted) + 1 && tasksCompleted == old(tasksCompleted) + 1
    {
      hide Inv, WrapI32, Decayed;
      task.Preempt(coreId);
      InsideState(task.machine, coreId);
      var ok := task.Transition(Running, Dying);
      assert ok;
      task.Did(Retire(coreId));
      Bury(task);
      tasksCompleted := tasksCompleted + 1;
      pollsExecuted := pollsExecuted + 1;
    }

    method Bury(task: TaskControlBlock)
      requires Stands(task, Retiring)
      modifies task`state, task`quantumRemaining, task`machine, task`currentCore
      modifies task`effectivePriority, task`basePriority, task`decayCounter
      ensures Stands(task, Away) && task.state == Dead && task.currentCore == 0xFFFF_FFFF
      ensures task.undisturbed ==> task.CurrentPace() == old(task.CurrentPace())
    {
      hide Inv, WrapI32, Decayed;
      task.Preempt(coreId);
      task.state := Dead;
      task.Did(TaskProtocol.Bury(coreId));
      task.Preempt(coreId);
      task.currentCore := NO_CORE;
    }

    /** The quantum has expired: give the task up and queue it again. */
    method Expire(task: TaskControlBlock)
      requires Stands(task, Spent)
      modifies `worker
      modifies task`state, task`quantumRemaining, task`machine, task`currentCore
      modifies task`effectivePriority, task`basePriority, task`decayCounter
      ensures Stands(task, Away) && worker == old(worker) + [task]
      ensures task.undisturbed ==> task.state == Ready && task.currentCore == 0xFFFF_FFFF
      ensures task.undisturbed ==> task.CurrentPace() == Decayed(old(task.CurrentPace()))
    {
      hide Inv, WrapI32, Decayed;
      task.Preempt(coreId);
      InsideState(task.machine, coreId);
      var state := task.state;
      task.Did(Inspect(coreId));
      if state == Running {
        task.Preempt(coreId);
        InsideState(task.machine, coreId);
        var ok := task.Transition(Running, Ready);
        assert ok;
        task.Did(Yield(coreId));
        task.Preempt(coreId);
        task.currentCore := NO_CORE;
        worker := worker + [task];
      } else {
        // No future parks its own task.
        assert false;
      }
      task.Preempt(coreId);
      task.Decay(coreId);
    }
  }

  /** What is left of a quantum after so many polls. */
  function Left(quantum: int, polls: nat): int {
    if polls > 0 && quantum == I32_MIN then I32_MAX + 1 - polls else quantum - polls
  }

  lemma NothingSpent(quantum: int)
    requires I32_MIN <= quantum <= I32_MAX
    ensures Left(quantum, 0) == quantum
  {
  }

  lemma TickLeft(quantum: int, polls: nat)
    requires I32_MIN <= quantum <= I32_MAX && 0 < polls <= Allowance(quantum)
    ensures WrapI32(Left(quantum, polls - 1) - 1) == Left(quantum, polls)
    ensures Left(quantum, polls) <= 0 <==> polls == Allowance(quantum)
  {
  }

  /** A task of ordinary base priority that has spent no quantum yet. */
  predicate Unspent(p: Pace) {
    p == Pace(p.base, p.base, 0) && I32_MIN + 8 <= p.base <= I32_MAX
  }

  lemma PaceAfter(p: Pace, k: nat)
    ensures Unspent(p) ==> Spend(p, k).effective == p.base - Min(8, k / 4)
  {
    if Unspent(p) {
      DecaySchedule(p.base, k);
    }
  }

  lemma InsideState(m: Task, core: nat)
    requires Inv(m) && core < |m.cores| && Inside(m.cores[core])
    ensures m.state == if m.cores[core] == Retiring then Dying else Running
  {
  }

  ghost predicate Among(s: seq<TaskControlBlock>, t: seq<TaskControlBlock>) {
    forall i :: 0 <= i < |s| ==> s[i] in t
  }

  lemma NothingDrained(a: seq<Item<TaskControlBlock>>)
    ensures Drained(a, [], a) && Among(Vals(a), Vals(a)) && Vals<TaskControlBlock>([]) == []
  {
    forall key ensures Class(a, key) == Class([], key) + Class(a, key) {
    }
  }

  lemma SortedSize(a: seq<Item<TaskControlBlock>>, out: seq<Item<TaskControlBlock>>)
    requires IsStableSort(a, out)
    ensures (out == [] <==> a == []) && (out == [] ==> Vals(out) == [])
  {
    if out != [] {
      LastOfClass(out);
      assert Class(a, out[|out| - 1].key) != [];
    }
    if a != [] {
      LastOfClass(a);
      assert Class(out, a[|a| - 1].key) != [];
    }
  }

  lemma ValsMore(s: seq<Item<TaskControlBlock>>, x: Item<TaskControlBlock>)
    ensures Vals(s + [x]) == Vals(s) + [x.val]
  {
  }

  lemma RemoveAmong(rest: seq<Item<TaskControlBlock>>, j: nat, queued: seq<Item<TaskControlBlock>>)
    requires j < |rest| && Among(Vals(rest), Vals(queued))
    ensures Among(Vals(RemoveAt(rest, j)), Vals(queued)) && |RemoveAt(rest, j)| == |rest| - 1
  {
    var b := RemoveAt(rest, j);
    forall i | 0 <= i < |b| ensures Vals(b)[i] in Vals(queued) {
      var k := if i < j then i else i + 1;
      assert b[i] == rest[k] && Vals(rest)[k] == rest[k].val;
    }
  }
}
