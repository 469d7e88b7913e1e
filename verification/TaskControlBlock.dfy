/** The task control block: the state word's compare-and-exchange, wake, and quantum and decay counters. */
module TaskControl {
  import CircularBuffer
  import opened Numbers
  import opened TaskProtocol

  const U32 := 0x1_0000_0000
  const NO_CORE: nat := 0xFFFF_FFFF

  /** The counters a spent quantum touches. */
  datatype Pace = Pace(effective: int, base: int, decay: nat)

  /** Every fourth spent quantum costs one level of effective priority, down to eight below base. */
  function Decayed(p: Pace): Pace {
    var decay := (p.decay + 1) % U32;
    if decay % 4 == 0 && p.effective > WrapI32(p.base - 8)
    then Pace(WrapI32(p.effective - 1), p.base, decay)
    else Pace(p.effective, p.base, decay)
  }

  function Spend(p: Pace, k: nat): Pace {
    if k == 0 then p else Decayed(Spend(p, k - 1))
  }

  lemma WrapIs(x: int)
    ensures I32_MIN <= x <= I32_MAX ==> WrapI32(x) == x
    ensures I32_MIN - 8 <= x < I32_MIN ==> WrapI32(x) == x + U32
  {
  }

  /** Counting modulo 2^32 keeps the remainder modulo 4. */
  lemma CountWraps(k: nat)
    ensures (k % U32 + 1) % U32 == (k + 1) % U32 && ((k + 1) % U32) % 4 == (k + 1) % 4
  {
    var q, r := k / U32, k % U32;
    if r + 1 == U32 {
      CircularBuffer.RemainderIs(k + 1, U32, q + 1, 0);
      CircularBuffer.RemainderIs(k + 1, 4, (U32 / 4) * (q + 1), 0);
    } else {
      CircularBuffer.RemainderIs(k + 1, U32, q, r + 1);
      CircularBuffer.RemainderIs(k + 1, 4, (U32 / 4) * q + (r + 1) / 4, (r + 1) % 4);
    }
  }

  /** How many multiples of four a counter at d passes or reaches in k steps. */
  function Fourths(d: nat, k: nat): nat {
    (d + k) / 4 - d / 4
  }

  /** Where k spent quanta lead: down one level for every fourth, but not below eight under base. */
  function Sunk(p: Pace, k: nat): int {
    if p.effective <= p.base - 8 then p.effective
    else if p.effective - Fourths(p.decay, k) < p.base - 8 then p.base - 8
    else p.effective - Fourths(p.decay, k)
  }

  lemma FourthStep(d: nat, k: nat)
    requires k > 0
    ensures Fourths(d, k) == Fourths(d, k - 1) + if (d + k) % 4 == 0 then 1 else 0
  {
  }

  lemma DecayStep(p: Pace)
    requires I32_MIN + 8 <= p.base <= I32_MAX && I32_MIN <= p.effective <= I32_MAX
    ensures var d := (p.decay + 1) % U32;
      Decayed(p) == Pace(p.effective - if d % 4 == 0 && p.effective > p.base - 8 then 1 else 0, p.base, d)
  {
    hide WrapI32;
    WrapIs(p.base - 8);
    WrapIs(p.effective - 1);
  }

  /**
   From any priority, boosted or not, and any count: after k spent quanta the effective priority has
   dropped by one for every multiple of four that the counter came to, but not below base - 8; one
   that was there or lower already stays.
   */
  lemma {:induction false} DecayFrom(p: Pace, k: nat)
    requires I32_MIN + 8 <= p.base <= I32_MAX && I32_MIN <= p.effective <= I32_MAX && p.decay < U32
    ensures I32_MIN <= Sunk(p, k) <= I32_MAX
    ensures Spend(p, k) == Pace(Sunk(p, k), p.base, (p.decay + k) % 0x1_0000_0000)
  {
    if k > 0 {
      DecayFrom(p, k - 1);
      FourthStep(p.decay, k);
      hide Decayed, Fourths;
      DecayStep(Spend(p, k - 1));
      CountWraps(p.decay + k - 1);
    }
  }

  /** After k spent quanta the effective priority has dropped by k / 4, by 8 at most. */
  lemma DecaySchedule(base: int, k: nat)
    requires I32_MIN + 8 <= base <= I32_MAX
    ensures Spend(Pace(base, base, 0), k) == Pace(base - Min(8, k / 4), base, k % 0x1_0000_0000)
  {
    DecayFrom(Pace(base, base, 0), k);
  }

  /** So close to the bottom that base - 8 wraps around, the priority never decays. */
  lemma {:induction false} NoDecayNearBottom(base: int, k: nat)
    requires I32_MIN <= base < I32_MIN + 8
    ensures Spend(Pace(base, base, 0), k) == Pace(base, base, k % 0x1_0000_0000)
  {
    hide WrapI32;
    if k > 0 {
      NoDecayNearBottom(base, k - 1);
      CountWraps(k - 1);
      WrapIs(base - 8);
    }
  }

  lemma NeverBlocked(m: Task)
    ensures Inv(m) ==> m.state != Blocked
  {
  }

  class TaskControlBlock {
    var state: State
    var effectivePriority: int
    var basePriority: int
    var quantumRemaining: int
    var decayCounter: nat
    var currentCore: nat
    var runQueueNext: TaskControlBlock?
    /** The protocol's view of this task: the same state word and every core's and waker's position. */
    ghost var machine: Task
    /** Only one executor runs, and nobody else wakes this task or changes its priority. */
    ghost const undisturbed: bool

    ghost predicate Synced()
      reads `state, `quantumRemaining, `machine
    {
      machine.state == state && machine.quantum == quantumRemaining
    }

    /** The protocol's invariant, which includes that no future parks its own task. */
    ghost predicate Valid()
      reads `state, `quantumRemaining, `machine
    {
      Synced() && Inv(machine)
    }

    constructor (ghost cores: nat, ghost wakers: nat, ghost undisturbed: bool)
      ensures Valid() && state == Created && Init(machine)
      ensures |machine.cores| == cores && |machine.wakers| == wakers && this.undisturbed == undisturbed
      ensures CurrentPace() == Pace(0, 0, 0) && currentCore == 0xFFFF_FFFF && runQueueNext == null
    {
      state, effectivePriority, basePriority, quantumRemaining := Created, 0, 0, 0;
      decayCounter, currentCore, runQueueNext := 0, NO_CORE, null;
      machine := Task(Created, 0, seq(cores, _ => Away), seq(wakers, _ => Quiet), false);
      this.undisturbed := undisturbed;
    }

    function CurrentPace(): Pace
      reads `effectivePriority, `basePriority, `decayCounter
    {
      Pace(effectivePriority, basePriority, decayCounter)
    }

    /** What this thread has just done to the state word and the quantum is action a. */
    ghost method Did(a: Action)
      requires Enabled(machine, a)
      requires state == Apply(machine, a).state && quantumRemaining == Apply(machine, a).quantum
      modifies `machine
      ensures Synced() && machine == Apply(old(machine), a) && (Inv(old(machine)) ==> Inv(machine))
    {
      if Inv(machine) {
        OneRun(machine, a);
        RunKeeps(machine, [a], Apply(machine, a));
      }
      machine := Apply(machine, a);
    }

    /** Others run: cores but this one, wakers, and whoever changes priorities. */
    method OthersAct(ghost core: nat) returns (ghost actions: seq<Action>)
      requires Valid()
      modifies `state, `quantumRemaining, `machine, `currentCore, `effectivePriority, `basePriority, `decayCounter
      ensures machine.state == state && machine.quantum == quantumRemaining
      ensures Run(old(machine), actions, machine) && ByOthers(actions, core)
      ensures undisturbed ==>
        machine == old(machine) && CurrentPace() == old(CurrentPace()) && currentCore == old(currentCore)
    {
      actions := [];
    }

    /** Let others run; a core that is inside finds its task's state and quantum as it left them. */
    method Preempt(ghost core: nat)
      requires Valid() && core < |machine.cores|
      modifies `state, `quantumRemaining, `machine, `currentCore, `effectivePriority, `basePriority, `decayCounter
      ensures Valid() && |machine.cores| == |old(machine).cores| && machine.cores[core] == old(machine).cores[core]
      ensures Inside(machine.cores[core]) ==> state == old(state) && quantumRemaining == old(quantumRemaining)
      ensures old(state) == Dead ==> state == Dead
      ensures undisturbed ==>
        machine == old(machine) && CurrentPace() == old(CurrentPace()) && currentCore == old(currentCore)
    {
      ghost var actions := OthersAct(core);
      RunKeeps(old(machine), actions, machine);
      HolderUndisturbed(old(machine), actions, machine, core);
      if old(state) == Dead {
        DeadIsFinal(old(machine), actions, machine);
      }
    }

    /** Compare and exchange on the state word. */
    method Transition(expected: State, next: State) returns (ok: bool)
      modifies `state
      ensures (state, ok) == Cas(old(state), expected, next)
    {
      ok := state == expected;
      if ok {
        state := next;
      }
    }

    method ConsumeTick() returns (remaining: int)
      modifies `quantumRemaining
      ensures quantumRemaining == WrapI32(old(quantumRemaining) - 1) == remaining
    {
      var prev := quantumRemaining;
      quantumRemaining := WrapI32(prev - 1);
      remaining := WrapI32(prev - 1);
    }

    /** What a spent quantum does to the priority; others may run between the accesses. */
    method Decay(ghost core: nat)
      requires Valid() && core < |machine.cores|
      modifies `state, `quantumRemaining, `machine, `currentCore, `effectivePriority, `basePriority, `decayCounter
      ensures Valid() && |machine.cores| == |old(machine).cores| && machine.cores[core] == old(machine).cores[core]
      ensures undisturbed ==>
        machine == old(machine) && CurrentPace() == Decayed(old(CurrentPace())) && currentCore == old(currentCore)
    {
      hide Inv, WrapI32;
      var decay := (decayCounter + 1) % U32;
      decayCounter := decay;
      if decay % 4 == 0 {
        Preempt(core);
        var effective := effectivePriority;
        Preempt(core);
        var base := basePriority;
        if effective > WrapI32(base - 8) {
          Preempt(core);
          effectivePriority := WrapI32(effectivePriority - 1);
        }
      }
    }

    /**
     Others run: every core, and the wakers but this one. Of the times that others may take the task out
     of Blocked while this waker is at work, left remain.
     */
    method OthersWake(ghost waker: nat, ghost patience: nat) returns (ghost actions: seq<Action>, ghost left: nat)
      requires Synced()
      modifies `state, `quantumRemaining, `machine, `currentCore, `effectivePriority, `basePriority, `decayCounter
      ensures Synced() && Run(old(machine), actions, machine)
      ensures forall i :: 0 <= i < |actions| ==> !IsWakerAction(actions[i]) || actions[i].waker != waker
      ensures left + Wakings(old(machine), actions) == patience
    {
      actions, left := [], patience;
    }

    method PreemptWaker(ghost waker: nat, ghost patience: nat) returns (ghost left: nat)
      requires Synced() && waker < |machine.wakers|
      modifies `state, `quantumRemaining, `machine, `currentCore, `effectivePriority, `basePriority, `decayCounter
      ensures Synced() && (Inv(old(machine)) ==> Inv(machine)) && |machine.wakers| == |old(machine).wakers|
      ensures machine.wakers[waker] == old(machine).wakers[waker]
      ensures old(state) != Created ==> state != Created
      ensures left <= patience && (old(state) == Blocked && state != Blocked ==> left < patience)
    {
      ghost var actions;
      actions, left := OthersWake(waker, patience);
      if Inv(old(machine)) {
        RunKeeps(old(machine), actions, machine);
      }
      if old(state) == Blocked && state != Blocked {
        UnblockedByWaking(old(machine), actions, machine);
      }
      WakerUndisturbed(old(machine), actions, machine, waker);
    }

    /**
     One round of wake, for any task and with any others running: it makes a Blocked or Created task
     Ready, leaves one in another state alone, or finds that somebody came in between.
     */
    method WakeRound(ghost waker: nat, ghost patience: nat)
      returns (done: bool, ghost seen: State, ghost left: nat)
      requires Synced() && waker < |machine.wakers| && machine.wakers[waker] == Looking
      modifies `state, `quantumRemaining, `machine, `currentCore, `effectivePriority, `basePriority, `decayCounter
      ensures Synced() && (Inv(old(machine)) ==> Inv(machine)) && |machine.wakers| == |old(machine).wakers|
      ensures machine.wakers[waker] == if done then Quiet else Looking
      ensures done ==> state == if seen == Blocked || seen == Created then Ready else seen
      ensures !done ==> (seen == Blocked || seen == Created) && state != seen
      ensures left <= patience && (!done && seen == Blocked ==> left < patience)
      ensures old(state) != Created ==> seen != Created && state != Created
      ensures Inv(old(machine)) ==> seen != Blocked
    {
      hide Inv;
      left := PreemptWaker(waker, patience);
      var current := state;
      seen := current;
      NeverBlocked(machine);
      Did(Look(waker));
      if current == Blocked || current == Created {
        left := PreemptWaker(waker, left);
        done := Transition(current, Ready);
        Did(TryWake(waker));
      } else {
        done := true;
      }
    }

    /**
     Wake a task, whatever others do: as long as they take it out of Blocked no more than patience times
     meanwhile, the rounds end. A task that never parks is never Blocked, and two rounds are enough for it.
     */
    method Wake(ghost waker: nat, ghost patience: nat) returns (ghost rounds: nat)
      requires Synced() && waker < |machine.wakers| && machine.wakers[waker] == Quiet
      modifies `state, `quantumRemaining, `machine, `currentCore, `effectivePriority, `basePriority, `decayCounter
      ensures Synced() && (Inv(old(machine)) ==> Inv(machine))
      ensures |machine.wakers| == |old(machine).wakers| && machine.wakers[waker] == Quiet
      ensures state != Created && state != Blocked
      ensures 1 <= rounds <= patience + 2 && (Inv(old(machine)) ==> rounds <= 2)
    {
      hide Inv;
      rounds := 0;
      Did(BeginWake(waker));
      var done := false;
      ghost var left: nat, raced := patience, 0;
      while !done
        invariant Synced() && (Inv(old(machine)) ==> Inv(machine)) && |machine.wakers| == |old(machine).wakers|
        invariant machine.wakers[waker] == if done then Quiet else Looking
        invariant raced == 0 || (raced == 1 && state != Created)
        invariant left <= patience && rounds <= patience - left + raced + if done then 1 else 0
        invariant Inv(old(machine)) ==> rounds <= raced + if done then 1 else 0
        invariant done ==> rounds > 0 && state != Created && state != Blocked
        decreases left + 1 - raced, !done
      {
        ghost var seen;
        done, seen, left := WakeRound(waker, left);
        rounds := rounds + 1;
        if !done && seen == Created {
          raced := 1;
        }
      }
    }
  }
}
