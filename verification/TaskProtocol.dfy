/**
 One task's state word, raced over by any number of cores and wakers. Any core may try to poll at any
 time, since the task's pointer can be in several deques at once. Every step is one atomic access.
 */
module TaskProtocol {

  datatype State = Created | Ready | Running | Blocked | Dying | Dead

  // The inclusive ends of the counters' integer widths.
  const I32_MAX := 0x7FFF_FFFF
  const I32_MIN := -0x8000_0000

  /** A number as a signed 32-bit word. */
  function WrapI32(x: int): (r: int)
    ensures -0x8000_0000 <= r <= 0x7FFF_FFFF && (r - x) % 0x1_0000_0000 == 0
  {
    (x - I32_MIN) % 0x1_0000_0000 + I32_MIN
  }

  /** Where a core stands in poll_task. */
  datatype CorePc =
    | Away
    | Claimed                    // won Ready -> Running
    | Polling                    // inside the future's poll
    | Finished                   // poll returned Ready
    | Retiring                   // the state is Dying
    | Pended                     // poll returned Pending
    | Spent                      // the quantum has expired
    | Yielding                   // and the state was read as Running
    | Panicked                   // an expect failed

  /** Where a waker stands in wake. */
  datatype WakerPc = Quiet | Looking | SawBlocked | SawCreated

  /** parks says whether a future may block its own task while it is polled. */
  datatype Task = Task(state: State, quantum: int, cores: seq<CorePc>, wakers: seq<WakerPc>, parks: bool)

  datatype Action =
    | Start(core: nat)
    | Allot(core: nat, ticks: int)
    | Park(core: nat)
    | PollReady(core: nat)
    | PollPending(core: nat)
    | Retire(core: nat)
    | Bury(core: nat)
    | Tick(core: nat)
    | Inspect(core: nat)
    | Yield(core: nat)
    | BeginWake(waker: nat)
    | Look(waker: nat)
    | TryWake(waker: nat)

  ghost predicate Init(s: Task) {
    && s.state == Created
    && (forall c :: 0 <= c < |s.cores| ==> s.cores[c] == Away)
    && (forall w :: 0 <= w < |s.wakers| ==> s.wakers[w] == Quiet)
  }

  predicate IsWakerAction(a: Action) {
    a.BeginWake? || a.Look? || a.TryWake?
  }

  function PcFor(a: Action): CorePc
    requires !IsWakerAction(a)
  {
    match a
    case Start(_) => Away
    case Allot(_, _) => Claimed
    case Park(_) => Polling
    case PollReady(_) => Polling
    case PollPending(_) => Polling
    case Retire(_) => Finished
    case Bury(_) => Retiring
    case Tick(_) => Pended
    case Inspect(_) => Spent
    case Yield(_) => Yielding
  }

  predicate Enabled(s: Task, a: Action) {
    if IsWakerAction(a) then
      && a.waker < |s.wakers|
      && match a
         case BeginWake(w) => s.wakers[w] == Quiet
         case Look(w) => s.wakers[w] == Looking
         case TryWake(w) => s.wakers[w] == SawBlocked || s.wakers[w] == SawCreated
    else
      && a.core < |s.cores| && s.cores[a.core] == PcFor(a)
      && (a.Park? ==> s.parks)
  }

  /** A compare-and-exchange on the state: the new state and whether it succeeded. */
  function Cas(s: State, expected: State, next: State): (State, bool) {
    if s == expected then (next, true) else (s, false)
  }

  function At(s: Task, core: nat, pc: CorePc): Task
    requires core < |s.cores|
  {
    s.(cores := s.cores[core := pc])
  }

  function CoreStep(s: Task, a: Action): Task
    requires Enabled(s, a) && !IsWakerAction(a)
  {
    match a
    case Start(c) =>
      var (state, won) := Cas(s.state, Ready, Running);
      if won then At(s.(state := state), c, Claimed) else s
    case Allot(c, ticks) => At(s.(quantum := ticks), c, Polling)
    case Park(c) => s.(state := Cas(s.state, Running, Blocked).0)
    case PollReady(c) => At(s, c, Finished)
    case PollPending(c) => At(s, c, Pended)
    case Retire(c) =>
      var (state, won) := Cas(s.state, Running, Dying);
      At(s.(state := state), c, if won then Retiring else Panicked)
    case Bury(c) => At(s.(state := Dead), c, Away)
    case Tick(c) =>
      var left := WrapI32(s.quantum - 1);
      At(s.(quantum := left), c, if left <= 0 then Spent else Polling)
    case Inspect(c) => At(s, c, if s.state == Running then Yielding else Away)
    case Yield(c) =>
      var (state, won) := Cas(s.state, Running, Ready);
      At(s.(state := state), c, if won then Away else Panicked)
  }

  function WakerStep(s: Task, a: Action): Task
    requires Enabled(s, a) && IsWakerAction(a)
  {
    match a
    case BeginWake(w) => s.(wakers := s.wakers[w := Looking])
    case Look(w) =>
      s.(wakers := s.wakers[w := if s.state == Blocked then SawBlocked
                                 else if s.state == Created then SawCreated else Quiet])
    case TryWake(w) =>
      var expected := if s.wakers[w] == SawBlocked then Blocked else Created;
      var (state, won) := Cas(s.state, expected, Ready);
      s.(state := state, wakers := s.wakers[w := if won then Quiet else Looking])
  }

  function Apply(s: Task, a: Action): Task
    requires Enabled(s, a)
  {
    if IsWakerAction(a) then WakerStep(s, a) else CoreStep(s, a)
  }

  ghost predicate Run(s: Task, actions: seq<Action>, t: Task)
    decreases |actions|
  {
    if actions == [] then t == s
    else Enabled(s, actions[0]) && Run(Apply(s, actions[0]), actions[1..], t)
  }

  /** The core has the task: from winning Ready -> Running until it gives the state up. */
  predicate Inside(pc: CorePc) {
    pc.Claimed? || pc.Polling? || pc.Finished? || pc.Retiring? || pc.Pended? || pc.Spent? || pc.Yielding?
  }

  /** At most one core is inside, one is exactly while the state says so, and no expect failed. */
  ghost predicate Safe(s: Task) {
    && (forall c, d :: 0 <= c < d < |s.cores| ==> !(Inside(s.cores[c]) && Inside(s.cores[d])))
    && ((exists c :: 0 <= c < |s.cores| && Inside(s.cores[c])) <==> s.state == Running || s.state == Dying)
    && (forall c :: 0 <= c < |s.cores| ==> s.cores[c] != Panicked)
  }

  ghost predicate Inv(s: Task) {
    && Safe(s)
    && (forall c :: 0 <= c < |s.cores| && Inside(s.cores[c]) ==> (s.cores[c] == Retiring <==> s.state == Dying))
    && !s.parks && s.state != Blocked
  }

  lemma InitInv(s: Task)
    requires Init(s) && !s.parks
    ensures Inv(s)
  {
  }

  lemma WakerKeeps(s: Task, a: Action)
    requires Inv(s) && Enabled(s, a) && IsWakerAction(a)
    ensures Inv(Apply(s, a))
  {
  }

  lemma CoreKeeps(s: Task, a: Action)
    requires Inv(s) && Enabled(s, a) && !IsWakerAction(a)
    ensures Inv(Apply(s, a))
  {
    var t := Apply(s, a);
    assert forall c :: 0 <= c < |s.cores| && c != a.core ==> t.cores[c] == s.cores[c];
    assert Inside(t.cores[a.core]) || t.cores[a.core] == Away;
  }

  lemma {:induction false} RunKeeps(s: Task, actions: seq<Action>, t: Task)
    requires Inv(s) && Run(s, actions, t)
    ensures Inv(t)
    decreases |actions|
  {
    if actions != [] {
      var a := actions[0];
      if IsWakerAction(a) {
        WakerKeeps(s, a);
      } else {
        CoreKeeps(s, a);
      }
      RunKeeps(Apply(s, a), actions[1..], t);
    }
  }

  ghost predicate ByOthers(actions: seq<Action>, core: nat) {
    forall i :: 0 <= i < |actions| ==> IsWakerAction(actions[i]) || actions[i].core != core
  }

  /** While a core is inside, nobody else changes the state or the quantum. */
  lemma {:induction false} HolderUndisturbed(s: Task, actions: seq<Action>, t: Task, core: nat)
    requires Inv(s) && Run(s, actions, t) && ByOthers(actions, core) && core < |s.cores|
    ensures |t.cores| == |s.cores| && t.cores[core] == s.cores[core] && |t.wakers| == |s.wakers|
    ensures Inside(s.cores[core]) ==> t.state == s.state && t.quantum == s.quantum
    decreases |actions|
  {
    if actions != [] {
      var a := actions[0];
      OneRun(s, a);
      RunKeeps(s, [a], Apply(s, a));
      HolderUndisturbed(Apply(s, a), actions[1..], t, core);
    }
  }

  lemma OneRun(s: Task, a: Action)
    requires Enabled(s, a)
    ensures Run(s, [a], Apply(s, a))
  {
    assert [a][1..] == [];
  }

  /** No step leads back to Created, and nobody else moves a waker. */
  lemma {:induction false} WakerUndisturbed(s: Task, actions: seq<Action>, t: Task, waker: nat)
    requires Run(s, actions, t) && waker < |s.wakers|
    requires forall i :: 0 <= i < |actions| ==> !IsWakerAction(actions[i]) || actions[i].waker != waker
    ensures |t.wakers| == |s.wakers| && t.wakers[waker] == s.wakers[waker] && |t.cores| == |s.cores|
    ensures s.state != Created ==> t.state != Created
    decreases |actions|
  {
    if actions != [] {
      WakerUndisturbed(Apply(s, actions[0]), actions[1..], t, waker);
    }
  }

  /** How often a run takes the task out of Blocked: each time, some waker's compare-and-exchange won. */
  ghost function Wakings(s: Task, actions: seq<Action>): nat
    decreases |actions|
  {
    if actions == [] || !Enabled(s, actions[0]) then 0
    else
      var t := Apply(s, actions[0]);
      (if s.state == Blocked && t.state != Blocked then 1 else 0) + Wakings(t, actions[1..])
  }

  lemma {:induction false} UnblockedByWaking(s: Task, actions: seq<Action>, t: Task)
    requires Run(s, actions, t) && s.state == Blocked && t.state != Blocked
    ensures Wakings(s, actions) > 0
    decreases |actions|
  {
    if Apply(s, actions[0]).state == Blocked {
      UnblockedByWaking(Apply(s, actions[0]), actions[1..], t);
    }
  }

  /** A task that never parks is never taken out of Blocked. */
  lemma {:induction false} NeverParkedNeverWoken(s: Task, actions: seq<Action>, t: Task)
    requires Inv(s) && Run(s, actions, t)
    ensures Wakings(s, actions) == 0
    decreases |actions|
  {
    if actions != [] {
      OneRun(s, actions[0]);
      RunKeeps(s, [actions[0]], Apply(s, actions[0]));
      NeverParkedNeverWoken(Apply(s, actions[0]), actions[1..], t);
    }
  }

  /** Once dead, always dead, and no core is ever inside again. */
  lemma {:induction false} DeadIsFinal(s: Task, actions: seq<Action>, t: Task)
    requires Inv(s) && s.state == Dead && Run(s, actions, t)
    ensures t.state == Dead
    ensures forall c :: 0 <= c < |t.cores| ==> !Inside(t.cores[c])
    decreases |actions|
  {
    if actions != [] {
      var a := actions[0];
      OneRun(s, a);
      RunKeeps(s, [a], Apply(s, a));
      assert !IsWakerAction(a) ==> !Inside(s.cores[a.core]);
      DeadIsFinal(Apply(s, a), actions[1..], t);
    }
  }

  ghost predicate AlwaysSafe(s: Task) {
    forall actions, t :: Run(s, actions, t) ==> Safe(t)
  }

  /** Without cores nothing polls the task, and without wakers it is never made ready. */
  ghost predicate Idle(s: Task) {
    && (s.cores == [] || (s.wakers == [] && s.state == Created))
    && (forall c :: 0 <= c < |s.cores| ==> s.cores[c] == Away)
    && (s.state == Created || s.state == Ready || (s.state == Blocked && s.cores == []))
  }

  lemma {:induction false} IdleRun(s: Task, actions: seq<Action>, t: Task)
    requires Idle(s) && Run(s, actions, t)
    ensures Safe(t)
    decreases |actions|
  {
    if actions != [] {
      IdleRun(Apply(s, actions[0]), actions[1..], t);
    }
  }

  /** Every run is safe exactly if no future parks its own task, or nobody is there to poll or to wake it. */
  lemma SafeIffNeverParks(s: Task)
    requires Init(s)
    ensures AlwaysSafe(s) <==> !s.parks || s.cores == [] || s.wakers == []
  {
    if !s.parks {
      InitInv(s);
      forall actions, t | Run(s, actions, t) ensures Safe(t) {
        RunKeeps(s, actions, t);
      }
    } else if s.cores == [] || s.wakers == [] {
      forall actions, t | Run(s, actions, t) ensures Safe(t) {
        IdleRun(s, actions, t);
      }
    } else {
      var actions, t := ParkedRun(s);
      assert Run(s, actions, t) && Inside(t.cores[0]);
    }
  }

  lemma {:induction false} Extend(s: Task, actions: seq<Action>, t: Task, a: Action)
    requires Run(s, actions, t) && Enabled(t, a)
    ensures Run(s, actions + [a], Apply(t, a))
    decreases |actions|
  {
    if actions == [] {
      assert [a][1..] == [];
    } else {
      Extend(Apply(s, actions[0]), actions[1..], t, a);
      assert (actions + [a])[1..] == actions[1..] + [a];
    }
  }

  /** The run up to a future on core 0 having parked its task. */
  lemma ParkedRun(s: Task) returns (actions: seq<Action>, t: Task)
    requires Init(s) && s.parks && |s.cores| >= 1 && |s.wakers| >= 1
    ensures Run(s, actions, t) && t == s.(state := Blocked, quantum := 1, cores := s.cores[0 := Polling])
  {
    actions, t := Woken(s, [], s, Created);
    actions, t := Then(s, actions, t, Start(0));
    assert t == s.(state := Running, cores := s.cores[0 := Claimed]);
    actions, t := Then(s, actions, t, Allot(0, 1));
    assert t == s.(state := Running, quantum := 1, cores := s.cores[0 := Polling]);
    actions, t := Then(s, actions, t, Park(0));
  }

  /** A wake from a state that it makes ready. */
  lemma Woken(s: Task, actions: seq<Action>, t: Task, from: State) returns (more: seq<Action>, u: Task)
    requires Run(s, actions, t) && t.state == from && (from == Created || from == Blocked)
    requires |t.wakers| >= 1 && t.wakers[0] == Quiet
    ensures Run(s, more, u) && u == t.(state := Ready)
  {
    more, u := Then(s, actions, t, BeginWake(0));
    more, u := Then(s, more, u, Look(0));
    more, u := Then(s, more, u, TryWake(0));
    assert u.wakers == t.wakers;
  }

  /** Waking a parked task of which core 0 is still polling the future lets core 1 in as well. */
  lemma TwoInside(s: Task) returns (actions: seq<Action>, t: Task)
    requires Init(s) && s.parks && |s.cores| >= 2 && |s.wakers| >= 1
    ensures Run(s, actions, t) && |t.cores| == |s.cores| && Inside(t.cores[0]) && Inside(t.cores[1])
  {
    actions, t := ParkedRun(s);
    actions, t := Woken(s, actions, t, Blocked);
    actions, t := Then(s, actions, t, Start(1));
  }

  /** A future that parks and then returns Ready fails the first expect. */
  lemma ParkThenReadyPanics(s: Task) returns (actions: seq<Action>, t: Task)
    requires Init(s) && s.parks && |s.cores| >= 1 && |s.wakers| >= 1
    ensures Run(s, actions, t) && |t.cores| == |s.cores| && t.cores[0] == Panicked
  {
    actions, t := ParkedRun(s);
    actions, t := Then(s, actions, t, PollReady(0));
    actions, t := Then(s, actions, t, Retire(0));
  }

  lemma Then(s: Task, actions: seq<Action>, t: Task, a: Action) returns (more: seq<Action>, u: Task)
    requires Run(s, actions, t) && Enabled(t, a)
    ensures u == Apply(t, a) && Run(s, more, u)
  {
    Extend(s, actions, t, a);
    more, u := actions + [a], Apply(t, a);
  }
}
