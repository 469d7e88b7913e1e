/**
 The deque's code in its own form. Every atomic access is followed by a yield, where the other
 parties may take any number of actions of the transition system; a ghost machine follows the
 real fields, and a ghost trace records what happened at the level of a plain sequence.
 */
module WorkStealing {
  import CircularBuffer
  import opened Options
  import opened Numbers
  import opened StealDeque
  import opened StealDequeProofs
  import opened StealDequeSound
  import opened Traces

  class DequeBuffer<T(0)> {
    const logCap: nat
    const data: array<T>

    ghost predicate Valid() {
      data.Length == CircularBuffer.Pow2(logCap)
    }

    constructor (logCap: nat)
      ensures Valid() && fresh(data) && this.logCap == logCap
    {
      this.logCap := logCap;
      data := new T[CircularBuffer.Pow2(logCap)];
    }

    method Get(i: nat) returns (val: T)
      requires Valid()
      ensures val == CircularBuffer.Get(data[..], i)
    {
      CircularBuffer.MaskIsModulo(i, logCap);
      val := data[CircularBuffer.And(i, data.Length - 1)];
    }

    method Put(i: nat, val: T)
      requires Valid()
      modifies data
      ensures data[..] == CircularBuffer.Put(old(data[..]), i, val)
    {
      CircularBuffer.MaskIsModulo(i, logCap);
      data[CircularBuffer.And(i, data.Length - 1)] := val;
    }
  }

  ghost function OwnerPart<T>(): Event<T> -> seq<Event<T>> {
    (e: Event<T>) => if e.Silent? || e.Stolen? then [] else [e]
  }

  ghost function TakenPart<T>(k: nat): Event<T> -> seq<T> {
    (e: Event<T>) => if e.Stolen? && e.thief == k then e.vals else []
  }

  /** The owner's part of a trace, in order. */
  ghost function OwnerEvents<T>(es: seq<Event<T>>): seq<Event<T>> {
    Collect(es, OwnerPart())
  }

  /** What thief k has taken in a trace, in order. */
  ghost function TakenBy<T>(es: seq<Event<T>>, k: nat): seq<T> {
    Collect(es, TakenPart(k))
  }

  ghost predicate ByThieves<T>(a: Action<T>) {
    a.BeginSteal? || a.BeginBatch? || a.ThiefStep?
  }

  ghost predicate NotBy<T>(a: Action<T>, k: nat) {
    ByThieves(a) ==> a.k != k
  }

  lemma OwnerEventsOne<T>(e: Event<T>)
    ensures OwnerEvents([e]) == if e.Silent? || e.Stolen? then [] else [e]
  {
    CollectOne(e, OwnerPart());
  }

  lemma TakenByOne<T>(e: Event<T>, k: nat)
    ensures TakenBy([e], k) == if e.Stolen? && e.thief == k then e.vals else []
  {
    CollectOne(e, TakenPart(k));
  }

  ghost predicate OwnerUntouched<T>(s: Deque<T>, f: Deque<T>) {
    f == s.(top := f.top, thieves := f.thieves, returned := f.returned)
  }

  lemma ThiefActionKeepsOwner<T>(s: Deque<T>, a: Action<T>)
    requires |s.slots| > 0 && Enabled(s, a) && ByThieves(a)
    ensures OwnerUntouched(s, Apply(s, a)) && OwnerEvents([EventOf(s, a)]) == []
  {
    OwnerEventsOne(EventOf(s, a));
  }

  /** Whatever the thieves do, the owner's view is untouched. */
  lemma {:induction false} ThievesKeepOwner<T>(s: Deque<T>, acts: seq<Action<T>>)
    requires Run(s, acts) && forall a <- acts :: ByThieves(a)
    ensures OwnerUntouched(s, Exec(s, acts)) && OwnerEvents(Trace(s, acts)) == []
    decreases |acts|
  {
    if acts != [] {
      var s' := Apply(s, acts[0]);
      ThiefActionKeepsOwner(s, acts[0]);
      ThievesKeepOwner(s', acts[1..]);
      CollectConcat([EventOf(s, acts[0])], Trace(s', acts[1..]), OwnerPart());
    }
  }

  /** Thief k's locals survive whatever the others do, apart from what it observes of the owner's end. */
  ghost predicate SameThief<T>(s: Deque<T>, f: Deque<T>, k: nat)
  {
    && k in s.thieves && k in f.thieves
    && (s.thieves[k].BatchRead? ==> f.thieves[k].BatchRead?)
    && f.thieves[k] == if s.thieves[k].BatchRead? then s.thieves[k].(low := f.thieves[k].low) else s.thieves[k]
  }

  lemma OtherActionKeepsThief<T>(s: Deque<T>, a: Action<T>, k: nat)
    requires |s.slots| > 0 && k in s.thieves && Enabled(s, a) && NotBy(a, k)
    ensures SameThief(s, Apply(s, a), k) && TakenBy([EventOf(s, a)], k) == []
  {
    TakenByOne(EventOf(s, a), k);
  }

  /** A batch of at most one element stays clear of the owner's end whatever the others do. */
  lemma OtherActionLeavesCalm<T>(s: Deque<T>, a: Action<T>, k: nat)
    requires Inv(s) && k in s.thieves && Enabled(s, a) && NotBy(a, k) && CalmThief(s, s.thieves[k], 1)
    ensures k in Apply(s, a).thieves && CalmThief(Apply(s, a), Apply(s, a).thieves[k], 1)
  {
    if a.OwnerStep? {
      OwnerLeavesCalm(s, a.junk, k, 1);
    } else {
      OthersLeaveCalm(s, a, k, 1);
    }
  }

  /** Whatever the others do, a thief's locals are untouched and it has taken nothing more. */
  lemma {:induction false} OthersKeepThief<T>(s: Deque<T>, acts: seq<Action<T>>, k: nat)
    requires k in s.thieves && Run(s, acts) && forall a <- acts :: NotBy(a, k)
    ensures SameThief(s, Exec(s, acts), k) && TakenBy(Trace(s, acts), k) == []
    decreases |acts|
  {
    if acts != [] {
      var s' := Apply(s, acts[0]);
      OtherActionKeepsThief(s, acts[0], k);
      OthersKeepThief(s', acts[1..], k);
      CollectConcat([EventOf(s, acts[0])], Trace(s', acts[1..]), TakenPart(k));
    }
  }

  lemma {:induction false} OthersKeepCalm<T>(s: Deque<T>, acts: seq<Action<T>>, k: nat)
    requires Inv(s) && k in s.thieves && Run(s, acts) && AlwaysSteady(s, acts) && forall a <- acts :: NotBy(a, k)
    requires CalmThief(s, s.thieves[k], 1)
    ensures k in Exec(s, acts).thieves && CalmThief(Exec(s, acts), Exec(s, acts).thieves[k], 1)
    decreases |acts|
  {
    if acts != [] {
      SteadyStepRefines(s, acts[0]);
      OtherActionLeavesCalm(s, acts[0], k);
      OthersKeepCalm(Apply(s, acts[0]), acts[1..], k);
    }
  }

  /** A trace that explains a state as a run of a plain sequence, as long as all batches have been steady. */
  ghost predicate Explains<T(!new)>(trace: seq<Event<T>>, s: Deque<T>, steady: bool) {
    steady ==> Inv(s) && SpecRun([], trace, Contents(s))
  }

  lemma RunExplained<T(!new)>(trace: seq<Event<T>>, s: Deque<T>, steady: bool, acts: seq<Action<T>>)
    requires Sound(s) && Explains(trace, s, steady) && Run(s, acts)
    ensures Sound(Exec(s, acts))
    ensures Explains(trace + Trace(s, acts), Exec(s, acts), steady && AlwaysSteady(s, acts))
  {
    hide Sound;
    RunSound(s, acts);
    if steady && AlwaysSteady(s, acts) {
      RunRefines(s, acts);
      LeadsConcat(Plain(), [], trace, Contents(s), Trace(s, acts), Contents(Exec(s, acts)));
    }
  }

  /** The state is where the actions lead from start; trace and steady are what they say. */
  ghost predicate Reached<T>(start: Deque<T>, acts: seq<Action<T>>, s: Deque<T>, trace: seq<Event<T>>, steady: bool) {
    && Init(start) && Run(start, acts) && s == Exec(start, acts)
    && trace == Trace(start, acts) && (steady <==> AlwaysSteady(start, acts))
  }

  lemma ReachedMore<T>(start: Deque<T>, acts: seq<Action<T>>, s: Deque<T>, trace: seq<Event<T>>, steady: bool,
                       more: seq<Action<T>>)
    requires Reached(start, acts, s, trace, steady) && Run(s, more)
    ensures Reached(start, acts + more, Exec(s, more), trace + Trace(s, more), steady && AlwaysSteady(s, more))
  {
    RunConcat(start, acts, more);
    TraceConcat(start, acts, more);
  }

  /** After the first i actions, bottom was b. */
  ghost predicate BottomWas<T>(start: Deque<T>, acts: seq<Action<T>>, i: nat, b: int) {
    i <= |acts| && Run(start, acts[..i]) && Exec(start, acts[..i]).bottom == b
  }

  lemma BottomIs<T>(start: Deque<T>, acts: seq<Action<T>>, s: Deque<T>, trace: seq<Event<T>>, steady: bool)
    requires Reached(start, acts, s, trace, steady)
    ensures BottomWas(start, acts, |acts|, s.bottom)
  {
    assert acts[..|acts|] == acts;
  }

  lemma BottomStill<T>(start: Deque<T>, acts: seq<Action<T>>, later: seq<Action<T>>, i: nat, b: int)
    requires BottomWas(start, acts, i, b) && acts <= later
    ensures BottomWas(start, later, i, b)
  {
    assert later[..i] == acts[..i];
  }

  /** With the owner idle, the live values are those from top to bottom. */
  lemma IdleContents<T>(s: Deque<T>)
    requires Inv(s) && s.owner == Idle
    ensures s.top <= s.bottom && |Contents(s)| == s.bottom - s.top
    ensures forall j :: 0 <= j < |Contents(s)| ==> Contents(s)[j] == Slot(s, s.top + j)
  {
  }

  lemma SoundFacts<T>(s: Deque<T>)
    requires Sound(s)
    ensures |s.slots| > 0 && 0 <= s.top
    ensures s.owner.PushPut? || s.owner.PopRead? ==> 0 <= s.owner.b
    ensures s.owner.PushTop? ==> 0 <= s.owner.b && s.owner.b - s.top <= |s.slots|
  {
  }

  lemma CopyIsFaithful<T>(s: Deque<T>, val: T, b: int, t: int, i: int, spare: seq<T>)
    requires Sound(s) && s.owner == PushCopy(val, b, t, i, spare)
    ensures 0 <= t && |spare| > 0 && |s.slots| > 0
    ensures forall j: nat :: t <= j < i ==> CircularBuffer.Get(spare, j) == CircularBuffer.Get(s.slots, j)
  {
  }

  lemma ThiefIndex<T>(s: Deque<T>, k: nat)
    requires Sound(s) && k in s.thieves
    requires !s.thieves[k].Resting?
    ensures 0 <= s.thieves[k].t <= s.top
  {
    assert ThiefSound(s, s.thieves[k]);
  }

  /** A batch of at most one element starts clear of the owner's end. */
  lemma ShortBatchStartsCalm<T>(s: Deque<T>, k: nat)
    requires Inv(s) && k in s.thieves && s.thieves[k].BatchBottom? && s.bottom - s.thieves[k].t > 0
    ensures var th := ThiefMove(s, k).thieves[k];
      th.n <= 1 ==> CalmThief(ThiefMove(s, k), th, 1)
  {
    assert ThiefOk(s, s.thieves[k]) && s.bottom <= End(s);
  }

  class DequeInner<T(0,!new)> {
    var bottom: int
    var top: int
    var buffer: DequeBuffer<T>
    ghost var machine: Deque<T>
    ghost var trace: seq<Event<T>>
    /** Every batch that has committed so far was steady. */
    ghost var steady: bool
    /** All actions so far, of all parties, from the state when the deque was built. */
    ghost const start: Deque<T>
    ghost var history: seq<Action<T>>

    /** The real fields are those of the machine. */
    ghost predicate Synced()
      reads this, buffer.data
    {
      && buffer.Valid()
      && machine.bottom == bottom && machine.top == top && machine.slots == buffer.data[..]
    }

    /**
     The machine is where its history leads, and sound; while all batches have been steady, the trace is
     a run of a plain sequence.
     */
    ghost predicate Explained()
      reads this
    {
      Reached(start, history, machine, trace, steady) && Sound(machine) && Explains(trace, machine, steady)
    }

    ghost predicate Valid()
      reads this, buffer.data
    {
      Synced() && Explained()
    }

    constructor (ghost thieves: set<nat>)
      ensures Valid() && fresh(buffer) && fresh(buffer.data)
      ensures Init(machine) && trace == [] && steady && buffer.data.Length == 64
      ensures machine.thieves == map k | k in thieves :: Resting
      ensures machine.pushed == [] && machine.returned == []
    {
      bottom, top := 0, 0;
      var buf := new DequeBuffer<T>(6);
      buffer := buf;
      assert CircularBuffer.Pow2(6) == MIN_CAPACITY;
      machine := Deque(0, 0, buf.data[..], Idle, map k | k in thieves :: Resting, [], []);
      start := Deque(0, 0, buf.data[..], Idle, map k | k in thieves :: Resting, [], []);
      trace, steady, history := [], true, [];
      new;
      InitInv(machine);
      InitSound(machine);
    }

    /** What one more event adds for the owner and for each thief. */
    lemma Recorded(e: Event<T>)
      ensures OwnerEvents(trace + [e]) == OwnerEvents(trace) + OwnerEvents([e])
      ensures forall k: nat :: TakenBy(trace + [e], k) == TakenBy(trace, k) + TakenBy([e], k)
    {
      CollectConcat(trace, [e], OwnerPart());
      forall k: nat ensures TakenBy(trace + [e], k) == TakenBy(trace, k) + TakenBy([e], k) {
        CollectConcat(trace, [e], TakenPart(k));
      }
    }

    /** Ghost bookkeeping: the action the code has just performed. */
    ghost method Did(a: Action<T>)
      requires Explained() && |machine.slots| > 0 && Enabled(machine, a)
      modifies `machine, `trace, `steady, `history
      ensures Explained() && machine == Apply(old(machine), a) && steady == (old(steady) && Steady(old(machine), a))
      ensures trace == old(trace) + [EventOf(old(machine), a)] && old(history) <= history
      ensures OwnerEvents(trace) == OwnerEvents(old(trace)) + OwnerEvents([EventOf(old(machine), a)])
      ensures forall k: nat :: TakenBy(trace, k) == TakenBy(old(trace), k) + TakenBy([EventOf(old(machine), a)], k)
    {
      hide Explains, Reached, Sound, Reached;
      var e := EventOf(machine, a);
      OneRun(machine, a);
      RunExplained(trace, machine, steady, [a]);
      ReachedMore(start, history, machine, trace, steady, [a]);
      history := history + [a];
      Recorded(e);
      steady := steady && Steady(machine, a);
      machine := Apply(machine, a);
      trace := trace + [e];
    }

    lemma Nonempty()
      requires Explained()
      ensures |machine.slots| > 0
    {
    }

    ghost method OwnerDid()
      requires Explained() && machine.owner != Idle && !machine.owner.PushTop?
      modifies `machine, `trace, `steady, `history
      ensures Explained() && |old(machine).slots| > 0 && steady == old(steady)
      ensures machine == OwnerMove(old(machine), old(machine).slots + old(machine).slots).(thieves := machine.thieves)
      ensures OwnerEvents(trace) == OwnerEvents(old(trace)) +
        var e := EventOf(old(machine), OwnerStep(old(machine).slots + old(machine).slots));
        if e.Silent? || e.Stolen? then [] else [e]
    {
      hide Explains, Reached;
      Nonempty();
      var junk := machine.slots + machine.slots;
      OwnerEventsOne(EventOf(machine, OwnerStep(junk)));
      Did(OwnerStep(junk));
    }

    ghost method ThiefDid(k: nat)
      requires Explained() && k in machine.thieves && machine.thieves[k] != Resting
      modifies `machine, `trace, `steady, `history
      ensures Explained() && |old(machine).slots| > 0 && machine == ThiefMove(old(machine), k)
      ensures old(history) <= history
      ensures steady == (old(steady) && Steady(old(machine), ThiefStep(k)))
      ensures var e := EventOf(old(machine), ThiefStep(k));
        && trace == old(trace) + [e]
        && TakenBy(trace, k) == TakenBy(old(trace), k) + if e.Stolen? then e.vals else []
    {
      hide Explains, Reached;
      Nonempty();
      TakenByOne(EventOf(machine, ThiefStep(k)), k);
      Did(ThiefStep(k));
    }

    /** Any finite number of actions of any thieves. */
    method ThievesAct() returns (ghost acts: seq<Action<T>>)
      requires Valid()
      modifies `top, `machine, `trace, `steady, `history
      ensures Synced() && (forall a <- acts :: ByThieves(a)) && history == old(history) + acts
      ensures Run(old(machine), acts) && machine == Exec(old(machine), acts)
      ensures trace == old(trace) + Trace(old(machine), acts)
      ensures steady == (old(steady) && AlwaysSteady(old(machine), acts))
    {
      acts := [];
    }

    method YieldToThieves()
      requires Valid()
      modifies `top, `machine, `trace, `steady, `history
      ensures Valid() && OwnerUntouched(old(machine), machine) && (steady ==> old(steady))
      ensures OwnerEvents(trace) == OwnerEvents(old(trace))
    {
      hide Explains, Reached;
      ghost var before, was := machine, trace;
      ghost var acts := ThievesAct();
      RunExplained(was, before, old(steady), acts);
      ReachedMore(start, old(history), before, was, old(steady), acts);
      ThievesKeepOwner(before, acts);
      CollectConcat(was, Trace(before, acts), OwnerPart());
    }

    /** The owner adds a value at the bottom, growing the buffer when the loaded top leaves no room. */
    method Push(val: T)
      requires Valid() && machine.owner == Idle
      modifies this, buffer.data
      ensures Valid() && machine.owner == Idle
      ensures buffer == old(buffer) || (fresh(buffer) && fresh(buffer.data))
      ensures machine.pushed == old(machine.pushed) + [val]
      ensures OwnerEvents(trace) == OwnerEvents(old(trace)) + [Pushed(val)]
    {
      hide Explains, Reached, Sound, Observe, OwnerEvents, TakenBy, Steady;
      var b := bottom;
      Did(BeginPush(val));
      OwnerEventsOne<T>(Silent);
      YieldToThieves();
      var t := top;
      if b - t >= buffer.data.Length {
        Grow(t, b, val);
      } else {
        Did(OwnerStep(buffer.data[..] + buffer.data[..]));
      }
      PushFinish(b, val);
    }

    /** The end of a push with room at index b: write the slot, then publish it. */
    method PushFinish(b: int, val: T)
      requires Valid() && machine.owner == PushPut(val, b) && bottom == b
      modifies `bottom, `top, `machine, `trace, `steady, `history, buffer.data
      ensures Valid() && machine.owner == Idle
      ensures machine.pushed == old(machine.pushed) + [val]
      ensures OwnerEvents(trace) == OwnerEvents(old(trace)) + [Pushed(val)]
    {
      hide Explains, Reached, Sound, Observe, OwnerEvents, TakenBy, Steady;
      OwnerEventsOne<T>(Silent);
      YieldToThieves();
      SoundFacts(machine);
      buffer.Put(b, val);
      Did(OwnerStep(machine.slots + machine.slots));
      YieldToThieves();
      bottom := b + 1;
      Did(OwnerStep(machine.slots + machine.slots));
      OwnerEventsOne(Pushed(val));
    }

    /** Copies the live indices into a buffer twice the size and installs it; thieves may run throughout. */
    method Grow(t: int, b: int, ghost val: T)
      requires Valid() && machine.owner == PushTop(val, b) && t == top && b - t >= |machine.slots|
      modifies this
      ensures Valid() && fresh(buffer) && fresh(buffer.data) && bottom == old(bottom)
      ensures machine == old(machine).(owner := PushPut(val, b), slots := machine.slots,
        top := machine.top, thieves := machine.thieves, returned := machine.returned)
      ensures |machine.slots| == 2 * |old(machine).slots|
      ensures forall i: nat :: t <= i < b ==>
        CircularBuffer.Get(machine.slots, i) == CircularBuffer.Get(old(machine).slots, i)
      ensures OwnerEvents(trace) == OwnerEvents(old(trace))
    {
      hide Explains, Reached, Sound, Observe, OwnerEvents, TakenBy, Steady;
      OwnerEventsOne<T>(Silent);
      SoundFacts(machine);
      var newBuf := new DequeBuffer<T>(buffer.logCap + 1);
      Did(OwnerStep(newBuf.data[..]));
      var i := t;
      while i < b
        invariant t <= i <= b && fresh(newBuf) && fresh(newBuf.data) && newBuf.Valid()
        invariant newBuf.data != buffer.data && buffer == old(buffer) && bottom == old(bottom)
        invariant Valid() && newBuf.data.Length == 2 * |machine.slots|
        invariant machine == old(machine).(owner := PushCopy(val, b, t, i, newBuf.data[..]),
          top := machine.top, thieves := machine.thieves, returned := machine.returned)
        invariant OwnerEvents(trace) == OwnerEvents(old(trace))
        modifies `top, `machine, `trace, `steady, `history, newBuf.data
      {
        YieldToThieves();
        CopyOne(newBuf, i);
        i := i + 1;
      }
      YieldToThieves();
      CopyIsFaithful(machine, val, b, t, i, newBuf.data[..]);
      buffer := newBuf;
      OwnerDid();
    }

    /** Copy one index into the buffer being filled. */
    method CopyOne(newBuf: DequeBuffer<T>, i: nat)
      requires Valid() && newBuf.Valid() && newBuf.data != buffer.data
      requires machine.owner.PushCopy? && i < machine.owner.b
      requires machine.owner.i == i && machine.owner.spare == newBuf.data[..]
      modifies `machine, `trace, `steady, `history, newBuf.data
      ensures Valid() && machine.owner.PushCopy? && machine.owner.spare == newBuf.data[..]
      ensures machine == old(machine).(thieves := machine.thieves,
        owner := old(machine).owner.(i := i + 1, spare := newBuf.data[..]))
      ensures OwnerEvents(trace) == OwnerEvents(old(trace))
    {
      hide Explains, Reached, Sound, Observe, OwnerEvents, TakenBy, Steady;
      OwnerEventsOne<T>(Silent);
      var val := buffer.Get(i);
      newBuf.Put(i, val);
      OwnerDid();
    }

    /** The owner takes the newest value, or learns that there is none. */
    method Pop() returns (r: Option<T>)
      requires Valid() && machine.owner == Idle
      modifies `bottom, `top, `machine, `trace, `steady, `history
      ensures Valid() && machine.owner == Idle && machine.pushed == old(machine.pushed)
      ensures OwnerEvents(trace) == OwnerEvents(old(trace)) + [if r.Some? then Popped(r.value) else PoppedNothing]
    {
      hide Explains, Reached, Sound, Observe, OwnerEvents, TakenBy, Steady;
      var b := LowerBottom();
      YieldToThieves();
      r := PopBelow(b);
    }

    /** The start of a pop: load bottom and store one less. */
    method LowerBottom() returns (b: int)
      requires Valid() && machine.owner == Idle
      modifies `bottom, `top, `machine, `trace, `steady, `history
      ensures Valid() && machine.owner == PopTop(b) && bottom == b && machine.pushed == old(machine.pushed)
      ensures OwnerEvents(trace) == OwnerEvents(old(trace))
    {
      hide Explains, Reached, Sound, Observe, OwnerEvents, TakenBy, Steady;
      b := bottom - 1;
      Did(BeginPop);
      OwnerEventsOne<T>(Silent);
      YieldToThieves();
      bottom := b;
      OwnerDid();
    }

    /** The rest of a pop once bottom is lowered to b: load top and act on what it says. */
    method PopBelow(b: int) returns (r: Option<T>)
      requires Valid() && machine.owner == PopTop(b) && bottom == b
      modifies `bottom, `top, `machine, `trace, `steady, `history
      ensures Valid() && machine.owner == Idle && machine.pushed == old(machine.pushed)
      ensures OwnerEvents(trace) == OwnerEvents(old(trace)) + [if r.Some? then Popped(r.value) else PoppedNothing]
    {
      hide Explains, Reached, Sound, Observe, OwnerEvents, TakenBy, Steady;
      var t := top;
      SoundFacts(machine);
      OwnerDid();
      YieldToThieves();
      if t <= b {
        r := PopTake(b, t);
      } else {
        bottom := b + 1;
        OwnerDid();
        r := None;
      }
    }

    /** The middle of a pop that saw top at or below its index: read the slot. */
    method PopTake(b: int, t: int) returns (r: Option<T>)
      requires Valid() && machine.owner == PopRead(b, t) && bottom == b && 0 <= t <= b
      modifies `bottom, `top, `machine, `trace, `steady, `history
      ensures Valid() && machine.owner == Idle && machine.pushed == old(machine.pushed)
      ensures t < b ==> r == Some(Slot(old(machine), b)) && OwnerEvents(trace) == OwnerEvents(old(trace))
      ensures t == b ==>
        OwnerEvents(trace) == OwnerEvents(old(trace)) + [if r.Some? then Popped(r.value) else PoppedNothing]
    {
      hide Explains, Reached, Sound, Observe, OwnerEvents, TakenBy, Steady;
      var val := buffer.Get(b);
      OwnerDid();
      if t == b {
        YieldToThieves();
        r := PopLast(b, t, val);
      } else {
        r := Some(val);
      }
    }

    /** The end of a pop that found one element: compete with the thieves for it, then raise bottom. */
    method PopLast(b: int, t: int, val: T) returns (r: Option<T>)
      requires Valid() && machine.owner == PopCas(b, t, val) && bottom == b
      modifies `bottom, `top, `machine, `trace, `steady, `history
      ensures Valid() && machine.owner == Idle && machine.pushed == old(machine.pushed)
      ensures OwnerEvents(trace) == OwnerEvents(old(trace)) + [if r.Some? then Popped(r.value) else PoppedNothing]
    {
      hide Explains, Reached, Sound, Observe, OwnerEvents, TakenBy, Steady;
      var ok := top == t;
      if ok {
        top := t + 1;
      }
      OwnerDid();
      YieldToThieves();
      bottom := b + 1;
      OwnerDid();
      r := if ok then Some(val) else None;
    }

    /** Any finite number of actions of the owner and of the thieves other than k; none if k is alone. */
    method OthersAct(ghost k: nat, ghost alone: bool) returns (ghost acts: seq<Action<T>>)
      requires Valid()
      modifies this, buffer.data
      ensures Synced() && (forall a <- acts :: NotBy(a, k)) && history == old(history) + acts
      ensures alone ==> acts == []
      ensures buffer == old(buffer) || (fresh(buffer) && fresh(buffer.data))
      ensures Run(old(machine), acts) && machine == Exec(old(machine), acts)
      ensures trace == old(trace) + Trace(old(machine), acts)
      ensures steady == (old(steady) && AlwaysSteady(old(machine), acts))
    {
      acts := [];
    }

    method YieldToOthers(ghost k: nat, ghost alone: bool)
      requires Valid() && k in machine.thieves
      modifies this, buffer.data
      ensures Valid() && SameThief(old(machine), machine, k) && (steady ==> old(steady))
      ensures old(history) <= history && (alone ==> machine == old(machine) && steady == old(steady))
      ensures steady && CalmThief(old(machine), old(machine).thieves[k], 1) ==>
        CalmThief(machine, machine.thieves[k], 1)
      ensures buffer == old(buffer) || (fresh(buffer) && fresh(buffer.data))
      ensures TakenBy(trace, k) == TakenBy(old(trace), k)
    {
      ghost var before, was := machine, trace;
      ghost var acts := OthersAct(k, alone);
      RunExplained(was, before, old(steady), acts);
      ReachedMore(start, old(history), before, was, old(steady), acts);
      OthersKeepThief(before, acts, k);
      if steady && CalmThief(before, before.thieves[k], 1) {
        OthersKeepCalm(before, acts, k);
      }
      CollectConcat(was, Trace(before, acts), TakenPart(k));
    }

    /**
     Thief k takes the oldest value, unless there is none or another party took it first: at is the moment
     of its load of bottom, and b what it saw. Nobody else runs when it is alone.
     */
    method Steal(ghost k: nat, ghost alone: bool) returns (r: Option<T>, ghost at: nat, ghost b: int)
      requires Valid() && k in machine.thieves && machine.thieves[k] == Resting
      modifies this, buffer.data
      ensures Valid() && k in machine.thieves && machine.thieves[k] == Resting
      ensures buffer == old(buffer) || (fresh(buffer) && fresh(buffer.data))
      ensures TakenBy(trace, k) == TakenBy(old(trace), k) + if r.Some? then [r.value] else []
      ensures r.Some? ==> trace != [] && trace[|trace| - 1] == Stolen(k, [r.value])
      ensures |old(history)| <= at && BottomWas(start, history, at, b)
      ensures if r.Some? then old(top) < b && top == old(top) + 1 else b <= old(top) || top > old(top)
      ensures |old(machine).slots| > 0
      ensures alone ==> r == if old(top) < old(bottom) then Some(Slot(old(machine), old(top))) else None
      ensures alone && old(steady) && old(machine).owner == Idle ==>
        && old(Inv(machine))
        && r == if Contents(old(machine)) == [] then None else Some(Contents(old(machine))[0])
    {
      hide Explains, Reached, Sound, Observe, OwnerEvents, TakenBy, Steady, BottomWas, Contents;
      TakenByOne<T>(Silent, k);
      Alone();
      var t := top;
      Did(BeginSteal(k));
      YieldToOthers(k, alone);
      Remember();
      at, b := |history|, bottom;
      ghost var seen := history;
      var bound := bottom;
      ThiefDid(k);
      if t < bound {
        r := StealTake(k, t, alone);
      } else {
        r := None;
      }
      BottomStill(start, seen, history, at, b);
    }

    /** With the owner idle and all batches steady, the live values are those from top to bottom. */
    lemma Alone()
      requires Valid()
      ensures |machine.slots| > 0 && 0 <= top
      ensures steady && machine.owner == Idle ==>
        && Inv(machine) && top <= bottom && |Contents(machine)| == bottom - top
        && forall j :: 0 <= j < bottom - top ==> Contents(machine)[j] == Slot(machine, top + j)
    {
      SoundFacts(machine);
      if steady && machine.owner == Idle {
        IdleContents(machine);
      }
    }

    lemma Remember()
      requires Valid()
      ensures BottomWas(start, history, |history|, bottom)
    {
      BottomIs(start, history, machine, trace, steady);
    }

    /** The end of a steal that saw an element: read the slot and compete for it. */
    method StealTake(ghost k: nat, t: int, ghost alone: bool) returns (r: Option<T>)
      requires Valid() && k in machine.thieves && machine.thieves[k] == StealRead(t)
      modifies this, buffer.data
      ensures Valid() && k in machine.thieves && machine.thieves[k] == Resting
      ensures buffer == old(buffer) || (fresh(buffer) && fresh(buffer.data))
      ensures TakenBy(trace, k) == TakenBy(old(trace), k) + if r.Some? then [r.value] else []
      ensures r.Some? ==> trace != [] && trace[|trace| - 1] == Stolen(k, [r.value])
      ensures old(history) <= history && if r.Some? then top == t + 1 else top > t
      ensures |old(machine).slots| > 0
      ensures alone && old(top) == t ==> r == Some(Slot(old(machine), t))
    {
      hide Explains, Reached, Sound, Observe, OwnerEvents, TakenBy, Steady;
      Nonempty();
      YieldToOthers(k, alone);
      ThiefIndex(machine, k);
      var val := buffer.Get(t);
      ThiefDid(k);
      YieldToOthers(k, alone);
      r := StealCommit(k, t, val);
    }

    /** The compare-and-exchange that takes the value read, if top is still where it was loaded. */
    method StealCommit(ghost k: nat, t: int, val: T) returns (r: Option<T>)
      requires Valid() && k in machine.thieves && machine.thieves[k] == StealCas(t, val)
      modifies `top, `machine, `trace, `steady, `history
      ensures Valid() && k in machine.thieves && machine.thieves[k] == Resting
      ensures TakenBy(trace, k) == TakenBy(old(trace), k) + if r.Some? then [r.value] else []
      ensures r.Some? ==> trace != [] && trace[|trace| - 1] == Stolen(k, [r.value])
      ensures old(history) <= history && if r.Some? then top == t + 1 else top > t
      ensures r == if old(top) == t then Some(val) else None
    {
      hide Explains, Reached, Sound, Observe, OwnerEvents, TakenBy, Steady;
      ThiefIndex(machine, k);
      if top == t {
        top := t + 1;
        r := Some(val);
      } else {
        r := None;
      }
      ThiefDid(k);
    }

    /**
     Thief k takes up to out.Length values at once: at is the moment of its load of bottom, and b what it
     saw. low is the least owner's end from then to its commit, and others whether all batches were steady
     up to that commit: this one was, unless it committed with the owner's end having come into its range.
     With room for one value that never happens. Nobody else runs when it is alone.
     */
    method StealBatch(ghost k: nat, out: array<T>, ghost alone: bool)
      returns (r: nat, ghost at: nat, ghost b: int, ghost low: int, ghost others: bool)
      requires Valid() && k in machine.thieves && machine.thieves[k] == Resting && out != buffer.data
      modifies this, buffer.data, out
      ensures Valid() && k in machine.thieves && machine.thieves[k] == Resting
      ensures r <= out.Length && TakenBy(trace, k) == TakenBy(old(trace), k) + out[..r]
      ensures r > 0 ==> trace != [] && trace[|trace| - 1] == Stolen(k, out[..r])
      ensures |old(history)| <= at && BottomWas(start, history, at, b)
      ensures r == 0 || (r == Min(Min(b - old(top), out.Length), 128) && top == old(top) + r)
      ensures r == 0 && out.Length > 0 ==> b <= old(top) || top > old(top)
      ensures steady == (others && (r == 0 || old(top) + r <= low)) && (others ==> old(steady))
      ensures out.Length <= 1 && others ==> steady
      ensures alone && old(steady) && old(machine).owner == Idle ==>
        && steady && old(Inv(machine))
        && r == Min(Min(|Contents(old(machine))|, out.Length), 128) && out[..r] == Contents(old(machine))[..r]
    {
      hide Explains, Reached, Sound, Observe, OwnerEvents, TakenBy, BottomWas, Contents, Steady;
      Alone();
      r, at, b, low, others := BatchFrom(k, out, alone);
      if alone && old(steady) && old(machine).owner == Idle {
        assert forall j :: 0 <= j < r ==> out[..r][j] == Contents(old(machine))[..r][j];
      }
    }

    /** The same, said of the slots. */
    method BatchFrom(ghost k: nat, out: array<T>, ghost alone: bool)
      returns (r: nat, ghost at: nat, ghost b: int, ghost low: int, ghost others: bool)
      requires Valid() && k in machine.thieves && machine.thieves[k] == Resting && out != buffer.data
      modifies this, buffer.data, out
      ensures Valid() && k in machine.thieves && machine.thieves[k] == Resting
      ensures r <= out.Length && TakenBy(trace, k) == TakenBy(old(trace), k) + out[..r]
      ensures r > 0 ==> trace != [] && trace[|trace| - 1] == Stolen(k, out[..r])
      ensures |old(history)| <= at && BottomWas(start, history, at, b)
      ensures r == 0 || (r == Min(Min(b - old(top), out.Length), 128) && top == old(top) + r)
      ensures r == 0 && out.Length > 0 ==> b <= old(top) || top > old(top)
      ensures steady == (others && (r == 0 || old(top) + r <= low)) && (others ==> old(steady))
      ensures out.Length <= 1 && others ==> steady
      ensures |old(machine).slots| > 0
      ensures alone && old(bottom) <= old(top) ==> r == 0 && steady == old(steady)
      ensures alone && old(bottom) > old(top) ==> r == Min(Min(old(bottom) - old(top), out.Length), 128)
      ensures alone && old(bottom) > old(top) ==> others == old(steady) && low == End(old(machine))
      ensures alone ==> forall j :: 0 <= j < r ==> out[j] == Slot(old(machine), old(top) + j)
    {
      hide Explains, Reached, Sound, Observe, OwnerEvents, TakenBy, BottomWas, Steady;
      Nonempty();
      var t := StartBatch(k, out.Length, alone);
      var available;
      available, at := LookBatch(k, t, out.Length);
      b := t + available;
      ghost var seen := history;
      r, low, others := 0, t, steady;
      if available > 0 {
        r, low, others := BatchTake(k, out, t, Min(Min(available, out.Length), MAX_STEAL_BATCH), alone);
      }
      BottomStill(start, seen, history, at, b);
    }

    /** Load top, then let the others run. */
    method StartBatch(ghost k: nat, ghost room: nat, ghost alone: bool) returns (from: int)
      requires Valid() && k in machine.thieves && machine.thieves[k] == Resting
      modifies this, buffer.data
      ensures Valid() && k in machine.thieves && machine.thieves[k] == BatchBottom(from, room)
      ensures buffer == old(buffer) || (fresh(buffer) && fresh(buffer.data))
      ensures TakenBy(trace, k) == TakenBy(old(trace), k) && (steady ==> old(steady))
      ensures from == old(top) && old(history) <= history
      ensures alone ==> machine == old(machine).(thieves := machine.thieves) && steady == old(steady)
    {
      hide Explains, Reached, Sound, Observe, OwnerEvents, TakenBy;
      TakenByOne<T>(Silent, k);
      from := top;
      Nonempty();
      Did(BeginBatch(k, room));
      YieldToOthers(k, alone);
    }

    /** Load bottom: a batch begins exactly if it is beyond the top loaded. */
    method LookBatch(ghost k: nat, t: int, ghost room: nat) returns (available: int, ghost at: nat)
      requires Valid() && k in machine.thieves && machine.thieves[k] == BatchBottom(t, room)
      modifies `machine, `trace, `steady, `history
      ensures Valid() && k in machine.thieves && available == bottom - t
      ensures at == |old(history)| && BottomWas(start, history, at, bottom) && old(history) <= history
      ensures TakenBy(trace, k) == TakenBy(old(trace), k) && steady == old(steady)
      ensures machine == old(machine).(thieves := machine.thieves)
      ensures available <= 0 ==> machine.thieves[k] == Resting
      ensures available > 0 ==>
        Reading(k, t, Min(Min(available, room), MAX_STEAL_BATCH), []) && machine.thieves[k].low == End(machine)
    {
      hide Explains, Reached, Sound, Observe, OwnerEvents, TakenBy, BottomWas;
      Remember();
      at := |history|;
      ghost var seen := history;
      available := bottom - t;
      if available > 0 {
        StartsCalm(k);
      }
      ThiefDid(k);
      BottomStill(start, seen, history, at, bottom);
    }

    lemma StartsCalm(k: nat)
      requires Explained() && k in machine.thieves && machine.thieves[k].BatchBottom?
      requires machine.bottom - machine.thieves[k].t > 0
      ensures |machine.slots| > 0
      ensures steady && ThiefMove(machine, k).thieves[k].n <= 1 ==>
        CalmThief(ThiefMove(machine, k), ThiefMove(machine, k).thieves[k], 1)
    {
      if steady {
        ShortBatchStartsCalm(machine, k);
      }
    }

    /** Thief k is in one batch of n slots from t, of which it has read those in out. */
    ghost predicate Reading(k: nat, t: int, n: nat, out: seq<T>)
      reads `machine, `steady, `history
    {
      && k in machine.thieves && machine.thieves[k].BatchRead?
      && machine.thieves[k].t == t && machine.thieves[k].n == n && machine.thieves[k].out == out
      && (n <= 1 && steady ==> CalmThief(machine, machine.thieves[k], 1))
    }

    /** The rest of a batch once its size n is known: read n slots, then compete for all of them at once. */
    method BatchTake(ghost k: nat, out: array<T>, t: int, n: nat, ghost alone: bool)
      returns (r: nat, ghost low: int, ghost others: bool)
      requires Valid() && Reading(k, t, n, []) && out != buffer.data && n <= out.Length
      modifies this, buffer.data, out
      ensures Valid() && k in machine.thieves && machine.thieves[k] == Resting
      ensures (r == n && top == t + n) || (r == 0 && top > t)
      ensures TakenBy(trace, k) == TakenBy(old(trace), k) + out[..r]
      ensures r > 0 ==> trace != [] && trace[|trace| - 1] == Stolen(k, out[..r])
      ensures steady == (others && (r == 0 || t + r <= low)) && (others ==> old(steady))
      ensures n <= 1 && others ==> steady
      ensures old(history) <= history && |old(machine).slots| > 0
      ensures alone && old(top) == t ==>
        && r == n && low == old(machine).thieves[k].low && others == old(steady)
        && forall j :: 0 <= j < n ==> out[j] == Slot(old(machine), t + j)
    {
      hide Explains, Reached, Sound, Observe, OwnerEvents, TakenBy, Steady;
      Nonempty();
      var i := 0;
      while i < n
        invariant 0 <= i <= n && out != buffer.data
        invariant buffer == old(buffer) || (fresh(buffer) && fresh(buffer.data))
        invariant Valid() && Reading(k, t, n, out[..i]) && (steady ==> old(steady))
        invariant TakenBy(trace, k) == TakenBy(old(trace), k) && old(history) <= history
        invariant alone ==> machine == old(machine).(thieves := machine.thieves) && steady == old(steady)
        invariant alone ==> machine.thieves[k].low == old(machine).thieves[k].low
        invariant alone ==> forall j :: 0 <= j < i ==> out[j] == Slot(old(machine), t + j)
      {
        YieldToOthers(k, alone);
        i := ReadOne(k, out, t, n, i);
      }
      YieldToOthers(k, alone);
      others := steady;
      r, low := Commit(k, t, n, out[..n]);
    }

    method ReadOne(ghost k: nat, out: array<T>, t: int, ghost n: nat, i: nat) returns (j: nat)
      requires Valid() && i < n <= out.Length && Reading(k, t, n, out[..i]) && out != buffer.data
      modifies `machine, `trace, `steady, `history, out
      ensures Valid() && j == i + 1 && Reading(k, t, n, out[..j]) && steady == old(steady)
      ensures TakenBy(trace, k) == TakenBy(old(trace), k) && old(history) <= history
      ensures machine == old(machine).(thieves := machine.thieves) && |machine.slots| > 0
      ensures machine.thieves[k].low == old(machine).thieves[k].low
      ensures out[..i] == old(out[..i]) && out[i] == Slot(machine, t + i)
    {
      hide Explains, Reached, Sound, Observe, OwnerEvents, TakenBy;
      ThiefIndex(machine, k);
      Nonempty();
      ghost var before := out[..i];
      out[i] := buffer.Get(t + i);
      ThiefDid(k);
      assert out[..i + 1] == before + [out[i]];
      j := i + 1;
    }

    /** The compare-and-exchange that takes the whole batch, if top is still where it was loaded. */
    method Commit(ghost k: nat, t: int, n: nat, ghost out: seq<T>) returns (r: nat, ghost low: int)
      requires Valid() && Reading(k, t, n, out) && |out| == n
      modifies `top, `machine, `trace, `steady, `history
      ensures Valid() && k in machine.thieves && machine.thieves[k] == Resting
      ensures (r == n && top == t + n) || (r == 0 && top > t)
      ensures old(top) == t ==> r == n
      ensures TakenBy(trace, k) == TakenBy(old(trace), k) + out[..r]
      ensures r > 0 ==> trace != [] && trace[|trace| - 1] == Stolen(k, out[..r])
      ensures steady == (old(steady) && (r == 0 || t + r <= low)) && low == old(machine).thieves[k].low
      ensures n <= 1 && old(steady) ==> steady
      ensures old(history) <= history
    {
      hide Explains, Reached, Sound, Observe, OwnerEvents, TakenBy;
      ThiefIndex(machine, k);
      low := machine.thieves[k].low;
      if top == t {
        top := t + n;
        r := n;
      } else {
        r := 0;
      }
      ThiefDid(k);
    }
  }
}
