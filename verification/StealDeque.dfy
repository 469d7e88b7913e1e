/**
 The work-stealing deque as a transition system: one action per atomic load, store or
 compare-and-swap, per slot access and per buffer replacement, under sequential consistency.
 One owner pushes and pops at `bottom`; any number of thieves advance `top`.
 */
module StealDeque {
  import opened CircularBuffer
  import opened Numbers
  import opened Options

  /** Where the owner stands inside `push` or `pop`, with the locals it holds there. */
  datatype Owner<T> =
    | Idle
    | PushTop(val: T, b: int)       // bottom loaded; next: load top
    | PushCopy(val: T, b: int, t: int, i: int, spare: seq<T>)  // growing; next: copy index i, or install
    | PushPut(val: T, b: int)       // next: write slot b
    | PushPublish(val: T, b: int)   // next: store bottom := b + 1
    | PopLower(b: int)              // next: store bottom := b
    | PopTop(b: int)                // next: load top
    | PopRead(b: int, t: int)       // t <= b; next: read slot b
    | PopCas(b: int, t: int, val: T)  // t == b; next: compare-and-swap top
    | PopRaise(b: int, res: Option<T>)  // next: store bottom := b + 1 and return res

  /** Where a thief stands inside `steal` or `steal_batch`. */
  datatype Thief<T> =
    | Resting
    | StealBottom(t: int)           // top loaded; next: load bottom
    | StealRead(t: int)             // saw t < bottom; next: read slot t
    | StealCas(t: int, val: T)      // next: compare-and-swap top
    | BatchBottom(t: int, room: nat)  // top loaded; next: load bottom
    // Reading n slots, then compare-and-swap top. History: `low` is the least owner end
    // since bottom was loaded.
    | BatchRead(t: int, n: nat, out: seq<T>, low: int)

  datatype Deque<T> = Deque(
    bottom: int,
    top: int,
    slots: seq<T>,
    owner: Owner<T>,
    thieves: map<nat, Thief<T>>,
    pushed: seq<T>,     // history: values whose push has published
    returned: seq<T>)   // history: values handed to callers

  const MIN_CAPACITY := 64
  const MAX_STEAL_BATCH := 128

  datatype Action<T> =
    | BeginPush(val: T)             // load bottom
    | BeginPop                      // load bottom
    | OwnerStep(junk: seq<T>)       // junk: what freshly allocated memory holds
    | BeginSteal(k: nat)            // load top
    | BeginBatch(k: nat, room: nat) // load top; room = length of the output slice
    | ThiefStep(k: nat)

  /** A new deque: unwritten memory and any set of thieves, none of them stealing yet. */
  ghost predicate Init<T>(s: Deque<T>) {
    && s.bottom == 0 && s.top == 0
    && |s.slots| == MIN_CAPACITY
    && s.owner == Idle
    && (forall k <- s.thieves :: s.thieves[k] == Resting)
    && s.pushed == [] && s.returned == []
  }

  /**
   The owner's end of the deque. Between lowering `bottom` and deciding, a pop has not yet
   taken its element: the end is still one past it. It is taken once `top` was seen below it.
   */
  function End<T>(s: Deque<T>): int {
    match s.owner
    case PopTop(b) => b + 1
    case PopRead(b, t) => if t < b then b else b + 1
    case PopCas(b, _, _) => b + 1
    case PopRaise(b, _) => b + 1
    case _ => s.bottom
  }

  function Observe<T>(thieves: map<nat, Thief<T>>, end: int): map<nat, Thief<T>> {
    map k | k in thieves ::
      match thieves[k]
      case BatchRead(t, n, out, low) => BatchRead(t, n, out, Min(low, end))
      case other => other
  }

  ghost predicate Enabled<T>(s: Deque<T>, a: Action<T>) {
    match a
    case BeginPush(_) => s.owner == Idle
    case BeginPop => s.owner == Idle
    case OwnerStep(junk) => s.owner != Idle && |junk| == 2 * |s.slots|
    case BeginSteal(k) => k in s.thieves && s.thieves[k] == Resting
    case BeginBatch(k, _) => k in s.thieves && s.thieves[k] == Resting
    case ThiefStep(k) => k in s.thieves && s.thieves[k] != Resting
  }

  /** Indices that the code reduces modulo the capacity are never negative where this matters. */
  function Slot<T>(s: Deque<T>, i: int): T
    requires |s.slots| > 0
  {
    if i >= 0 then Get(s.slots, i) else s.slots[0]
  }

  function OwnerMove<T>(s: Deque<T>, junk: seq<T>): Deque<T>
    requires |s.slots| > 0 && |junk| == 2 * |s.slots|
  {
    match s.owner
    case Idle => s
    case PushTop(val, b) =>
      if b - s.top >= |s.slots|
      then s.(owner := PushCopy(val, b, s.top, s.top, junk))
      else s.(owner := PushPut(val, b))
    case PushCopy(val, b, t, i, spare) =>
      if i < b && 0 <= i && |spare| > 0
      then s.(owner := PushCopy(val, b, t, i + 1, Put(spare, i, Get(s.slots, i))))
      else s.(slots := spare, owner := PushPut(val, b))
    case PushPut(val, b) =>
      s.(slots := if b >= 0 then Put(s.slots, b, val) else s.slots, owner := PushPublish(val, b))
    case PushPublish(val, b) =>
      s.(bottom := b + 1, owner := Idle, pushed := s.pushed + [val])
    case PopLower(b) =>
      s.(bottom := b, owner := PopTop(b))
    case PopTop(b) =>
      if s.top <= b then s.(owner := PopRead(b, s.top)) else s.(owner := PopRaise(b, None))
    case PopRead(b, t) =>
      if t == b
      then s.(owner := PopCas(b, t, Slot(s, b)))
      else s.(owner := Idle, returned := s.returned + [Slot(s, b)])
    case PopCas(b, t, val) =>
      if s.top == t
      then s.(top := t + 1, owner := PopRaise(b, Some(val)))
      else s.(owner := PopRaise(b, None))
    case PopRaise(b, res) =>
      s.(bottom := b + 1, owner := Idle,
         returned := if res.Some? then s.returned + [res.value] else s.returned)
  }

  function ThiefMove<T>(s: Deque<T>, k: nat): Deque<T>
    requires |s.slots| > 0 && k in s.thieves
  {
    match s.thieves[k]
    case Resting => s
    case StealBottom(t) =>
      if t < s.bottom
      then s.(thieves := s.thieves[k := StealRead(t)])
      else s.(thieves := s.thieves[k := Resting])
    case StealRead(t) =>
      s.(thieves := s.thieves[k := StealCas(t, Slot(s, t))])
    case StealCas(t, val) =>
      if s.top == t
      then s.(top := t + 1, thieves := s.thieves[k := Resting], returned := s.returned + [val])
      else s.(thieves := s.thieves[k := Resting])
    case BatchBottom(t, room) =>
      if s.bottom - t <= 0
      then s.(thieves := s.thieves[k := Resting])
      else
        var n := Min(Min(s.bottom - t, room), MAX_STEAL_BATCH);
        s.(thieves := s.thieves[k := BatchRead(t, n, [], End(s))])
    case BatchRead(t, n, out, low) =>
      if |out| < n
      then s.(thieves := s.thieves[k := BatchRead(t, n, out + [Slot(s, t + |out|)], low)])
      else if s.top == t
      then s.(top := t + n, thieves := s.thieves[k := Resting], returned := s.returned + out)
      else s.(thieves := s.thieves[k := Resting])
  }

  function Apply<T>(s: Deque<T>, a: Action<T>): Deque<T>
    requires |s.slots| > 0 && Enabled(s, a)
  {
    match a
    case BeginPush(val) => s.(owner := PushTop(val, s.bottom))
    case BeginPop => s.(owner := PopLower(s.bottom - 1))
    case OwnerStep(junk) =>
      var s' := OwnerMove(s, junk);
      s'.(thieves := Observe(s.thieves, End(s')))
    case BeginSteal(k) => s.(thieves := s.thieves[k := StealBottom(s.top)])
    case BeginBatch(k, room) => s.(thieves := s.thieves[k := BatchBottom(s.top, room)])
    case ThiefStep(k) => ThiefMove(s, k)
  }

  /** What one action does at the level of a plain sequence. */
  datatype Event<T> =
    | Silent
    | Pushed(val: T)
    | Popped(val: T)
    | PoppedNothing
    | Stolen(thief: nat, vals: seq<T>)

  function EventOf<T>(s: Deque<T>, a: Action<T>): Event<T>
    requires |s.slots| > 0
  {
    match a
    case OwnerStep(_) => (
      match s.owner
      case PushPublish(val, b) => Pushed(val)
      case PopTop(b) =>
        if s.top < b then Popped(Slot(s, b)) else if s.top > b then PoppedNothing else Silent
      case PopCas(b, t, val) => if s.top == t then Popped(val) else PoppedNothing
      case _ => Silent)
    case ThiefStep(k) =>
      if k !in s.thieves then Silent else (
      match s.thieves[k]
      case StealCas(t, val) => if s.top == t then Stolen(k, [val]) else Silent
      case BatchRead(t, n, out, _) => if |out| == n && s.top == t then Stolen(k, out) else Silent
      case _ => Silent)
    case _ => Silent
  }

  ghost predicate SpecStep<T>(q: seq<T>, e: Event<T>, q': seq<T>) {
    match e
    case Silent => q' == q
    case Pushed(val) => q' == q + [val]
    case Popped(val) => q == q' + [val]
    case PoppedNothing => q == [] && q' == []
    case Stolen(_, vals) => q == vals + q'
  }

  /** A batch that commits to at least one element is steady when the owner's end never came into its range. */
  ghost predicate Steady<T>(s: Deque<T>, a: Action<T>) {
    a.ThiefStep? && a.k in s.thieves ==>
      match s.thieves[a.k]
      case BatchRead(t, n, out, low) => |out| == n && s.top == t ==> n == 0 || t + n <= low
      case _ => true
  }

  ghost function Contents<T>(s: Deque<T>): seq<T>
    requires |s.slots| > 0 && 0 <= s.top <= End(s)
  {
    Window(s.slots, s.top, End(s))
  }

  /** What a decided pop holds but has not yet returned. */
  ghost function InFlight<T>(s: Deque<T>): seq<T>
    requires |s.slots| > 0
  {
    match s.owner
    case PopRead(b, t) => if t < b then [Slot(s, b)] else []
    case PopRaise(_, Some(val)) => [val]
    case _ => []
  }

  /** Any sequence of actions the parties may take one after the other. */
  ghost predicate Run<T>(s: Deque<T>, acts: seq<Action<T>>)
    decreases |acts|
  {
    acts == [] || (|s.slots| > 0 && Enabled(s, acts[0]) && Run(Apply(s, acts[0]), acts[1..]))
  }

  function Exec<T>(s: Deque<T>, acts: seq<Action<T>>): Deque<T>
    requires Run(s, acts)
    decreases |acts|
  {
    if acts == [] then s else Exec(Apply(s, acts[0]), acts[1..])
  }

  function Trace<T>(s: Deque<T>, acts: seq<Action<T>>): seq<Event<T>>
    requires Run(s, acts)
    decreases |acts|
  {
    if acts == [] then [] else [EventOf(s, acts[0])] + Trace(Apply(s, acts[0]), acts[1..])
  }

  /** Every batch that commits in the run is steady. */
  ghost predicate AlwaysSteady<T>(s: Deque<T>, acts: seq<Action<T>>)
    requires Run(s, acts)
    decreases |acts|
  {
    acts == [] || (Steady(s, acts[0]) && AlwaysSteady(Apply(s, acts[0]), acts[1..]))
  }
}
