/**
 The oneshot channel as a transition system: one action per atomic access to the state, access to
 a cell, wake-up, or reference-count change. One sender, one receiver that is polled any number of
 times until it is ready; either may be dropped.
 */
module Oneshot {
  import opened Options

  datatype State = EMPTY | WAITING | READY | CONSUMED | CLOSED

  datatype Sender<V, W> =
    | Holding
    | SendStore(v: V)        // next: store the value
    | SendLoad(tries: nat)   // next: load the state, for the (tries + 1)st time
    | SendCas(tries: nat)    // saw EMPTY; next: compare-and-swap EMPTY -> READY
    | SendReady              // saw WAITING; next: store READY
    | SendTake               // next: take the waker
    | DropLoad               // dropped unsent; next: load the state
    | DropClose              // next: store CLOSED
    | DropTake               // next: take the waker
    | Wake(waker: W)         // next: fire the waker just taken
    | SenderRelease          // next: decrement the reference count
    | SenderFree             // the count was 1; next: free the box
    | SenderGone
    | SenderPanic            // an unreachable! was reached

  datatype Receiver<V, W> =
    | Parked                 // between polls
    | PollLoad(w: W)         // next: load the state
    | PollStore(w: W)        // saw EMPTY or WAITING; next: store the waker
    | PollCas(w: W)          // first registration; next: compare-and-swap EMPTY -> WAITING
    | PollRecheck(w: W)      // next: load the state again
    | PollConsume            // saw READY; next: store CONSUMED
    | PollTake               // next: take the value
    | Finished               // the future returned Ready
    | ReceiverRelease
    | ReceiverFree
    | ReceiverGone
    | ReceiverPanic

  datatype Channel<V, W> = Channel(
    state: State,
    value: Option<V>,
    waker: Option<W>,
    refcount: nat,
    sender: Sender<V, W>,
    receiver: Receiver<V, W>,
    registered: bool,
    log: History<V, W>)

  datatype History<V, W> = History(
    sent: Option<V>,        // the value given to send
    dropSawWaiting: bool,   // what the load in the sender's drop saw
    delivered: seq<V>,      // values returned by polls
    closed: bool,           // a poll returned Closed
    pending: Option<W>,     // the waker of the last poll, if that returned Pending
    fired: seq<W>,          // wakers fired
    frees: nat)             // times the box was freed

  datatype Action<V, W> =
    | Send(v: V) | DropSender | SenderStep
    | Poll(w: W) | DropReceiver | ReceiverStep

  /** A fresh pair: one reference from the allocation, one from the clone. */
  ghost predicate Init<V, W>(s: Channel<V, W>) {
    s == Channel(EMPTY, None, None, 2, Holding, Parked, false, History(None, false, [], false, None, [], 0))
  }

  ghost predicate Enabled<V, W>(s: Channel<V, W>, a: Action<V, W>) {
    match a
    case Send(_) => s.sender.Holding?
    case DropSender => s.sender.Holding?
    case SenderStep => !s.sender.Holding? && !s.sender.SenderGone? && !s.sender.SenderPanic?
    case Poll(_) => s.receiver.Parked?
    case DropReceiver => s.receiver.Parked? || s.receiver.Finished?
    case ReceiverStep =>
      !s.receiver.Parked? && !s.receiver.Finished? && !s.receiver.ReceiverGone? && !s.receiver.ReceiverPanic?
  }

  /** An unsigned decrement; below zero it would wrap. */
  function Decrement(n: nat): nat {
    if n == 0 then 0xFFFF_FFFF else n - 1
  }

  function SenderMove<V, W>(s: Channel<V, W>): Channel<V, W> {
    match s.sender
    case SendStore(v) => s.(value := Some(v), sender := SendLoad(0))
    case SendLoad(n) => (
      match s.state
      case EMPTY => s.(sender := SendCas(n))
      case WAITING => s.(sender := SendReady)
      case _ => s.(sender := SenderPanic))
    case SendCas(n) =>
      if s.state == EMPTY
      then s.(state := READY, sender := SenderRelease)
      else s.(sender := SendLoad(n + 1))
    case SendReady => s.(state := READY, sender := SendTake)
    case SendTake => TakeWaker(s)
    case DropLoad => (
      match s.state
      case WAITING => s.(sender := DropClose, log := s.log.(dropSawWaiting := true))
      case EMPTY => s.(sender := DropClose, log := s.log.(dropSawWaiting := false))
      case _ => s.(sender := SenderRelease))
    case DropClose =>
      s.(state := CLOSED, sender := if s.log.dropSawWaiting then DropTake else SenderRelease)
    case DropTake => TakeWaker(s)
    case Wake(w) => s.(sender := SenderRelease, log := s.log.(fired := s.log.fired + [w]))
    case SenderRelease =>
      s.(refcount := Decrement(s.refcount), sender := if s.refcount == 1 then SenderFree else SenderGone)
    case SenderFree => s.(sender := SenderGone, log := s.log.(frees := s.log.frees + 1))
    case _ => s
  }

  function TakeWaker<V, W>(s: Channel<V, W>): Channel<V, W> {
    match s.waker
    case Some(w) => s.(waker := None, sender := Wake(w))
    case None => s.(sender := SenderRelease)
  }

  function ReceiverMove<V, W>(s: Channel<V, W>): Channel<V, W> {
    match s.receiver
    case PollLoad(w) => (
      match s.state
      case READY => s.(receiver := PollConsume)
      case CLOSED => s.(receiver := Finished, log := s.log.(closed := true))
      case CONSUMED => s.(receiver := ReceiverPanic)
      case _ => s.(receiver := PollStore(w)))
    case PollStore(w) =>
      s.(waker := Some(w), receiver := if s.registered then PollRecheck(w) else PollCas(w))
    case PollCas(w) =>
      s.(state := if s.state == EMPTY then WAITING else s.state, registered := true, receiver := PollRecheck(w))
    case PollRecheck(w) => (
      match s.state
      case READY => s.(receiver := PollConsume)
      case CLOSED => s.(receiver := Finished, log := s.log.(closed := true))
      case _ => s.(receiver := Parked, log := s.log.(pending := Some(w))))
    case PollConsume => s.(state := CONSUMED, receiver := PollTake)
    case PollTake => (
      match s.value
      case Some(v) => s.(value := None, receiver := Finished, log := s.log.(delivered := s.log.delivered + [v]))
      case None => s.(receiver := ReceiverPanic))
    case ReceiverRelease =>
      s.(refcount := Decrement(s.refcount), receiver := if s.refcount == 1 then ReceiverFree else ReceiverGone)
    case ReceiverFree => s.(receiver := ReceiverGone, log := s.log.(frees := s.log.frees + 1))
    case _ => s
  }

  function Apply<V, W>(s: Channel<V, W>, a: Action<V, W>): Channel<V, W> {
    match a
    case Send(v) => s.(sender := SendStore(v), log := s.log.(sent := Some(v)))
    case DropSender => s.(sender := DropLoad)
    case SenderStep => SenderMove(s)
    case Poll(w) => s.(receiver := PollLoad(w), log := s.log.(pending := None))
    case DropReceiver => s.(receiver := ReceiverRelease)
    case ReceiverStep => ReceiverMove(s)
  }

  // ---- the invariant ----

  /** The sender still has its reference. */
  predicate SenderHolds<V, W>(s: Channel<V, W>) {
    !s.sender.SenderFree? && !s.sender.SenderGone?
  }

  predicate ReceiverHolds<V, W>(s: Channel<V, W>) {
    !s.receiver.ReceiverFree? && !s.receiver.ReceiverGone?
  }

  function Count(b: bool): nat {
    if b then 1 else 0
  }

  ghost predicate CountsOk<V, W>(s: Channel<V, W>) {
    && s.refcount == Count(SenderHolds(s)) + Count(ReceiverHolds(s))
    && s.log.frees + Count(s.sender.SenderFree?) + Count(s.receiver.ReceiverFree?) == Count(s.refcount == 0)
  }

  /** The sender has not yet decided the outcome. */
  predicate Undecided<V, W>(s: Channel<V, W>) {
    || s.sender.Holding? || s.sender.SendStore? || s.sender.SendLoad? || s.sender.SendCas?
    || s.sender.SendReady? || s.sender.DropLoad? || s.sender.DropClose?
  }

  /** The sender has stored the value and not yet published it. */
  predicate Offering<V, W>(s: Channel<V, W>) {
    s.sender.SendLoad? || s.sender.SendCas? || s.sender.SendReady?
  }

  ghost predicate SenderOk<V, W>(s: Channel<V, W>) {
    && !s.sender.SenderPanic?
    && (Undecided(s) <==> s.state == EMPTY || s.state == WAITING)
    && (s.state == READY || s.state == CONSUMED ==> s.log.sent.Some?)
    && (s.state == CLOSED ==> s.log.sent.None? && s.value.None?)
    && (Undecided(s) || s.sender.SendTake? || s.sender.DropTake? || s.sender.Wake? ==> s.log.fired == [])
    && (s.sender.Holding? || s.sender.DropLoad? || s.sender.DropClose? ==> s.log.sent.None? && s.value.None?)
    && (s.sender.SendStore? ==> s.log.sent == Some(s.sender.v) && s.value.None?)
    && (Offering(s) ==> s.log.sent.Some? && s.value == s.log.sent)
    && (s.sender.SendLoad? ==> s.sender.tries <= 1 && (s.sender.tries == 1 ==> s.state == WAITING))
    && (s.sender.SendCas? ==> s.sender.tries == 0)
    && (s.sender.SendReady? ==> s.state == WAITING)
    && (s.sender.SendTake? ==> s.state != CLOSED)
    && (s.sender.DropClose? && s.log.dropSawWaiting ==> s.state == WAITING)
    && (s.sender.DropTake? ==> s.state == CLOSED && s.log.dropSawWaiting)
    && (s.state == CLOSED && !s.log.dropSawWaiting ==> !s.sender.Wake? && s.log.fired == [])
  }

  ghost predicate ReceiverOk<V, W>(s: Channel<V, W>) {
    && !s.receiver.ReceiverPanic?
    && (s.state == WAITING ==> s.registered)
    && (s.registered ==> s.state != EMPTY)
    && (s.state == READY ==> s.value == s.log.sent)
    && (s.log.closed ==> s.state == CLOSED)
    && (s.log.delivered == [] || (s.state == CONSUMED && s.log.sent.Some? && s.log.delivered == [s.log.sent.value]))
    && (s.state == CONSUMED || s.log.closed ==>
          s.receiver.PollTake? || s.receiver.Finished? || s.receiver.ReceiverRelease? || !ReceiverHolds(s))
    && (s.receiver.PollCas? ==> !s.registered && (s.state == EMPTY ==> s.waker == Some(s.receiver.w)))
    && (s.receiver.PollRecheck? ==> s.registered && (s.state == WAITING ==> s.waker == Some(s.receiver.w)))
    && (s.receiver.PollConsume? ==> s.state == READY)
    && (s.receiver.PollTake? ==> s.state == CONSUMED && s.value == s.log.sent && s.log.delivered == [])
  }

  /** The waker of the last poll, when that poll returned Pending, is stored, about to be fired, or fired. */
  ghost predicate WakeOk<V, W>(s: Channel<V, W>) {
    s.log.pending.Some? ==>
      var w := s.log.pending.value;
      && s.state != EMPTY && s.registered
      && (s.state == WAITING ==> s.waker == Some(w))
      && (s.state == READY ==> Promised(s, w))
      && (s.state == CLOSED && s.log.dropSawWaiting ==> Promised(s, w))
  }

  ghost predicate Promised<V, W>(s: Channel<V, W>, w: W) {
    || w in s.log.fired
    || s.sender == Wake(w)
    || ((s.sender.SendTake? || s.sender.DropTake?) && s.waker == Some(w))
  }

  /** A pending waker is remembered only between polls. */
  ghost predicate PendingOk<V, W>(s: Channel<V, W>) {
    s.log.pending.Some? ==>
      s.receiver.Parked? || s.receiver.ReceiverRelease? || s.receiver.ReceiverFree? || s.receiver.ReceiverGone?
  }

  ghost predicate Inv<V, W>(s: Channel<V, W>) {
    CountsOk(s) && SenderOk(s) && ReceiverOk(s) && WakeOk(s) && PendingOk(s)
  }

  lemma InitInv<V, W>(s: Channel<V, W>)
    requires Init(s)
    ensures Inv(s)
  {
  }

  lemma SenderKeepsCounts<V, W>(s: Channel<V, W>)
    requires Inv(s) && Enabled(s, SenderStep)
    ensures CountsOk(SenderMove(s))
  {
    hide SenderOk, ReceiverOk, WakeOk, PendingOk;
  }

  lemma SenderKeepsSender<V, W>(s: Channel<V, W>)
    requires Inv(s) && Enabled(s, SenderStep)
    ensures SenderOk(SenderMove(s))
  {
    hide CountsOk, ReceiverOk, WakeOk, PendingOk;
  }

  lemma SenderKeepsReceiver<V, W>(s: Channel<V, W>)
    requires Inv(s) && Enabled(s, SenderStep)
    ensures ReceiverOk(SenderMove(s))
  {
    hide CountsOk, WakeOk, PendingOk;
  }

  lemma SenderKeepsWake<V, W>(s: Channel<V, W>)
    requires Inv(s) && Enabled(s, SenderStep)
    ensures WakeOk(SenderMove(s)) && PendingOk(SenderMove(s))
  {
    hide CountsOk;
  }

  lemma SenderKeeps<V, W>(s: Channel<V, W>)
    requires Inv(s) && Enabled(s, SenderStep)
    ensures Inv(SenderMove(s))
  {
    SenderKeepsCounts(s);
    SenderKeepsSender(s);
    SenderKeepsReceiver(s);
    SenderKeepsWake(s);
  }

  lemma ReceiverKeepsCounts<V, W>(s: Channel<V, W>)
    requires Inv(s) && Enabled(s, ReceiverStep)
    ensures CountsOk(ReceiverMove(s))
  {
    hide SenderOk, ReceiverOk, WakeOk, PendingOk;
  }

  lemma ReceiverKeepsSender<V, W>(s: Channel<V, W>)
    requires Inv(s) && Enabled(s, ReceiverStep)
    ensures SenderOk(ReceiverMove(s))
  {
    hide CountsOk, WakeOk, PendingOk;
  }

  lemma ReceiverKeepsReceiver<V, W>(s: Channel<V, W>)
    requires Inv(s) && Enabled(s, ReceiverStep)
    ensures ReceiverOk(ReceiverMove(s))
  {
    hide CountsOk, WakeOk, PendingOk;
  }

  lemma ReceiverKeepsWake<V, W>(s: Channel<V, W>)
    requires Inv(s) && Enabled(s, ReceiverStep)
    ensures WakeOk(ReceiverMove(s)) && PendingOk(ReceiverMove(s))
  {
    hide CountsOk;
  }

  lemma ReceiverKeeps<V, W>(s: Channel<V, W>)
    requires Inv(s) && Enabled(s, ReceiverStep)
    ensures Inv(ReceiverMove(s))
  {
    ReceiverKeepsCounts(s);
    ReceiverKeepsSender(s);
    ReceiverKeepsReceiver(s);
    ReceiverKeepsWake(s);
  }

  lemma BeginKeeps<V, W>(s: Channel<V, W>, a: Action<V, W>)
    requires Inv(s) && Enabled(s, a) && !a.SenderStep? && !a.ReceiverStep?
    ensures Inv(Apply(s, a))
  {
  }

  lemma StepKeeps<V, W>(s: Channel<V, W>, a: Action<V, W>)
    requires Inv(s) && Enabled(s, a)
    ensures Inv(Apply(s, a))
  {
    hide Inv;
    match a {
      case SenderStep => SenderKeeps(s);
      case ReceiverStep => ReceiverKeeps(s);
      case Send(_) => BeginKeeps(s, a);
      case DropSender => BeginKeeps(s, a);
      case Poll(_) => BeginKeeps(s, a);
      case DropReceiver => BeginKeeps(s, a);
    }
  }

  ghost predicate Run<V, W>(s: Channel<V, W>, acts: seq<Action<V, W>>)
    decreases |acts|
  {
    acts == [] || (Enabled(s, acts[0]) && Run(Apply(s, acts[0]), acts[1..]))
  }

  function Exec<V, W>(s: Channel<V, W>, acts: seq<Action<V, W>>): Channel<V, W>
    requires Run(s, acts)
    decreases |acts|
  {
    if acts == [] then s else Exec(Apply(s, acts[0]), acts[1..])
  }

  lemma {:induction false} RunKeeps<V, W>(s: Channel<V, W>, acts: seq<Action<V, W>>)
    requires Inv(s) && Run(s, acts)
    ensures Inv(Exec(s, acts))
    decreases |acts|
  {
    hide Inv;
    if acts != [] {
      StepKeeps(s, acts[0]);
      RunKeeps(Apply(s, acts[0]), acts[1..]);
    }
  }

  /**
   In every interleaving: the value is delivered at most once and is the one sent; Closed is
   returned only for a sender dropped unsent, and never beside a value; no unreachable! is reached;
   the send loop starts at most twice; a value is taken only where there is one.
   */
  lemma DeliversOnce<V, W>(s: Channel<V, W>, acts: seq<Action<V, W>>)
    requires Init(s) && Run(s, acts)
    ensures var f := Exec(s, acts);
      && |f.log.delivered| <= 1
      && (forall v <- f.log.delivered :: f.log.sent == Some(v))
      && (f.log.closed ==> f.log.sent == None && !f.sender.Holding? && f.log.delivered == [])
      && !f.sender.SenderPanic? && !f.receiver.ReceiverPanic?
      && (f.sender.SendLoad? || f.sender.SendCas? ==> f.sender.tries <= 1)
      && (f.receiver.PollTake? ==> f.value.Some?)
  {
    RunKeeps(s, acts);
  }

  /** The box is freed exactly once, when both parties are through, and nobody touches it afterwards. */
  lemma FreedOnce<V, W>(s: Channel<V, W>, acts: seq<Action<V, W>>)
    requires Init(s) && Run(s, acts)
    ensures var f := Exec(s, acts);
      && f.log.frees == (if f.sender.SenderGone? && f.receiver.ReceiverGone? then 1 else 0)
      && f.refcount == Count(SenderHolds(f)) + Count(ReceiverHolds(f))
      && (f.sender.SenderFree? || f.receiver.ReceiverFree? ==> f.log.frees == 0 && f.refcount == 0)
  {
    RunKeeps(s, acts);
  }

  /**
   No lost wake-up after send: when the last poll returned Pending and the state is READY, the
   waker of that poll has been fired, or the sender is about to take or fire exactly that one; once
   the sender is through it has been fired. Re-polls may have replaced the waker at any time.
   */
  lemma SendWakesReceiver<V, W>(s: Channel<V, W>, acts: seq<Action<V, W>>)
    requires Init(s) && Run(s, acts)
    ensures var f := Exec(s, acts);
      f.log.pending.Some? && f.state == READY ==>
        Promised(f, f.log.pending.value) && (f.sender.SenderGone? ==> f.log.pending.value in f.log.fired)
  {
    RunKeeps(s, acts);
  }

  /** A drop of the sender whose load sees, or has seen, the receiver waiting. */
  ghost predicate WillWake<V, W>(s: Channel<V, W>) {
    && !s.sender.Holding? && s.log.sent.None?
    && if s.sender.DropLoad? then s.state == WAITING else s.log.dropSawWaiting
  }

  lemma WillWakeStep<V, W>(s: Channel<V, W>, a: Action<V, W>)
    requires SenderOk(s) && ReceiverOk(s) && WillWake(s) && Enabled(s, a)
    ensures WillWake(Apply(s, a))
  {
  }

  lemma {:induction false} WillWakeStays<V, W>(s: Channel<V, W>, acts: seq<Action<V, W>>)
    requires Inv(s) && WillWake(s) && Run(s, acts)
    ensures Inv(Exec(s, acts)) && WillWake(Exec(s, acts))
    decreases |acts|
  {
    if acts != [] {
      hide CountsOk, SenderOk, ReceiverOk, WakeOk, PendingOk, WillWake, Enabled, Apply;
      StepKeeps(s, acts[0]);
      WillWakeStep(s, acts[0]);
      WillWakeStays(Apply(s, acts[0]), acts[1..]);
    }
  }

  /** A drop of the sender whose load has seen nobody waiting. */
  ghost predicate WillNotWake<V, W>(s: Channel<V, W>) {
    !s.sender.Holding? && !s.sender.DropLoad? && s.log.sent.None? && !s.log.dropSawWaiting
  }

  lemma WillNotWakeStep<V, W>(s: Channel<V, W>, a: Action<V, W>)
    requires SenderOk(s) && ReceiverOk(s) && WillNotWake(s) && Enabled(s, a)
    ensures WillNotWake(Apply(s, a))
  {
  }

  lemma {:induction false} WillNotWakeStays<V, W>(s: Channel<V, W>, acts: seq<Action<V, W>>)
    requires Inv(s) && WillNotWake(s) && Run(s, acts)
    ensures Inv(Exec(s, acts)) && WillNotWake(Exec(s, acts))
    decreases |acts|
  {
    if acts != [] {
      hide CountsOk, SenderOk, ReceiverOk, WakeOk, PendingOk, WillNotWake, Enabled, Apply;
      StepKeeps(s, acts[0]);
      WillNotWakeStep(s, acts[0]);
      WillNotWakeStays(Apply(s, acts[0]), acts[1..]);
    }
  }

  lemma NeverBoth<V, W>(s: Channel<V, W>)
    requires WillNotWake(s)
    ensures !WillWake(s)
  {
  }

  lemma DropLoads<V, W>(s: Channel<V, W>)
    requires Inv(s) && s.sender.DropLoad?
    ensures s.state == EMPTY || s.state == WAITING
    ensures if s.state == WAITING then WillWake(SenderMove(s)) else WillNotWake(SenderMove(s))
  {
  }

  lemma DropSettled<V, W>(s: Channel<V, W>)
    requires Inv(s) && s.sender.SenderGone? && (WillWake(s) || WillNotWake(s))
    ensures s.state == CLOSED
    ensures s.log.pending.Some? ==> (s.log.pending.value in s.log.fired <==> WillWake(s))
  {
  }

  /**
   When the sender was dropped unsent and is through, a receiver left Pending has been woken if
   and only if the state was WAITING at the load in the sender's drop: the EMPTY branch stores CLOSED
   over a registration that came in between and wakes nobody.
   */
  lemma DropWakesIffWaiting<V, W>(s: Channel<V, W>, acts: seq<Action<V, W>>, more: seq<Action<V, W>>)
    requires Init(s) && Run(s, acts) && Exec(s, acts).sender.DropLoad?
    requires Run(Apply(Exec(s, acts), SenderStep), more)
    ensures var m, f := Exec(s, acts), Exec(Apply(Exec(s, acts), SenderStep), more);
      && (m.state == EMPTY || m.state == WAITING)
      && (f.sender.SenderGone? ==> f.state == CLOSED)
      && (f.sender.SenderGone? && f.log.pending.Some? ==>
            (f.log.pending.value in f.log.fired <==> m.state == WAITING))
  {
    hide Inv, WillWake, WillNotWake, SenderMove;
    InitInv(s);
    RunKeeps(s, acts);
    var m := Exec(s, acts);
    DropLoads(m);
    StepKeeps(m, SenderStep);
    var f := Exec(Apply(m, SenderStep), more);
    if m.state == WAITING {
      WillWakeStays(Apply(m, SenderStep), more);
    } else {
      WillNotWakeStays(Apply(m, SenderStep), more);
      NeverBoth(f);
    }
    if f.sender.SenderGone? {
      DropSettled(f);
    }
  }

  /** A receiver that is waiting when the sender is dropped is woken, whatever it does meanwhile. */
  lemma DropWakesWaiting<V, W>(s: Channel<V, W>, acts: seq<Action<V, W>>, more: seq<Action<V, W>>)
    requires Init(s) && Run(s, acts) && Exec(s, acts).sender.Holding? && Exec(s, acts).state == WAITING
    requires Run(Apply(Exec(s, acts), DropSender), more)
    ensures var f := Exec(Apply(Exec(s, acts), DropSender), more);
      f.sender.SenderGone? && f.log.pending.Some? ==> f.log.pending.value in f.log.fired
  {
    RunKeeps(s, acts);
    StepKeeps(Exec(s, acts), DropSender);
    WillWakeStays(Apply(Exec(s, acts), DropSender), more);
  }

  /** The failing case does occur: the receiver stays Pending on a closed channel, never woken. */
  lemma DropCanLoseWake<V, W>(s: Channel<V, W>, w: W) returns (acts: seq<Action<V, W>>, f: Channel<V, W>)
    requires Init(s)
    ensures Run(s, acts) && f == Exec(s, acts)
    ensures f.state == CLOSED && f.sender.SenderGone? && f.receiver.Parked?
    ensures f.log.pending == Some(w) && f.log.fired == []
  {
    acts, f := Go(s, [], s, DropSender);
    acts, f := Go(s, acts, f, SenderStep);
    assert f.sender == DropClose && f.state == EMPTY;
    acts, f := Go(s, acts, f, Poll(w));
    acts, f := Go(s, acts, f, ReceiverStep);
    acts, f := Go(s, acts, f, ReceiverStep);
    acts, f := Go(s, acts, f, ReceiverStep);
    assert f.state == WAITING && f.receiver == PollRecheck(w);
    acts, f := Go(s, acts, f, ReceiverStep);
    acts, f := Go(s, acts, f, SenderStep);
    acts, f := Go(s, acts, f, SenderStep);
  }

  lemma {:induction false} Extend<V, W>(s: Channel<V, W>, acts: seq<Action<V, W>>, a: Action<V, W>)
    requires Run(s, acts) && Enabled(Exec(s, acts), a)
    ensures Run(s, acts + [a]) && Exec(s, acts + [a]) == Apply(Exec(s, acts), a)
    decreases |acts|
  {
    var more := acts + [a];
    if acts == [] {
      assert more[1..] == [];
    } else {
      Extend(Apply(s, acts[0]), acts[1..], a);
      assert more[1..] == acts[1..] + [a];
    }
  }

  lemma Go<V, W>(s: Channel<V, W>, acts: seq<Action<V, W>>, f: Channel<V, W>, a: Action<V, W>)
    returns (acts': seq<Action<V, W>>, f': Channel<V, W>)
    requires Run(s, acts) && f == Exec(s, acts) && Enabled(f, a)
    ensures Run(s, acts') && f' == Exec(s, acts') && f' == Apply(f, a)
  {
    Extend(s, acts, a);
    acts', f' := acts + [a], Apply(f, a);
  }
}
