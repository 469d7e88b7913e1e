/**
 The oneshot channel's code in its own form. Each party yields to the other around every access to
 the shared box; a ghost machine follows the real fields.
 */
module OneshotChannel {
  import opened Oneshot
  import opened Options

  datatype SendResult<V> = SendOk | SendClosed(value: V)

  datatype Poll<V> = Pending | ReadyOk(value: V) | ReadyClosed

  predicate BySender<V, W>(a: Action<V, W>) {
    a.Send? || a.DropSender? || a.SenderStep?
  }

  /** One party's own part of the machine. */
  ghost predicate SameParty<V, W>(s: Channel<V, W>, f: Channel<V, W>, sender: bool) {
    if sender then
      && f.sender == s.sender && f.log.sent == s.log.sent && f.log.dropSawWaiting == s.log.dropSawWaiting
      && f.log.fired == s.log.fired
    else
      && f.receiver == s.receiver && f.registered == s.registered && f.log.delivered == s.log.delivered
      && f.log.closed == s.log.closed && f.log.pending == s.log.pending
  }

  lemma OtherStep<V, W>(s: Channel<V, W>, a: Action<V, W>, sender: bool)
    requires Enabled(s, a) && BySender(a) != sender
    ensures SameParty(s, Apply(s, a), sender)
  {
  }

  lemma {:induction false} OtherRun<V, W>(s: Channel<V, W>, acts: seq<Action<V, W>>, sender: bool)
    requires Run(s, acts) && forall a <- acts :: BySender(a) != sender
    ensures SameParty(s, Exec(s, acts), sender)
    decreases |acts|
  {
    if acts != [] {
      OtherStep(s, acts[0], sender);
      OtherRun(Apply(s, acts[0]), acts[1..], sender);
    }
  }

  lemma SenderFacts<V, W>(s: Channel<V, W>)
    requires Inv(s)
    ensures (s.sender.SendLoad? ==> (s.state == EMPTY || s.state == WAITING) && s.sender.tries <= 1)
    ensures (s.sender.SendLoad? && s.sender.tries == 1 ==> s.state == WAITING)
    ensures (s.sender.SenderRelease? && s.log.sent.Some? ==> s.state == READY || s.state == CONSUMED)
    ensures (s.sender.SenderGone? && s.log.sent.Some? ==> s.state == READY || s.state == CONSUMED)
    ensures (s.sender.DropLoad? ==> s.state == EMPTY || s.state == WAITING)
    ensures SenderHolds(s) ==> s.refcount > 0 && s.log.frees == 0
    ensures s.sender.SenderGone? && s.log.sent.None? ==> s.state == CLOSED
  {
  }

  /** What one party's actions leave of the state and of the other's decision. */
  ghost predicate SteadyStates<V, W>(s: Channel<V, W>, f: Channel<V, W>, sender: bool) {
    && (sender && s.state == WAITING && (s.sender.Holding? || s.sender.DropLoad?) ==> f.state == WAITING)
    && (!sender && (s.state == READY || s.state == CLOSED) ==> f.state == s.state)
  }

  lemma {:induction false} OtherRunStates<V, W>(s: Channel<V, W>, acts: seq<Action<V, W>>, sender: bool)
    requires Inv(s) && Run(s, acts) && forall a <- acts :: BySender(a) != sender
    ensures SteadyStates(s, Exec(s, acts), sender)
    decreases |acts|
  {
    if acts != [] {
      StepKeeps(s, acts[0]);
      OtherStep(s, acts[0], sender);
      OtherRunStates(Apply(s, acts[0]), acts[1..], sender);
    }
  }

  lemma DeliveredIsSent<V, W>(s: Channel<V, W>)
    requires Inv(s) && s.log.delivered != []
    ensures s.log.sent.Some? && s.log.delivered == [s.log.sent.value]
  {
  }

  lemma PendingStored<V, W>(s: Channel<V, W>)
    requires Inv(s) && s.log.pending.Some? && s.state == WAITING
    ensures s.waker == s.log.pending
  {
  }

  /** Once the sender is through, a receiver left pending has been woken, unless by a drop that did not see it. */
  lemma WakesSettled<V, W>(s: Channel<V, W>)
    requires Inv(s) && s.sender.SenderGone? && s.log.pending.Some?
    ensures s.state == READY ==> s.log.pending.value in s.log.fired
    ensures s.state == CLOSED ==> (s.log.pending.value in s.log.fired <==> s.log.dropSawWaiting)
  {
  }

  lemma CountsSettled<V, W>(s: Channel<V, W>)
    requires Inv(s)
    ensures s.refcount == Count(SenderHolds(s)) + Count(ReceiverHolds(s))
    ensures s.log.frees == if s.sender.SenderGone? && s.receiver.ReceiverGone? then 1 else 0
  {
  }

  lemma ReceiverFacts<V, W>(s: Channel<V, W>)
    requires Inv(s)
    ensures s.receiver.PollLoad? || s.receiver.PollRecheck? ==> s.state != CONSUMED
    ensures s.receiver.PollRecheck? ==> s.state != EMPTY
    ensures s.receiver.PollTake? ==> s.value.Some? && s.value == s.log.sent && s.log.delivered == []
    ensures ReceiverHolds(s) ==> s.refcount > 0 && s.log.frees == 0
  {
  }

  class SharedBox<V, W> {
    var refcount: nat
    var state: State
    var value: Option<V>
    var recvWaker: Option<W>
    var registered: bool      // the receiver's future's own field
    var woken: seq<W>         // what firing wakers has done so far
    var freed: nat            // how often the box was freed
    ghost var machine: Channel<V, W>

    ghost predicate Valid()
      reads this
    {
      && machine.state == state && machine.value == value && machine.waker == recvWaker
      && machine.refcount == refcount && machine.registered == registered
      && machine.log.fired == woken && machine.log.frees == freed
      && Inv(machine)
    }

    constructor ()
      ensures Valid() && Init(machine)
    {
      refcount, state, value, recvWaker, registered := 2, EMPTY, None, None, false;
      woken, freed := [], 0;
      machine := Channel(EMPTY, None, None, 2, Holding, Parked, false, History(None, false, [], false, None, [], 0));
    }

    ghost method Did(a: Action<V, W>)
      requires Inv(machine) && Enabled(machine, a)
      modifies `machine
      ensures Inv(machine) && machine == Apply(old(machine), a)
    {
      StepKeeps(machine, a);
      machine := Apply(machine, a);
    }

    /** Any finite number of actions of the other party. */
    method OtherActs(ghost sender: bool) returns (ghost acts: seq<Action<V, W>>)
      requires Valid()
      modifies this
      ensures Valid() && (forall a <- acts :: BySender(a) != sender)
      ensures Run(old(machine), acts) && machine == Exec(old(machine), acts)
    {
      acts := [];
    }

    method Yield(ghost sender: bool)
      requires Valid()
      modifies this
      ensures Valid() && SameParty(old(machine), machine, sender) && SteadyStates(old(machine), machine, sender)
    {
      ghost var before := machine;
      ghost var acts := OtherActs(sender);
      OtherRun(before, acts, sender);
      OtherRunStates(before, acts, sender);
    }

    /**
     Publish a value. Afterwards it is ready or has already been consumed, and a receiver left pending on
     it has been woken. It never fails, not even when the receiver is gone.
     */
    method Send(v: V) returns (r: SendResult<V>)
      requires Valid() && machine.sender.Holding?
      modifies this
      ensures Valid() && machine.sender.SenderGone? && machine.log.sent == Some(v) && r == SendOk
      ensures state == READY || state == CONSUMED
      ensures state == READY && machine.log.pending.Some? ==> machine.log.pending.value in woken
    {
      hide Inv;
      Did(Action.Send(v));
      Yield(true);
      value := Some(v);
      Did(SenderStep);
      var tries, done := 0, false;
      while !done
        invariant Valid() && machine.log.sent == Some(v) && tries <= 2
        invariant if done then machine.sender.SenderRelease? else machine.sender == SendLoad(tries) && tries <= 1
        decreases 2 - tries, !done
      {
        done := TryPublish(tries);
        tries := if done then tries else tries + 1;
      }
      Release(true);
      SenderFacts(machine);
      if machine.log.pending.Some? {
        WakesSettled(machine);
      }
      r := SendOk;
    }

    /** One round of the send loop: false when the receiver registered between the load and the swap. */
    method TryPublish(ghost tries: nat) returns (done: bool)
      requires Valid() && machine.sender == SendLoad(tries) && machine.log.sent.Some?
      modifies this
      ensures Valid() && machine.log.sent == old(machine.log.sent)
      ensures if done then machine.sender.SenderRelease? else machine.sender == SendLoad(tries + 1) && tries == 0
    {
      hide Inv;
      Yield(true);
      SenderFacts(machine);
      var seen := state;
      Did(SenderStep);
      if seen == EMPTY {
        Yield(true);
        done := state == EMPTY;
        if done {
          state := READY;
        }
        Did(SenderStep);
        SenderFacts(machine);
      } else {
        PublishToParked();
        done := true;
      }
    }

    /** The receiver was seen waiting: publish, then take and fire its waker. */
    method PublishToParked()
      requires Valid() && machine.sender == SendReady
      modifies this
      ensures Valid() && machine.sender.SenderRelease? && machine.log.sent == old(machine.log.sent)
    {
      hide Inv;
      Yield(true);
      state := READY;
      Did(SenderStep);
      Yield(true);
      FireWaker();
    }

    method FireWaker()
      requires Valid() && (machine.sender.SendTake? || machine.sender.DropTake?)
      modifies this
      ensures Valid() && machine.sender.SenderRelease? && machine.log.sent == old(machine.log.sent)
      ensures machine.log.dropSawWaiting == old(machine.log.dropSawWaiting)
      ensures woken == old(woken) + if old(recvWaker).Some? then [old(recvWaker).value] else []
    {
      hide Inv;
      var waker := recvWaker;
      recvWaker := None;
      Did(SenderStep);
      if waker.Some? {
        Yield(true);
        woken := woken + [waker.value];
        Did(SenderStep);
      }
    }

    /** Give up the party's reference; the last one frees the box. */
    method Release(ghost sender: bool)
      requires Valid() && if sender then machine.sender.SenderRelease? else machine.receiver.ReceiverRelease?
      modifies this
      ensures sender ==> machine.log.sent == old(machine.log.sent)
      ensures Valid() && if sender then machine.sender.SenderGone? else machine.receiver.ReceiverGone?
      ensures refcount == Count(SenderHolds(machine)) + Count(ReceiverHolds(machine))
      ensures freed == if machine.sender.SenderGone? && machine.receiver.ReceiverGone? then 1 else 0
      ensures sender ==> machine.log.dropSawWaiting == old(machine.log.dropSawWaiting)
    {
      hide Inv;
      var before := Unref(sender);
      if before == 1 {
        Yield(sender);
        freed := freed + 1;
        Did(if sender then SenderStep else ReceiverStep);
      }
      CountsSettled(machine);
    }

    method Unref(ghost sender: bool) returns (before: nat)
      requires Valid() && if sender then machine.sender.SenderRelease? else machine.receiver.ReceiverRelease?
      modifies this
      ensures sender ==> machine.log.sent == old(machine.log.sent)
      ensures sender ==> machine.log.dropSawWaiting == old(machine.log.dropSawWaiting)
      ensures Valid()
      ensures sender ==> machine.sender == if before == 1 then SenderFree else SenderGone
      ensures !sender ==> machine.receiver == if before == 1 then ReceiverFree else ReceiverGone
    {
      hide Inv;
      Yield(sender);
      SenderFacts(machine);
      ReceiverFacts(machine);
      before := refcount;
      refcount := refcount - 1;
      Did(if sender then SenderStep else ReceiverStep);
    }

    /**
     Drop the sender without sending: close the channel, and wake a receiver that was seen waiting. One
     that waits when the call begins is.
     */
    method DropSender() returns (ghost seen: State)
      requires Valid() && machine.sender.Holding?
      modifies this
      ensures Valid() && machine.sender.SenderGone? && state == CLOSED && machine.log.sent == None
      ensures machine.log.pending.Some? ==> (machine.log.pending.value in woken <==> seen == WAITING)
      ensures old(state) == WAITING ==> seen == WAITING
      ensures old(state) == WAITING && machine.log.pending.Some? ==> machine.log.pending.value in woken
    {
      hide Inv;
      assert machine.log.sent == None by {
        HoldingUnsent(machine);
      }
      Did(Action.DropSender);
      Yield(true);
      SenderFacts(machine);
      var loaded := state;
      seen := loaded;
      Did(SenderStep);
      CloseUnsent(loaded);
      Release(true);
      SenderFacts(machine);
      if machine.log.pending.Some? {
        WakesSettled(machine);
      }
    }

    /** Store CLOSED; the waker is fired only if the load saw a receiver waiting. */
    method CloseUnsent(seen: State)
      requires Valid() && machine.sender == DropClose && machine.log.dropSawWaiting == (seen == WAITING)
      modifies this
      ensures Valid() && machine.sender.SenderRelease?
      ensures machine.log.sent == old(machine.log.sent)
      ensures machine.log.dropSawWaiting == old(machine.log.dropSawWaiting)
    {
      hide Inv;
      Yield(true);
      state := CLOSED;
      Did(SenderStep);
      if seen == WAITING {
        Yield(true);
        FireWaker();
      }
    }

    lemma HoldingUnsent(s: Channel<V, W>)
      requires Inv(s) && s.sender.Holding?
      ensures s.log.sent == None
    {
    }

    /** One poll of the receiver's future with waker w. */
    method PollRecv(w: W) returns (r: Poll<V>)
      requires Valid() && machine.receiver.Parked?
      modifies this
      ensures Valid()
      ensures r.Pending? ==> machine.receiver.Parked? && machine.log.pending == Some(w)
      ensures r.Pending? ==> registered && state == WAITING && recvWaker == Some(w)
      ensures r.ReadyOk? ==> machine.receiver.Finished? && machine.log.delivered == [r.value]
      ensures r.ReadyOk? ==> machine.log.sent == Some(r.value)
      ensures r.ReadyClosed? ==> machine.receiver.Finished? && machine.log.closed && state == CLOSED
      ensures old(state) == READY ==> r.ReadyOk?
      ensures old(state) == CLOSED ==> r.ReadyClosed?
    {
      hide Inv;
      Did(Action.Poll(w));
      Yield(false);
      ReceiverFacts(machine);
      var seen := state;
      Did(ReceiverStep);
      if seen == READY {
        r := TakeValue();
      } else if seen == CLOSED {
        r := ReadyClosed;
      } else {
        var first := StoreWaker(w);
        r := Register(w, first);
      }
    }

    method StoreWaker(w: W) returns (first: bool)
      requires Valid() && machine.receiver == PollStore(w)
      modifies this
      ensures Valid() && first == !registered && machine.receiver == if first then PollCas(w) else PollRecheck(w)
    {
      hide Inv;
      Yield(false);
      recvWaker := Some(w);
      first := !registered;
      Did(ReceiverStep);
    }

    /** The end of a poll that stored its waker: register if this is the first time, then look again. */
    method Register(w: W, first: bool) returns (r: Poll<V>)
      requires Valid() && first == !registered
      requires machine.receiver == if first then PollCas(w) else PollRecheck(w)
      modifies this
      ensures Valid()
      ensures r.Pending? ==> machine.receiver.Parked? && machine.log.pending == Some(w)
      ensures r.Pending? ==> registered && state == WAITING && recvWaker == Some(w)
      ensures r.ReadyOk? ==> machine.receiver.Finished? && machine.log.delivered == [r.value]
      ensures r.ReadyOk? ==> machine.log.sent == Some(r.value)
      ensures r.ReadyClosed? ==> machine.receiver.Finished? && machine.log.closed && state == CLOSED
      ensures old(state) == READY ==> r.ReadyOk?
      ensures old(state) == CLOSED ==> r.ReadyClosed?
    {
      hide Inv;
      if first {
        AnnounceWaiting(w);
      }
      Yield(false);
      ReceiverFacts(machine);
      var again := state;
      Did(ReceiverStep);
      if again == READY {
        r := TakeValue();
      } else if again == CLOSED {
        r := ReadyClosed;
      } else {
        r := Pending;
        PendingStored(machine);
      }
    }

    /** The first registration: the compare and exchange from EMPTY to WAITING. */
    method AnnounceWaiting(w: W)
      requires Valid() && machine.receiver == PollCas(w)
      modifies this
      ensures Valid() && machine.receiver == PollRecheck(w) && registered
      ensures old(state) == READY || old(state) == CLOSED ==> state == old(state)
    {
      hide Inv;
      Yield(false);
      if state == EMPTY {
        state := WAITING;
      }
      registered := true;
      Did(ReceiverStep);
    }

    method TakeValue() returns (r: Poll<V>)
      requires Valid() && machine.receiver.PollConsume?
      modifies this
      ensures Valid() && machine.receiver.Finished?
      ensures r.ReadyOk? && machine.log.delivered == [r.value] && machine.log.sent == Some(r.value)
    {
      hide Inv;
      Yield(false);
      state := CONSUMED;
      Did(ReceiverStep);
      Yield(false);
      ReceiverFacts(machine);
      r := ReadyOk(value.value);
      value := None;
      Did(ReceiverStep);
      DeliveredIsSent(machine);
    }

    /** Drop the receiver, before or after its future is ready. */
    method DropReceiver()
      requires Valid() && (machine.receiver.Parked? || machine.receiver.Finished?)
      modifies this
      ensures Valid() && machine.receiver.ReceiverGone?
    {
      hide Inv;
      Did(Action.DropReceiver);
      Release(false);
    }
  }
}
