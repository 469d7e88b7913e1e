/**
 The channel's code in its own form, for one sender and one receiver. Each side yields to the other
 around every access to shared state; a ghost machine follows the real fields.
 */
module Channels {
  import opened BoundedFifo
  import opened ChannelProtocol
  import CircularBuffer
  import opened Options
  import opened Traces
  import opened WaitQueue

  datatype SendResult<M> = Ok | Full(rejected: M) | Closed(rejected: M)

  datatype Poll<T> = Ready(result: T) | Pending

  ghost predicate BySender<M>(a: Action<M>) {
    a.BeginSend? || a.SenderStep?
  }

  /** The receiver leaves the sender's view alone, and the other way round. */
  ghost predicate SameSide<M>(s: Channel<M>, f: Channel<M>, sender: bool) {
    && |f.slots| == |s.slots|
    && if sender then f.sender == s.sender && f.sendPos == s.sendPos && f.sent == s.sent && f.len <= s.len
       else f.receiver == s.receiver && f.recvPos == s.recvPos && f.received == s.received && s.len <= f.len
  }

  lemma OtherSideStep<M>(s: Channel<M>, a: Action<M>, sender: bool)
    requires Inv(s) && Enabled(s, a) && BySender(a) != sender
    ensures SameSide(s, Apply(s, a), sender) && Side([EventOf(s, a)], sender) == []
  {
    SideOne(EventOf(s, a), sender);
  }

  lemma {:induction false} OtherSideRun<M>(s: Channel<M>, acts: seq<Action<M>>, sender: bool)
    requires Inv(s) && Run(s, acts) && forall a <- acts :: BySender(a) != sender
    ensures SameSide(s, Exec(s, acts), sender) && Side(Trace(s, acts), sender) == []
    decreases |acts|
  {
    if acts != [] {
      StepRefines(s, acts[0]);
      OtherSideStep(s, acts[0], sender);
      OtherSideRun(Apply(s, acts[0]), acts[1..], sender);
      CollectConcat([EventOf(s, acts[0])], Trace(Apply(s, acts[0]), acts[1..]), PartOf(sender));
    }
  }

  lemma Counts<M>(s: Channel<M>)
    requires Inv(s)
    ensures |s.slots| > 0 && CountsOk(s)
  {
  }

  /** What a send and a receive future have in common: a wait node, and whether it was handed to the queue. */
  class Waiting {
    const node: WaitNode
    var registered: bool
    /** How often the other side has taken the node out of the queue. */
    ghost var wakes: nat

    ghost predicate Consistent()
      reads this, node
    {
      node.linked ==> registered
    }

    constructor ()
      ensures !registered && fresh(node) && !node.linked && Consistent()
    {
      node := new WaitNode();
      registered, wakes := false, 0;
    }

    /** At any time the other side, if there is one, may wake the node: it is then unlinked and its waker taken. */
    method MayBeWoken(ghost alone: bool)
      requires Consistent()
      modifies node, `wakes
      ensures Consistent() && (node.linked ==> old(node.linked))
      ensures wakes == old(wakes) + if node.linked == old(node.linked) then 0 else 1
      ensures node.linked == old(node.linked) ==> node.waker == old(node.waker)
      ensures alone ==> node.linked == old(node.linked)
    {
    }

    /** Leave the waker, and link the node unless that was done before. */
    method Park(cx: Waker)
      requires Consistent()
      modifies `registered, node
      ensures Consistent() && registered && node.waker == Some(cx)
      ensures node.linked == if old(registered) then old(node.linked) else true
    {
      node.waker := Some(cx);
      if !registered {
        node.linked := true;
        registered := true;
      }
    }

    /** Take the node out of the queue if it was ever handed to it. */
    method Leave()
      requires Consistent()
      modifies `registered, node
      ensures Consistent() && !registered && !node.linked
    {
      if registered {
        node.linked := false;
        registered := false;
      }
    }
  }

  class ChannelInner<M(!new)> {
    const capacity: nat
    const occupied: array<bool>
    const data: array<Option<M>>
    var sendPos: nat
    var recvPos: nat
    var len: int
    var closed: bool
    /** How often wake_one was called on the queue of waiting receivers, and of waiting senders. */
    var recvWakes: nat
    var sendWakes: nat
    ghost var machine: Channel<M>
    ghost var trace: seq<Event<M>>

    ghost predicate Synced()
      reads this, occupied, data
    {
      && capacity == occupied.Length == data.Length == |machine.slots|
      && occupied as object != data
      && machine.sendPos == sendPos && machine.recvPos == recvPos && machine.len == len && !closed
      && forall i :: 0 <= i < capacity ==> machine.slots[i] == Slot(occupied[i], data[i])
    }

    ghost predicate Explained()
      reads this
    {
      Inv(machine) && SpecRun(|machine.slots|, [], trace, Contents(machine))
    }

    ghost predicate Valid()
      reads this, occupied, data
    {
      Synced() && Explained()
    }

    constructor (capacity: nat)
      requires capacity > 0
      ensures Valid() && this.capacity == capacity && fresh(occupied) && fresh(data)
      ensures Contents(machine) == [] && machine.sent == [] && machine.received == []
      ensures machine.sender.Quiet? && machine.receiver.Quiet? && trace == []
    {
      this.capacity := capacity;
      var occ := new bool[capacity];
      var values := new Option<M>[capacity];
      var i := 0;
      while i < capacity
        invariant 0 <= i <= capacity
        invariant forall j :: 0 <= j < i ==> !occ[j] && values[j] == None
      {
        occ[i], values[i] := false, None;
        i := i + 1;
      }
      occupied, data := occ, values;
      sendPos, recvPos, len, closed := 0, 0, 0, false;
      recvWakes, sendWakes := 0, 0;
      machine := Channel(seq(capacity, j => Slot(false, None)), 0, 0, 0, Sender.Quiet, Receiver.Quiet, [], []);
      trace := [];
      new;
      InitInv(machine);
    }

    ghost method Did(a: Action<M>)
      requires Explained() && Enabled(machine, a)
      modifies `machine, `trace
      ensures Explained() && |machine.slots| == |old(machine).slots| && |machine.slots| > 0
      ensures machine == Apply(old(machine), a)
      ensures forall p :: Side(trace, p) == Side(old(trace), p) + Side([EventOf(old(machine), a)], p)
    {
      var e := EventOf(machine, a);
      var cap, q := |machine.slots|, Contents(machine);
      StepRefines(machine, a);
      forall p ensures Side(trace + [e], p) == Side(trace, p) + Side([e], p) {
        CollectConcat(trace, [e], PartOf(p));
      }
      machine := Apply(machine, a);
      LeadsOne(Bounded(cap), q, e, Contents(machine));
      LeadsConcat(Bounded(cap), [], trace, q, [e], Contents(machine));
      trace := trace + [e];
    }

    /** Any finite number of actions of the other side; none if there is no other side. */
    method OtherSideActs(ghost sender: bool, ghost alone: bool) returns (ghost acts: seq<Action<M>>)
      requires Valid()
      modifies `sendPos, `recvPos, `len, `sendWakes, `recvWakes, `machine, `trace, occupied, data
      ensures if sender then recvWakes == old(recvWakes) else sendWakes == old(sendWakes)
      ensures alone ==> acts == []
      ensures Valid() && (forall a <- acts :: BySender(a) != sender)
      ensures Run(old(machine), acts) && machine == Exec(old(machine), acts)
      ensures trace == old(trace) + Trace(old(machine), acts)
    {
      acts := [];
    }

    method Yield(ghost sender: bool, ghost alone: bool := false)
      requires Valid()
      modifies `sendPos, `recvPos, `len, `sendWakes, `recvWakes, `machine, `trace, occupied, data
      ensures Valid() && SameSide(old(machine), machine, sender)
      ensures if sender then recvWakes == old(recvWakes) else sendWakes == old(sendWakes)
      ensures alone ==> machine == old(machine)
      ensures Side(trace, sender) == Side(old(trace), sender)
    {
      ghost var before, was := machine, trace;
      ghost var acts := OtherSideActs(sender, alone);
      OtherSideRun(before, acts, sender);
      CollectConcat(was, Trace(before, acts), PartOf(sender));
    }

    /** Send, or give the value back when the channel was full at the load of len; it is never closed. */
    method TrySend(msg: M, ghost alone: bool := false) returns (r: SendResult<M>)
      requires Valid() && machine.sender.Quiet?
      modifies `sendPos, `recvPos, `len, `sendWakes, `recvWakes, `machine, `trace, occupied, data
      ensures Valid() && machine.sender.Quiet?
      ensures r == Ok || r == SendResult.Full(msg)
      ensures machine.sent == old(machine.sent) + if r.Ok? then [msg] else []
      ensures Side(trace, true) == Side(old(trace), true) + [if r.Ok? then Sent(msg) else Event.Full]
      ensures recvWakes == old(recvWakes) + if r.Ok? then 1 else 0
      ensures alone ==> (r.Ok? <==> old(len) < capacity)
    {
      hide Inv, SpecRun, SlotOk, SlotsOk, Contents, Side, SpecStep;
      SideOne<M>(Silent, true);
      SideOne<M>(Event.Full, true);
      if closed {
        assert false;
      }
      Did(BeginSend(msg));
      Yield(true, alone);
      var seen := len;
      Did(SenderStep);
      if seen >= capacity {
        return SendResult.Full(msg);
      }
      SendFinish(msg);
      WakeOne(true);
      r := Ok;
    }

    /** The last access of a send, or of a receive: wake_one on the other side's queue. */
    method WakeOne(sender: bool)
      requires Valid()
      modifies `sendPos, `recvPos, `len, `sendWakes, `recvWakes, `machine, `trace, occupied, data
      ensures Valid() && SameSide(old(machine), machine, sender) && Side(trace, sender) == Side(old(trace), sender)
      ensures if sender then recvWakes == old(recvWakes) + 1 else sendWakes == old(sendWakes) + 1
    {
      Yield(sender);
      if sender {
        recvWakes := recvWakes + 1;
      } else {
        sendWakes := sendWakes + 1;
      }
    }

    /** The rest of a send that saw room: claim a position, write, mark, count. */
    method SendFinish(msg: M)
      requires Valid() && machine.sender == SendClaim(msg)
      modifies `sendPos, `recvPos, `len, `sendWakes, `recvWakes, `machine, `trace, occupied, data
      ensures Valid() && machine.sender.Quiet?
      ensures machine.sent == old(machine.sent) + [msg]
      ensures recvWakes == old(recvWakes)
      ensures Side(trace, true) == Side(old(trace), true) + [Sent(msg)]
    {
      hide Inv, SpecRun, SlotOk, SlotsOk, Contents, Side, SpecStep;
      SideOne<M>(Silent, true);
      Yield(true);
      Counts(machine);
      var pos := sendPos;
      sendPos := pos + 1;
      Did(SenderStep);
      Yield(true);
      Fill(msg, pos);
    }

    /** The end of a send: write the value into the claimed slot, mark it live, count it in. */
    method Fill(msg: M, pos: nat)
      requires Valid() && machine.sender == SendWrite(msg, pos) && capacity > 0
      modifies `sendPos, `recvPos, `len, `sendWakes, `recvWakes, `machine, `trace, occupied, data
      ensures Valid() && machine.sender.Quiet?
      ensures machine.sent == old(machine.sent) + [msg]
      ensures recvWakes == old(recvWakes)
      ensures Side(trace, true) == Side(old(trace), true) + [Sent(msg)]
    {
      hide Inv, SpecRun, SlotOk, SlotsOk, Contents, Side, SpecStep;
      SideOne<M>(Silent, true);
      SideOne(Sent(msg), true);
      var idx := pos % capacity;
      data[idx] := Some(msg);
      Did(SenderStep);
      Yield(true);
      occupied[idx] := true;
      Did(SenderStep);
      Yield(true);
      len := len + 1;
      Did(SenderStep);
    }

    /** The load of len that decides whether a receive goes ahead. */
    method LookRecv(ghost alone: bool := false) returns (some: bool)
      requires Valid() && machine.receiver.Quiet?
      modifies `sendPos, `recvPos, `len, `sendWakes, `recvWakes, `machine, `trace, occupied, data
      ensures Valid() && machine.received == old(machine.received)
      ensures machine.receiver == if some then RecvClaim else Receiver.Quiet
      ensures Side(trace, false) == Side(old(trace), false) + if some then [] else [Empty]
      ensures sendWakes == old(sendWakes)
      ensures alone ==> (some <==> old(len) > 0) && (!some ==> len == old(len))
    {
      hide Inv, SpecRun, SlotOk, SlotsOk, Contents, Side, SpecStep;
      SideOne<M>(Silent, false);
      SideOne<M>(Empty, false);
      Yield(false, alone);
      Counts(machine);
      some := len > 0;
      Did(BeginRecv);
    }

    /** Receive, or None when the channel was empty at the load of len. */
    method TryRecv(ghost alone: bool := false) returns (r: Option<M>)
      requires Valid() && machine.receiver.Quiet?
      modifies `sendPos, `recvPos, `len, `sendWakes, `recvWakes, `machine, `trace, occupied, data
      ensures Valid() && machine.receiver.Quiet?
      ensures machine.received == old(machine.received) + if r.Some? then [r] else []
      ensures Side(trace, false) == Side(old(trace), false) + [if r.Some? then Received(r) else Empty]
      ensures sendWakes == old(sendWakes) + if r.Some? then 1 else 0
      ensures alone ==> (r.Some? <==> old(len) > 0) && (r.None? ==> len == old(len))
    {
      hide Inv, SpecRun, SlotOk, SlotsOk, Contents, Side, SpecStep;
      var some := LookRecv(alone);
      if !some {
        if closed {
          assert false;
        }
        return None;
      }
      r := RecvFinish();
      WakeOne(false);
    }

    /** The rest of a receive that saw a value: claim a position, free the slot, read, count. */
    method RecvFinish() returns (r: Option<M>)
      requires Valid() && machine.receiver == RecvClaim
      modifies `sendPos, `recvPos, `len, `sendWakes, `recvWakes, `machine, `trace, occupied, data
      ensures Valid() && machine.receiver.Quiet? && r.Some?
      ensures machine.received == old(machine.received) + [r]
      ensures sendWakes == old(sendWakes)
      ensures Side(trace, false) == Side(old(trace), false) + [Received(r)]
    {
      hide Inv, SpecRun, SlotOk, SlotsOk, Contents, Side, SpecStep;
      SideOne<M>(Silent, false);
      Yield(false);
      Counts(machine);
      var pos := recvPos;
      recvPos := pos + 1;
      Did(ReceiverStep);
      Yield(false);
      r := TakeOut(pos);
    }

    /** The end of a receive: free the claimed slot, read its value, count it out. */
    method TakeOut(pos: nat) returns (r: Option<M>)
      requires Valid() && machine.receiver == RecvClear(pos) && capacity > 0
      modifies `sendPos, `recvPos, `len, `sendWakes, `recvWakes, `machine, `trace, occupied, data
      ensures Valid() && machine.receiver.Quiet? && r.Some?
      ensures machine.received == old(machine.received) + [r]
      ensures sendWakes == old(sendWakes)
      ensures Side(trace, false) == Side(old(trace), false) + [Received(r)]
    {
      hide Inv, SpecRun, SlotOk, SlotsOk, Contents, Side, SpecStep;
      SideOne<M>(Silent, false);
      var idx := pos % capacity;
      occupied[idx] := false;
      Did(ReceiverStep);
      Yield(false);
      r := data[idx];
      ClaimsAreFree(machine);
      Did(ReceiverStep);
      SideOne(Received(r), false);
      Yield(false);
      len := len - 1;
      Did(ReceiverStep);
    }

    /**
     Poll a send: the value goes in, or stays with the future, which leaves its waker in its node. The
     node is linked when the future first parks; one that has been woken since is not linked again.
     */
    method PollSend(value: Option<M>, place: Waiting, cx: Waker, ghost alone: bool)
      returns (r: Poll<SendResult<M>>, kept: Option<M>)
      requires Valid() && machine.sender.Quiet? && place.Consistent()
      modifies `sendPos, `recvPos, `len, `sendWakes, `recvWakes, `machine, `trace, occupied, data, place, place.node
      ensures Valid() && machine.sender.Quiet? && place.Consistent()
      ensures (r == Ready(Ok) && value.Some? && kept == None) || (r == Pending && kept == value)
      ensures machine.sent == old(machine.sent) + if r.Ready? then [value.value] else []
      ensures Side(trace, true) == Side(old(trace), true) +
        if r.Ready? then [Sent(value.value)] else if value.Some? then [Event.Full] else []
      ensures recvWakes == old(recvWakes) + if r.Ready? then 1 else 0
      ensures alone && value.Some? ==> (r.Ready? <==> old(len) < capacity)
      ensures r.Ready? ==> !place.registered && !place.node.linked
      ensures r.Pending? ==> place.registered && place.node.waker == Some(cx)
      ensures r.Pending? && !old(place.registered) ==> place.node.linked
      ensures r.Pending? && old(place.registered) ==>
        place.node.linked == (old(place.node.linked) && place.wakes == old(place.wakes))
      ensures alone ==> place.wakes == old(place.wakes)
    {
      hide Side, Valid;
      place.MayBeWoken(alone);
      if value.Some? {
        var sent := TrySend(value.value, alone);
        place.MayBeWoken(alone);
        if sent.Ok? {
          place.Leave();
          return Ready(Ok), None;
        }
      }
      place.Park(cx);
      return Pending, value;
    }

    /**
     Poll a receive: after finding the channel empty the future parks and looks once more. A future that
     stays pending is in the queue with its waker, unless the other side has taken its node out since it
     was linked.
     */
    method PollRecv(place: Waiting, cx: Waker, ghost alone: bool) returns (r: Poll<Option<M>>, ghost missed: bool)
      requires Valid() && machine.receiver.Quiet? && place.Consistent()
      modifies `sendPos, `recvPos, `len, `sendWakes, `recvWakes, `machine, `trace, occupied, data, place, place.node
      ensures Valid() && machine.receiver.Quiet? && place.Consistent()
      ensures r.Ready? ==> r.result.Some? && machine.received == old(machine.received) + [r.result]
      ensures r.Pending? ==> missed && machine.received == old(machine.received)
      ensures Side(trace, false) == Side(old(trace), false) + (if missed then [Empty] else [])
                                  + [if r.Ready? then Received(r.result) else Empty]
      ensures sendWakes == old(sendWakes) + if r.Ready? then 1 else 0
      ensures alone ==> (r.Ready? <==> old(len) > 0)
      ensures r.Ready? ==> !place.registered && !place.node.linked
      ensures r.Pending? ==> place.registered && (place.node.linked ==> place.node.waker == Some(cx))
      ensures r.Pending? && place.wakes == old(place.wakes) ==>
        place.node.waker == Some(cx) && place.node.linked == (old(place.registered) ==> old(place.node.linked))
      ensures r.Pending? && old(place.registered) && !old(place.node.linked) ==> !place.node.linked
      ensures alone ==> place.wakes == old(place.wakes)
    {
      hide Side, Valid;
      place.MayBeWoken(alone);
      var first := TryRecv(alone);
      place.MayBeWoken(alone);
      missed := first.None?;
      if first.Some? {
        place.Leave();
        return Ready(first), missed;
      }
      place.Park(cx);
      place.MayBeWoken(alone);
      var some := LookRecv(alone);
      if some {
        place.MayBeWoken(alone);
        place.Leave();
        var second := RecvFinish();
        WakeOne(false);
        return Ready(second), missed;
      }
      place.MayBeWoken(alone);
      return Pending, missed;
    }
  }
}
