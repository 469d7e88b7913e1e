/**
 The ring's code in its own form. Each side yields to the other around every access to shared
 state; a ghost machine follows the real fields.
 */
module IpcRing {
  import opened BoundedFifo
  import CircularBuffer
  import opened Options
  import opened RingProtocol
  import opened Traces

  ghost predicate ByProducer<M>(a: Action<M>) {
    a.BeginSend? || a.ProducerStep?
  }

  /** The consumer leaves the producer's view alone, and the other way round. */
  ghost predicate SameSide<M>(s: Ring<M>, f: Ring<M>, producer: bool) {
    && |f.slots| == |s.slots|
    && if producer then f.producer == s.producer && f.head == s.head && f.sent == s.sent && s.tail <= f.tail
       else f.consumer == s.consumer && f.tail == s.tail && f.received == s.received && s.sent <= f.sent
  }

  lemma OtherSideStep<M>(s: Ring<M>, a: Action<M>, producer: bool)
    requires Inv(s) && Enabled(s, a) && ByProducer(a) != producer
    ensures SameSide(s, Apply(s, a), producer) && Side([EventOf(s, a)], producer) == []
  {
    SideOne(EventOf(s, a), producer);
  }

  lemma {:induction false} OtherSideRun<M>(s: Ring<M>, acts: seq<Action<M>>, producer: bool)
    requires Inv(s) && Run(s, acts) && forall a <- acts :: ByProducer(a) != producer
    ensures SameSide(s, Exec(s, acts), producer) && Side(Trace(s, acts), producer) == []
    decreases |acts|
  {
    if acts != [] {
      StepRefines(s, acts[0]);
      OtherSideStep(s, acts[0], producer);
      OtherSideRun(Apply(s, acts[0]), acts[1..], producer);
      CollectConcat([EventOf(s, acts[0])], Trace(Apply(s, acts[0]), acts[1..]), PartOf(producer));
    }
  }

  lemma Bounds<M>(s: Ring<M>)
    requires Inv(s)
    ensures |s.slots| > 0 && s.tail <= s.head <= s.tail + |s.slots| && PartiesOk(s) && |s.sent| == s.head
  {
  }

  class SpscRing<M(!new)> {
    const capacity: nat
    ghost const logCap: nat
    const occupied: array<nat>
    const message: array<Option<M>>
    var head: nat
    var tail: nat
    ghost var machine: Ring<M>
    ghost var trace: seq<Event<M>>

    ghost predicate Synced()
      reads this, occupied, message
    {
      && capacity == CircularBuffer.Pow2(logCap) == occupied.Length == message.Length == |machine.slots|
      && occupied as object != message
      && machine.head == head && machine.tail == tail
      && forall i :: 0 <= i < capacity ==> machine.slots[i] == Slot(occupied[i], message[i])
    }

    ghost predicate Explained()
      reads this
    {
      Inv(machine) && SpecRun(|machine.slots|, [], trace, Contents(machine))
    }

    ghost predicate Valid()
      reads this, occupied, message
    {
      Synced() && Explained()
    }

    constructor (capacity: nat, ghost k: nat)
      requires capacity == CircularBuffer.Pow2(k)
      ensures Valid() && this.capacity == capacity && fresh(occupied) && fresh(message)
      ensures Contents(machine) == [] && machine.sent == [] && machine.received == []
      ensures machine.producer.Quiet? && machine.consumer.Quiet? && trace == []
    {
      this.capacity, logCap := capacity, k;
      var occ := new nat[capacity];
      var msgs := new Option<M>[capacity];
      var i := 0;
      while i < capacity
        invariant 0 <= i <= capacity
        invariant forall j :: 0 <= j < i ==> occ[j] == 0 && msgs[j] == None
      {
        occ[i], msgs[i] := 0, None;
        i := i + 1;
      }
      occupied, message := occ, msgs;
      head, tail := 0, 0;
      machine := Ring(seq(capacity, j => Slot(0, None)), 0, 0, Producer.Quiet, Consumer.Quiet, [], []);
      trace := [];
      new;
      InitInv(machine);
    }

    ghost method Did(a: Action<M>)
      requires Explained() && Enabled(machine, a)
      modifies `machine, `trace
      ensures Explained() && |machine.slots| == |old(machine).slots| && |machine.slots| > 0
      ensures machine == Apply(old(machine), a)
      ensures forall p :: Side(trace, p) == Side(old(trace), p) + Side([EventOf(old(machine), a)], p)
    {
      var e := EventOf(machine, a);
      var cap, q := |machine.slots|, Contents(machine);
      StepRefines(machine, a);
      forall p ensures Side(trace + [e], p) == Side(trace, p) + Side([e], p) {
        CollectConcat(trace, [e], PartOf(p));
      }
      machine := Apply(machine, a);
      LeadsOne(Bounded(cap), q, e, Contents(machine));
      LeadsConcat(Bounded(cap), [], trace, q, [e], Contents(machine));
      trace := trace + [e];
    }

    /** Any finite number of actions of the other side; none when the caller owns the ring alone. */
    method OtherSideActs(ghost producer: bool, ghost alone: bool) returns (ghost acts: seq<Action<M>>)
      requires Valid()
      modifies `head, `tail, `machine, `trace, occupied, message
      ensures Valid() && (forall a <- acts :: ByProducer(a) != producer)
      ensures Run(old(machine), acts) && machine == Exec(old(machine), acts)
      ensures trace == old(trace) + Trace(old(machine), acts)
      ensures alone ==> acts == []
    {
      acts := [];
    }

    method Yield(ghost producer: bool, ghost alone: bool)
      requires Valid()
      modifies `head, `tail, `machine, `trace, occupied, message
      ensures Valid() && SameSide(old(machine), machine, producer)
      ensures Side(trace, producer) == Side(old(trace), producer)
      ensures alone ==> machine == old(machine)
    {
      ghost var before, was := machine, trace;
      ghost var acts := OtherSideActs(producer, alone);
      OtherSideRun(before, acts, producer);
      CollectConcat(was, Trace(before, acts), PartOf(producer));
    }

    /** Enqueue, or give the message back when the ring was full at the load of tail. */
    method TrySend(msg: M) returns (ok: bool)
      requires Valid() && machine.producer.Quiet?
      modifies `head, `tail, `machine, `trace, occupied, message
      ensures Valid() && machine.producer.Quiet?
      ensures machine.sent == old(machine.sent) + if ok then [msg] else []
      ensures Side(trace, true) == Side(old(trace), true) + [if ok then Sent(msg) else Full]
    {
      hide Inv, SpecRun, SlotOk, Contents, Side, SpecStep;
      SideOne<M>(Silent, true);
      SideOne(Sent(msg), true);
      SideOne<M>(Full, true);
      var h := head;
      Did(BeginSend(msg));
      Yield(true, false);
      var t := tail;
      Bounds(machine);
      var available := capacity - (h - t);
      Did(ProducerStep);
      if available == 0 {
        return false;
      }
      Yield(true, false);
      SendFinish(msg, h);
      ok := true;
    }

    /** The slot of a position, as the code computes it. */
    method Index(i: nat) returns (idx: nat)
      requires Synced() && capacity > 0
      ensures idx < capacity && idx == i % capacity
    {
      CircularBuffer.MaskIsModulo(i, logCap);
      idx := CircularBuffer.And(i, capacity - 1);
    }

    /** The rest of a send that saw room at position h: write, mark, publish. */
    method SendFinish(msg: M, h: nat)
      requires Valid() && machine.producer == SendWrite(msg, h) && h == head
      modifies `head, `tail, `machine, `trace, occupied, message
      ensures Valid() && machine.producer.Quiet?
      ensures machine.sent == old(machine.sent) + [msg]
      ensures Side(trace, true) == Side(old(trace), true) + [Sent(msg)]
    {
      hide Inv, SpecRun, SlotOk, Contents, Side, SpecStep;
      SideOne<M>(Silent, true);
      SideOne(Sent(msg), true);
      Bounds(machine);
      var idx := Index(h);
      message[idx] := Some(msg);
      Did(ProducerStep);
      Yield(true, false);
      occupied[idx] := 1;
      Did(ProducerStep);
      Yield(true, false);
      head := h + 1;
      Did(ProducerStep);
    }

    /**
     Dequeue, or None when the ring was empty at the load of head. Alone, as in `drop`, nobody
     else touches the ring.
     */
    method TryRecv(ghost alone: bool) returns (r: Option<M>)
      requires Valid() && machine.consumer.Quiet?
      modifies `head, `tail, `machine, `trace, occupied, message
      ensures Valid() && machine.consumer.Quiet?
      ensures machine.received == old(machine.received) + if r.Some? then [r] else []
      ensures Side(trace, false) == Side(old(trace), false) + [if r.Some? then Received(r) else Empty]
      ensures alone ==> machine.sent == old(machine.sent) && (r.None? <==> old(tail) == old(head))
      ensures tail == old(tail) + if r.Some? then 1 else 0
      ensures alone ==> head == old(head) && machine.producer == old(machine.producer)
    {
      hide Inv, SpecRun, SlotOk, Contents, Side, SpecStep;
      SideOne<M>(Silent, false);
      SideOne<M>(Empty, false);
      var t := tail;
      Did(BeginRecv);
      Yield(false, alone);
      var h := head;
      Did(ConsumerStep);
      if t == h {
        return None;
      }
      r := RecvFinish(t, alone);
    }

    /** The rest of a receive that saw a message at position t: wait for the mark, take, clear, publish. */
    method RecvFinish(t: nat, ghost alone: bool) returns (r: Option<M>)
      requires Valid() && machine.consumer == RecvWait(t) && t == tail
      modifies `head, `tail, `machine, `trace, occupied, message
      ensures Valid() && machine.consumer.Quiet? && r.Some?
      ensures machine.received == old(machine.received) + [r] && tail == t + 1
      ensures Side(trace, false) == Side(old(trace), false) + [Received(r)]
      ensures alone ==> machine.sent == old(machine.sent) && head == old(head)
      ensures alone ==> machine.producer == old(machine.producer)
    {
      hide Inv, SpecRun, SlotOk, Contents, Side, SpecStep;
      SideOne<M>(Silent, false);
      Bounds(machine);
      Yield(false, alone);
      var idx := Index(t);
      while occupied[idx] == 0
        invariant Valid() && machine.consumer == RecvWait(t) && tail == t && idx == t % capacity
        invariant machine.received == old(machine.received)
        invariant Side(trace, false) == Side(old(trace), false)
        invariant alone ==> machine.sent == old(machine.sent) && head == old(head)
        invariant alone ==> machine.producer == old(machine.producer)
        decreases if occupied[idx] == 0 then 1 else 0
      {
        Did(ConsumerStep);
        Yield(false, alone);
        NeverSpinsNeverLoses(machine);
      }
      Did(ConsumerStep);
      Yield(false, alone);
      r := TakeOut(t, idx, alone);
    }

    /** The end of a receive: take the message, clear the mark, publish the free slot. */
    method TakeOut(t: nat, idx: nat, ghost alone: bool) returns (r: Option<M>)
      requires Valid() && machine.consumer == RecvTake(t) && t == tail && capacity > 0 && idx == t % capacity
      modifies `head, `tail, `machine, `trace, occupied, message
      ensures Valid() && machine.consumer.Quiet? && r.Some?
      ensures machine.received == old(machine.received) + [r] && tail == t + 1
      ensures Side(trace, false) == Side(old(trace), false) + [Received(r)]
      ensures alone ==> machine.sent == old(machine.sent) && head == old(head)
      ensures alone ==> machine.producer == old(machine.producer)
    {
      hide Inv, SpecRun, SlotOk, Contents, Side, SpecStep;
      SideOne<M>(Silent, false);
      Bounds(machine);
      r := message[idx];
      message[idx] := None;
      NeverSpinsNeverLoses(machine);
      Did(ConsumerStep);
      SideOne(Received(r), false);
      Yield(false, alone);
      occupied[idx] := 0;
      Did(ConsumerStep);
      Yield(false, alone);
      tail := t + 1;
      Did(ConsumerStep);
    }

    /** Dropping the ring takes out every message still queued, in order, and leaves it empty. */
    method Drain() returns (dropped: seq<Option<M>>)
      requires Valid() && machine.consumer.Quiet?
      modifies `head, `tail, `machine, `trace, occupied, message
      ensures Valid() && tail == head == old(head)
      ensures machine.sent == old(machine.sent) && machine.received == old(machine.received) + dropped
      ensures |dropped| == |Contents(old(machine))|
      ensures forall i :: 0 <= i < |dropped| ==> dropped[i] == Some(Contents(old(machine))[i])
    {
      hide SpecRun, SlotOk, Side, SpecStep;
      dropped := [];
      var more := true;
      while more
        invariant Valid() && machine.consumer.Quiet? && head == old(head) && tail <= head
        invariant machine.sent == old(machine.sent) && machine.received == old(machine.received) + dropped
        invariant !more ==> tail == head
        decreases head - tail, more
      {
        var r := TryRecv(true);
        more := r.Some?;
        if more {
          dropped := dropped + [r];
        }
      }
    }
  }
}
