/**
 The single-producer single-consumer message ring as a transition system: one action per atomic
 load or store and per slot access.
 */
module RingProtocol {
  import opened BoundedFifo
  import opened CircularBuffer
  import opened Options
  import opened Traces

  datatype Slot<M> = Slot(occupied: nat, message: Option<M>)

  datatype Producer<M> =
    | Quiet
    | SendTail(msg: M, head: nat)     // head loaded; next: load tail
    | SendWrite(msg: M, head: nat)    // room seen; next: write the message
    | SendMark(msg: M, head: nat)     // next: store occupied := 1
    | SendPublish(msg: M, head: nat)  // next: store head + 1

  datatype Consumer<M> =
    | Quiet
    | RecvHead(tail: nat)             // tail loaded; next: load head
    | RecvWait(tail: nat)             // a message is due; next: load occupied, again while it is 0
    | RecvTake(tail: nat)             // next: take the message out of the slot
    | RecvClear(tail: nat, msg: Option<M>)    // next: store occupied := 0
    | RecvPublish(tail: nat, msg: Option<M>)  // next: store tail + 1 and return msg

  datatype Ring<M> = Ring(
    slots: seq<Slot<M>>,
    head: nat,
    tail: nat,
    producer: Producer<M>,
    consumer: Consumer<M>,
    sent: seq<M>,               // history: messages whose send returned Ok
    received: seq<Option<M>>)   // history: what receives that saw a message have returned

  datatype Action<M> = BeginSend(msg: M) | ProducerStep | BeginRecv | ConsumerStep

  ghost predicate Init<M>(s: Ring<M>) {
    && |s.slots| > 0 && (forall slot <- s.slots :: slot == Slot(0, None))
    && s.head == 0 && s.tail == 0 && s.producer == Producer.Quiet && s.consumer == Consumer.Quiet
    && s.sent == [] && s.received == []
  }

  ghost predicate Enabled<M>(s: Ring<M>, a: Action<M>) {
    match a
    case BeginSend(_) => s.producer.Quiet?
    case ProducerStep => !s.producer.Quiet?
    case BeginRecv => s.consumer.Quiet?
    case ConsumerStep => !s.consumer.Quiet?
  }

  function At<M>(s: Ring<M>, i: nat): Slot<M>
    requires |s.slots| > 0
  {
    Get(s.slots, i)
  }

  function SetSlot<M>(s: Ring<M>, i: nat, slot: Slot<M>): Ring<M>
    requires |s.slots| > 0
  {
    s.(slots := Put(s.slots, i, slot))
  }

  function ProducerMove<M>(s: Ring<M>): Ring<M>
    requires |s.slots| > 0
  {
    match s.producer
    case Quiet => s
    case SendTail(msg, h) =>
      if |s.slots| - (h - s.tail) == 0
      then s.(producer := Producer.Quiet)
      else s.(producer := SendWrite(msg, h))
    case SendWrite(msg, h) => SetSlot(s, h, At(s, h).(message := Some(msg))).(producer := SendMark(msg, h))
    case SendMark(msg, h) => SetSlot(s, h, At(s, h).(occupied := 1)).(producer := SendPublish(msg, h))
    case SendPublish(msg, h) => s.(head := h + 1, producer := Producer.Quiet, sent := s.sent + [msg])
  }

  function ConsumerMove<M>(s: Ring<M>): Ring<M>
    requires |s.slots| > 0
  {
    match s.consumer
    case Quiet => s
    case RecvHead(t) =>
      if t == s.head then s.(consumer := Consumer.Quiet) else s.(consumer := RecvWait(t))
    case RecvWait(t) =>
      if At(s, t).occupied == 0 then s else s.(consumer := RecvTake(t))
    case RecvTake(t) =>
      SetSlot(s, t, At(s, t).(message := None)).(consumer := RecvClear(t, At(s, t).message))
    case RecvClear(t, msg) => SetSlot(s, t, At(s, t).(occupied := 0)).(consumer := RecvPublish(t, msg))
    case RecvPublish(t, msg) =>
      s.(tail := t + 1, consumer := Consumer.Quiet, received := s.received + [msg])
  }

  function Apply<M>(s: Ring<M>, a: Action<M>): Ring<M>
    requires |s.slots| > 0 && Enabled(s, a)
  {
    match a
    case BeginSend(msg) => s.(producer := SendTail(msg, s.head))
    case ProducerStep => ProducerMove(s)
    case BeginRecv => s.(consumer := RecvHead(s.tail))
    case ConsumerStep => ConsumerMove(s)
  }

  function EventOf<M>(s: Ring<M>, a: Action<M>): Event<M> {
    match a
    case ProducerStep => (
      match s.producer
      case SendTail(_, h) => if |s.slots| - (h - s.tail) == 0 then Full else Silent
      case SendPublish(msg, _) => Sent(msg)
      case _ => Silent)
    case ConsumerStep => (
      match s.consumer
      case RecvHead(t) => if t == s.head then Empty else Silent
      case RecvPublish(_, msg) => Received(msg)
      case _ => Silent)
    case _ => Silent
  }

  /** Sent and not yet received. */
  ghost function Contents<M>(s: Ring<M>): seq<M>
    requires s.tail <= |s.sent|
  {
    s.sent[s.tail..]
  }

  ghost predicate Taken<M>(s: Ring<M>) {
    s.consumer.RecvClear? || s.consumer.RecvPublish?
  }

  /** What the slot of a position must hold, by where the two parties stand. */
  ghost predicate SlotOk<M>(s: Ring<M>, i: nat)
    requires |s.slots| > 0 && s.head == |s.sent|
  {
    if i < s.head then
      if i == s.tail && Taken(s)
      then s.consumer.msg == Some(s.sent[i]) && At(s, i) == Slot(if s.consumer.RecvClear? then 1 else 0, None)
      else At(s, i) == Slot(1, Some(s.sent[i]))
    else if i == s.head && s.producer.SendMark? then At(s, i) == Slot(0, Some(s.producer.msg))
    else if i == s.head && s.producer.SendPublish? then At(s, i) == Slot(1, Some(s.producer.msg))
    else At(s, i) == Slot(0, None)
  }

  ghost predicate PartiesOk<M>(s: Ring<M>) {
    && (!s.producer.Quiet? ==> s.producer.head == s.head)
    && (!s.producer.Quiet? && !s.producer.SendTail? ==> s.head - s.tail < |s.slots|)
    && (!s.consumer.Quiet? ==> s.consumer.tail == s.tail)
    && (!s.consumer.Quiet? && !s.consumer.RecvHead? ==> s.tail < s.head)
  }

  ghost predicate Inv<M>(s: Ring<M>) {
    && |s.slots| > 0
    && s.tail <= s.head <= s.tail + |s.slots|
    && |s.sent| == s.head && |s.received| == s.tail
    && (forall i: nat :: i < s.tail ==> s.received[i] == Some(s.sent[i]))
    && PartiesOk(s)
    && (forall i: nat :: s.tail <= i < s.tail + |s.slots| ==> SlotOk(s, i))
  }

  lemma InitInv<M>(s: Ring<M>)
    requires Init(s)
    ensures Inv(s) && Contents(s) == []
  {
    forall i: nat | s.tail <= i < s.tail + |s.slots| ensures SlotOk(s, i) {
      assert At(s, i) in s.slots;
    }
  }

  /** Rewriting one live position's slot leaves the other positions alone. */
  lemma OtherSlots<M>(s: Ring<M>, i: nat, slot: Slot<M>, j: nat)
    requires |s.slots| > 0 && s.tail <= i < s.tail + |s.slots| && s.tail <= j < s.tail + |s.slots| && i != j
    ensures At(SetSlot(s, i, slot), j) == At(s, j)
  {
    PutElsewhere(s.slots, i, slot, j);
  }

  lemma ProducerKeeps<M>(s: Ring<M>)
    requires Inv(s) && Enabled(s, ProducerStep)
    ensures Inv(ProducerMove(s))
    ensures SpecStep(|s.slots|, Contents(s), EventOf(s, ProducerStep), Contents(ProducerMove(s)))
  {
    var s' := ProducerMove(s);
    assert s.head < s.tail + |s.slots| ==> SlotOk(s, s.head);
    forall j: nat | s.tail <= j < s.tail + |s.slots| ensures SlotOk(s', j) {
      assert SlotOk(s, j);
      if (s.producer.SendWrite? || s.producer.SendMark?) && j != s.head {
        OtherSlots(s, s.head, At(s', s.head), j);
      }
    }
  }

  lemma ConsumerKeeps<M>(s: Ring<M>)
    requires Inv(s) && Enabled(s, ConsumerStep)
    ensures Inv(ConsumerMove(s))
    ensures SpecStep(|s.slots|, Contents(s), EventOf(s, ConsumerStep), Contents(ConsumerMove(s)))
  {
    var s' := ConsumerMove(s);
    assert SlotOk(s, s.tail);
    forall j: nat | s'.tail <= j < s'.tail + |s.slots| ensures SlotOk(s', j) {
      if j < s.tail + |s.slots| {
        assert SlotOk(s, j);
        if (s.consumer.RecvTake? || s.consumer.RecvClear?) && j != s.tail {
          OtherSlots(s, s.tail, At(s', s.tail), j);
        }
      } else {
        GetWraps(s'.slots, s.tail);
      }
    }
  }

  /** Every action keeps the invariant and is one step of a bounded queue. */
  lemma StepRefines<M>(s: Ring<M>, a: Action<M>)
    requires Inv(s) && Enabled(s, a)
    ensures Inv(Apply(s, a)) && |Apply(s, a).slots| == |s.slots|
    ensures SpecStep(|s.slots|, Contents(s), EventOf(s, a), Contents(Apply(s, a)))
  {
    match a {
      case ProducerStep => ProducerKeeps(s);
      case ConsumerStep => ConsumerKeeps(s);
      case BeginSend(_) => BeginKeeps(s, a);
      case BeginRecv => BeginKeeps(s, a);
    }
  }

  lemma BeginKeeps<M>(s: Ring<M>, a: Action<M>)
    requires Inv(s) && Enabled(s, a) && !a.ProducerStep? && !a.ConsumerStep?
    ensures Inv(Apply(s, a)) && Contents(Apply(s, a)) == Contents(s) && |Apply(s, a).slots| == |s.slots|
  {
    var s' := Apply(s, a);
    forall j: nat | s.tail <= j < s.tail + |s.slots| ensures SlotOk(s', j) {
      assert SlotOk(s, j);
    }
  }

  /**
   In every consistent state: the wait loop of a receive leaves on its first check, the message it
   takes is there, the slot a send writes is empty, and the unsigned subtractions do not wrap.
   */
  lemma NeverSpinsNeverLoses<M>(s: Ring<M>)
    requires Inv(s)
    ensures s.consumer.RecvWait? ==> At(s, s.consumer.tail).occupied != 0
    ensures s.consumer.RecvTake? ==> At(s, s.consumer.tail).message == Some(s.sent[s.tail])
    ensures Taken(s) ==> s.consumer.msg == Some(s.sent[s.tail])
    ensures s.producer.SendWrite? ==> At(s, s.producer.head) == Slot(0, None)
    ensures s.producer.SendTail? ==> 0 <= s.producer.head - s.tail <= |s.slots|
  {
    assert s.tail < s.head ==> SlotOk(s, s.tail);
    assert s.head < s.tail + |s.slots| ==> SlotOk(s, s.head);
  }

  ghost predicate Run<M>(s: Ring<M>, acts: seq<Action<M>>)
    decreases |acts|
  {
    acts == [] || (|s.slots| > 0 && Enabled(s, acts[0]) && Run(Apply(s, acts[0]), acts[1..]))
  }

  function Exec<M>(s: Ring<M>, acts: seq<Action<M>>): Ring<M>
    requires Run(s, acts)
    decreases |acts|
  {
    if acts == [] then s else Exec(Apply(s, acts[0]), acts[1..])
  }

  function Trace<M>(s: Ring<M>, acts: seq<Action<M>>): seq<Event<M>>
    requires Run(s, acts)
    decreases |acts|
  {
    if acts == [] then [] else [EventOf(s, acts[0])] + Trace(Apply(s, acts[0]), acts[1..])
  }

  lemma {:induction false} RunRefines<M(!new)>(s: Ring<M>, acts: seq<Action<M>>)
    requires Inv(s) && Run(s, acts)
    ensures Inv(Exec(s, acts)) && |Exec(s, acts).slots| == |s.slots|
    ensures SpecRun(|s.slots|, Contents(s), Trace(s, acts), Contents(Exec(s, acts)))
    decreases |acts|
  {
    if acts != [] {
      StepRefines(s, acts[0]);
      var m, f := Apply(s, acts[0]), Exec(s, acts);
      RunRefines(m, acts[1..]);
      LeadsNext(Bounded(|s.slots|), Contents(s), EventOf(s, acts[0]), Contents(m), Trace(m, acts[1..]), Contents(f));
    }
  }

  /**
   From a new ring, in every interleaving: the messages received are the first ones sent, in
   order, each present; the rest are still queued, at most capacity of them; and the whole run is
   one of a bounded queue.
   */
  lemma FifoInEveryInterleaving<M(!new)>(s: Ring<M>, acts: seq<Action<M>>)
    requires Init(s) && Run(s, acts)
    ensures var f := Exec(s, acts);
      && |f.received| <= |f.sent| <= |f.received| + |s.slots|
      && (forall i :: 0 <= i < |f.received| ==> f.received[i] == Some(f.sent[i]))
      && f.tail <= f.head && f.head - f.tail == |f.sent| - |f.received|
      && SpecRun(|s.slots|, [], Trace(s, acts), f.sent[|f.received|..])
  {
    InitInv(s);
    RunRefines(s, acts);
  }
}
