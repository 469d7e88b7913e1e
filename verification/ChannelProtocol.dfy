/**
 The bounded channel between one sender and one receiver as a transition system: positions and length
 are separate counters, any positive capacity, one action per atomic access and per slot access.
 */
module ChannelProtocol {
  import opened BoundedFifo
  import opened CircularBuffer
  import opened Options
  import opened Traces

  datatype Slot<M> = Slot(live: bool, data: Option<M>)

  datatype Sender<M> =
    | Quiet
    | SendLen(msg: M)                 // seen open; next: load len
    | SendClaim(msg: M)               // room seen; next: claim a position
    | SendWrite(msg: M, pos: nat)     // next: write the value
    | SendMark(msg: M, pos: nat)      // next: mark the slot live
    | SendCount(msg: M)               // next: count the value in

  datatype Receiver<M> =
    | Quiet
    | RecvClaim                       // a value is there; next: claim a position
    | RecvClear(pos: nat)             // next: mark the slot free
    | RecvRead(pos: nat)              // next: read the value
    | RecvCount(msg: Option<M>)       // next: count the value out and return it

  datatype Channel<M> = Channel(
    slots: seq<Slot<M>>,
    sendPos: nat,
    recvPos: nat,
    len: int,
    sender: Sender<M>,
    receiver: Receiver<M>,
    sent: seq<M>,               // history: values whose send returned Ok
    received: seq<Option<M>>)   // history: what receives that saw a value have returned

  datatype Action<M> = BeginSend(msg: M) | SenderStep | BeginRecv | ReceiverStep

  ghost predicate Init<M>(s: Channel<M>) {
    && |s.slots| > 0 && (forall slot <- s.slots :: !slot.live)
    && s.sendPos == 0 && s.recvPos == 0 && s.len == 0
    && s.sender == Sender.Quiet && s.receiver == Receiver.Quiet && s.sent == [] && s.received == []
  }

  ghost predicate Enabled<M>(s: Channel<M>, a: Action<M>) {
    match a
    case BeginSend(_) => s.sender.Quiet?
    case SenderStep => !s.sender.Quiet?
    case BeginRecv => s.receiver.Quiet?
    case ReceiverStep => !s.receiver.Quiet?
  }

  function At<M>(s: Channel<M>, i: nat): Slot<M>
    requires |s.slots| > 0
  {
    Get(s.slots, i)
  }

  function SetSlot<M>(s: Channel<M>, i: nat, slot: Slot<M>): Channel<M>
    requires |s.slots| > 0
  {
    s.(slots := Put(s.slots, i, slot))
  }

  function SenderMove<M>(s: Channel<M>): Channel<M>
    requires |s.slots| > 0
  {
    match s.sender
    case Quiet => s
    case SendLen(msg) => s.(sender := if s.len >= |s.slots| then Sender.Quiet else SendClaim(msg))
    case SendClaim(msg) => s.(sendPos := s.sendPos + 1, sender := SendWrite(msg, s.sendPos))
    case SendWrite(msg, p) => SetSlot(s, p, At(s, p).(data := Some(msg))).(sender := SendMark(msg, p))
    case SendMark(msg, p) => SetSlot(s, p, At(s, p).(live := true)).(sender := SendCount(msg))
    case SendCount(msg) => s.(len := s.len + 1, sender := Sender.Quiet, sent := s.sent + [msg])
  }

  function ReceiverMove<M>(s: Channel<M>): Channel<M>
    requires |s.slots| > 0
  {
    match s.receiver
    case Quiet => s
    case RecvClaim => s.(recvPos := s.recvPos + 1, receiver := RecvClear(s.recvPos))
    case RecvClear(p) => SetSlot(s, p, At(s, p).(live := false)).(receiver := RecvRead(p))
    case RecvRead(p) => s.(receiver := RecvCount(At(s, p).data))
    case RecvCount(msg) => s.(len := s.len - 1, receiver := Receiver.Quiet, received := s.received + [msg])
  }

  function Apply<M>(s: Channel<M>, a: Action<M>): Channel<M>
    requires |s.slots| > 0 && Enabled(s, a)
  {
    match a
    case BeginSend(msg) => s.(sender := SendLen(msg))
    case SenderStep => SenderMove(s)
    case BeginRecv => s.(receiver := if s.len == 0 then Receiver.Quiet else RecvClaim)
    case ReceiverStep => ReceiverMove(s)
  }

  function EventOf<M>(s: Channel<M>, a: Action<M>): Event<M> {
    match a
    case BeginSend(_) => Silent
    case SenderStep =>
      if s.sender.SendLen? && s.len >= |s.slots| then Full
      else if s.sender.SendCount? then Sent(s.sender.msg) else Silent
    case BeginRecv => if s.len == 0 then Empty else Silent
    case ReceiverStep => if s.receiver.RecvCount? then Received(s.receiver.msg) else Silent
  }

  ghost function Contents<M>(s: Channel<M>): seq<M>
    requires |s.received| <= |s.sent|
  {
    s.sent[|s.received|..]
  }

  ghost predicate Claimed<M>(s: Channel<M>) {
    s.sender.SendWrite? || s.sender.SendMark? || s.sender.SendCount?
  }

  ghost predicate Taking<M>(s: Channel<M>) {
    s.receiver.RecvClear? || s.receiver.RecvRead? || s.receiver.RecvCount?
  }

  ghost predicate Cleared<M>(s: Channel<M>) {
    s.receiver.RecvRead? || s.receiver.RecvCount?
  }

  /** What the slot of a position must hold, by where the two parties stand. */
  ghost predicate SlotOk<M>(s: Channel<M>, i: nat)
    requires |s.slots| > 0
  {
    if i < |s.sent| then At(s, i) == Slot(i > |s.received| || !Cleared(s), Some(s.sent[i]))
    else if i == |s.sent| && s.sender.SendMark? then At(s, i) == Slot(false, Some(s.sender.msg))
    else if i == |s.sent| && s.sender.SendCount? then At(s, i) == Slot(true, Some(s.sender.msg))
    else !At(s, i).live
  }

  /** The counters: a claimed position runs ahead of the length, never beyond the capacity. */
  ghost predicate CountsOk<M>(s: Channel<M>) {
    && |s.received| <= |s.sent| && s.len == |s.sent| - |s.received| <= |s.slots|
    && s.sendPos == |s.sent| + (if Claimed(s) then 1 else 0)
    && s.recvPos == |s.received| + (if Taking(s) then 1 else 0)
    && (s.sender.SendWrite? || s.sender.SendMark? ==> s.sender.pos == |s.sent|)
    && (s.receiver.RecvClear? || s.receiver.RecvRead? ==> s.receiver.pos == |s.received|)
    && (!s.sender.Quiet? && !s.sender.SendLen? ==> s.len < |s.slots|)
    && (!s.receiver.Quiet? ==> s.len > 0)
    && (s.receiver.RecvCount? ==> s.receiver.msg == Some(s.sent[|s.received|]))
  }

  ghost predicate SlotsOk<M>(s: Channel<M>)
    requires |s.slots| > 0
  {
    forall i: nat :: |s.received| <= i < |s.received| + |s.slots| ==> SlotOk(s, i)
  }

  ghost predicate Inv<M>(s: Channel<M>) {
    && |s.slots| > 0 && CountsOk(s)
    && (forall i: nat :: i < |s.received| ==> s.received[i] == Some(s.sent[i]))
    && SlotsOk(s)
  }

  lemma InitInv<M>(s: Channel<M>)
    requires Init(s)
    ensures Inv(s) && Contents(s) == []
  {
    forall i: nat | i < |s.slots| ensures SlotOk(s, i) {
      assert At(s, i) in s.slots;
    }
  }

  lemma SenderCounts<M>(s: Channel<M>)
    requires |s.slots| > 0 && CountsOk(s) && Enabled(s, SenderStep)
    ensures CountsOk(SenderMove(s)) && |SenderMove(s).slots| == |s.slots|
    ensures SenderMove(s).received == s.received && s.sent <= SenderMove(s).sent
    ensures SpecStep(|s.slots|, Contents(s), EventOf(s, SenderStep), Contents(SenderMove(s)))
  {
    hide Put, At;
  }

  lemma SenderSlots<M>(s: Channel<M>)
    requires |s.slots| > 0 && CountsOk(s) && SlotsOk(s) && Enabled(s, SenderStep)
    ensures |SenderMove(s).slots| == |s.slots| && SlotsOk(SenderMove(s))
  {
    var s', p := SenderMove(s), |s.sent|;
    assert s.len < |s.slots| ==> SlotOk(s, p);
    forall j: nat | |s.received| <= j < |s.received| + |s.slots| ensures SlotOk(s', j) {
      assert SlotOk(s, j);
      if (s.sender.SendWrite? || s.sender.SendMark?) && j != p {
        PutElsewhere(s.slots, p, At(s', p), j);
      }
    }
  }

  lemma SenderKeeps<M>(s: Channel<M>)
    requires Inv(s) && Enabled(s, SenderStep)
    ensures Inv(SenderMove(s)) && |SenderMove(s).slots| == |s.slots|
    ensures SpecStep(|s.slots|, Contents(s), EventOf(s, SenderStep), Contents(SenderMove(s)))
  {
    assert |s.received| <= |s.sent|;
    hide SlotsOk, CountsOk, SenderMove, Contents, SpecStep;
    SenderCounts(s);
    SenderSlots(s);
  }

  lemma ReceiverCounts<M>(s: Channel<M>)
    requires |s.slots| > 0 && CountsOk(s) && Enabled(s, ReceiverStep)
    requires s.receiver.RecvRead? ==> At(s, s.receiver.pos).data == Some(s.sent[|s.received|])
    requires forall i: nat :: i < |s.received| ==> s.received[i] == Some(s.sent[i])
    ensures var s' := ReceiverMove(s);
      && CountsOk(s') && |s'.slots| == |s.slots| && s'.sent == s.sent
      && (forall i: nat :: i < |s'.received| ==> s'.received[i] == Some(s'.sent[i]))
      && SpecStep(|s.slots|, Contents(s), EventOf(s, ReceiverStep), Contents(s'))
  {
    hide Put, At;
  }

  lemma ReceiverSlots<M>(s: Channel<M>)
    requires |s.slots| > 0 && CountsOk(s) && SlotsOk(s) && Enabled(s, ReceiverStep)
    ensures |ReceiverMove(s).slots| == |s.slots| && SlotsOk(ReceiverMove(s))
  {
    hide Get, Put;
    var s', r := ReceiverMove(s), |s.received|;
    assert SlotOk(s, r);
    forall j: nat | |s'.received| <= j < |s'.received| + |s.slots| ensures SlotOk(s', j) {
      if j < r + |s.slots| {
        assert SlotOk(s, j);
        if s.receiver.RecvClear? && j != r {
          PutElsewhere(s.slots, r, At(s', r), j);
        }
      } else {
        GetWraps(s'.slots, r);
      }
    }
  }

  lemma ReceiverKeeps<M>(s: Channel<M>)
    requires Inv(s) && Enabled(s, ReceiverStep)
    ensures Inv(ReceiverMove(s)) && |ReceiverMove(s).slots| == |s.slots|
    ensures SpecStep(|s.slots|, Contents(s), EventOf(s, ReceiverStep), Contents(ReceiverMove(s)))
  {
    ClaimsAreFree(s);
    hide SlotsOk, CountsOk, ReceiverMove, SpecStep;
    ReceiverCounts(s);
    ReceiverSlots(s);
  }

  lemma BeginKeeps<M>(s: Channel<M>, a: Action<M>)
    requires Inv(s) && Enabled(s, a) && (a.BeginSend? || a.BeginRecv?)
    ensures Inv(Apply(s, a)) && |Apply(s, a).slots| == |s.slots|
    ensures SpecStep(|s.slots|, Contents(s), EventOf(s, a), Contents(Apply(s, a)))
  {
    var s' := Apply(s, a);
    forall j: nat | |s.received| <= j < |s.received| + |s.slots| ensures SlotOk(s', j) {
      assert SlotOk(s, j);
    }
  }

  /** Every action keeps the invariant and is one step of a bounded queue. */
  lemma StepRefines<M>(s: Channel<M>, a: Action<M>)
    requires Inv(s) && Enabled(s, a)
    ensures Inv(Apply(s, a)) && |Apply(s, a).slots| == |s.slots|
    ensures SpecStep(|s.slots|, Contents(s), EventOf(s, a), Contents(Apply(s, a)))
  {
    match a {
      case SenderStep => SenderKeeps(s);
      case ReceiverStep => ReceiverKeeps(s);
      case BeginSend(_) => BeginKeeps(s, a);
      case BeginRecv => BeginKeeps(s, a);
    }
  }

  /**
   The slot a send writes holds no live value, the slot a receive reads holds the oldest value sent
   and not received, and the length never leaves its range.
   */
  lemma ClaimsAreFree<M>(s: Channel<M>)
    requires Inv(s)
    ensures 0 <= s.len <= |s.slots| && s.len == |Contents(s)|
    ensures s.sender.SendWrite? ==> !At(s, s.sender.pos).live
    ensures s.receiver.RecvRead? ==> At(s, s.receiver.pos).data == Some(Contents(s)[0])
  {
    assert s.len < |s.slots| ==> SlotOk(s, |s.sent|);
    assert s.len > 0 ==> SlotOk(s, |s.received|);
  }

  ghost predicate Run<M>(s: Channel<M>, acts: seq<Action<M>>)
    decreases |acts|
  {
    acts == [] || (|s.slots| > 0 && Enabled(s, acts[0]) && Run(Apply(s, acts[0]), acts[1..]))
  }

  function Exec<M>(s: Channel<M>, acts: seq<Action<M>>): Channel<M>
    requires Run(s, acts)
    decreases |acts|
  {
    if acts == [] then s else Exec(Apply(s, acts[0]), acts[1..])
  }

  function Trace<M>(s: Channel<M>, acts: seq<Action<M>>): seq<Event<M>>
    requires Run(s, acts)
    decreases |acts|
  {
    if acts == [] then [] else [EventOf(s, acts[0])] + Trace(Apply(s, acts[0]), acts[1..])
  }

  lemma {:induction false} RunRefines<M(!new)>(s: Channel<M>, acts: seq<Action<M>>)
    requires Inv(s) && Run(s, acts)
    ensures Inv(Exec(s, acts)) && |Exec(s, acts).slots| == |s.slots|
    ensures SpecRun(|s.slots|, Contents(s), Trace(s, acts), Contents(Exec(s, acts)))
    decreases |acts|
  {
    if acts != [] {
      StepRefines(s, acts[0]);
      var m, f := Apply(s, acts[0]), Exec(s, acts);
      RunRefines(m, acts[1..]);
      LeadsNext(Bounded(|s.slots|), Contents(s), EventOf(s, acts[0]), Contents(m), Trace(m, acts[1..]), Contents(f));
    }
  }

  /**
   From a new channel, in every interleaving: the values received are the first ones sent, in order,
   each present; the rest are queued, at most capacity of them; the whole run is one of a bounded queue.
   */
  lemma FifoInEveryInterleaving<M(!new)>(s: Channel<M>, acts: seq<Action<M>>)
    requires Init(s) && Run(s, acts)
    ensures var f := Exec(s, acts);
      && |f.received| <= |f.sent| <= |f.received| + |s.slots|
      && (forall i :: 0 <= i < |f.received| ==> f.received[i] == Some(f.sent[i]))
      && f.len == |f.sent| - |f.received|
      && SpecRun(|s.slots|, [], Trace(s, acts), f.sent[|f.received|..])
  {
    InitInv(s);
    RunRefines(s, acts);
  }
}
