/** What a bounded first-in first-out queue between one sender and one receiver may do. */
module BoundedFifo {
  import opened Options
  import opened Traces

  datatype Event<M> = Silent | Sent(msg: M) | Full | Received(result: Option<M>) | Empty

  /** One step of the queue: Full and Empty are answers only a full and an empty queue may give. */
  ghost predicate SpecStep<M>(cap: nat, q: seq<M>, e: Event<M>, q': seq<M>) {
    match e
    case Silent => q' == q
    case Sent(msg) => |q| < cap && q' == q + [msg]
    case Full => |q| == cap && q' == q
    case Received(msg) => msg.Some? && q == [msg.value] + q'
    case Empty => q == [] && q' == []
  }

  ghost function Bounded<M>(cap: nat): (seq<M>, Event<M>, seq<M>) -> bool {
    (q, e, q') => SpecStep(cap, q, e, q')
  }

  /** The events are a run of the queue from q to q'. */
  ghost predicate SpecRun<M(!new)>(cap: nat, q: seq<M>, es: seq<Event<M>>, q': seq<M>) {
    Leads(Bounded(cap), q, es, q')
  }

  ghost predicate OfSide<M>(e: Event<M>, producer: bool) {
    if producer then e.Sent? || e.Full? else e.Received? || e.Empty?
  }

  ghost function PartOf<M>(producer: bool): Event<M> -> seq<Event<M>> {
    e => if OfSide(e, producer) then [e] else []
  }

  /** The producer's (or the consumer's) part of a trace, in order. */
  ghost function Side<M>(es: seq<Event<M>>, producer: bool): seq<Event<M>> {
    Collect(es, PartOf(producer))
  }

  lemma SideOne<M>(e: Event<M>, producer: bool)
    ensures Side([e], producer) == if OfSide(e, producer) then [e] else []
  {
    CollectOne(e, PartOf(producer));
  }
}
