/** Traces of events: what one party contributes to a trace, and runs of a specification along one. */
module Traces {

  /** What f picks out of each event, in order. */
  ghost function Collect<E, R>(es: seq<E>, f: E -> seq<R>): seq<R> {
    if es == [] then [] else Collect(es[..|es| - 1], f) + f(es[|es| - 1])
  }

  lemma {:induction false} CollectConcat<E, R>(es: seq<E>, more: seq<E>, f: E -> seq<R>)
    ensures Collect(es + more, f) == Collect(es, f) + Collect(more, f)
  {
    if more == [] {
      assert es + more == es;
    } else {
      var n := |more| - 1;
      CollectConcat(es, more[..n], f);
      assert (es + more)[..|es + more| - 1] == es + more[..n];
    }
  }

  lemma CollectOne<E, R>(e: E, f: E -> seq<R>)
    ensures Collect([e], f) == f(e)
  {
    assert [e][..0] == [];
  }

  /** The events lead the specification step by step from q to q'. */
  ghost predicate Leads<S(!new), E>(step: (S, E, S) -> bool, q: S, es: seq<E>, q': S)
    decreases |es|
  {
    if es == [] then q' == q
    else exists m :: step(q, es[0], m) && Leads(step, m, es[1..], q')
  }

  lemma LeadsNext<S(!new), E>(step: (S, E, S) -> bool, q: S, e: E, m: S, es: seq<E>, q': S)
    requires step(q, e, m) && Leads(step, m, es, q')
    ensures Leads(step, q, [e] + es, q')
  {
    assert ([e] + es)[1..] == es;
  }

  lemma LeadsOne<S(!new), E>(step: (S, E, S) -> bool, q: S, e: E, m: S)
    requires step(q, e, m)
    ensures Leads(step, q, [e], m)
  {
    LeadsNext(step, q, e, m, [], m);
    assert [e] + [] == [e];
  }

  lemma {:induction false} LeadsConcat<S(!new), E>(step: (S, E, S) -> bool, q: S, es: seq<E>, m: S,
                                                    more: seq<E>, q': S)
    requires Leads(step, q, es, m) && Leads(step, m, more, q')
    ensures Leads(step, q, es + more, q')
    decreases |es|
  {
    if es == [] {
      assert es + more == more;
    } else {
      var n :| step(q, es[0], n) && Leads(step, n, es[1..], m);
      LeadsConcat(step, n, es[1..], m, more, q');
      assert (es + more)[1..] == es[1..] + more;
    }
  }
}
