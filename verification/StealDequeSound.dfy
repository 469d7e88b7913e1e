/**
 What the deque keeps in every run, unsteady batches included: indices the owner and the thieves use are
 never negative, the buffer is never overrun, and a copy made for growth is faithful.
 */
module StealDequeSound {
  import opened CircularBuffer
  import opened Options
  import opened StealDeque

  ghost predicate OwnerSound<T>(s: Deque<T>)
    requires |s.slots| > 0
  {
    match s.owner
    case Idle => 0 <= s.bottom
    case PushTop(_, b) => b == s.bottom && 0 <= b
    case PushCopy(_, b, t, i, spare) =>
      && b == s.bottom && 0 <= t <= i <= b && t <= s.top
      && b - t == |s.slots| && |spare| == 2 * |s.slots|
      && (forall j: nat :: t <= j < i ==> Get(spare, j) == Get(s.slots, j))
    case PushPut(_, b) => b == s.bottom && 0 <= b && b - s.top < |s.slots|
    case PushPublish(_, b) => b == s.bottom && 0 <= b && b - s.top < |s.slots|
    case PopLower(b) => b + 1 == s.bottom && 0 <= s.bottom
    case PopTop(b) => b == s.bottom && -1 <= b && b < s.top + |s.slots|
    case PopRead(b, t) => b == s.bottom && 0 <= t <= b && b < s.top + |s.slots|
    case PopCas(b, t, _) => b == s.bottom && 0 <= t == b && b < s.top + |s.slots|
    case PopRaise(b, _) => b == s.bottom && -1 <= b && b < s.top + |s.slots|
  }

  ghost predicate ThiefSound<T>(s: Deque<T>, th: Thief<T>) {
    && (th.StealBottom? || th.StealRead? || th.StealCas? || th.BatchBottom? || th.BatchRead? ==> 0 <= th.t <= s.top)
    && (th.BatchRead? ==> |th.out| <= th.n)
  }

  ghost predicate Sound<T>(s: Deque<T>) {
    && |s.slots| > 0 && 0 <= s.top && s.bottom <= s.top + |s.slots| && OwnerSound(s)
    && forall k <- s.thieves :: ThiefSound(s, s.thieves[k])
  }

  lemma InitSound<T>(s: Deque<T>)
    requires Init(s)
    ensures Sound(s)
  {
  }

  lemma OwnerStepSound<T>(s: Deque<T>, junk: seq<T>)
    requires Sound(s) && s.owner != Idle && |junk| == 2 * |s.slots|
    ensures |OwnerMove(s, junk).slots| > 0 && s.top <= OwnerMove(s, junk).top
    ensures OwnerSound(OwnerMove(s, junk))
    ensures OwnerMove(s, junk).bottom <= OwnerMove(s, junk).top + |OwnerMove(s, junk).slots|
  {
    hide ThiefSound;
    if s.owner.PushCopy? && s.owner.i < s.owner.b {
      var i, spare := s.owner.i, s.owner.spare;
      forall j: nat | s.owner.t <= j < i ensures Get(Put(spare, i, Get(s.slots, i)), j) == Get(s.slots, j) {
        PutElsewhere(spare, i, Get(s.slots, i), j);
      }
    }
  }

  /** Every action of every party keeps the deque sound. */
  lemma StepSound<T>(s: Deque<T>, a: Action<T>)
    requires Sound(s) && Enabled(s, a)
    ensures Sound(Apply(s, a)) && s.top <= Apply(s, a).top
  {
    var s' := Apply(s, a);
    if a.OwnerStep? {
      OwnerStepSound(s, a.junk);
      hide OwnerMove, Get, Put;
      assert OwnerSound(s') == OwnerSound(OwnerMove(s, a.junk));
    }
    forall k <- s'.thieves ensures ThiefSound(s', s'.thieves[k]) {
      assert k in s.thieves && ThiefSound(s, s.thieves[k]);
    }
  }

  lemma {:induction false} RunSound<T>(s: Deque<T>, acts: seq<Action<T>>)
    requires Sound(s) && Run(s, acts)
    ensures Sound(Exec(s, acts))
    decreases |acts|
  {
    if acts != [] {
      StepSound(s, acts[0]);
      RunSound(Apply(s, acts[0]), acts[1..]);
    }
  }

  /** In every state any run leads to: no slot is accessed at a negative index, and a push has room. */
  lemma IndicesInRange<T>(s: Deque<T>, acts: seq<Action<T>>)
    requires Init(s) && Run(s, acts)
    ensures var f := Exec(s, acts);
      && |f.slots| > 0 && 0 <= f.top && f.bottom <= f.top + |f.slots|
      && (f.owner.PushPut? || f.owner.PopRead? ==> 0 <= f.owner.b)
      && (f.owner.PushPut? ==> f.owner.b - f.top < |f.slots|)
      && (f.owner.PushCopy? ==> 0 <= f.owner.i)
      && (forall k <- f.thieves :: f.thieves[k].StealRead? || f.thieves[k].BatchRead? ==> 0 <= f.thieves[k].t)
  {
    InitSound(s);
    RunSound(s, acts);
    hide OwnerMove, ThiefMove;
    assert forall k <- Exec(s, acts).thieves :: ThiefSound(Exec(s, acts), Exec(s, acts).thieves[k]);
  }
}
