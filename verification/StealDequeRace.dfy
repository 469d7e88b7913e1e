/**
 Where `steal_batch` races with `pop`: the code with no condition on batches, a run on which it hands an
 element out twice, and when exactly it never does.
 */
module StealDequeRace {
  import opened StealDeque
  import opened StealDequeProofs

  /** A run of the code, with no condition on batches, and where it ends. */
  ghost predicate AnyRun<T>(s: Deque<T>, acts: seq<Action<T>>, f: Deque<T>) {
    Run(s, acts) && f == Exec(s, acts)
  }

  /** No batch is asked for more than room elements, and the owner pops only if pops says so. */
  ghost predicate Permits<T>(a: Action<T>, room: nat, pops: bool) {
    (a.BeginBatch? ==> a.room <= room) && (a.BeginPop? ==> pops)
  }

  ghost predicate Follows<T>(acts: seq<Action<T>>, room: nat, pops: bool) {
    forall i :: 0 <= i < |acts| ==> Permits(acts[i], room, pops)
  }

  lemma NothingFollows<T>()
    ensures Follows<T>([], 2, true)
  {
  }

  lemma Go<T>(s: Deque<T>, acts: seq<Action<T>>, f: Deque<T>, a: Action<T>)
    returns (acts': seq<Action<T>>, f': Deque<T>)
    requires AnyRun(s, acts, f) && |f.slots| > 0 && Enabled(f, a)
    ensures AnyRun(s, acts', f') && f' == Apply(f, a)
    ensures Follows(acts, 2, true) && Permits(a, 2, true) ==> Follows(acts', 2, true)
  {
    OneRun(f, a);
    RunConcat(s, acts, [a]);
    acts', f' := acts + [a], Apply(f, a);
  }

  /** One push by the owner while there is room and no batch is under way. */
  lemma PushRun<T>(s: Deque<T>, acts: seq<Action<T>>, f: Deque<T>, v: T, junk: seq<T>)
    returns (acts': seq<Action<T>>, f': Deque<T>)
    requires AnyRun(s, acts, f) && f.owner == Idle && 0 <= f.top <= f.bottom < f.top + |f.slots|
    requires |junk| == 2 * |f.slots| && (forall k <- f.thieves :: !f.thieves[k].BatchRead?)
    ensures AnyRun(s, acts', f') && (Follows(acts, 2, true) ==> Follows(acts', 2, true))
    ensures f' == f.(slots := f.slots[f.bottom % |f.slots| := v], bottom := f.bottom + 1, pushed := f.pushed + [v])
  {
    hide AnyRun, Follows;
    acts', f' := Go(s, acts, f, BeginPush(v));
    acts', f' := Go(s, acts', f', OwnerStep(junk));
    assert f'.thieves == f.thieves;
    acts', f' := Go(s, acts', f', OwnerStep(junk));
    assert f'.thieves == f.thieves;
    acts', f' := Go(s, acts', f', OwnerStep(junk));
    assert f'.thieves == f.thieves;
  }

  /** Same batches under way, up to what they have observed of the owner's end. */
  ghost predicate SameBatches<T>(ths: map<nat, Thief<T>>, ths': map<nat, Thief<T>>) {
    && ths'.Keys == ths.Keys
    && forall k <- ths :: ths[k].BatchRead? ==>
         ths'[k].BatchRead? && ths'[k] == ths[k].(low := ths'[k].low)
  }

  /** One owner action in the middle of an operation. */
  lemma GoOwner<T>(s: Deque<T>, acts: seq<Action<T>>, f: Deque<T>, junk: seq<T>)
    returns (acts': seq<Action<T>>, f': Deque<T>)
    requires AnyRun(s, acts, f) && |f.slots| > 0 && f.owner != Idle && |junk| == 2 * |f.slots|
    ensures AnyRun(s, acts', f') && (Follows(acts, 2, true) ==> Follows(acts', 2, true))
    ensures f' == OwnerMove(f, junk).(thieves := f'.thieves) && SameBatches(f.thieves, f'.thieves)
  {
    acts', f' := Go(s, acts, f, OwnerStep(junk));
  }

  /** One pop by the owner that finds at least two elements: it takes the last without a compare-and-swap. */
  lemma PopRun<T>(s: Deque<T>, acts: seq<Action<T>>, f: Deque<T>, junk: seq<T>)
    returns (acts': seq<Action<T>>, f': Deque<T>)
    requires AnyRun(s, acts, f) && f.owner == Idle && 0 <= f.top < f.bottom - 1
    requires |f.slots| > 0 && |junk| == 2 * |f.slots|
    ensures AnyRun(s, acts', f') && (Follows(acts, 2, true) ==> Follows(acts', 2, true))
    ensures f' == f.(bottom := f.bottom - 1, returned := f.returned + [Slot(f, f.bottom - 1)], thieves := f'.thieves)
    ensures SameBatches(f.thieves, f'.thieves)
  {
    hide AnyRun, Follows;
    var b := f.bottom - 1;
    var f1, f2, f3;
    acts', f1 := Go(s, acts, f, BeginPop);
    acts', f2 := GoOwner(s, acts', f1, junk);
    assert f2 == f.(owner := PopTop(b), bottom := b, thieves := f2.thieves);
    acts', f3 := GoOwner(s, acts', f2, junk);
    assert f3 == f.(owner := PopRead(b, f.top), bottom := b, thieves := f3.thieves);
    acts', f' := GoOwner(s, acts', f3, junk);
  }

  /** A thief reads the next slot of its batch. */
  lemma GoRead<T>(s: Deque<T>, acts: seq<Action<T>>, f: Deque<T>, k: nat)
    returns (acts': seq<Action<T>>, f': Deque<T>)
    requires AnyRun(s, acts, f) && |f.slots| > 0 && k in f.thieves
    requires f.thieves[k].BatchRead? && |f.thieves[k].out| < f.thieves[k].n
    ensures AnyRun(s, acts', f') && (Follows(acts, 2, true) ==> Follows(acts', 2, true))
    ensures var th := f.thieves[k];
      f' == f.(thieves := f.thieves[k := th.(out := th.out + [Slot(f, th.t + |th.out|)])])
  {
    acts', f' := Go(s, acts, f, ThiefStep(k));
  }

  /** A thief loads top and bottom for a batch of two and reads both slots. */
  lemma BatchReadRun<T>(s: Deque<T>, acts: seq<Action<T>>, f: Deque<T>)
    returns (acts': seq<Action<T>>, f': Deque<T>)
    requires AnyRun(s, acts, f) && f.owner == Idle && 0 <= f.top && f.bottom == f.top + 2
    requires |f.slots| > 0 && 0 in f.thieves && f.thieves[0] == Resting
    ensures AnyRun(s, acts', f') && (Follows(acts, 2, true) ==> Follows(acts', 2, true))
    ensures f' == f.(thieves := f'.thieves) && 0 in f'.thieves
    ensures f'.thieves[0] == BatchRead(f.top, 2, [Slot(f, f.top), Slot(f, f.top + 1)], f.bottom)
  {
    hide AnyRun, Follows;
    acts', f' := Go(s, acts, f, BeginBatch(0, 2));
    assert f' == f.(thieves := f.thieves[0 := BatchBottom(f.top, 2)]);
    acts', f' := Go(s, acts', f', ThiefStep(0));
    assert f' == f.(thieves := f.thieves[0 := BatchRead(f.top, 2, [], f.bottom)]);
    acts', f' := GoRead(s, acts', f', 0);
    acts', f' := GoRead(s, acts', f', 0);
  }

  lemma TwoPushed<T>(s: Deque<T>, x: T, y: T, junk: seq<T>) returns (acts: seq<Action<T>>, f: Deque<T>)
    requires Init(s) && 0 in s.thieves && |junk| == 2 * MIN_CAPACITY
    ensures AnyRun(s, acts, f) && Follows(acts, 2, true)
    ensures f == s.(slots := f.slots, bottom := 2, pushed := [x, y]) && |f.slots| == MIN_CAPACITY
    ensures Slot(f, 0) == x && Slot(f, 1) == y
  {
    assert AnyRun(s, [], s);
    hide AnyRun, Follows;
    NothingFollows<T>();
    acts, f := PushRun(s, [], s, x, junk);
    acts, f := PushRun(s, acts, f, y, junk);
  }

  /**
   Two values are pushed; a thief reads both for one batch; the owner pops the second without a
   compare-and-swap, since `top` is below it; the batch then commits both. One of them is handed
   out twice. This holds for every pair of values.
   */
  lemma BatchCanDuplicate<T>(s: Deque<T>, x: T, y: T, junk: seq<T>)
    returns (acts: seq<Action<T>>, f: Deque<T>)
    requires Init(s) && 0 in s.thieves && |junk| == 2 * MIN_CAPACITY
    ensures AnyRun(s, acts, f) && Follows(acts, 2, true)
    ensures f.pushed == [x, y] && f.returned == [y, x, y]
  {
    hide AnyRun, Follows;
    acts, f := TwoPushed(s, x, y, junk);
    acts, f := BatchReadRun(s, acts, f);
    acts, f := PopRun(s, acts, f, junk);
    acts, f := Go(s, acts, f, ThiefStep(0));
  }

  /** No batch under way has had the owner's end come into its range. */
  ghost predicate Calm<T>(s: Deque<T>, room: nat, pops: bool) {
    && (Popping(s.owner) ==> pops)
    && forall k <- s.thieves :: CalmThief(s, s.thieves[k], room)
  }

  lemma CalmIsSteady<T>(s: Deque<T>, a: Action<T>, room: nat, pops: bool)
    requires Calm(s, room, pops) && Enabled(s, a)
    ensures Steady(s, a)
  {
  }

  lemma CalmThiefStep<T>(s: Deque<T>, k: nat, room: nat, pops: bool)
    requires Shape(s) && Calm(s, room, pops) && Enabled(s, ThiefStep(k))
    ensures Calm(Apply(s, ThiefStep(k)), room, pops)
  {
    var s' := ThiefMove(s, k);
    assert ThiefOk(s, s.thieves[k]) && s.bottom <= End(s);
    forall j <- s'.thieves ensures CalmThief(s', s'.thieves[j], room) {
      assert CalmThief(s, s.thieves[j], room);
      if j != k {
        OthersLeaveCalm(s, ThiefStep(k), j, room);
      }
    }
  }

  lemma CalmOwner<T>(s: Deque<T>, junk: seq<T>, room: nat, pops: bool)
    requires Shape(s) && Calm(s, room, pops) && s.owner != Idle && |junk| == 2 * |s.slots| && (room <= 1 || !pops)
    ensures Calm(Apply(s, OwnerStep(junk)), room, pops)
  {
    var s' := Apply(s, OwnerStep(junk));
    forall k <- s'.thieves ensures CalmThief(s', s'.thieves[k], room) {
      OwnerLeavesCalm(s, junk, k, room);
    }
  }

  lemma CalmStep<T>(s: Deque<T>, a: Action<T>, room: nat, pops: bool)
    requires Shape(s) && Calm(s, room, pops) && Enabled(s, a) && Permits(a, room, pops) && (room <= 1 || !pops)
    ensures Calm(Apply(s, a), room, pops)
  {
    match a {
      case OwnerStep(junk) => CalmOwner(s, junk, room, pops);
      case ThiefStep(k) => CalmThiefStep(s, k, room, pops);
      case BeginPush(_) =>
      case BeginPop =>
      case BeginSteal(_) =>
      case BeginBatch(_, _) =>
    }
  }

  /** Then every batch that commits is steady. */
  lemma {:induction false} CalmRunIsSteady<T>(s: Deque<T>, acts: seq<Action<T>>, room: nat, pops: bool)
    requires Inv(s) && Calm(s, room, pops) && Run(s, acts) && Follows(acts, room, pops)
    requires room <= 1 || !pops
    ensures AlwaysSteady(s, acts)
    decreases |acts|
  {
    if acts != [] {
      var a := acts[0];
      assert Permits(a, room, pops);
      CalmIsSteady(s, a, room, pops);
      SteadyStepRefines(s, a);
      CalmStep(s, a, room, pops);
      CalmRunIsSteady(Apply(s, a), acts[1..], room, pops);
    }
  }

  /** With no batches at all, every interleaving is exactly-once and a run of a plain sequence. */
  lemma SingleStealsExactlyOnce<T(!new)>(s: Deque<T>, acts: seq<Action<T>>)
    requires Init(s) && Run(s, acts) && forall i :: 0 <= i < |acts| ==> !acts[i].BeginBatch?
    ensures var f := Exec(s, acts);
      Shape(f) && Conserved(f) && SpecRun([], Trace(s, acts), Contents(f))
  {
    InitInv(s);
    assert Follows(acts, 0, true);
    CalmRunIsSteady(s, acts, 0, true);
    ExactlyOnce(s, acts);
  }

  /** Every run in which no batch has more room than given, and the owner pops only if allowed, conserves the values. */
  ghost predicate AlwaysConserves<T(!new)>(s: Deque<T>, room: nat, pops: bool) {
    forall acts, f :: AnyRun(s, acts, f) && Follows(acts, room, pops) ==> Shape(f) && Conserved(f)
  }

  /**
   Whatever the interleaving, growth and the other thieves: exactly-once holds if and only if the
   output slices passed to steal_batch hold at most one element, or the owner never pops.
   */
  lemma ConservesIffShortOrNoPops<T(!new)>(s: Deque<T>, x: T, junk: seq<T>, room: nat, pops: bool)
    requires Init(s) && 0 in s.thieves && |junk| == 2 * MIN_CAPACITY
    ensures AlwaysConserves(s, room, pops) <==> room <= 1 || !pops
  {
    if room <= 1 || !pops {
      InitInv(s);
      forall acts, f | AnyRun(s, acts, f) && Follows(acts, room, pops) ensures Shape(f) && Conserved(f) {
        CalmRunIsSteady(s, acts, room, pops);
        SteadyRunKeepsInv(s, acts);
      }
    } else {
      var acts, f := BatchCanDuplicate(s, x, x, junk);
      assert Follows(acts, room, pops);
      assert |multiset(f.returned)| == 3 && |multiset(f.pushed)| == 2;
    }
  }
}
