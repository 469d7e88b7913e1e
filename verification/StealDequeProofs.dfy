/** Safety of the work-stealing deque over every interleaving. */
module StealDequeProofs {
  import opened CircularBuffer
  import opened Numbers
  import opened StealDeque
  import opened Traces

  ghost predicate OwnerOk<T>(s: Deque<T>)
    requires |s.slots| > 0
  {
    match s.owner
    case Idle => true
    case PushTop(_, b) => b == s.bottom
    case PushCopy(_, b, t, i, spare) =>
      && b == s.bottom
      && 0 <= t <= i <= b && t <= s.top
      && b - t == |s.slots| && |spare| == 2 * |s.slots|
      && (forall j: nat :: t <= j < i ==> Get(spare, j) == Get(s.slots, j))
    case PushPut(_, b) => b == s.bottom && b - s.top < |s.slots|
    case PushPublish(val, b) => b == s.bottom && b - s.top < |s.slots| && 0 <= b && Get(s.slots, b) == val
    case PopLower(b) => b + 1 == s.bottom
    case PopTop(b) => b == s.bottom
    case PopRead(b, t) => b == s.bottom && 0 <= t <= b && t <= s.top
    case PopCas(b, t, val) => b == s.bottom && 0 <= t == b && t <= s.top && val == Get(s.slots, b)
    case PopRaise(b, _) => b == s.bottom && s.top == b + 1
  }

  /** A thief's stale locals matter only while `top` has not moved past them. */
  ghost predicate ThiefOk<T>(s: Deque<T>, th: Thief<T>)
    requires |s.slots| > 0
  {
    match th
    case Resting => true
    case StealBottom(t) => 0 <= t <= s.top
    case StealRead(t) => 0 <= t <= s.top && (t == s.top ==> t < End(s))
    case StealCas(t, val) => 0 <= t <= s.top && (t == s.top ==> t < End(s) && val == Get(s.slots, t))
    case BatchBottom(t, _) => 0 <= t <= s.top
    case BatchRead(t, n, out, low) =>
      && 0 <= t <= s.top && |out| <= n && low <= End(s)
      && (t == s.top && t + n <= low ==>
            forall k: nat :: k < |out| ==> out[k] == Get(s.slots, t + k))
  }

  ghost predicate Shape<T>(s: Deque<T>) {
    && |s.slots| > 0
    && 0 <= s.top <= End(s) <= s.top + |s.slots|
    && OwnerOk(s)
    && (forall k <- s.thieves :: ThiefOk(s, s.thieves[k]))
  }

  /** Nothing is lost and nothing is duplicated. */
  ghost predicate Conserved<T>(s: Deque<T>)
    requires Shape(s)
  {
    multiset(s.pushed) == multiset(s.returned) + multiset(InFlight(s)) + multiset(Contents(s))
  }

  ghost predicate Inv<T>(s: Deque<T>) {
    Shape(s) && Conserved(s)
  }

  lemma InitInv<T>(s: Deque<T>)
    requires Init(s)
    ensures Inv(s) && Contents(s) == []
  {
  }

  /** `s'` shows the same value at every index of `s` that is live. */
  ghost predicate SameLive<T>(s: Deque<T>, s': Deque<T>)
    requires |s.slots| > 0 && |s'.slots| > 0
  {
    forall i: nat :: s.top <= i < End(s) ==> Get(s'.slots, i) == Get(s.slots, i)
  }

  /** Observing a lower end keeps every thief consistent when live slots keep their values. */
  lemma ThievesKept<T>(s: Deque<T>, s': Deque<T>)
    requires Shape(s) && |s'.slots| > 0
    requires s'.thieves == Observe(s.thieves, End(s'))
    requires s'.top == s.top ==> SameLive(s, s')
    requires s'.top == s.top ==> End(s') >= End(s) || (s.top < End(s') && End(s') == End(s) - 1)
    requires s.top <= s'.top
    ensures forall k <- s'.thieves :: ThiefOk(s', s'.thieves[k])
  {
    forall k <- s'.thieves ensures ThiefOk(s', s'.thieves[k]) {
      assert ThiefOk(s, s.thieves[k]);
    }
  }

  /** Apart from the thieves, the shape and every live slot are kept. */
  ghost predicate Framed<T>(s: Deque<T>, s': Deque<T>)
    requires |s.slots| > 0
  {
    && |s'.slots| > 0 && s.top <= s'.top <= End(s') <= s'.top + |s'.slots| && OwnerOk(s')
    && s'.thieves == s.thieves
    && (s'.top == s.top ==> SameLive(s, s'))
    && (s'.top == s.top ==> End(s') >= End(s) || (s.top < End(s') && End(s') == End(s) - 1))
  }

  lemma CopyFrame<T>(s: Deque<T>, junk: seq<T>)
    requires Shape(s) && s.owner.PushCopy? && |junk| == 2 * |s.slots|
    ensures Framed(s, OwnerMove(s, junk))
  {
    hide ThiefOk;
    var b, t, i, spare := s.owner.b, s.owner.t, s.owner.i, s.owner.spare;
    if i < b {
      forall j: nat | t <= j < i ensures Get(Put(spare, i, Get(s.slots, i)), j) == Get(s.slots, j) {
        PutElsewhere(spare, i, Get(s.slots, i), j);
      }
    }
  }

  lemma PutFrame<T>(s: Deque<T>, junk: seq<T>)
    requires Shape(s) && s.owner.PushPut? && |junk| == 2 * |s.slots|
    ensures Framed(s, OwnerMove(s, junk))
  {
    hide ThiefOk;
    var b, s' := s.owner.b, OwnerMove(s, junk);
    forall i: nat | s.top <= i < End(s) ensures Get(s'.slots, i) == Get(s.slots, i) {
      PutElsewhere(s.slots, b, s.owner.val, i);
    }
  }

  lemma ControlFrame<T>(s: Deque<T>, junk: seq<T>)
    requires Shape(s) && s.owner != Idle && !s.owner.PushCopy? && !s.owner.PushPut? && |junk| == 2 * |s.slots|
    ensures Framed(s, OwnerMove(s, junk))
  {
    hide ThiefOk, Get, Put;
    assert OwnerMove(s, junk).slots == s.slots;
  }

  lemma OwnerFrame<T>(s: Deque<T>, junk: seq<T>)
    requires Shape(s) && s.owner != Idle && |junk| == 2 * |s.slots|
    ensures Framed(s, OwnerMove(s, junk))
  {
    hide Framed, OwnerMove;
    if s.owner.PushCopy? {
      CopyFrame(s, junk);
    } else if s.owner.PushPut? {
      PutFrame(s, junk);
    } else {
      ControlFrame(s, junk);
    }
  }

  /** The owner's end has not come into a batch's range, unless top has already moved past its start. */
  ghost predicate CalmThief<T>(s: Deque<T>, th: Thief<T>, room: nat) {
    && (th.BatchBottom? ==> th.room <= room)
    && (th.BatchRead? ==> th.n <= room && (th.t == s.top ==> th.t + th.n <= th.low))
  }

  ghost predicate Popping<T>(o: Owner<T>) {
    o.PopLower? || o.PopTop? || o.PopRead? || o.PopCas? || o.PopRaise?
  }

  /** An owner that does not pop never lowers its end; one that does lowers it by one, and not to top. */
  lemma OwnerLeavesCalm<T>(s: Deque<T>, junk: seq<T>, k: nat, room: nat)
    requires Shape(s) && s.owner != Idle && |junk| == 2 * |s.slots|
    requires k in s.thieves && CalmThief(s, s.thieves[k], room) && (room <= 1 || !Popping(s.owner))
    ensures CalmThief(Apply(s, OwnerStep(junk)), Apply(s, OwnerStep(junk)).thieves[k], room)
  {
    OwnerFrame(s, junk);
    assert ThiefOk(s, s.thieves[k]);
    assert !Popping(s.owner) ==> End(OwnerMove(s, junk)) >= End(s);
  }

  /** Other thieves only ever move top up. */
  lemma OthersLeaveCalm<T>(s: Deque<T>, a: Action<T>, k: nat, room: nat)
    requires Shape(s) && Enabled(s, a) && !a.OwnerStep? && (a.BeginSteal? || a.BeginBatch? || a.ThiefStep? ==> a.k != k)
    requires k in s.thieves && CalmThief(s, s.thieves[k], room)
    ensures k in Apply(s, a).thieves && CalmThief(Apply(s, a), Apply(s, a).thieves[k], room)
  {
    assert ThiefOk(s, s.thieves[k]);
    if a.ThiefStep? {
      OwnFrame(s, a.k);
      assert ThiefOk(s, s.thieves[a.k]);
    }
  }

  lemma OwnerShape<T>(s: Deque<T>, junk: seq<T>)
    requires Shape(s) && s.owner != Idle && |junk| == 2 * |s.slots|
    ensures var s' := Apply(s, OwnerStep(junk));
      && Shape(s') && s.top <= s'.top
      && (s'.top == s.top ==> SameLive(s, s'))
  {
    OwnerFrame(s, junk);
    var m, s' := OwnerMove(s, junk), Apply(s, OwnerStep(junk));
    hide OwnerMove, SameLive, ThiefOk;
    assert End(s') == End(m) && OwnerOk(s') == OwnerOk(m);
    assert SameLive(s, s') == SameLive(s, m) by {
      SameLiveIgnoresThieves(s, m, s');
    }
    ThievesKept(s, s');
  }

  lemma SameLiveIgnoresThieves<T>(s: Deque<T>, m: Deque<T>, s': Deque<T>)
    requires |s.slots| > 0 && |m.slots| > 0 && s' == m.(thieves := s'.thieves)
    ensures SameLive(s, s') == SameLive(s, m)
  {
  }

  lemma BeginShape<T>(s: Deque<T>, a: Action<T>)
    requires Shape(s) && Enabled(s, a) && !a.OwnerStep? && !a.ThiefStep?
    ensures Shape(Apply(s, a)) && Contents(Apply(s, a)) == Contents(s)
  {
    var s' := Apply(s, a);
    forall k <- s'.thieves ensures ThiefOk(s', s'.thieves[k]) {
      if k in s.thieves {
        assert ThiefOk(s, s.thieves[k]);
      }
    }
  }

  lemma ThiefFrame<T>(s: Deque<T>, s': Deque<T>, th: Thief<T>)
    requires |s.slots| > 0 && ThiefOk(s, th)
    requires s'.slots == s.slots && End(s') == End(s) && s.top <= s'.top
    ensures ThiefOk(s', th)
  {
  }

  lemma OwnFrame<T>(s: Deque<T>, k: nat)
    requires |s.slots| > 0 && k in s.thieves
    ensures var s' := ThiefMove(s, k);
      s' == s.(top := s'.top, returned := s'.returned, thieves := s'.thieves)
      && s'.thieves == s.thieves[k := s'.thieves[k]]
  {
  }

  lemma BottomBelowEnd<T>(s: Deque<T>)
    requires Shape(s)
    ensures s.bottom <= End(s)
  {
  }

  lemma OwnMove<T>(s: Deque<T>, k: nat)
    requires Shape(s) && Enabled(s, ThiefStep(k)) && Steady(s, ThiefStep(k))
    ensures var s' := ThiefMove(s, k);
      s.top <= s'.top <= End(s') == End(s) && ThiefOk(s', s'.thieves[k])
  {
    hide OwnerOk, Observe, Get;
    assert ThiefOk(s, s.thieves[k]);
    OwnFrame(s, k);
    BottomBelowEnd(s);
    var s' := ThiefMove(s, k);
    match s.thieves[k] {
      case BatchRead(t, n, out, low) =>
        if |out| < n && t == s.top && t + n <= low {
          assert Slot(s, t + |out|) == Get(s.slots, t + |out|);
        }
      case _ =>
    }
  }

  lemma ThiefShape<T>(s: Deque<T>, k: nat)
    requires Shape(s) && Enabled(s, ThiefStep(k)) && Steady(s, ThiefStep(k))
    ensures Shape(Apply(s, ThiefStep(k))) && s.top <= Apply(s, ThiefStep(k)).top
  {
    var s' := ThiefMove(s, k);
    OwnMove(s, k);
    OwnFrame(s, k);
    forall j <- s'.thieves ensures ThiefOk(s', s'.thieves[j]) {
      if j != k {
        ThiefFrame(s, s', s.thieves[j]);
      }
    }
  }

  /** A thief whose compare-and-swap succeeds holds exactly the oldest live elements, however stale its read. */
  lemma CommitTakesOldest<T>(s: Deque<T>, k: nat)
    requires Shape(s) && Enabled(s, ThiefStep(k)) && Steady(s, ThiefStep(k))
    ensures SpecStep(Contents(s), EventOf(s, ThiefStep(k)), Contents(Apply(s, ThiefStep(k))))
  {
    hide OwnerOk, Observe;
    var s' := Apply(s, ThiefStep(k));
    assert ThiefOk(s, s.thieves[k]) && End(s') == End(s);
    match EventOf(s, ThiefStep(k)) {
      case Stolen(_, vals) => assert Contents(s) == vals + Contents(s');
      case _ =>
    }
  }

  /** Each owner action has its effect on the plain sequence at one point, whatever the thieves do. */
  lemma OwnerRefines<T>(s: Deque<T>, junk: seq<T>)
    requires Shape(s) && s.owner != Idle && |junk| == 2 * |s.slots|
    ensures Shape(Apply(s, OwnerStep(junk))) && s.top <= Apply(s, OwnerStep(junk)).top
    ensures SpecStep(Contents(s), EventOf(s, OwnerStep(junk)), Contents(Apply(s, OwnerStep(junk))))
  {
    OwnerShape(s, junk);
    hide ThiefOk, Observe;
    var s' := Apply(s, OwnerStep(junk));
    match EventOf(s, OwnerStep(junk)) {
      case Pushed(val) => assert Contents(s') == Contents(s) + [val];
      case Popped(val) => assert Contents(s) == Contents(s') + [val];
      case PoppedNothing => assert Contents(s') == [];
      case Silent => assert Contents(s') == Contents(s);
    }
  }

  function Outputs<T>(e: Event<T>): seq<T> {
    match e
    case Popped(val) => [val]
    case Stolen(_, vals) => vals
    case _ => []
  }

  function Inputs<T>(e: Event<T>): seq<T> {
    if e.Pushed? then [e.val] else []
  }

  /** What callers have been or will be handed grows by exactly the outputs of the event, in that action. */
  ghost predicate Accounted<T>(s: Deque<T>, e: Event<T>, s': Deque<T>)
    requires |s.slots| > 0 && |s'.slots| > 0
  {
    && s'.pushed == s.pushed + Inputs(e)
    && multiset(s'.returned + InFlight(s')) == multiset(s.returned + InFlight(s)) + multiset(Outputs(e))
  }

  /** The owner hands out values in the order it decides them. */
  lemma OwnerHands<T>(s: Deque<T>, junk: seq<T>)
    requires Shape(s) && s.owner != Idle && |junk| == 2 * |s.slots|
    ensures var s' := OwnerMove(s, junk);
      |s'.slots| > 0 && s'.returned + InFlight(s') == s.returned + InFlight(s) + Outputs(EventOf(s, OwnerStep(junk)))
  {
    var s' := OwnerMove(s, junk);
    if s.owner.PopRead? || s.owner.PopRaise? {
      assert s'.returned + InFlight(s') == s.returned + InFlight(s);
    } else {
      assert InFlight(s) == [];
      assert s'.returned + InFlight(s') == s.returned + Outputs(EventOf(s, OwnerStep(junk)));
    }
  }

  lemma OwnerAccounts<T>(s: Deque<T>, junk: seq<T>)
    requires Shape(s) && s.owner != Idle && |junk| == 2 * |s.slots|
    ensures |OwnerMove(s, junk).slots| > 0
    ensures Accounted(s, EventOf(s, OwnerStep(junk)), Apply(s, OwnerStep(junk)))
  {
    OwnerHands(s, junk);
    OwnerPushes(s, junk);
    HandsAccount(s, EventOf(s, OwnerStep(junk)), OwnerMove(s, junk), Apply(s, OwnerStep(junk)));
  }

  lemma HandsAccount<T>(s: Deque<T>, e: Event<T>, m: Deque<T>, s': Deque<T>)
    requires |s.slots| > 0 && |m.slots| > 0 && s' == m.(thieves := s'.thieves)
    requires m.pushed == s.pushed + Inputs(e)
    requires m.returned + InFlight(m) == s.returned + InFlight(s) + Outputs(e)
    ensures Accounted(s, e, s')
  {
    assert InFlight(s') == InFlight(m);
  }

  lemma OwnerPushes<T>(s: Deque<T>, junk: seq<T>)
    requires |s.slots| > 0 && s.owner != Idle && |junk| == 2 * |s.slots|
    ensures OwnerMove(s, junk).pushed == s.pushed + Inputs(EventOf(s, OwnerStep(junk)))
  {
    assert s.pushed + [] == s.pushed;
  }

  lemma ThiefAccounts<T>(s: Deque<T>, k: nat)
    requires Shape(s) && Enabled(s, ThiefStep(k))
    ensures |ThiefMove(s, k).slots| > 0
    ensures Accounted(s, EventOf(s, ThiefStep(k)), ThiefMove(s, k))
  {
    var s', e := ThiefMove(s, k), EventOf(s, ThiefStep(k));
    assert s'.returned == s.returned + Outputs(e);
    assert s'.pushed == s.pushed + Inputs(e);
    assert InFlight(s') == InFlight(s);
  }

  /** An accounted spec step keeps the books balanced. */
  lemma Balance<T>(s: Deque<T>, e: Event<T>, s': Deque<T>)
    requires Inv(s) && Shape(s') && Accounted(s, e, s') && SpecStep(Contents(s), e, Contents(s'))
    ensures Inv(s')
  {
  }

  lemma BeginKeeps<T>(s: Deque<T>, a: Action<T>)
    requires Inv(s) && Enabled(s, a) && !a.OwnerStep? && !a.ThiefStep?
    ensures Inv(Apply(s, a)) && Contents(Apply(s, a)) == Contents(s) && Apply(s, a).top == s.top
  {
    BeginShape(s, a);
  }

  lemma OneRun<T>(s: Deque<T>, a: Action<T>)
    requires |s.slots| > 0 && Enabled(s, a)
    ensures Run(s, [a]) && Exec(s, [a]) == Apply(s, a) && Trace(s, [a]) == [EventOf(s, a)]
    ensures AlwaysSteady(s, [a]) <==> Steady(s, a)
  {
    assert [a][1..] == [];
  }

  /** A run followed by a run from where it ended is a run. */
  lemma {:induction false} RunConcat<T>(s: Deque<T>, acts: seq<Action<T>>, more: seq<Action<T>>)
    requires Run(s, acts) && Run(Exec(s, acts), more)
    ensures Run(s, acts + more) && Exec(s, acts + more) == Exec(Exec(s, acts), more)
    decreases |acts|
  {
    hide Enabled, Apply;
    if acts == [] {
      assert acts + more == more;
    } else {
      assert (acts + more)[0] == acts[0] && (acts + more)[1..] == acts[1..] + more;
      RunConcat(Apply(s, acts[0]), acts[1..], more);
    }
  }

  lemma {:induction false} TraceConcat<T>(s: Deque<T>, acts: seq<Action<T>>, more: seq<Action<T>>)
    requires Run(s, acts) && Run(Exec(s, acts), more) && Run(s, acts + more)
    ensures Trace(s, acts + more) == Trace(s, acts) + Trace(Exec(s, acts), more)
    ensures AlwaysSteady(s, acts + more) <==> AlwaysSteady(s, acts) && AlwaysSteady(Exec(s, acts), more)
    decreases |acts|
  {
    hide Steady, Enabled, Apply, EventOf;
    if acts == [] {
      assert acts + more == more;
    } else {
      assert (acts + more)[0] == acts[0] && (acts + more)[1..] == acts[1..] + more;
      TraceConcat(Apply(s, acts[0]), acts[1..], more);
    }
  }

  /** No action ever lowers top. */
  lemma TopGrows<T>(s: Deque<T>, a: Action<T>)
    requires |s.slots| > 0 && Enabled(s, a)
    ensures s.top <= Apply(s, a).top
  {
  }

  /**
   The central step theorem: every action but the commit of an unsteady batch keeps the invariant and is
   one step of a plain sequence.
   */
  lemma StepRefines<T>(s: Deque<T>, a: Action<T>)
    requires Inv(s) && Enabled(s, a)
    ensures s.top <= Apply(s, a).top
    ensures Steady(s, a) ==> Inv(Apply(s, a)) && SpecStep(Contents(s), EventOf(s, a), Contents(Apply(s, a)))
  {
    TopGrows(s, a);
    if Steady(s, a) {
      SteadyStepRefines(s, a);
    }
  }

  lemma SteadyStepRefines<T>(s: Deque<T>, a: Action<T>)
    requires Inv(s) && Enabled(s, a) && Steady(s, a)
    ensures Inv(Apply(s, a)) && SpecStep(Contents(s), EventOf(s, a), Contents(Apply(s, a)))
  {
    match a {
      case OwnerStep(junk) =>
        OwnerRefines(s, junk);
        OwnerAccounts(s, junk);
        Balance(s, EventOf(s, a), Apply(s, a));
      case ThiefStep(k) =>
        ThiefShape(s, k);
        CommitTakesOldest(s, k);
        ThiefAccounts(s, k);
        Balance(s, EventOf(s, a), Apply(s, a));
      case BeginPush(_) => BeginKeeps(s, a);
      case BeginPop => BeginKeeps(s, a);
      case BeginSteal(_) => BeginKeeps(s, a);
      case BeginBatch(_, _) => BeginKeeps(s, a);
    }
  }

  ghost function Plain<T>(): (seq<T>, Event<T>, seq<T>) -> bool {
    (q, e, q') => SpecStep(q, e, q')
  }

  /** The events lead a plain sequence from q to q'. */
  ghost predicate SpecRun<T(!new)>(q: seq<T>, es: seq<Event<T>>, q': seq<T>) {
    Leads(Plain(), q, es, q')
  }

  /**
   Every interleaving of one owner and any number of thieves is a run of a plain sequence, as long as the
   batches that commit are steady.
   */
  lemma {:induction false} RunRefines<T(!new)>(s: Deque<T>, acts: seq<Action<T>>)
    requires Inv(s) && Run(s, acts)
    ensures s.top <= Exec(s, acts).top
    ensures AlwaysSteady(s, acts) ==>
      Inv(Exec(s, acts)) && SpecRun(Contents(s), Trace(s, acts), Contents(Exec(s, acts)))
    decreases |acts|
  {
    TopOnlyGrows(s, acts);
    if acts != [] && AlwaysSteady(s, acts) {
      var m, f := Apply(s, acts[0]), Exec(s, acts);
      SteadyStepRefines(s, acts[0]);
      RunRefines(m, acts[1..]);
      LeadsNext(Plain(), Contents(s), EventOf(s, acts[0]), Contents(m), Trace(m, acts[1..]), Contents(f));
    }
  }

  lemma {:induction false} TopOnlyGrows<T>(s: Deque<T>, acts: seq<Action<T>>)
    requires Run(s, acts)
    ensures s.top <= Exec(s, acts).top
    decreases |acts|
  {
    if acts != [] {
      TopGrows(s, acts[0]);
      TopOnlyGrows(Apply(s, acts[0]), acts[1..]);
    }
  }

  /**
   From a new deque, in every interleaving whose batches commit steadily: what was pushed is exactly what
   was returned, what a decided pop still holds and what is in the deque, each element counted once.
   */
  lemma ExactlyOnce<T(!new)>(s: Deque<T>, acts: seq<Action<T>>)
    requires Init(s) && Run(s, acts)
    ensures AlwaysSteady(s, acts) ==>
      var f := Exec(s, acts);
      && Shape(f)
      && multiset(f.pushed) == multiset(f.returned) + multiset(InFlight(f)) + multiset(Contents(f))
      && (forall v :: multiset(f.returned)[v] <= multiset(f.pushed)[v])
      && SpecRun([], Trace(s, acts), Contents(f))
  {
    InitInv(s);
    RunRefines(s, acts);
  }

  /** Thief k stays inside one batch, and bottom at or above m, throughout a run. */
  ghost predicate StaysAbove<T>(s: Deque<T>, acts: seq<Action<T>>, k: nat, m: int)
    requires Run(s, acts)
    decreases |acts|
  {
    && k in s.thieves && s.thieves[k].BatchRead? && m <= s.bottom
    && (acts == [] || StaysAbove(Apply(s, acts[0]), acts[1..], k, m))
  }

  /** Thief k is in one batch of n slots from t, and the owner's end has not come below m since. */
  ghost predicate InBatch<T>(s: Deque<T>, k: nat, t: int, n: nat, m: int) {
    && k in s.thieves && s.thieves[k].BatchRead?
    && s.thieves[k].t == t && s.thieves[k].n == n && m <= s.thieves[k].low
  }

  lemma LowStep<T>(s: Deque<T>, a: Action<T>, k: nat, t: int, n: nat, m: int)
    requires |s.slots| > 0 && Enabled(s, a) && InBatch(s, k, t, n, m)
    requires Shape(Apply(s, a)) && m <= Apply(s, a).bottom
    requires k in Apply(s, a).thieves && Apply(s, a).thieves[k].BatchRead?
    ensures InBatch(Apply(s, a), k, t, n, m)
  {
    assert Apply(s, a).bottom <= End(Apply(s, a));
  }

  /** Nothing has gone wrong with the deque, and the batch is clear of the owner; or top has passed its start. */
  ghost predicate ClearOrPassed<T>(s: Deque<T>, k: nat, t: int, n: nat, m: int) {
    s.top > t || (Inv(s) && InBatch(s, k, t, n, m))
  }

  /** The commit of an unsteady batch of another thief moves top past the start of this one. */
  lemma UnsteadyPasses<T>(s: Deque<T>, a: Action<T>, k: nat, t: int, n: nat, m: int)
    requires Inv(s) && InBatch(s, k, t, n, m) && Enabled(s, a) && !Steady(s, a)
    ensures Apply(s, a).top > t
  {
    assert ThiefOk(s, s.thieves[k]);
  }

  lemma {:induction false} StaysClearOrPassed<T>(s: Deque<T>, acts: seq<Action<T>>, k: nat, t: int, n: nat, m: int)
    requires Run(s, acts) && StaysAbove(s, acts, k, m) && ClearOrPassed(s, k, t, n, m)
    ensures var f := Exec(s, acts);
      k in f.thieves && f.thieves[k].BatchRead? && ClearOrPassed(f, k, t, n, m)
    decreases |acts|
  {
    if acts != [] {
      var a, s' := acts[0], Apply(s, acts[0]);
      TopGrows(s, a);
      if s.top <= t {
        if Steady(s, a) {
          SteadyStepRefines(s, a);
          LowStep(s, a, k, t, n, m);
        } else {
          UnsteadyPasses(s, a, k, t, n, m);
        }
      }
      StaysClearOrPassed(s', acts[1..], k, t, n, m);
    }
  }

  /** How many elements a batch sets out to take, once it has loaded bottom. */
  function BatchSize<T>(s: Deque<T>, k: nat): int
    requires k in s.thieves && s.thieves[k].BatchBottom?
  {
    Min(Min(s.bottom - s.thieves[k].t, s.thieves[k].room), 128)
  }

  /** A steady commit of a complete batch removes exactly the batch from the front. */
  lemma SteadyCommit<T>(s: Deque<T>, k: nat, t: int, n: nat)
    requires Inv(s) && InBatch(s, k, t, n, t + n) && |s.thieves[k].out| == n && s.top == t
    ensures var s', out := Apply(s, ThiefStep(k)), s.thieves[k].out;
      && Inv(s') && s'.returned == s.returned + out
      && n <= |Contents(s)| && out == Contents(s)[..n] && Contents(s') == Contents(s)[n..]
  {
    SteadyStepRefines(s, ThiefStep(k));
    assert Contents(s) == s.thieves[k].out + Contents(Apply(s, ThiefStep(k)));
  }

  /**
   A batch whose compare-and-swap succeeds while `bottom` stayed at or above its last index since
   it was loaded takes exactly the n oldest elements, in order. Pushes, growth and any activity of
   other thieves may come in between.
   */
  lemma BatchTakesOldest<T>(s: Deque<T>, k: nat, acts: seq<Action<T>>)
    requires Inv(s) && k in s.thieves && s.thieves[k].BatchBottom? && s.thieves[k].t < s.bottom
    requires Run(Apply(s, ThiefStep(k)), acts)
    requires StaysAbove(Apply(s, ThiefStep(k)), acts, k, s.thieves[k].t + BatchSize(s, k))
    ensures var f := Exec(Apply(s, ThiefStep(k)), acts);
      && k in f.thieves && f.thieves[k].BatchRead?
      && (|f.thieves[k].out| == BatchSize(s, k) && f.top == s.thieves[k].t ==>
            && Inv(f)
            && var f', n, out := Apply(f, ThiefStep(k)), BatchSize(s, k), f.thieves[k].out;
               && Inv(f') && f'.returned == f.returned + out
               && n <= |Contents(f)| && out == Contents(f)[..n] && Contents(f') == Contents(f)[n..])
  {
    hide ThiefOk, Conserved, Contents, Observe, Slot, SpecStep;
    var t, n := s.thieves[k].t, BatchSize(s, k);
    var s1 := Apply(s, ThiefStep(k));
    SteadyStepRefines(s, ThiefStep(k));
    assert s.bottom <= End(s);
    StaysClearOrPassed(s1, acts, k, t, n, t + n);
    var f := Exec(s1, acts);
    if |f.thieves[k].out| == n && f.top == t {
      SteadyCommit(f, k, t, n);
    }
  }

  lemma {:induction false} SteadyRunKeepsInv<T>(s: Deque<T>, acts: seq<Action<T>>)
    requires Inv(s) && Run(s, acts) && AlwaysSteady(s, acts)
    ensures Inv(Exec(s, acts))
    decreases |acts|
  {
    if acts != [] {
      SteadyStepRefines(s, acts[0]);
      SteadyRunKeepsInv(Apply(s, acts[0]), acts[1..]);
    }
  }
}
