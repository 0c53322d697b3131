/** The inductive invariant of the futex mutex. */
module MutexInvariant {
  import opened Helpers
  import opened FutexMutex

  /** Inside, with the section not yet finished. */
  predicate Working<L>(pc: Pc<L>) {
    pc.Own1? || pc.Own2? || pc.Critical?
  }

  /** At most one thread is inside, and the lock word is Free exactly when none is. */
  ghost predicate Exclusion<D, J, L>(s: State<D, J, L>) {
    && (s.state.Free? <==> s.holder.None?)
    && (s.holder.Some? ==> s.holder.value < |s.threads|)
    && (forall i :: 0 <= i < |s.threads| ==> (Inside(s.threads[i].pc) <==> s.holder == Some(i)))
    && (forall i :: 0 <= i < |s.threads| && !s.threads[i].pc.Idle? ==> s.threads[i].todo != [])
  }

  /** Positions that exist only with the deadlock checks compiled in. */
  predicate CheckPc<L>(pc: Pc<L>) {
    pc.Test1? || pc.Test2? || pc.Own1? || pc.Own2? || pc.Check1? || pc.Check2? || pc.Clear1? || pc.Clear2?
  }

  /** What `_owner` and `_owner_set` hold, by the holder's position. */
  ghost predicate OwnerOk<D, J, L>(s: State<D, J, L>)
    requires s.holder.Some? ==> s.holder.value < |s.threads|
  {
    && (forall i :: 0 <= i < |s.threads| ==> !s.threads[i].pc.Abort?)
    && (s.owner.Some? ==> s.owner == s.holder)
    && (s.ownerSet ==> s.owner.Some?)
    && (!s.checks ==> s.owner.None? && forall i :: 0 <= i < |s.threads| ==> !CheckPc(s.threads[i].pc))
    && (s.checks && s.holder.Some? ==>
          var pc := s.threads[s.holder.value].pc;
          && (pc.Own2? || pc.Critical? || pc.Check1? || pc.Check2? || pc.Clear1? ==> s.owner == s.holder)
          && (pc.Critical? || pc.Check1? || pc.Check2? || pc.Clear1? ==> s.ownerSet)
          && (pc.Own1? || pc.Own2? || pc.Clear2? || pc.Release? ==> !s.ownerSet)
          && (pc.Own1? || pc.Release? ==> s.owner.None?))
  }

  /** Nobody sleeps unless someone is bound to look at the lock again: the word is Contended,
      or a wake-up is on its way, or an awake thread is about to swap in Contended. */
  ghost predicate WakeOk<D, J, L>(s: State<D, J, L>) {
    forall i :: Sleeping(s, i) ==> s.state.Contended? || exists j :: Rouser(s, j)
  }

  ghost predicate Rouser<D, J, L>(s: State<D, J, L>, j: nat) {
    j < |s.threads| && (s.threads[j].pc.Wake? || s.threads[j].pc.Exchange?)
  }

  /** The completed sections form a chain of sections run alone, in acquisition order. */
  ghost predicate Chain<D, J, L>(s: State<D, J, L>) {
    && |s.trail| == |s.results| + 1 && |s.results| <= |s.log|
    && forall k :: 0 <= k < |s.results| ==> Completes(s.sec, s.log[k].j, s.trail[k], s.trail[k + 1], s.results[k])
  }

  /** The data now: as the last section left it, or part of the way through the next one. */
  ghost predicate DataOk<D, J, L>(s: State<D, J, L>)
    requires s.holder.Some? ==> s.holder.value < |s.threads|
  {
    && |s.trail| == |s.results| + 1
    && if s.holder.None? || !Working(s.threads[s.holder.value].pc) then
         |s.log| == |s.results| && s.data == Last(s.trail)
       else
         var t := s.threads[s.holder.value];
         && |s.log| == |s.results| + 1 && t.todo != []
         && Last(s.log) == Entry(s.holder.value, t.todo[0].j)
         && (t.pc.Critical? ==>
               && Iter(s.sec, t.pc.n, Last(s.trail), s.sec.start(t.todo[0].j)) == (s.data, t.pc.l)
               && Unfinished(s.sec, t.pc.n, Last(s.trail), s.sec.start(t.todo[0].j)))
         && (!t.pc.Critical? ==> s.data == Last(s.trail))
  }

  ghost predicate Inv<D, J, L>(s: State<D, J, L>) {
    Exclusion(s) && OwnerOk(s) && WakeOk(s) && Chain(s) && DataOk(s)
  }

  lemma InitInv<D, J, L>(sec: Section<D, J, L>, checks: bool, d: D, jobs: seq<seq<Job<J>>>)
    ensures Inv(Init(sec, checks, d, jobs))
  {
  }

  /** The step is a successful acquisition of the lock word. */
  predicate Acquires<D, J, L>(s: State<D, J, L>, a: Action)
    requires Enabled(s, a)
  {
    a.Step? &&
    var pc := s.threads[a.i].pc;
    ((pc.Fast? || pc.Spin?) && s.state.Free?) || (pc.Exchange? && !LockedBit(s.state))
  }

  predicate Releases<D, J, L>(s: State<D, J, L>, a: Action)
    requires Enabled(s, a)
  {
    a.Step? && s.threads[a.i].pc.Release?
  }

  lemma AcquireStep<D, J, L>(s: State<D, J, L>, a: Action)
    requires Inv(s) && Enabled(s, a) && Acquires(s, a)
    ensures Exclusion(Do(s, a)) && OwnerOk(Do(s, a)) && DataOk(Do(s, a))
  {
  }

  lemma ReleaseStep<D, J, L>(s: State<D, J, L>, a: Action)
    requires Inv(s) && Enabled(s, a) && Releases(s, a)
    ensures Exclusion(Do(s, a)) && OwnerOk(Do(s, a)) && DataOk(Do(s, a))
  {
  }

  /** Threads move outside the lock; nothing else changes but Locked becoming Contended. */
  lemma OutsideFrame<D, J, L>(s: State<D, J, L>, s': State<D, J, L>)
    requires Inv(s) && |s'.threads| == |s.threads|
    requires s' == s.(threads := s'.threads, state := s'.state) && (s'.state.Free? <==> s.state.Free?)
    requires forall i :: 0 <= i < |s.threads| && s'.threads[i] != s.threads[i] ==>
               var pc := s'.threads[i].pc;
               && !Inside(s.threads[i].pc) && !Inside(pc) && !pc.Abort? && (CheckPc(pc) ==> s.checks)
               && (pc.Idle? || s'.threads[i].todo != [])
    ensures Exclusion(s') && OwnerOk(s') && DataOk(s')
  {
  }

  lemma OutsideStep<D, J, L>(s: State<D, J, L>, a: Action)
    requires Inv(s) && Enabled(s, a) && !Acquires(s, a) && !Inside(s.threads[a.i].pc) && a.Step?
    ensures Exclusion(Do(s, a)) && OwnerOk(Do(s, a)) && DataOk(Do(s, a))
  {
    OutsideFrame(s, Do(s, a));
  }

  lemma FutexStep<D, J, L>(s: State<D, J, L>, a: Action)
    requires Inv(s) && Enabled(s, a) && !a.Step?
    ensures Exclusion(Do(s, a)) && OwnerOk(Do(s, a)) && DataOk(Do(s, a))
  {
    if a.WakeOne? {
      WakeOneStep(s, a.i, a.j);
    } else {
      OutsideFrame(s, Do(s, a));
    }
  }

  lemma WakerLeaves<D, J, L>(s: State<D, J, L>, i: nat, j: nat)
    requires Exclusion(s) && OwnerOk(s) && DataOk(s) && Enabled(s, WakeOne(i, j))
    ensures var s' := NextJob(s, i);
            Exclusion(s') && OwnerOk(s') && DataOk(s') && Sleeping(s', j) && s'.threads[j].todo != []
  {
    assert i != j;
  }

  lemma SleeperWakes<D, J, L>(s: State<D, J, L>, j: nat)
    requires Exclusion(s) && OwnerOk(s) && DataOk(s) && Sleeping(s, j)
    ensures var s' := Goto(s, j, Exchange); Exclusion(s') && OwnerOk(s') && DataOk(s')
  {
  }

  lemma WakeOneStep<D, J, L>(s: State<D, J, L>, i: nat, j: nat)
    requires Inv(s) && Enabled(s, WakeOne(i, j))
    ensures Exclusion(Do(s, WakeOne(i, j))) && OwnerOk(Do(s, WakeOne(i, j))) && DataOk(Do(s, WakeOne(i, j)))
  {
    var mid := NextJob(s, i);
    WakerLeaves(s, i, j);
    assert Do(s, WakeOne(i, j)) == mid.(threads := mid.threads[j := mid.threads[j].(pc := Exchange)]);
    SleeperWakes(mid, j);
  }

  /** Taking a step of the section, or finishing it. */
  lemma CriticalStep<D, J, L>(s: State<D, J, L>, a: Action)
    requires Inv(s) && Enabled(s, a) && s.threads[a.i].pc.Critical?
    ensures Exclusion(Do(s, a)) && OwnerOk(Do(s, a)) && DataOk(Do(s, a))
  {
    var t, s' := s.threads[a.i], Do(s, a);
    assert a.Step? && s.holder == Some(a.i);
    if !s.sec.done(t.pc.l) {
      var l0 := s.sec.start(t.todo[0].j);
      assert Iter(s.sec, t.pc.n + 1, Last(s.trail), l0) == (s'.data, s'.threads[a.i].pc.l);
      assert Unfinished(s.sec, t.pc.n + 1, Last(s.trail), l0);
    }
  }

  /** The owner bookkeeping around the section. */
  lemma BookStep<D, J, L>(s: State<D, J, L>, a: Action)
    requires Inv(s) && Enabled(s, a) && !Releases(s, a)
    requires Inside(s.threads[a.i].pc) && !s.threads[a.i].pc.Critical?
    ensures Exclusion(Do(s, a)) && OwnerOk(Do(s, a)) && DataOk(Do(s, a))
  {
    assert a.Step? && s.holder == Some(a.i);
  }

  lemma ChainStep<D, J, L>(s: State<D, J, L>, a: Action)
    requires Inv(s) && Enabled(s, a)
    ensures Chain(Do(s, a))
  {
    if a.Step? && s.threads[a.i].pc.Critical? && s.sec.done(s.threads[a.i].pc.l) {
      FinishStep(s, a.i);
    } else if a.Step? {
      NoFinishStep(s, a.i);
    }
  }

  lemma FinishStep<D, J, L>(s: State<D, J, L>, i: nat)
    requires Inv(s) && Enabled(s, Step(i)) && s.threads[i].pc.Critical? && s.sec.done(s.threads[i].pc.l)
    ensures Chain(Do(s, Step(i)))
  {
    var s', pc, k := Do(s, Step(i)), s.threads[i].pc, |s.results|;
    assert s.holder == Some(i);
    assert CompletesIn(s.sec, pc.n, s.log[k].j, s.trail[k], s.data, pc.l);
    assert Completes(s'.sec, s'.log[k].j, s'.trail[k], s'.trail[k + 1], s'.results[k]);
    ChainFrame(s, s');
  }

  lemma NoFinishStep<D, J, L>(s: State<D, J, L>, i: nat)
    requires Inv(s) && Enabled(s, Step(i)) && !(s.threads[i].pc.Critical? && s.sec.done(s.threads[i].pc.l))
    ensures Chain(Do(s, Step(i)))
  {
    ResultsKept(s, i);
    ChainFrame(s, Do(s, Step(i)));
  }

  lemma ResultsKept<D, J, L>(s: State<D, J, L>, i: nat)
    requires Enabled(s, Step(i)) && !(s.threads[i].pc.Critical? && s.sec.done(s.threads[i].pc.l))
    ensures Do(s, Step(i)).trail == s.trail && Do(s, Step(i)).results == s.results
  {
  }

  lemma ChainFrame<D, J, L>(s: State<D, J, L>, s': State<D, J, L>)
    requires Chain(s) && s'.sec == s.sec && s.log <= s'.log && s.trail <= s'.trail && s.results <= s'.results
    requires |s'.trail| == |s'.results| + 1 && |s'.results| <= |s'.log|
    requires forall k :: |s.results| <= k < |s'.results| ==>
               Completes(s'.sec, s'.log[k].j, s'.trail[k], s'.trail[k + 1], s'.results[k])
    ensures Chain(s')
  {
  }

  lemma WakeStep<D, J, L>(s: State<D, J, L>, a: Action)
    requires Inv(s) && Enabled(s, a)
    ensures WakeOk(Do(s, a))
  {
    match a
    case Interrupt(i) => assert Rouser(Do(s, a), i);
    case WakeOne(i, j) => assert Rouser(Do(s, a), j);
    case WakeNone(i) =>
      assert forall k :: Sleeping(Do(s, a), k) ==> Sleeping(s, k);
    case Step(i) =>
      if s.state.Contended? {
        LeaveContended(s, i);
      } else {
        StayRoused(s, i);
      }
  }

  /** The word stops being Contended only by a release, which then owes a wake-up. */
  lemma LeaveContended<D, J, L>(s: State<D, J, L>, i: nat)
    requires Inv(s) && Enabled(s, Step(i)) && s.state.Contended?
    ensures WakeOk(Do(s, Step(i)))
  {
    var s' := Do(s, Step(i));
    if !s'.state.Contended? {
      assert Rouser(s', i);
    }
  }

  /** A thread goes to sleep only on a Contended word, and one that stops rousing makes it so. */
  lemma StayRoused<D, J, L>(s: State<D, J, L>, i: nat)
    requires Inv(s) && Enabled(s, Step(i)) && !s.state.Contended?
    ensures WakeOk(Do(s, Step(i)))
  {
    var s' := Do(s, Step(i));
    if s.threads[i].pc.Exchange? {
      assert s'.state.Contended?;
    } else {
      NoNewSleeper(s, i);
      forall k | Sleeping(s', k) ensures exists j :: Rouser(s', j) {
        assert Sleeping(s, k);
        var j: nat :| Rouser(s, j);
        assert Rouser(s', j);
      }
    }
  }

  lemma NoNewSleeper<D, J, L>(s: State<D, J, L>, i: nat)
    requires Enabled(s, Step(i)) && !s.state.Contended?
    ensures !Do(s, Step(i)).threads[i].pc.Asleep?
  {
  }

  lemma StepInv<D, J, L>(s: State<D, J, L>, a: Action)
    requires Inv(s) && Enabled(s, a)
    ensures Inv(Do(s, a))
  {
    if Acquires(s, a) {
      AcquireStep(s, a);
    } else if Releases(s, a) {
      ReleaseStep(s, a);
    } else if a.Step? && s.threads[a.i].pc.Critical? {
      CriticalStep(s, a);
    } else if a.Step? && Inside(s.threads[a.i].pc) {
      BookStep(s, a);
    } else if a.Step? {
      OutsideStep(s, a);
    } else {
      FutexStep(s, a);
    }
    WakeStep(s, a);
    ChainStep(s, a);
  }

  lemma {:induction false} RunInv<D, J, L>(s: State<D, J, L>, acts: seq<Action>)
    requires Inv(s) && ValidRun(s, acts)
    ensures Inv(Run(s, acts))
    decreases |acts|
  {
    if acts != [] {
      StepInv(s, acts[0]);
      RunInv(Do(s, acts[0]), acts[1..]);
    }
  }

  lemma ReachableInv<D, J, L>(sec: Section<D, J, L>, checks: bool, d: D, jobs: seq<seq<Job<J>>>, s: State<D, J, L>)
    requires Reachable(sec, checks, d, jobs, s)
    ensures Inv(s)
  {
    var acts: seq<Action> :| ValidRun(Init(sec, checks, d, jobs), acts) && Run(Init(sec, checks, d, jobs), acts) == s;
    InitInv(sec, checks, d, jobs);
    RunInv(Init(sec, checks, d, jobs), acts);
  }
}
