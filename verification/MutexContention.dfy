/**
 The slow path of the mutex: when the word becomes Contended, who sleeps, who wakes whom, and that
 all of this does happen.
 */
module MutexContention {
  import opened Helpers
  import opened FutexMutex
  import opened MutexInvariant

  // ----- what an access of a thread does -------------------------------------------------

  /** Each compare-exchange takes a Free word as Locked and leaves any other alone. */
  lemma CasTakesFree<D, J, L>(s: State<D, J, L>, i: nat)
    requires Enabled(s, Step(i)) && (s.threads[i].pc.Fast? || s.threads[i].pc.Spin?)
    ensures var s' := Do(s, Step(i));
            && (s.state.Free? ==> s'.state == Locked && s'.holder == Some(i))
            && (!s.state.Free? ==> s'.state == s.state && s'.holder == s.holder)
  {
  }

  /** The exchange always leaves Contended, and takes a Free word. */
  lemma ExchangeContends<D, J, L>(s: State<D, J, L>, i: nat)
    requires Enabled(s, Step(i)) && s.threads[i].pc.Exchange?
    ensures var s' := Do(s, Step(i));
            && s'.state == Contended
            && (s.state.Free? ==> s'.holder == Some(i))
            && (!s.state.Free? ==> s'.holder == s.holder && s'.threads[i].pc == Wait)
  {
  }

  /** A futex wait sleeps exactly if the word is still Contended, and otherwise goes back to the
      exchange. */
  lemma SleepsIff<D, J, L>(s: State<D, J, L>, i: nat)
    requires Enabled(s, Step(i)) && s.threads[i].pc.Wait?
    ensures Do(s, Step(i)).threads[i].pc == if s.state.Contended? then Asleep else Exchange
    ensures Do(s, Step(i)).state == s.state
  {
  }

  /** The release frees the word, and goes on to a wake-up exactly if it was Contended. */
  lemma WakesIff<D, J, L>(s: State<D, J, L>, i: nat)
    requires Enabled(s, Step(i)) && s.threads[i].pc.Release?
    ensures var s' := Do(s, Step(i));
            && s'.state == Free && s'.holder.None?
            && (s.state.Contended? ==> s'.threads[i] == s.threads[i].(pc := Wake))
            && (!s.state.Contended? ==> s'.threads[i] == Thread(Idle, s.threads[i].todo[1..]))
  {
  }

  /** A wake-up takes one sleeper to the exchange and moves nobody else but the waker. */
  lemma WakesOne<D, J, L>(s: State<D, J, L>, i: nat, j: nat)
    requires Enabled(s, WakeOne(i, j))
    ensures i != j && s.threads[j].pc.Asleep?
    ensures var s' := Do(s, WakeOne(i, j));
            && s'.threads[j] == s.threads[j].(pc := Exchange)
            && s'.threads[i] == Thread(Idle, s.threads[i].todo[1..])
            && |s'.threads| == |s.threads|
            && (forall k :: 0 <= k < |s.threads| && k != i && k != j ==> s'.threads[k] == s.threads[k])
            && s'.state == s.state
  {
  }

  /** A futex wait may end for no reason at any time, and a wake-up may choose any sleeper. */
  lemma FutexAllows<D, J, L>(s: State<D, J, L>, i: nat, j: nat)
    requires i < |s.threads|
    ensures Enabled(s, Interrupt(i)) <==> s.threads[i].pc.Wait? || s.threads[i].pc.Asleep?
    ensures s.threads[i].pc.Wake? && s.threads[i].todo != [] ==>
              && (Enabled(s, WakeOne(i, j)) <==> Sleeping(s, j))
              && (Enabled(s, WakeNone(i)) <==> forall k :: 0 <= k < |s.threads| ==> !Sleeping(s, k))
  {
  }

  // ----- contention has a cause ----------------------------------------------------------

  predicate Swaps<D, J, L>(s: State<D, J, L>, a: Action)
    requires Enabled(s, a)
  {
    a.Step? && s.threads[a.i].pc.Exchange?
  }

  /** Whether, by the end of a run, some thread has swapped in Contended since the last release;
      `b` says so for its beginning. */
  function Swapped<D, J, L>(s: State<D, J, L>, acts: seq<Action>, b: bool): bool
    requires ValidRun(s, acts)
    decreases |acts|
  {
    if acts == [] then b
    else Swapped(Do(s, acts[0]), acts[1..], if Swaps(s, acts[0]) then true else if Releases(s, acts[0]) then false else b)
  }

  lemma ContendStep<D, J, L>(s: State<D, J, L>, a: Action)
    requires Enabled(s, a) && Do(s, a).state.Contended?
    ensures Swaps(s, a) || (s.state.Contended? && !Releases(s, a))
  {
  }

  lemma {:induction false} RunContends<D, J, L>(s: State<D, J, L>, acts: seq<Action>, b: bool)
    requires ValidRun(s, acts) && (s.state.Contended? ==> b)
    ensures Run(s, acts).state.Contended? ==> Swapped(s, acts, b)
    decreases |acts|
  {
    if acts != [] {
      var s', a := Do(s, acts[0]), acts[0];
      if s'.state.Contended? {
        ContendStep(s, a);
      }
      RunContends(s', acts[1..], if Swaps(s, a) then true else if Releases(s, a) then false else b);
    }
  }

  /** The word is Contended only after some thread has swapped that in since the last release. */
  lemma ContendedIsSwapped<D, J, L>(sec: Section<D, J, L>, checks: bool, d: D, jobs: seq<seq<Job<J>>>, acts: seq<Action>)
    requires ValidRun(Init(sec, checks, d, jobs), acts)
    ensures Run(Init(sec, checks, d, jobs), acts).state.Contended? ==> Swapped(Init(sec, checks, d, jobs), acts, false)
  {
    RunContends(Init(sec, checks, d, jobs), acts, false);
  }

  /** Nobody along the run reaches the exchange of the slow path. */
  ghost predicate NoSlowPath<D, J, L>(s: State<D, J, L>, acts: seq<Action>)
    requires ValidRun(s, acts)
    decreases |acts|
  {
    && (forall i :: 0 <= i < |s.threads| ==> !s.threads[i].pc.Exchange?)
    && (acts == [] || NoSlowPath(Do(s, acts[0]), acts[1..]))
  }

  /** Nobody is in a futex call. */
  ghost predicate NoFutex<D, J, L>(s: State<D, J, L>) {
    && !s.state.Contended?
    && forall i :: 0 <= i < |s.threads| ==> !s.threads[i].pc.Wait? && !s.threads[i].pc.Asleep? && !s.threads[i].pc.Wake?
  }

  lemma NoFutexStep<D, J, L>(s: State<D, J, L>, a: Action)
    requires Enabled(s, a) && NoFutex(s) && !s.threads[a.i].pc.Exchange?
    ensures NoFutex(Do(s, a))
  {
    if Inside(s.threads[a.i].pc) {
      HolderNoFutex(s, a.i);
    } else {
      OuterNoFutex(s, a.i);
    }
  }

  lemma HolderNoFutex<D, J, L>(s: State<D, J, L>, i: nat)
    requires Enabled(s, Step(i)) && NoFutex(s) && Inside(s.threads[i].pc)
    ensures NoFutex(HolderStep(s, i))
  {
  }

  lemma OuterNoFutex<D, J, L>(s: State<D, J, L>, i: nat)
    requires Enabled(s, Step(i)) && NoFutex(s) && !Inside(s.threads[i].pc) && !s.threads[i].pc.Exchange?
    ensures NoFutex(OuterStep(s, i))
  {
  }

  /** A run without the slow path makes no futex call and never sees the word Contended. */
  lemma {:induction false} FastPathOnly<D, J, L>(s: State<D, J, L>, acts: seq<Action>)
    requires ValidRun(s, acts) && NoFutex(s) && NoSlowPath(s, acts)
    ensures NoFutex(Run(s, acts))
    decreases |acts|
  {
    if acts != [] {
      NoFutexStep(s, acts[0]);
      FastPathOnly(Do(s, acts[0]), acts[1..]);
    }
  }

  lemma StartsWithoutFutex<D, J, L>(sec: Section<D, J, L>, checks: bool, d: D, jobs: seq<seq<Job<J>>>)
    ensures NoFutex(Init(sec, checks, d, jobs))
  {
  }

  // ----- it happens ----------------------------------------------------------------------

  /** `acts` lead from the start to `s`. */
  ghost predicate Reaches<D, J, L>(sec: Section<D, J, L>, d: D, jobs: seq<seq<Job<J>>>, acts: seq<Action>, s: State<D, J, L>) {
    ValidRun(Init(sec, false, d, jobs), acts) && Run(Init(sec, false, d, jobs), acts) == s
  }

  lemma {:induction false} RunSnoc<D, J, L>(s: State<D, J, L>, acts: seq<Action>, a: Action)
    requires ValidRun(s, acts) && Enabled(Run(s, acts), a)
    ensures ValidRun(s, acts + [a]) && Run(s, acts + [a]) == Do(Run(s, acts), a)
    decreases |acts|
  {
    if acts == [] {
      assert acts + [a] == [a];
    } else {
      RunSnoc(Do(s, acts[0]), acts[1..], a);
      assert (acts + [a])[1..] == acts[1..] + [a];
    }
  }

  lemma Then<D, J, L>(sec: Section<D, J, L>, d: D, jobs: seq<seq<Job<J>>>, acts: seq<Action>, s: State<D, J, L>, a: Action)
    requires Reaches(sec, d, jobs, acts, s) && Enabled(s, a)
    ensures Reaches(sec, d, jobs, acts + [a], Do(s, a))
  {
    RunSnoc(Init(sec, false, d, jobs), acts, a);
  }

  /** Two threads: one holds the lock, at the start of its section; the other stands at `pc`. */
  ghost predicate Pair<D, J, L>(s: State<D, J, L>, sec: Section<D, J, L>, job: Job<J>, m: MutexState, pc: Pc<L>) {
    && s.sec == sec && !s.checks && s.state == m && s.trail != []
    && s.threads == [Thread(Critical(sec.start(job.j), 0), [job]), Thread(pc, [job])]
  }

  lemma PairStarts<D, J, L>(sec: Section<D, J, L>, d: D, job: Job<J>) returns (acts: seq<Action>, s: State<D, J, L>)
    requires !job.tryOnly
    ensures Reaches(sec, d, [[job], [job]], acts, s) && Pair(s, sec, job, Locked, Spin(0))
  {
    var jobs := [[job], [job]];
    acts, s := [], Init(sec, false, d, jobs);
    Then(sec, d, jobs, acts, s, Step(0)); acts, s := acts + [Step(0)], Do(s, Step(0));
    Then(sec, d, jobs, acts, s, Step(0)); acts, s := acts + [Step(0)], Do(s, Step(0));
    Then(sec, d, jobs, acts, s, Step(1)); acts, s := acts + [Step(1)], Do(s, Step(1));
    Then(sec, d, jobs, acts, s, Step(1)); acts, s := acts + [Step(1)], Do(s, Step(1));
  }

  /** While the lock is held, all compare-exchanges of the spin loop fail. */
  lemma {:induction false} PairSpins<D, J, L>(sec: Section<D, J, L>, d: D, job: Job<J>, k: nat)
    returns (acts: seq<Action>, s: State<D, J, L>)
    requires !job.tryOnly && k < SPIN_COUNT
    ensures Reaches(sec, d, [[job], [job]], acts, s) && Pair(s, sec, job, Locked, Spin(k))
  {
    if k == 0 {
      acts, s := PairStarts(sec, d, job);
    } else {
      acts, s := PairSpins(sec, d, job, k - 1);
      Then(sec, d, [[job], [job]], acts, s, Step(1));
      acts, s := acts + [Step(1)], Do(s, Step(1));
    }
  }

  /** The second thread gives up spinning, */
  lemma PairGivesUp<D, J, L>(sec: Section<D, J, L>, d: D, job: Job<J>) returns (acts: seq<Action>, s: State<D, J, L>)
    requires !job.tryOnly
    ensures Reaches(sec, d, [[job], [job]], acts, s) && Pair(s, sec, job, Locked, Exchange)
  {
    acts, s := PairSpins(sec, d, job, SPIN_COUNT - 1);
    Then(sec, d, [[job], [job]], acts, s, Step(1)); acts, s := acts + [Step(1)], Do(s, Step(1));
  }

  /** swaps in Contended, */
  lemma PairContends<D, J, L>(sec: Section<D, J, L>, d: D, job: Job<J>) returns (acts: seq<Action>, s: State<D, J, L>)
    requires !job.tryOnly
    ensures Reaches(sec, d, [[job], [job]], acts, s) && Pair(s, sec, job, Contended, Wait)
  {
    acts, s := PairGivesUp(sec, d, job);
    Then(sec, d, [[job], [job]], acts, s, Step(1)); acts, s := acts + [Step(1)], Do(s, Step(1));
  }

  /** and falls asleep. */
  lemma PairSleeps<D, J, L>(sec: Section<D, J, L>, d: D, job: Job<J>) returns (acts: seq<Action>, s: State<D, J, L>)
    requires !job.tryOnly
    ensures Reaches(sec, d, [[job], [job]], acts, s) && Pair(s, sec, job, Contended, Asleep)
  {
    acts, s := PairContends(sec, d, job);
    Then(sec, d, [[job], [job]], acts, s, Step(1)); acts, s := acts + [Step(1)], Do(s, Step(1));
  }

  /** A reachable state in which one of two threads sleeps and the other, having released the
      lock, is about to wake it. */
  lemma SleeperIsWoken<D, J, L>(sec: Section<D, J, L>, d: D, job: Job<J>) returns (acts: seq<Action>, s: State<D, J, L>)
    requires !job.tryOnly && sec.done(sec.start(job.j))
    ensures Reaches(sec, d, [[job], [job]], acts, s)
    ensures |s.threads| == 2 && Sleeping(s, 1) && Enabled(s, WakeOne(0, 1))
    ensures Do(s, WakeOne(0, 1)).threads[1].pc == Exchange && s.state == Free
  {
    var jobs := [[job], [job]];
    acts, s := PairSleeps(sec, d, job);
    Then(sec, d, jobs, acts, s, Step(0)); acts, s := acts + [Step(0)], Do(s, Step(0));
    Then(sec, d, jobs, acts, s, Step(0)); acts, s := acts + [Step(0)], Do(s, Step(0));
  }
}
