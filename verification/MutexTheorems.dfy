/** What the futex mutex guarantees over all of its runs. */
module MutexTheorems {
  import opened Helpers
  import opened FutexMutex
  import opened MutexInvariant

  // ----- exclusion and the deadlock checks -----------------------------------------------

  /** At most one thread is inside, the word is Free exactly when none is, and no deadlock
      check ever fires. */
  lemma MutualExclusion<D, J, L>(sec: Section<D, J, L>, checks: bool, d: D, jobs: seq<seq<Job<J>>>, s: State<D, J, L>)
    requires Reachable(sec, checks, d, jobs, s)
    ensures forall i, j :: 0 <= i < j < |s.threads| ==> !(Inside(s.threads[i].pc) && Inside(s.threads[j].pc))
    ensures s.state.Free? <==> forall i :: 0 <= i < |s.threads| ==> !Inside(s.threads[i].pc)
    ensures forall i :: 0 <= i < |s.threads| ==> !s.threads[i].pc.Abort?
  {
    ReachableInv(sec, checks, d, jobs, s);
    if s.holder.Some? {
      assert Inside(s.threads[s.holder.value].pc);
    }
  }

  lemma {:induction false} RunConst<D, J, L>(s: State<D, J, L>, acts: seq<Action>)
    requires ValidRun(s, acts)
    ensures Run(s, acts).sec == s.sec && Run(s, acts).checks == s.checks
    ensures |Run(s, acts).threads| == |s.threads| && s.trail <= Run(s, acts).trail
    decreases |acts|
  {
    if acts != [] {
      RunConst(Do(s, acts[0]), acts[1..]);
    }
  }

  lemma ReachableConst<D, J, L>(sec: Section<D, J, L>, checks: bool, d: D, jobs: seq<seq<Job<J>>>, s: State<D, J, L>)
    requires Reachable(sec, checks, d, jobs, s)
    ensures s.sec == sec && s.checks == checks && |s.threads| == |jobs| && [d] <= s.trail
  {
    var acts: seq<Action> :| ValidRun(Init(sec, checks, d, jobs), acts) && Run(Init(sec, checks, d, jobs), acts) == s;
    RunConst(Init(sec, checks, d, jobs), acts);
  }

  lemma {:induction false} OthersKeepOwner<D, J, L>(s: State<D, J, L>, i: nat, acts: seq<Action>)
    requires Inv(s) && ValidRun(s, acts) && i < |s.threads| && s.threads[i].pc.Critical?
    requires forall a :: a in acts ==> a.i != i
    ensures var s' := Run(s, acts);
            Inv(s') && s'.checks == s.checks && i < |s'.threads| && s'.threads[i].pc == s.threads[i].pc
    decreases |acts|
  {
    if acts != [] {
      assert acts[0] in acts;
      StepInv(s, acts[0]);
      OthersKeepOwner(Do(s, acts[0]), i, acts[1..]);
    }
  }

  /** The two-load recursion test catches a thread that holds the lock, whatever the others do
      between the loads. */
  lemma RecursionCaught<D, J, L>(sec: Section<D, J, L>, d: D, jobs: seq<seq<Job<J>>>, s: State<D, J, L>, i: nat, acts: seq<Action>)
    requires Reachable(sec, true, d, jobs, s) && ValidRun(s, acts)
    requires i < |s.threads| && s.threads[i].pc.Critical?
    requires forall a :: a in acts ==> a.i != i
    ensures s.ownerSet && Run(s, acts).owner == Some(i)
  {
    ReachableInv(sec, true, d, jobs, s);
    ReachableConst(sec, true, d, jobs, s);
    OthersKeepOwner(s, i, acts);
  }

  // ----- wake-ups and progress -----------------------------------------------------------

  /** A sleeper is never forgotten. */
  lemma NoLostWakeup<D, J, L>(sec: Section<D, J, L>, checks: bool, d: D, jobs: seq<seq<Job<J>>>, s: State<D, J, L>, i: nat)
    requires Reachable(sec, checks, d, jobs, s) && Sleeping(s, i)
    ensures s.state.Contended? || exists j :: Rouser(s, j)
    ensures exists j :: 0 <= j < |s.threads| && s.threads[j].todo != [] && !Sleeping(s, j)
  {
    ReachableInv(sec, checks, d, jobs, s);
    if s.state.Contended? {
      assert s.threads[s.holder.value].todo != [] && !Sleeping(s, s.holder.value);
    } else {
      var j: nat :| Rouser(s, j);
      assert s.threads[j].todo != [] && !Sleeping(s, j);
    }
  }

  function TotalTodo<J, L>(threads: seq<Thread<J, L>>): nat {
    if threads == [] then 0 else |threads[0].todo| + TotalTodo(threads[1..])
  }

  lemma {:induction false} TotalUpdate<J, L>(threads: seq<Thread<J, L>>, i: nat, t: Thread<J, L>)
    requires i < |threads|
    ensures TotalTodo(threads[i := t]) == TotalTodo(threads) - |threads[i].todo| + |t.todo|
  {
    if i == 0 {
      assert threads[0 := t][1..] == threads[1..];
    } else {
      TotalUpdate(threads[1..], i - 1, t);
      assert threads[i := t][1..] == threads[1..][i - 1 := t];
    }
  }

  lemma {:induction false} TotalZero<J, L>(threads: seq<Thread<J, L>>)
    ensures TotalTodo(threads) == 0 <==> forall i :: 0 <= i < |threads| ==> threads[i].todo == []
  {
    if threads != [] {
      TotalZero(threads[1..]);
      assert forall i :: 1 <= i < |threads| ==> threads[i] == threads[1..][i - 1];
    }
  }

  ghost predicate Done<D, J, L>(s: State<D, J, L>) {
    forall i :: 0 <= i < |s.threads| ==> s.threads[i].todo == []
  }

  /** Every section, run alone, ends. */
  ghost predicate Terminates<D(!new), J(!new), L>(sec: Section<D, J, L>) {
    forall d: D, j: J :: Ends(sec, d, j)
  }

  ghost predicate Ends<D, J, L>(sec: Section<D, J, L>, d: D, j: J) {
    exists n: nat :: sec.done(Iter(sec, n, d, sec.start(j)).1)
  }

  function Phase<L>(pc: Pc<L>): nat {
    match pc
    case Idle => 13
    case Test1 => 12
    case Test2 => 11
    case Wait => 11
    case Own1 => 9
    case Own2 => 8
    case Critical(_, _) => 7
    case Check1 => 6
    case Check2 => 5
    case Clear1 => 4
    case Clear2 => 3
    case Release => 2
    case Wake => 1
    case _ => 10
  }

  /** `bound` steps are enough for the section the thread is in. */
  ghost predicate Bounds<D, J, L>(s: State<D, J, L>, i: nat, bound: nat)
    requires i < |s.threads|
  {
    var t := s.threads[i];
    t.pc.Critical? ==> t.todo != [] && s.trail != [] && s.sec.done(Iter(s.sec, bound, Last(s.trail), s.sec.start(t.todo[0].j)).1)
  }

  /** What one step of a thread does to its progress towards the end of its job: the job ends,
      or the thread reaches a later phase, or it gets on with its section. */
  ghost predicate Advanced<D, J, L>(s: State<D, J, L>, s': State<D, J, L>, i: nat, bound: nat)
    requires i < |s.threads| && i < |s'.threads| && s.threads[i].todo != []
  {
    var t, t' := s.threads[i], s'.threads[i];
    || t'.todo == t.todo[1..]
    || (&& t'.todo == t.todo && !t'.pc.Asleep?
        && (|| Phase(t'.pc) < Phase(t.pc)
            || (t.pc.Critical? && t'.pc.Critical? && t.pc.n < t'.pc.n <= bound && Bounds(s', i, bound))))
  }

  /** One step of the only thread that can be inside brings it closer to the end of its job. */
  lemma DriveStep<D, J, L>(s: State<D, J, L>, i: nat, bound: nat)
    requires Inv(s) && i < |s.threads| && s.threads[i].todo != [] && !s.threads[i].pc.Asleep? && !s.threads[i].pc.Wake?
    requires s.holder.None? || s.holder == Some(i)
    requires Bounds(s, i, bound)
    ensures Enabled(s, Step(i))
    ensures var s' := Do(s, Step(i));
            && (s'.holder.None? || s'.holder == Some(i)) && OnlyMoved(s, i, s') && Advanced(s, s', i, bound)
  {
    if s.threads[i].pc.Critical? {
      DriveSection(s, i, bound);
    } else if Inside(s.threads[i].pc) {
      DriveHolder(s, i, bound);
    } else {
      DriveOutside(s, i, bound);
    }
  }

  lemma DriveOutside<D, J, L>(s: State<D, J, L>, i: nat, bound: nat)
    requires Inv(s) && Enabled(s, Step(i)) && !Inside(s.threads[i].pc) && s.holder.None?
    ensures var s' := Do(s, Step(i));
            (s'.holder.None? || s'.holder == Some(i)) && Advanced(s, s', i, bound)
  {
  }

  lemma DriveHolder<D, J, L>(s: State<D, J, L>, i: nat, bound: nat)
    requires Inv(s) && Enabled(s, Step(i)) && Inside(s.threads[i].pc) && !s.threads[i].pc.Critical?
    ensures var s' := Do(s, Step(i));
            (s'.holder.None? || s'.holder == Some(i)) && Advanced(s, s', i, bound)
  {
  }

  lemma DriveSection<D, J, L>(s: State<D, J, L>, i: nat, bound: nat)
    requires Inv(s) && Enabled(s, Step(i)) && s.threads[i].pc.Critical? && Bounds(s, i, bound)
    ensures var s' := Do(s, Step(i));
            (s'.holder.None? || s'.holder == Some(i)) && Advanced(s, s', i, bound)
  {
    if !s.sec.done(s.threads[i].pc.l) {
      assert s.threads[i].pc.n != bound;
      assert bound > s.threads[i].pc.n;
    }
  }

  /** Running thread `i` alone finishes its current job. */
  lemma {:induction false} Drive<D(!new), J(!new), L>(s: State<D, J, L>, i: nat, bound: nat) returns (acts: seq<Action>)
    requires Inv(s) && Terminates(s.sec)
    requires i < |s.threads| && s.threads[i].todo != [] && !s.threads[i].pc.Asleep?
    requires s.holder.None? || s.holder == Some(i)
    requires Bounds(s, i, bound)
    ensures ValidRun(s, acts) && Inv(Run(s, acts)) && Run(s, acts).sec == s.sec
    ensures TotalTodo(Run(s, acts).threads) < TotalTodo(s.threads)
    decreases Phase(s.threads[i].pc), if s.threads[i].pc.Critical? then bound - s.threads[i].pc.n else 0
  {
    if s.threads[i].pc.Wake? {
      acts := DriveWake(s, i);
    } else {
      DriveStep(s, i, bound);
      var s' := Do(s, Step(i));
      StepInv(s, Step(i));
      TotalUpdate(s.threads, i, s'.threads[i]);
      if s'.threads[i].todo == s.threads[i].todo[1..] {
        acts := [Step(i)];
        assert acts[1..] == [];
      } else {
        var b := bound;
        if Phase(s'.threads[i].pc) < Phase(s.threads[i].pc) && s'.threads[i].pc.Critical? {
          var d, j := Last(s'.trail), s'.threads[i].todo[0].j;
          assert Ends(s.sec, d, j);
          b :| s.sec.done(Iter(s.sec, b, d, s.sec.start(j)).1);
        }
        var rest := Drive(s', i, b);
        acts := [Step(i)] + rest;
        assert acts[1..] == rest;
      }
    }
  }

  lemma DriveWake<D, J, L>(s: State<D, J, L>, i: nat) returns (acts: seq<Action>)
    requires Inv(s) && i < |s.threads| && s.threads[i].pc.Wake?
    ensures ValidRun(s, acts) && Inv(Run(s, acts)) && Run(s, acts).sec == s.sec
    ensures TotalTodo(Run(s, acts).threads) < TotalTodo(s.threads)
  {
    var a := WakeNone(i);
    if j: nat :| Sleeping(s, j) {
      a := WakeOne(i, j);
      var mid := NextJob(s, i).threads;
      TotalUpdate(mid, j, mid[j].(pc := Exchange));
    }
    StepInv(s, a);
    TotalUpdate(s.threads, i, Thread(Idle, s.threads[i].todo[1..]));
    acts := [a];
    assert acts[1..] == [];
  }

  /** In every reachable state some continuation completes every thread's program. */
  lemma {:induction false} CanFinish<D(!new), J(!new), L>(s: State<D, J, L>) returns (acts: seq<Action>)
    requires Inv(s) && Terminates(s.sec)
    ensures ValidRun(s, acts) && Done(Run(s, acts))
    decreases TotalTodo(s.threads)
  {
    TotalZero(s.threads);
    if Done(s) {
      acts := [];
    } else {
      var i := Runnable(s);
      var bound: nat := 0;
      if s.threads[i].pc.Critical? {
        var d, j := Last(s.trail), s.threads[i].todo[0].j;
        assert Ends(s.sec, d, j);
        bound :| s.sec.done(Iter(s.sec, bound, d, s.sec.start(j)).1);
      }
      var first := Drive(s, i, bound);
      var rest := CanFinish(Run(s, first));
      RunAppend(s, first, rest);
      acts := first + rest;
    }
  }

  lemma {:induction false} RunAppend<D, J, L>(s: State<D, J, L>, a: seq<Action>, b: seq<Action>)
    requires ValidRun(s, a) && ValidRun(Run(s, a), b)
    ensures ValidRun(s, a + b) && Run(s, a + b) == Run(Run(s, a), b)
    decreases |a|
  {
    if a == [] {
      assert a + b == b;
    } else {
      RunAppend(Do(s, a[0]), a[1..], b);
      assert (a + b)[1..] == a[1..] + b;
    }
  }

  /** Some unfinished thread is awake, and inside if anyone is. */
  lemma Runnable<D, J, L>(s: State<D, J, L>) returns (i: nat)
    requires Inv(s) && !Done(s)
    ensures i < |s.threads| && s.threads[i].todo != [] && !s.threads[i].pc.Asleep?
    ensures s.holder.None? || s.holder == Some(i)
  {
    if s.holder.Some? {
      i := s.holder.value;
    } else {
      i :| i < |s.threads| && s.threads[i].todo != [];
      if s.threads[i].pc.Asleep? {
        assert Sleeping(s, i);
        i :| Rouser(s, i);
      }
    }
  }

  /** No run is ever stuck: whatever has happened, the programs can still be completed. */
  lemma NeverStuck<D(!new), J(!new), L>(sec: Section<D, J, L>, checks: bool, d: D, jobs: seq<seq<Job<J>>>, s: State<D, J, L>)
    requires Reachable(sec, checks, d, jobs, s) && Terminates(sec)
    ensures exists acts: seq<Action> :: ValidRun(s, acts) && Done(Run(s, acts))
  {
    ReachableInv(sec, checks, d, jobs, s);
    ReachableConst(sec, checks, d, jobs, s);
    var acts := CanFinish(s);
  }

  // ----- the protected data --------------------------------------------------------------

  /** However the threads interleave, the data is what the completed sections make of it when
      run alone, one after the other, in the order in which they acquired the lock. */
  lemma Serializable<D, J, L>(sec: Section<D, J, L>, checks: bool, d: D, jobs: seq<seq<Job<J>>>, s: State<D, J, L>)
    requires Reachable(sec, checks, d, jobs, s)
    ensures |s.trail| == |s.results| + 1 && s.trail[0] == d && |s.results| <= |s.log| <= |s.results| + 1
    ensures forall k :: 0 <= k < |s.results| ==>
              Completes(sec, s.log[k].j, s.trail[k], s.trail[k + 1], s.results[k])
    ensures s.state.Free? ==> |s.log| == |s.results| && s.data == Last(s.trail)
  {
    ReachableInv(sec, checks, d, jobs, s);
    ReachableConst(sec, checks, d, jobs, s);
  }

  /** A section run alone has one outcome. */
  lemma CompletesOnce<D, J, L>(sec: Section<D, J, L>, j: J, d: D, d1: D, l1: L, d2: D, l2: L)
    requires Completes(sec, j, d, d1, l1) && Completes(sec, j, d, d2, l2)
    ensures d1 == d2 && l1 == l2
  {
    var n1: nat :| CompletesIn(sec, n1, j, d, d1, l1);
    var n2: nat :| CompletesIn(sec, n2, j, d, d2, l2);
    assert n1 < n2 ==> !sec.done(Iter(sec, n1, d, sec.start(j)).1);
    assert n2 < n1 ==> !sec.done(Iter(sec, n2, d, sec.start(j)).1);
  }

  /** Jobs of a thread that have not yet acquired the lock. */
  function Owed<J, L>(t: Thread<J, L>): int {
    |t.todo| - if Inside(t.pc) || t.pc.Wake? then 1 else 0
  }

  function TotalOwed<J, L>(threads: seq<Thread<J, L>>): int {
    if threads == [] then 0 else Owed(threads[0]) + TotalOwed(threads[1..])
  }

  lemma {:induction false} OwedUpdate<J, L>(threads: seq<Thread<J, L>>, i: nat, t: Thread<J, L>)
    requires i < |threads|
    ensures TotalOwed(threads[i := t]) == TotalOwed(threads) - Owed(threads[i]) + Owed(t)
  {
    if i == 0 {
      assert threads[0 := t][1..] == threads[1..];
    } else {
      OwedUpdate(threads[1..], i - 1, t);
      assert threads[i := t][1..] == threads[1..][i - 1 := t];
    }
  }

  ghost predicate NoTryJobs<J, L>(threads: seq<Thread<J, L>>) {
    forall i, k :: 0 <= i < |threads| && 0 <= k < |threads[i].todo| ==> !threads[i].todo[k].tryOnly
  }

  predicate ChecksPass<D, J, L>(s: State<D, J, L>, i: nat)
    requires i < |s.threads|
  {
    !(s.threads[i].pc.Check1? && !s.ownerSet) && !(s.threads[i].pc.Check2? && s.owner != Some(i))
  }

  /** Each step changes what its thread owes by exactly what it adds to the log. */
  lemma OwedStep<D, J, L>(s: State<D, J, L>, i: nat)
    requires Enabled(s, Step(i)) && !s.threads[i].todo[0].tryOnly && ChecksPass(s, i)
    ensures var s' := Do(s, Step(i));
            |s'.threads| == |s.threads| && Owed(s'.threads[i]) + |s'.log| == Owed(s.threads[i]) + |s.log|
  {
  }

  lemma AccountStep<D, J, L>(s: State<D, J, L>, a: Action)
    requires Enabled(s, a) && NoTryJobs(s.threads) && ChecksPass(s, a.i)
    ensures TotalOwed(Do(s, a).threads) + |Do(s, a).log| == TotalOwed(s.threads) + |s.log|
  {
    var s' := Do(s, a);
    match a
    case Step(i) =>
      OwedStep(s, i);
      OwedUpdate(s.threads, i, s'.threads[i]);
    case WakeOne(i, j) =>
      AccountWake(s, i, j);
    case _ =>
      OwedUpdate(s.threads, a.i, s'.threads[a.i]);
  }

  lemma AccountWake<D, J, L>(s: State<D, J, L>, i: nat, j: nat)
    requires Enabled(s, WakeOne(i, j))
    ensures TotalOwed(Do(s, WakeOne(i, j)).threads) == TotalOwed(s.threads)
  {
    var mid := NextJob(s, i).threads;
    OwedUpdate(s.threads, i, mid[i]);
    OwedUpdate(mid, j, mid[j].(pc := Exchange));
  }

  lemma NoTryStep<D, J, L>(s: State<D, J, L>, a: Action)
    requires Enabled(s, a) && NoTryJobs(s.threads)
    ensures NoTryJobs(Do(s, a).threads)
  {
  }

  lemma {:induction false} Account<D, J, L>(s: State<D, J, L>, acts: seq<Action>)
    requires Inv(s) && ValidRun(s, acts) && NoTryJobs(s.threads)
    ensures TotalOwed(Run(s, acts).threads) + |Run(s, acts).log| == TotalOwed(s.threads) + |s.log|
    decreases |acts|
  {
    if acts != [] {
      StepInv(s, acts[0]);
      AccountStep(s, acts[0]);
      NoTryStep(s, acts[0]);
      Account(Do(s, acts[0]), acts[1..]);
    }
  }

  lemma {:induction false} NothingOwed<J, L>(threads: seq<Thread<J, L>>)
    requires forall i :: 0 <= i < |threads| ==> threads[i].todo == [] && threads[i].pc.Idle?
    ensures TotalOwed(threads) == 0
  {
    if threads != [] {
      NothingOwed(threads[1..]);
    }
  }

  lemma {:induction false} AllOwed<J, L>(threads: seq<Thread<J, L>>)
    requires forall i :: 0 <= i < |threads| ==> threads[i].pc.Idle?
    ensures TotalOwed(threads) == TotalTodo(threads)
  {
    if threads != [] {
      AllOwed(threads[1..]);
    }
  }

  /** When all programs (of blocking locks) are done, exactly as many sections have run as
      were asked for. */
  lemma AllSectionsRan<D, J, L>(sec: Section<D, J, L>, checks: bool, d: D, jobs: seq<seq<Job<J>>>, s: State<D, J, L>)
    requires Reachable(sec, checks, d, jobs, s) && Done(s)
    requires NoTryJobs(Init(sec, checks, d, jobs).threads)
    ensures |s.results| == TotalTodo(Init(sec, checks, d, jobs).threads)
    ensures s.trail != [] && s.data == Last(s.trail)
  {
    var s0 := Init(sec, checks, d, jobs);
    var acts: seq<Action> :| ValidRun(s0, acts) && Run(s0, acts) == s;
    InitInv(sec, checks, d, jobs);
    Account(s0, acts);
    ReachableInv(sec, checks, d, jobs, s);
    NothingOwed(s.threads);
    AllOwed(s0.threads);
  }
}
