/** The test client of the mutex: threads incrementing one shared, unsynchronised counter. */
module MutexCounter {
  import opened FutexMutex
  import opened MutexTheorems

  /** `++counter` is a load followed by a store. */
  datatype Inc = Load | Store(tmp: int) | Finished

  function Counter(): Section<int, (), Inc> {
    Section(
      (j: ()) => Load,
      (d: int, l: Inc) =>
        match l
        case Load => (d, Store(d))
        case Store(tmp) => (tmp + 1, Finished)
        case Finished => (d, Finished),
      (l: Inc) => l.Finished?)
  }

  lemma TwoSteps(d: int)
    ensures Iter(Counter(), 0, d, Load) == (d, Load)
    ensures Iter(Counter(), 1, d, Load) == (d, Store(d))
    ensures Iter(Counter(), 2, d, Load) == (d + 1, Finished)
  {
    assert Iter(Counter(), 1, d, Load) == Counter().step(d, Load);
    assert Iter(Counter(), 2, d, Load) == Counter().step(d, Store(d));
  }

  lemma CounterTerminates()
    ensures Terminates(Counter())
  {
    forall d: int, j: () ensures Ends(Counter(), d, j) {
      TwoSteps(d);
      assert Counter().done(Iter(Counter(), 2, d, Counter().start(j)).1);
    }
  }

  lemma IncrementIsPlusOne(j: (), d: int, d': int, l: Inc)
    requires Completes(Counter(), j, d, d', l)
    ensures d' == d + 1
  {
    TwoSteps(d);
    assert CompletesIn(Counter(), 2, j, d, d + 1, Finished);
    CompletesOnce(Counter(), j, d, d', l, d + 1, Finished);
  }

  lemma {:induction false} TrailCounts(d: int, trail: seq<int>, k: nat)
    requires k < |trail| && trail[0] == d
    requires forall i :: 0 <= i < |trail| - 1 ==> trail[i + 1] == trail[i] + 1
    ensures trail[k] == d + k
  {
    if k > 0 {
      TrailCounts(d, trail, k - 1);
      assert trail[k - 1 + 1] == trail[k - 1] + 1;
    }
  }

  /** No increment is lost: once all threads are through, the counter has grown by exactly the
      number of increments asked for. */
  lemma CounterExact(checks: bool, d: int, jobs: seq<seq<Job<()>>>, s: State<int, (), Inc>)
    requires Reachable(Counter(), checks, d, jobs, s) && Done(s)
    requires NoTryJobs(Init(Counter(), checks, d, jobs).threads)
    ensures s.data == d + TotalTodo(Init(Counter(), checks, d, jobs).threads)
  {
    Serializable(Counter(), checks, d, jobs, s);
    AllSectionsRan(Counter(), checks, d, jobs, s);
    forall i | 0 <= i < |s.trail| - 1 ensures s.trail[i + 1] == s.trail[i] + 1 {
      IncrementIsPlusOne(s.log[i].j, s.trail[i], s.trail[i + 1], s.results[i]);
    }
    TrailCounts(d, s.trail, |s.trail| - 1);
  }

  lemma {:induction false} EvenTotal<J, L>(threads: seq<Thread<J, L>>, m: nat)
    requires forall i :: 0 <= i < |threads| ==> |threads[i].todo| == m
    ensures TotalTodo(threads) == |threads| * m
  {
    if threads != [] {
      EvenTotal(threads[1..], m);
    }
  }

  /** `k` threads doing `m` increments each end with `k * m`. */
  lemma CounterIncrementsCorrectly(checks: bool, k: nat, m: nat, jobs: seq<seq<Job<()>>>, s: State<int, (), Inc>)
    requires jobs == seq(k, _ => seq(m, _ => Job((), false)))
    requires Reachable(Counter(), checks, 0, jobs, s)
    ensures Done(s) ==> s.data == k * m
    ensures exists acts: seq<Action> :: ValidRun(s, acts) && Done(Run(s, acts))
  {
    if Done(s) {
      CounterExact(checks, 0, jobs, s);
      EvenTotal(Init(Counter(), checks, 0, jobs).threads, m);
    }
    CounterTerminates();
    NeverStuck(Counter(), checks, 0, jobs, s);
  }
}
