/**
 Happens-before under the mutex: through the release and acquire accesses to `_state` alone,
 every access to the protected data is ordered after all earlier ones.
 */
module MutexMemory {
  import opened Helpers
  import opened FutexMutex
  import opened MutexInvariant

  /** `uses` counts the accesses to the protected data so far, `seen[i]` those that happen before
      the next step of thread `i`, and `sent` those that happen before an acquire of the newest
      store to `_state`. */
  datatype Clocks = Clocks(uses: nat, seen: seq<nat>, sent: nat)

  function Start(threads: nat): Clocks {
    Clocks(0, seq(threads, _ => 0), 0)
  }

  /** The step is an access to the protected data. */
  predicate Accesses<D, J, L>(s: State<D, J, L>, a: Action)
    requires Enabled(s, a)
  {
    a.Step? && s.threads[a.i].pc.Critical? && !s.sec.done(s.threads[a.i].pc.l)
  }

  /** What a step does to the clocks.  An exchange or successful compare-exchange of `lock`
      acquires the newest store to `_state`, and its own store publishes nothing; the exchange of
      `unlock` publishes what its thread has seen; the owner fields and failed compare-exchanges
      order nothing. */
  function Tick<D, J, L>(s: State<D, J, L>, a: Action, c: Clocks): Clocks
    requires Enabled(s, a) && |c.seen| == |s.threads|
  {
    if Accesses(s, a) then
      Clocks(c.uses + 1, c.seen[a.i := c.uses + 1], c.sent)
    else if Acquires(s, a) || (a.Step? && s.threads[a.i].pc.Exchange?) then
      Clocks(c.uses, c.seen[a.i := Max(c.seen[a.i], c.sent)], 0)
    else if Releases(s, a) then
      c.(sent := c.seen[a.i])
    else
      c
  }

  /** A thread learns of accesses by making them or by an acquire of `_state`, and then of no more
      than that store carries; every data access counts; only the release publishes, and no more
      than its thread has seen. */
  lemma LearnsByAcquire<D, J, L>(s: State<D, J, L>, a: Action, c: Clocks, i: nat)
    requires Enabled(s, a) && |c.seen| == |s.threads| && i < |c.seen|
    ensures var c' := Tick(s, a, c);
            && |c'.seen| == |c.seen| && c'.uses == c.uses + (if Accesses(s, a) then 1 else 0)
            && (c'.seen[i] == c.seen[i]
                || (a.i == i && Accesses(s, a) && c'.seen[i] == c'.uses)
                || (&& a == Step(i) && (s.threads[i].pc.Fast? || s.threads[i].pc.Spin? || s.threads[i].pc.Exchange?)
                    && c'.seen[i] == Max(c.seen[i], c.sent)))
            && (c'.sent == c.sent || c'.sent == 0 || (Releases(s, a) && c'.sent == c.seen[a.i]))
  {
  }

  /** The holder has seen every access; with no holder, the store that freed the word carries them. */
  ghost predicate Synced<D, J, L>(s: State<D, J, L>, c: Clocks) {
    && |c.seen| == |s.threads| && c.sent <= c.uses
    && (forall i :: 0 <= i < |c.seen| ==> c.seen[i] <= c.uses)
    && match s.holder
       case None => c.sent == c.uses
       case Some(i) => i < |c.seen| && c.seen[i] == c.uses
  }

  lemma AcquireSyncs<D, J, L>(s: State<D, J, L>, a: Action, c: Clocks)
    requires Inv(s) && Enabled(s, a) && Synced(s, c) && Acquires(s, a)
    ensures Synced(Do(s, a), Tick(s, a, c))
  {
  }

  lemma ReleaseSyncs<D, J, L>(s: State<D, J, L>, a: Action, c: Clocks)
    requires Inv(s) && Enabled(s, a) && Synced(s, c) && Releases(s, a)
    ensures Synced(Do(s, a), Tick(s, a, c))
  {
  }

  lemma HolderStays<D, J, L>(s: State<D, J, L>, a: Action)
    requires Enabled(s, a) && !Acquires(s, a) && !Releases(s, a)
    ensures Do(s, a).holder == s.holder
  {
  }

  /** The other steps change neither the holder nor what the word carries while it is Free. */
  lemma OtherSyncs<D, J, L>(s: State<D, J, L>, a: Action, c: Clocks)
    requires Inv(s) && Enabled(s, a) && Synced(s, c) && !Acquires(s, a) && !Releases(s, a)
    ensures Synced(Do(s, a), Tick(s, a, c))
  {
    HolderStays(s, a);
    if Accesses(s, a) {
      assert s.holder == Some(a.i);
    } else if a.Step? && s.threads[a.i].pc.Exchange? {
      assert LockedBit(s.state) && s.holder.Some? && s.holder.value != a.i;
    }
  }

  lemma TickSyncs<D, J, L>(s: State<D, J, L>, a: Action, c: Clocks)
    requires Inv(s) && Enabled(s, a) && Synced(s, c)
    ensures Synced(Do(s, a), Tick(s, a, c))
  {
    if Acquires(s, a) {
      AcquireSyncs(s, a, c);
    } else if Releases(s, a) {
      ReleaseSyncs(s, a, c);
    } else {
      OtherSyncs(s, a, c);
    }
  }

  /** Every data access along the run finds that its thread has seen all earlier ones. */
  ghost predicate AllOrdered<D, J, L>(s: State<D, J, L>, acts: seq<Action>, c: Clocks)
    requires ValidRun(s, acts) && |c.seen| == |s.threads|
    decreases |acts|
  {
    acts == [] ||
    (&& (Accesses(s, acts[0]) ==> c.seen[acts[0].i] == c.uses)
     && AllOrdered(Do(s, acts[0]), acts[1..], Tick(s, acts[0], c)))
  }

  lemma {:induction false} RunOrdered<D, J, L>(s: State<D, J, L>, acts: seq<Action>, c: Clocks)
    requires Inv(s) && ValidRun(s, acts) && Synced(s, c)
    ensures AllOrdered(s, acts, c)
    decreases |acts|
  {
    if acts != [] {
      TickSyncs(s, acts[0], c);
      StepInv(s, acts[0]);
      RunOrdered(Do(s, acts[0]), acts[1..], Tick(s, acts[0], c));
    }
  }

  /** In every run of any number of threads, whatever their critical sections do, no two accesses
      to the protected data race. */
  lemma DataOrdered<D, J, L>(sec: Section<D, J, L>, checks: bool, d: D, jobs: seq<seq<Job<J>>>, acts: seq<Action>)
    requires ValidRun(Init(sec, checks, d, jobs), acts)
    ensures AllOrdered(Init(sec, checks, d, jobs), acts, Start(|jobs|))
  {
    InitInv(sec, checks, d, jobs);
    RunOrdered(Init(sec, checks, d, jobs), acts, Start(|jobs|));
  }
}
