/**
 `lock`, `try_lock` and `unlock` as the calling thread runs them, with the other threads free
 to take any number of steps between any two accesses.
 */
module MutexClient {
  import opened Helpers
  import opened FutexMutex
  import opened MutexInvariant
  import opened MutexContention

  /** Threads other than `me` lead from `s` to `s'`. */
  ghost predicate ByOthers<D, J, L>(s: State<D, J, L>, s': State<D, J, L>, me: nat) {
    exists acts: seq<Action> :: ValidRun(s, acts) && Run(s, acts) == s' && forall a :: a in acts ==> a.i != me
  }

  /** `s'` is no earlier than `s`: nothing recorded in `s` is undone. */
  ghost predicate Later<D, J, L>(s: State<D, J, L>, s': State<D, J, L>) {
    |s'.threads| == |s.threads| && s.log <= s'.log && s.results <= s'.results
  }

  /** What a thread may rely on across the steps of others: only a wake-up moves it. */
  ghost predicate Kept<D, J, L>(s: State<D, J, L>, s': State<D, J, L>, me: nat) {
    && Later(s, s') && s'.sec == s.sec && s'.checks == s.checks
    && (me < |s.threads| ==>
          || s'.threads[me] == s.threads[me]
          || (s.threads[me].pc.Asleep? && s'.threads[me] == s.threads[me].(pc := Exchange)))
  }

  lemma StepKeeps<D, J, L>(s: State<D, J, L>, a: Action, me: nat)
    requires Enabled(s, a) && a.i != me
    ensures Kept(s, Do(s, a), me)
  {
  }

  lemma {:induction false} OthersKeep<D, J, L>(s: State<D, J, L>, acts: seq<Action>, me: nat)
    requires ValidRun(s, acts) && forall a :: a in acts ==> a.i != me
    ensures Kept(s, Run(s, acts), me)
    decreases |acts|
  {
    if acts != [] {
      assert acts[0] in acts;
      StepKeeps(s, acts[0], me);
      OthersKeep(Do(s, acts[0]), acts[1..], me);
    }
  }

  /** All that a run of the other threads can do. */
  lemma {:induction false} OthersAllow<D, J, L>(s: State<D, J, L>, acts: seq<Action>, me: nat)
    requires Inv(s) && ValidRun(s, acts) && forall k :: 0 <= k < |acts| ==> acts[k].i != me
    ensures var s' := Run(s, acts); Inv(s') && ByOthers(s, s', me) && Kept(s, s', me)
  {
    OthersKeep(s, acts, me);
    RunInv(s, acts);
  }

  /** `t` acquires the lock word. */
  ghost predicate Wins<D, J, L>(sec: Section<D, J, L>, checks: bool, t: Thread<J, L>, t': Thread<J, L>)
    requires t.todo != []
  {
    t' == t.(pc := if checks then Own1 else Critical(sec.start(t.todo[0].j), 0))
  }

  /** What one step of its own can do to a thread, whatever the shared state. */
  ghost predicate Moves<D, J, L>(sec: Section<D, J, L>, checks: bool, t: Thread<J, L>, t': Thread<J, L>)
    requires t.todo != []
  {
    match t.pc
    case Idle => t' == t.(pc := if checks then Test1 else Fast)
    case Test1 => t' == t.(pc := Test2) || t' == t.(pc := Fast)
    case Test2 => t' == t.(pc := Fast)
    case Fast =>
      || Wins(sec, checks, t, t')
      || t' == if t.todo[0].tryOnly then Thread(Idle, t.todo[1..]) else t.(pc := Spin(0))
    case Spin(k) =>
      Wins(sec, checks, t, t') || t' == t.(pc := if k + 1 < SPIN_COUNT then Spin(k + 1) else Exchange)
    case Exchange => Wins(sec, checks, t, t') || t' == t.(pc := Wait)
    case Wait => t' == t.(pc := Asleep) || t' == t.(pc := Exchange)
    case Own1 => t' == t.(pc := Own2)
    case Own2 => t' == t.(pc := Critical(sec.start(t.todo[0].j), 0))
    case Critical(l, n) => sec.done(l) ==> t' == t.(pc := if checks then Check1 else Release)
    case Check1 => t' == t.(pc := Check2)
    case Check2 => t' == t.(pc := Clear1)
    case Clear1 => t' == t.(pc := Clear2)
    case Clear2 => t' == t.(pc := Release)
    case Release => t' == t.(pc := Wake) || t' == Thread(Idle, t.todo[1..])
    case _ => true
  }

  lemma StepMoves<D, J, L>(s: State<D, J, L>, i: nat)
    requires Enabled(s, Step(i)) && !Do(s, Step(i)).threads[i].pc.Abort?
    ensures Moves(s.sec, s.checks, s.threads[i], Do(s, Step(i)).threads[i])
  {
    if Inside(s.threads[i].pc) {
      HolderMoves(s, i);
    } else {
      OuterMoves(s, i);
    }
  }

  lemma HolderMoves<D, J, L>(s: State<D, J, L>, i: nat)
    requires Enabled(s, Step(i)) && Inside(s.threads[i].pc) && !HolderStep(s, i).threads[i].pc.Abort?
    ensures Moves(s.sec, s.checks, s.threads[i], HolderStep(s, i).threads[i])
  {
  }

  lemma OuterMoves<D, J, L>(s: State<D, J, L>, i: nat)
    requires Enabled(s, Step(i)) && !Inside(s.threads[i].pc) && !OuterStep(s, i).threads[i].pc.Abort?
    ensures Moves(s.sec, s.checks, s.threads[i], OuterStep(s, i).threads[i])
  {
  }

  /** The last step was thread `i`'s first compare-exchange, which found the word not Free. */
  ghost predicate LostAt<D, J, L>(at: State<D, J, L>, s: State<D, J, L>, i: nat) {
    Inv(at) && Enabled(at, Step(i)) && at.threads[i].pc.Fast? && !at.state.Free? && s == Do(at, Step(i))
  }

  /** The last step was thread `i`'s first compare-exchange, which found the word Free. */
  ghost predicate WonAt<D, J, L>(at: State<D, J, L>, s: State<D, J, L>, i: nat) {
    && Inv(at) && Enabled(at, Step(i)) && at.threads[i].pc.Fast? && at.state.Free? && s == Do(at, Step(i))
    && s.state == Locked
  }

  /** The last step was thread `i`'s wake-up: it woke a sleeper, or there was none. */
  ghost predicate WokeAt<D, J, L>(at: State<D, J, L>, s: State<D, J, L>, i: nat) {
    && Inv(at)
    && (|| (exists j: nat :: Enabled(at, WakeOne(i, j)) && s == Do(at, WakeOne(i, j)) && s.threads[j].pc.Exchange?)
        || (Enabled(at, WakeNone(i)) && s == Do(at, WakeNone(i)) && forall j :: 0 <= j < |at.threads| ==> !Sleeping(at, j)))
  }

  /** Thread `i` freed the word in state `at`; it made a wake-up call if the word was Contended, and
      did nothing more if it was not. */
  ghost predicate FreedAt<D(!new), J(!new), L(!new)>(at: State<D, J, L>, s: State<D, J, L>, i: nat) {
    && Inv(at) && Enabled(at, Step(i)) && at.threads[i].pc.Release?
    && if at.state.Contended? then exists w :: WokeAt(w, s, i) else s == Do(at, Step(i))
  }

  /** How a futex wait ended: refused because the word was not Contended, woken, interrupted, or not
      at all so far. */
  datatype WaitEnd = Refused | Woken | Interrupted | StillAsleep

  /** Thread `i` called in state `at`; unless refused, it fell asleep there and slept until woken by
      the steps of others, or until a signal came. */
  ghost predicate WaitedFrom<D(!new), J(!new), L(!new)>(at: State<D, J, L>, s: State<D, J, L>, i: nat, how: WaitEnd) {
    && Inv(at) && Enabled(at, Step(i)) && at.threads[i].pc.Wait? && (how.Refused? <==> !at.state.Contended?)
    && i < |s.threads|
    && var slept := Do(at, Step(i));
       match how
       case Refused => s == slept && s.threads[i].pc == Exchange
       case Woken => Sleeping(slept, i) && ByOthers(slept, s, i) && s.threads[i].pc == Exchange
       case StillAsleep => Sleeping(slept, i) && ByOthers(slept, s, i) && Sleeping(s, i)
       case Interrupted =>
         Sleeping(slept, i) && exists mid :: ByOthers(slept, mid, i) && Sleeping(mid, i) && SignalEnds(mid, s, i)
  }

  /** A signal ended the sleep of thread `i`. */
  ghost predicate SignalEnds<D, J, L>(mid: State<D, J, L>, s: State<D, J, L>, i: nat) {
    Enabled(mid, Interrupt(i)) && s == Do(mid, Interrupt(i)) && s.threads[i].pc == Exchange
  }

  class Mutex<!D(!new), !J(!new), !L(!new)> {
    var s: State<D, J, L>
    /** The environment: when true, no other thread moves and no signal interrupts a wait. */
    const alone: bool

    constructor (sec: Section<D, J, L>, checks: bool, d: D, jobs: seq<seq<Job<J>>>, alone: bool)
      ensures s == Init(sec, checks, d, jobs) && Inv(s) && this.alone == alone
    {
      s := Init(sec, checks, d, jobs);
      this.alone := alone;
      InitInv(sec, checks, d, jobs);
    }

    /** The other threads run for a while, by any steps of theirs. */
    method Others(me: nat)
      requires Inv(s)
      modifies this
      ensures Inv(s) && ByOthers(old(s), s, me) && Kept(old(s), s, me)
      ensures alone ==> s == old(s)
    {
      var acts: seq<Action> := *;
      if alone || !(ValidRun(s, acts) && forall k :: 0 <= k < |acts| ==> acts[k].i != me) {
        acts := [];
      }
      OthersAllow(s, acts, me);
      s := Run(s, acts);
    }

    /** Others run, then thread `i` takes its next step. */
    method Advance(i: nat)
      requires Inv(s) && i < |s.threads| && s.threads[i].todo != []
      requires !s.threads[i].pc.Asleep? && !s.threads[i].pc.Wake?
      modifies this
      ensures Inv(s) && Later(old(s), s) && s.sec == old(s.sec) && s.checks == old(s.checks)
      ensures Moves(s.sec, s.checks, old(s.threads[i]), s.threads[i])
      ensures alone && !CanAcquire(old(s.threads[i].pc)) && !old(s.threads[i].pc.Release?) ==> s.state == old(s.state)
    {
      Others(i);
      WordKept(s, i);
      TakeStep(i);
    }

    /** Positions whose access can change the lock word from unlocked, or to Contended. */
    static predicate CanAcquire(pc: Pc<L>) {
      pc.Fast? || pc.Spin? || pc.Exchange?
    }

    static lemma WordKept(s: State<D, J, L>, i: nat)
      requires Inv(s) && i < |s.threads| && s.threads[i].todo != []
      requires !s.threads[i].pc.Asleep? && !s.threads[i].pc.Wake?
      ensures Enabled(s, Step(i))
      ensures !CanAcquire(s.threads[i].pc) && !s.threads[i].pc.Release? ==> Do(s, Step(i)).state == s.state
    {
    }

    method TakeStep(i: nat)
      requires Inv(s) && Enabled(s, Step(i))
      modifies this
      ensures s == Do(old(s), Step(i))
      ensures Inv(s) && Later(old(s), s) && s.sec == old(s.sec) && s.checks == old(s.checks)
      ensures Moves(s.sec, s.checks, old(s.threads[i]), s.threads[i])
    {
      StepInv(s, Step(i));
      StepMoves(s, i);
      s := Do(s, Step(i));
    }

    /** The thread has just acquired the lock word, or is recording that it did. */
    ghost predicate Entering(i: nat)
      reads this
    {
      && i < |s.threads| && s.threads[i].todo != []
      && (s.threads[i].pc.Own1? || s.threads[i].pc.Own2? || s.threads[i].pc == Critical(s.sec.start(s.threads[i].todo[0].j), 0))
    }

    /** `lock`, cut off after `patience` futex waits.  When it returns true the thread is the
        only one inside, at the start of its section.  Alone, it locks a Free word at once, without
        contention; on a held one it ends up asleep and leaves Contended. */
    method Lock(i: nat, patience: nat) returns (locked: bool)
      requires Inv(s) && i < |s.threads| && s.threads[i].pc.Idle?
      requires s.threads[i].todo != [] && !s.threads[i].todo[0].tryOnly
      modifies this
      ensures Inv(s) && i < |s.threads| && s.threads[i].todo == old(s.threads[i].todo)
      ensures locked ==> s.holder == Some(i) && s.threads[i].pc == Critical(s.sec.start(old(s.threads[i].todo[0].j)), 0)
      ensures !locked ==> s.threads[i].pc.Wait? || s.threads[i].pc.Exchange? || s.threads[i].pc.Asleep?
      ensures alone ==> (locked <==> old(s.state.Free?)) && s.state == if locked then Locked else Contended
      ensures alone && !locked && 0 < patience ==> s.threads[i].pc.Asleep?
    {
      ghost var at := FirstTry(i);
      locked := true;
      if s.threads[i].pc.Spin? {
        locked := LockSlow(i, patience);
      }
      if locked {
        RecordOwner(i);
      }
    }

    /** The recursion check and the first compare-exchange; a `try_lock` that fails did so in
        state `at`, no earlier than the call. */
    method FirstTry(i: nat) returns (ghost at: State<D, J, L>)
      requires Inv(s) && i < |s.threads| && s.threads[i].pc.Idle? && s.threads[i].todo != []
      modifies this
      ensures Inv(s) && Later(old(s), s)
      ensures || (Entering(i) && s.threads[i].todo == old(s.threads[i].todo))
              || (s.threads[i].pc == Spin(0) && s.threads[i].todo == old(s.threads[i].todo) && !s.threads[i].todo[0].tryOnly)
              || (&& s.threads[i].pc.Idle? && s.threads[i].todo == old(s.threads[i].todo[1..])
                  && old(s.threads[i].todo[0].tryOnly) && Later(old(s), at) && LostAt(at, s, i))
      ensures Entering(i) ==> Later(old(s), at) && WonAt(at, s, i)
      ensures alone ==> (Entering(i) <==> old(s.state.Free?)) && s.state == if old(s.state.Free?) then Locked else old(s.state)
    {
      TestOwner(i);
      at := FirstExchange(i);
    }

    /** The recursion check, if compiled in. */
    method TestOwner(i: nat)
      requires Inv(s) && i < |s.threads| && s.threads[i].pc.Idle? && s.threads[i].todo != []
      modifies this
      ensures Inv(s) && Later(old(s), s)
      ensures s.threads[i].pc.Fast? && s.threads[i].todo == old(s.threads[i].todo)
      ensures alone ==> s.state == old(s.state)
    {
      Advance(i);
      if s.threads[i].pc.Test1? {
        LoadOwner(i);
      }
    }

    method LoadOwner(i: nat)
      requires Inv(s) && i < |s.threads| && s.threads[i].pc.Test1? && s.threads[i].todo != []
      modifies this
      ensures Inv(s) && Later(old(s), s)
      ensures s.threads[i].pc.Fast? && s.threads[i].todo == old(s.threads[i].todo)
      ensures alone ==> s.state == old(s.state)
    {
      Advance(i);
      if s.threads[i].pc.Test2? {
        Advance(i);
      }
    }

    method FirstExchange(i: nat) returns (ghost at: State<D, J, L>)
      requires Inv(s) && i < |s.threads| && s.threads[i].pc.Fast? && s.threads[i].todo != []
      modifies this
      ensures Inv(s) && Later(old(s), s)
      ensures || (Entering(i) && s.threads[i].todo == old(s.threads[i].todo))
              || (s.threads[i].pc == Spin(0) && s.threads[i].todo == old(s.threads[i].todo) && !s.threads[i].todo[0].tryOnly)
              || (&& s.threads[i].pc.Idle? && s.threads[i].todo == old(s.threads[i].todo[1..])
                  && old(s.threads[i].todo[0].tryOnly) && Later(old(s), at) && LostAt(at, s, i))
      ensures Entering(i) ==> Later(old(s), at) && WonAt(at, s, i)
      ensures alone ==> (Entering(i) <==> old(s.state.Free?)) && s.state == if old(s.state.Free?) then Locked else old(s.state)
    {
      Others(i);
      at := s;
      CasTakesFree(s, i);
      TakeStep(i);
    }

    method LockSlow(i: nat, patience: nat) returns (locked: bool)
      requires Inv(s) && i < |s.threads| && s.threads[i].pc == Spin(0) && s.threads[i].todo != []
      modifies this
      ensures Inv(s) && |s.threads| == old(|s.threads|) && s.threads[i].todo == old(s.threads[i].todo)
      ensures locked ==> Entering(i)
      ensures !locked ==> s.threads[i].pc.Wait? || s.threads[i].pc.Exchange? || s.threads[i].pc.Asleep?
      ensures alone ==> (locked <==> old(s.state.Free?)) && s.state == if locked then Locked else Contended
      ensures alone && !locked && 0 < patience ==> s.threads[i].pc.Asleep?
    {
      var tries := SpinLoop(i);
      if s.threads[i].pc.Exchange? {
        locked := WaitLoop(i, patience);
      } else {
        locked := true;
      }
    }

    /** At most `SPIN_COUNT` compare-exchanges, and that many before giving up. */
    method SpinLoop(i: nat) returns (tries: nat)
      requires Inv(s) && i < |s.threads| && s.threads[i].pc == Spin(0) && s.threads[i].todo != []
      modifies this
      ensures Inv(s) && |s.threads| == old(|s.threads|) && s.threads[i].todo == old(s.threads[i].todo)
      ensures 1 <= tries <= 22
      ensures Entering(i) || (s.threads[i].pc.Exchange? && tries == 22)
      ensures alone ==> (Entering(i) <==> old(s.state.Free?)) && s.state == if old(s.state.Free?) then Locked else old(s.state)
    {
      SpinOnce(i);
      tries := 1;
      if s.threads[i].pc.Spin? {
        tries := SpinOn(i);
      }
    }

    /** The attempts after the first. */
    method SpinOn(i: nat) returns (tries: nat)
      requires Inv(s) && i < |s.threads| && s.threads[i].pc == Spin(1) && s.threads[i].todo != []
      modifies this
      ensures Inv(s) && |s.threads| == old(|s.threads|) && s.threads[i].todo == old(s.threads[i].todo)
      ensures 1 <= tries <= 22
      ensures Entering(i) || (s.threads[i].pc.Exchange? && tries == 22)
      ensures alone && !old(s.state.Free?) ==> !Entering(i) && s.state == old(s.state)
    {
      tries := 1;
      while tries < SPIN_COUNT && s.threads[i].pc.Spin?
        invariant Inv(s) && |s.threads| == old(|s.threads|) && s.threads[i].todo == old(s.threads[i].todo)
        invariant 1 <= tries <= SPIN_COUNT
        invariant || Entering(i) || (s.threads[i].pc.Exchange? && tries == SPIN_COUNT)
                  || (s.threads[i].pc == Spin(tries) && tries < SPIN_COUNT)
        invariant alone && !old(s.state.Free?) ==> !Entering(i) && s.state == old(s.state)
      {
        SpinOnce(i);
        tries := tries + 1;
      }
    }

    method SpinOnce(i: nat)
      requires Inv(s) && i < |s.threads| && s.threads[i].pc.Spin? && s.threads[i].pc.k < SPIN_COUNT && s.threads[i].todo != []
      modifies this
      ensures Inv(s) && |s.threads| == old(|s.threads|) && s.threads[i].todo == old(s.threads[i].todo)
      ensures var k := old(s.threads[i].pc.k);
              Entering(i) || s.threads[i].pc == if k + 1 < SPIN_COUNT then Spin(k + 1) else Exchange
      ensures alone ==> (Entering(i) <==> old(s.state.Free?)) && s.state == if old(s.state.Free?) then Locked else old(s.state)
    {
      Others(i);
      CasTakesFree(s, i);
      TakeStep(i);
    }

    /** Swap in Contended until it replaces Free, waiting in between. */
    method WaitLoop(i: nat, patience: nat) returns (locked: bool)
      requires Inv(s) && i < |s.threads| && s.threads[i].pc.Exchange? && s.threads[i].todo != []
      modifies this
      ensures Inv(s) && |s.threads| == old(|s.threads|) && s.threads[i].todo == old(s.threads[i].todo)
      ensures locked ==> Entering(i)
      ensures !locked ==> s.threads[i].pc.Wait? || s.threads[i].pc.Exchange? || s.threads[i].pc.Asleep?
      ensures alone ==> (locked <==> old(s.state.Free?)) && s.state == Contended
      ensures alone && !locked && 0 < patience ==> s.threads[i].pc.Asleep?
    {
      SwapInContended(i);
      var left := patience;
      while 0 < left && s.threads[i].pc.Wait?
        invariant Inv(s) && |s.threads| == old(|s.threads|) && s.threads[i].todo == old(s.threads[i].todo)
        invariant s.threads[i].pc.Wait? || Entering(i)
        invariant alone ==> (Entering(i) <==> old(s.state.Free?)) && s.state == Contended
        invariant alone && left < patience ==> Entering(i)
        decreases left
      {
        left := left - 1;
        ghost var at;
        var how;
        how, at := FutexWait(i);
        if how.StillAsleep? {
          return false;
        }
        SwapInContended(i);
      }
      locked := !s.threads[i].pc.Wait?;
    }

    method SwapInContended(i: nat)
      requires Inv(s) && i < |s.threads| && s.threads[i].pc.Exchange? && s.threads[i].todo != []
      modifies this
      ensures Inv(s) && |s.threads| == old(|s.threads|) && s.threads[i].todo == old(s.threads[i].todo)
      ensures s.state == Contended && (Entering(i) || s.threads[i].pc.Wait?)
      ensures alone ==> (Entering(i) <==> old(s.state.Free?))
    {
      Others(i);
      ExchangeContends(s, i);
      TakeStep(i);
    }

    /** `_futex_wait`: returns at once if the word is not Contended, in state `at`, else sleeps until
        woken or interrupted; while the thread still sleeps the call has not returned. */
    method FutexWait(i: nat) returns (how: WaitEnd, ghost at: State<D, J, L>)
      requires Inv(s) && i < |s.threads| && s.threads[i].pc.Wait? && s.threads[i].todo != []
      modifies this
      ensures Inv(s) && |s.threads| == old(|s.threads|) && s.threads[i].todo == old(s.threads[i].todo)
      ensures Kept(old(s), at, i) && WaitedFrom(at, s, i, how)
      ensures if how.StillAsleep? then s.threads[i].pc.Asleep? else s.threads[i].pc.Exchange?
      ensures alone ==> at == old(s) && s.state == old(s.state) && how == if s.state.Contended? then StillAsleep else Refused
    {
      Others(i);
      at := s;
      SleepsIff(s, i);
      TakeStep(i);
      if s.threads[i].pc.Exchange? {
        return Refused, at;
      }
      how := SleepUntil(i, at);
    }

    /** Asleep since state `at`. */
    method SleepUntil(i: nat, ghost at: State<D, J, L>) returns (how: WaitEnd)
      requires Inv(s) && Sleeping(s, i) && Inv(at) && Enabled(at, Step(i)) && at.threads[i].pc.Wait?
      requires s == Do(at, Step(i)) && at.state.Contended?
      modifies this
      ensures Inv(s) && |s.threads| == old(|s.threads|) && s.threads[i].todo == old(s.threads[i].todo)
      ensures WaitedFrom(at, s, i, how) && !how.Refused?
      ensures if how.StillAsleep? then s.threads[i].pc.Asleep? else s.threads[i].pc.Exchange?
      ensures alone ==> s == old(s) && how.StillAsleep?
    {
      Others(i);
      if s.threads[i].pc.Exchange? {
        return Woken;
      }
      var signal: bool := *;
      if !signal || alone {
        return StillAsleep;
      }
      ghost var mid := s;
      StepInv(s, Interrupt(i));
      s := Do(s, Interrupt(i));
      assert SignalEnds(mid, s, i);
      return Interrupted;
    }

    method RecordOwner(i: nat)
      requires Inv(s) && Entering(i)
      modifies this
      ensures Inv(s) && |s.threads| == old(|s.threads|) && s.threads[i].todo == old(s.threads[i].todo)
      ensures s.holder == Some(i) && s.threads[i].pc == Critical(s.sec.start(old(s.threads[i].todo[0].j)), 0)
      ensures alone ==> s.state == old(s.state)
    {
      if s.threads[i].pc.Own1? {
        Advance(i);
      }
      if s.threads[i].pc.Own2? {
        Advance(i);
      }
    }

    /** `try_lock`: true exactly when the thread is now inside; false only after finding the word
        not Free in state `at`, no earlier than the call. */
    method TryLock(i: nat) returns (got: bool, ghost at: State<D, J, L>)
      requires Inv(s) && i < |s.threads| && s.threads[i].pc.Idle?
      requires s.threads[i].todo != [] && s.threads[i].todo[0].tryOnly
      modifies this
      ensures Inv(s) && i < |s.threads|
      ensures got ==> && s.holder == Some(i) && s.threads[i].todo == old(s.threads[i].todo)
                      && s.threads[i].pc == Critical(s.sec.start(old(s.threads[i].todo[0].j)), 0)
      ensures !got ==> && s.threads[i].pc.Idle? && s.threads[i].todo == old(s.threads[i].todo[1..])
                       && Later(old(s), at) && LostAt(at, s, i)
      ensures alone ==> (got <==> old(s.state.Free?)) && s.state == if got then Locked else old(s.state)
    {
      at := FirstTry(i);
      got := !s.threads[i].pc.Idle?;
      if got {
        RecordOwner(i);
      }
    }

    /** `unlock`, called at the end of the section: no check fires, the thread is out, and the
        next job is up. */
    method Unlock(i: nat)
      requires Inv(s) && i < |s.threads| && s.threads[i].pc.Critical? && s.sec.done(s.threads[i].pc.l)
      modifies this
      ensures Inv(s) && i < |s.threads| && s.threads[i].pc.Idle? && s.holder != Some(i)
      ensures s.threads[i].todo == old(s.threads[i].todo[1..])
      ensures alone ==> s.state.Free?
    {
      Advance(i);
      if s.threads[i].pc.Check1? {
        DropOwner(i);
      }
      ghost var at := SwapInFree(i);
    }

    /** The exchange of `unlock`, in state `at`, and, exactly if that swapped out Contended, a
        wake-up. */
    method SwapInFree(i: nat) returns (ghost at: State<D, J, L>)
      requires Inv(s) && i < |s.threads| && s.threads[i].pc.Release?
      modifies this
      ensures Inv(s) && |s.threads| == old(|s.threads|) && Later(old(s), at)
      ensures s.threads[i] == Thread(Idle, old(s.threads[i].todo[1..])) && s.holder != Some(i)
      ensures FreedAt(at, s, i)
      ensures alone ==> at == old(s) && s.state.Free?
    {
      at := ReleaseWord(i);
      if s.threads[i].pc.Wake? {
        ghost var w := FutexWake(i);
        assert WokeAt(w, s, i);
      }
    }

    method ReleaseWord(i: nat) returns (ghost at: State<D, J, L>)
      requires Inv(s) && i < |s.threads| && s.threads[i].pc.Release?
      modifies this
      ensures Inv(s) && |s.threads| == old(|s.threads|) && s.holder.None? && s.state.Free? && Later(old(s), at)
      ensures Inv(at) && Enabled(at, Step(i)) && at.threads[i].pc.Release? && s == Do(at, Step(i))
      ensures s.threads[i] == if at.state.Contended? then old(s.threads[i]).(pc := Wake) else Thread(Idle, old(s.threads[i].todo[1..]))
      ensures alone ==> at == old(s)
    {
      Others(i);
      at := s;
      WakesIff(s, i);
      TakeStep(i);
    }

    method DropOwner(i: nat)
      requires Inv(s) && i < |s.threads| && s.threads[i].pc.Check1?
      modifies this
      ensures Inv(s) && |s.threads| == old(|s.threads|) && s.threads[i] == old(s.threads[i]).(pc := Release)
    {
      Advance(i);
      Advance(i);
      Advance(i);
      Advance(i);
    }

    /** `_futex_wake`: wakes one sleeper, unless in state `at`, no earlier than the call, nobody sleeps. */
    method FutexWake(i: nat) returns (ghost at: State<D, J, L>)
      requires Inv(s) && i < |s.threads| && s.threads[i].pc.Wake?
      modifies this
      ensures Inv(s) && |s.threads| == old(|s.threads|) && s.threads[i] == Thread(Idle, old(s.threads[i].todo[1..]))
      ensures Kept(old(s), at, i) && WokeAt(at, s, i)
      ensures alone ==> at == old(s) && s.state == old(s.state)
    {
      Others(i);
      at := s;
      if j: nat :| j < |s.threads| && Sleeping(s, j) {
        StepInv(s, WakeOne(i, j));
        WakesOne(s, i, j);
        s := Do(s, WakeOne(i, j));
      } else {
        WakeNobody(i);
      }
    }

    method WakeNobody(i: nat)
      requires Inv(s) && i < |s.threads| && s.threads[i].pc.Wake? && forall j :: 0 <= j < |s.threads| ==> !Sleeping(s, j)
      modifies this
      ensures Inv(s) && |s.threads| == old(|s.threads|) && s.threads[i] == Thread(Idle, old(s.threads[i].todo[1..]))
      ensures WokeAt(old(s), s, i) && s.state == old(s.state)
    {
      StepInv(s, WakeNone(i));
      s := Do(s, WakeNone(i));
    }
  }
}
