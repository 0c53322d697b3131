/**
 `Mutex` as a transition system: any number of threads, each running a list of critical
 sections, one step per atomic access or futex call.

 What a thread does while it holds the lock is a `Section`: small steps on the protected
 data, so that several threads inside at once would really interfere.
 */
module FutexMutex {
  import opened Helpers

  datatype MutexState = Free | Locked | Contended

  /** The enumerators' values; only their bit 0 matters to `_lock_slow`. */
  function Code(m: MutexState): nat {
    match m
    case Free => 0
    case Locked => 1
    case Contended => 3
  }

  /** `old & Locked` */
  predicate LockedBit(m: MutexState) {
    Code(m) % 2 == 1
  }

  const SPIN_COUNT: nat := 22

  /** A kind of critical section over data `D`: job `J` starts with local state `start(j)` and
      steps until `done`. */
  datatype Section<!D, !J, !L> = Section(start: J -> L, step: (D, L) -> (D, L), done: L -> bool)

  datatype Job<J> = Job(j: J, tryOnly: bool)

  datatype Pc<L> =
    | Idle
    | Test1 | Test2               // the recursive-lock check: load _owner_set, load _owner
    | Fast                        // first compare-exchange
    | Spin(k: nat)                // compare-exchange number k of the spin loop
    | Exchange                    // about to swap in Contended
    | Wait                        // about to call futex_wait
    | Asleep
    | Own1 | Own2                 // store _owner, store _owner_set
    | Critical(l: L, n: nat)      // n steps into the section
    | Check1 | Check2             // unlock's assertion: load _owner_set, load _owner
    | Clear1 | Clear2             // store _owner_set, store _owner
    | Release                     // about to swap in Free
    | Wake                        // about to call futex_wake
    | Abort                       // a check fired

  datatype Thread<J, L> = Thread(pc: Pc<L>, todo: seq<Job<J>>)

  datatype Entry<J> = Entry(id: nat, j: J)

  /** `holder`, `log` (sections in lock-acquisition order), `trail` (the data after each
      completed section) and `results` (their final local states) are history.  `checks` says
      whether the deadlock checks are compiled in. */
  datatype State<!D, !J, !L> = State(
    sec: Section<D, J, L>, checks: bool,
    state: MutexState, ownerSet: bool, owner: Option<nat>, data: D, threads: seq<Thread<J, L>>,
    holder: Option<nat>, log: seq<Entry<J>>, trail: seq<D>, results: seq<L>)

  datatype Action =
    | Step(i: nat)
    | Interrupt(i: nat)           // futex_wait returns without a wake-up
    | WakeOne(i: nat, j: nat)     // futex_wake by i wakes sleeper j
    | WakeNone(i: nat)

  function Init<D, J, L>(sec: Section<D, J, L>, checks: bool, d: D, jobs: seq<seq<Job<J>>>): State<D, J, L> {
    State(sec, checks, Free, false, None, d,
          seq(|jobs|, i requires 0 <= i < |jobs| => Thread(Idle, jobs[i])), None, [], [d], [])
  }

  predicate Sleeping<D, J, L>(s: State<D, J, L>, i: nat) {
    i < |s.threads| && s.threads[i].pc.Asleep?
  }

  predicate Enabled<D, J, L>(s: State<D, J, L>, a: Action) {
    a.i < |s.threads| &&
    var t := s.threads[a.i];
    match a
    case Step(i) => t.todo != [] && s.trail != [] && !t.pc.Asleep? && !t.pc.Wake? && !t.pc.Abort?
    case Interrupt(i) => t.pc.Wait? || t.pc.Asleep?
    case WakeOne(i, j) => t.pc.Wake? && t.todo != [] && Sleeping(s, j)
    case WakeNone(i) => t.pc.Wake? && t.todo != [] && forall j :: 0 <= j < |s.threads| ==> !Sleeping(s, j)
  }

  function Goto<D, J, L>(s: State<D, J, L>, i: nat, pc: Pc<L>): State<D, J, L>
    requires i < |s.threads|
  {
    s.(threads := s.threads[i := s.threads[i].(pc := pc)])
  }

  /** Thread `i` is through with its current job. */
  function NextJob<D, J, L>(s: State<D, J, L>, i: nat): State<D, J, L>
    requires i < |s.threads| && s.threads[i].todo != []
  {
    s.(threads := s.threads[i := Thread(Idle, s.threads[i].todo[1..])])
  }

  /** The lock word went from unlocked to `m` by thread `i`. */
  function Acquired<D, J, L>(s: State<D, J, L>, i: nat, m: MutexState): State<D, J, L>
    requires i < |s.threads| && s.threads[i].todo != []
  {
    var j := s.threads[i].todo[0].j;
    Goto(s, i, if s.checks then Own1 else Critical(s.sec.start(j), 0))
    .(state := m, holder := Some(i), log := s.log + [Entry(i, j)])
  }

  function Do<D, J, L>(s: State<D, J, L>, a: Action): (r: State<D, J, L>)
    requires Enabled(s, a)
    ensures |r.threads| == |s.threads| && r.sec == s.sec && r.checks == s.checks
    ensures s.log <= r.log && s.trail <= r.trail && s.results <= r.results
  {
    match a
    case Interrupt(i) => Goto(s, i, Exchange)
    case WakeOne(i, j) => Goto(NextJob(s, i), j, Exchange)
    case WakeNone(i) => NextJob(s, i)
    case Step(i) => OwnStep(s, i)
  }

  /** Positions between acquiring and releasing the lock word. */
  predicate Inside<L>(pc: Pc<L>) {
    pc.Own1? || pc.Own2? || pc.Critical? || pc.Check1? || pc.Check2? || pc.Clear1? || pc.Clear2? || pc.Release?
  }

  /** From `s` to `r` only thread `i` moved, at most to its next job. */
  ghost predicate OnlyMoved<D, J, L>(s: State<D, J, L>, i: nat, r: State<D, J, L>)
    requires i < |s.threads| && s.threads[i].todo != []
  {
    && |r.threads| == |s.threads| && r.threads == s.threads[i := r.threads[i]]
    && (r.threads[i].todo == s.threads[i].todo || r.threads[i].todo == s.threads[i].todo[1..])
    && r.sec == s.sec && r.checks == s.checks
    && s.log <= r.log && s.trail <= r.trail && s.results <= r.results
  }

  /** The next access of thread `i`. */
  function OwnStep<D, J, L>(s: State<D, J, L>, i: nat): (r: State<D, J, L>)
    requires Enabled(s, Step(i))
    ensures OnlyMoved(s, i, r)
  {
    if Inside(s.threads[i].pc) then HolderStep(s, i) else OuterStep(s, i)
  }

  /** Accesses of `lock` and `try_lock` up to the acquisition. */
  function OuterStep<D, J, L>(s: State<D, J, L>, i: nat): (r: State<D, J, L>)
    requires Enabled(s, Step(i)) && !Inside(s.threads[i].pc)
    ensures OnlyMoved(s, i, r) && r.trail == s.trail && r.results == s.results
  {
    var t := s.threads[i];
    match t.pc
    case Idle => Goto(s, i, if s.checks then Test1 else Fast)
    case Test1 => Goto(s, i, if s.ownerSet then Test2 else Fast)
    case Test2 => Goto(s, i, if s.owner == Some(i) then Abort else Fast)
    case Fast =>
      if s.state.Free? then Acquired(s, i, Locked)
      else if t.todo[0].tryOnly then NextJob(s, i)
      else Goto(s, i, Spin(0))
    case Spin(k) =>
      if s.state.Free? then Acquired(s, i, Locked)
      else Goto(s, i, if k + 1 < SPIN_COUNT then Spin(k + 1) else Exchange)
    case Exchange =>
      if LockedBit(s.state) then Goto(s, i, Wait).(state := Contended)
      else Acquired(s, i, Contended)
    case Wait => Goto(s, i, if s.state.Contended? then Asleep else Exchange)
    case _ => s
  }

  /** Accesses of the holder: the owner fields, the section, and `unlock`. */
  function HolderStep<D, J, L>(s: State<D, J, L>, i: nat): (r: State<D, J, L>)
    requires Enabled(s, Step(i)) && Inside(s.threads[i].pc)
    ensures OnlyMoved(s, i, r) && r.log == s.log
  {
    var t := s.threads[i];
    match t.pc
    case Own1 => Goto(s, i, Own2).(owner := Some(i))
    case Own2 => Goto(s, i, Critical(s.sec.start(t.todo[0].j), 0)).(ownerSet := true)
    case Critical(l, n) =>
      if s.sec.done(l) then
        Goto(s, i, if s.checks then Check1 else Release)
        .(trail := s.trail + [s.data], results := s.results + [l])
      else
        var r := s.sec.step(s.data, l);
        Goto(s, i, Critical(r.1, n + 1)).(data := r.0)
    case Check1 => Goto(s, i, if s.ownerSet then Check2 else Abort)
    case Check2 => Goto(s, i, if s.owner == Some(i) then Clear1 else Abort)
    case Clear1 => Goto(s, i, Clear2).(ownerSet := false)
    case Clear2 => Goto(s, i, Release).(owner := None)
    case Release =>
      (if s.state.Contended? then Goto(s, i, Wake) else NextJob(s, i))
      .(state := Free, holder := None)
    case _ => s
  }

  predicate ValidRun<D, J, L>(s: State<D, J, L>, acts: seq<Action>)
    decreases |acts|
  {
    acts == [] || (Enabled(s, acts[0]) && ValidRun(Do(s, acts[0]), acts[1..]))
  }

  function Run<D, J, L>(s: State<D, J, L>, acts: seq<Action>): State<D, J, L>
    requires ValidRun(s, acts)
    decreases |acts|
  {
    if acts == [] then s else Run(Do(s, acts[0]), acts[1..])
  }

  /** Some run of threads with programs `jobs` over data `d` ends in `s`. */
  ghost predicate Reachable<D, J, L>(sec: Section<D, J, L>, checks: bool, d: D, jobs: seq<seq<Job<J>>>, s: State<D, J, L>) {
    exists acts: seq<Action> ::
      ValidRun(Init(sec, checks, d, jobs), acts) && Run(Init(sec, checks, d, jobs), acts) == s
  }

  /** The section run alone for `n` steps. */
  function Iter<D, J, L>(sec: Section<D, J, L>, n: nat, d: D, l: L): (D, L) {
    if n == 0 then (d, l)
    else var r := Iter(sec, n - 1, d, l); sec.step(r.0, r.1)
  }

  ghost predicate Unfinished<D, J, L>(sec: Section<D, J, L>, n: nat, d: D, l: L) {
    forall m :: 0 <= m < n ==> !sec.done(Iter(sec, m, d, l).1)
  }

  /** Run alone on `d`, job `j` ends after `n` steps with data `d'` and local state `l'`. */
  ghost predicate CompletesIn<D, J, L>(sec: Section<D, J, L>, n: nat, j: J, d: D, d': D, l': L) {
    Iter(sec, n, d, sec.start(j)) == (d', l') && sec.done(l') && Unfinished(sec, n, d, sec.start(j))
  }

  /** Run alone on `d`, job `j` ends with data `d'` and local state `l'`. */
  ghost predicate Completes<D, J, L>(sec: Section<D, J, L>, j: J, d: D, d': D, l': L) {
    exists n: nat :: CompletesIn(sec, n, j, d, d', l')
  }
}
