/**
 The deadlock checks under stale loads: `_owner` and `_owner_set` keep all values ever stored to
 them, and a load may return any that is not older than the loading thread's own last store.  What
 else orders the loads can only rule out more of these.
 */
module MutexOwner {
  import opened Helpers
  import opened FutexMutex
  import opened MutexInvariant

  /** The modification orders of `_owner` and `_owner_set`, and for each thread the oldest store to
      each that it may still load. */
  datatype Stores = Stores(owners: seq<Option<nat>>, sets: seq<bool>, ownerFrom: seq<nat>, setFrom: seq<nat>)

  function Start(threads: nat): Stores {
    Stores([None], [false], seq(threads, _ => 0), seq(threads, _ => 0))
  }

  ghost predicate Sized<D, J, L>(s: State<D, J, L>, h: Stores) {
    |h.ownerFrom| == |h.setFrom| == |s.threads|
  }

  /** What a step stores. */
  function Record<D, J, L>(s: State<D, J, L>, a: Action, h: Stores): Stores
    requires Enabled(s, a) && Sized(s, h)
  {
    if !a.Step? then h else
    match s.threads[a.i].pc
    case Own1 => h.(owners := h.owners + [Some(a.i)], ownerFrom := h.ownerFrom[a.i := |h.owners|])
    case Own2 => h.(sets := h.sets + [true], setFrom := h.setFrom[a.i := |h.sets|])
    case Clear1 => h.(sets := h.sets + [false], setFrom := h.setFrom[a.i := |h.sets|])
    case Clear2 => h.(owners := h.owners + [None], ownerFrom := h.ownerFrom[a.i := |h.owners|])
    case _ => h
  }

  /** A store adds the value stored, and binds nobody but its own thread. */
  lemma BindsOwnOnly<D, J, L>(s: State<D, J, L>, a: Action, h: Stores, i: nat)
    requires Enabled(s, a) && Sized(s, h) && i < |s.threads|
    ensures var h' := Record(s, a, h);
            && h.owners <= h'.owners && h.sets <= h'.sets
            && (h'.ownerFrom[i] == h.ownerFrom[i]
                || (a.i == i && h'.ownerFrom[i] == |h.owners| && h'.owners == h.owners + [Do(s, a).owner]))
            && (h'.setFrom[i] == h.setFrom[i]
                || (a.i == i && h'.setFrom[i] == |h.sets| && h'.sets == h.sets + [Do(s, a).ownerSet]))
  {
  }

  function RunRecord<D, J, L>(s: State<D, J, L>, acts: seq<Action>, h: Stores): (r: Stores)
    requires ValidRun(s, acts) && Sized(s, h)
    decreases |acts|
  {
    if acts == [] then h else RunRecord(Do(s, acts[0]), acts[1..], Record(s, acts[0], h))
  }

  /** Any load of `_owner` by thread `i` returns `i`. */
  ghost predicate LoadsSelf(h: Stores, i: nat)
    requires i < |h.ownerFrom|
  {
    forall k :: h.ownerFrom[i] <= k < |h.owners| ==> h.owners[k] == Some(i)
  }

  /** No load of `_owner` by thread `i` returns `i`. */
  ghost predicate NeverSelf(h: Stores, i: nat)
    requires i < |h.ownerFrom|
  {
    forall k :: h.ownerFrom[i] <= k < |h.owners| ==> h.owners[k] != Some(i)
  }

  /** Any load of `_owner_set` by thread `i` returns true. */
  ghost predicate LoadsSet(h: Stores, i: nat)
    requires i < |h.setFrom|
  {
    forall k :: h.setFrom[i] <= k < |h.sets| ==> h.sets[k]
  }

  /** Positions after the store of `_owner` by `lock`, before the one by `unlock`. */
  predicate Registered<L>(pc: Pc<L>) {
    pc.Own2? || pc.Critical? || pc.Check1? || pc.Check2? || pc.Clear1? || pc.Clear2?
  }

  /** The same for `_owner_set`. */
  predicate Flagged<L>(pc: Pc<L>) {
    pc.Critical? || pc.Check1? || pc.Check2? || pc.Clear1?
  }

  ghost predicate Coherent<D, J, L>(s: State<D, J, L>, h: Stores) {
    && Sized(s, h)
    && forall i :: 0 <= i < |s.threads| ==> ThreadCoherent(s, h, i)
  }

  ghost predicate ThreadCoherent<D, J, L>(s: State<D, J, L>, h: Stores, i: nat)
    requires i < |s.threads| && Sized(s, h)
  {
    var pc := s.threads[i].pc;
    && h.ownerFrom[i] < |h.owners| && h.setFrom[i] < |h.sets|
    && (if s.checks && Registered(pc) then LoadsSelf(h, i) else NeverSelf(h, i))
    && (s.checks && Flagged(pc) ==> LoadsSet(h, i))
  }

  /** A step of a thread outside, or one that stores to neither field. */
  lemma NoStoreCoherent<D, J, L>(s: State<D, J, L>, a: Action, h: Stores, i: nat)
    requires Inv(s) && Enabled(s, a) && Coherent(s, h) && i < |s.threads|
    requires !(a.Step? && (s.threads[a.i].pc.Own1? || s.threads[a.i].pc.Own2? || s.threads[a.i].pc.Clear1? || s.threads[a.i].pc.Clear2?))
    ensures ThreadCoherent(Do(s, a), Record(s, a, h), i)
  {
    assert ThreadCoherent(s, h, i);
    PcKept(s, a, i);
  }

  lemma PcKept<D, J, L>(s: State<D, J, L>, a: Action, i: nat)
    requires Inv(s) && Enabled(s, a) && i < |s.threads|
    requires !(a.Step? && (s.threads[a.i].pc.Own1? || s.threads[a.i].pc.Own2? || s.threads[a.i].pc.Clear1? || s.threads[a.i].pc.Clear2?))
    ensures var pc, pc' := s.threads[i].pc, Do(s, a).threads[i].pc;
            s.checks ==> (Registered(pc') <==> Registered(pc)) && (Flagged(pc') ==> Flagged(pc))
  {
    if a.Step? && a.i == i {
      StepPc(s, i);
    }
  }

  lemma StepPc<D, J, L>(s: State<D, J, L>, i: nat)
    requires Inv(s) && Enabled(s, Step(i))
    requires var pc := s.threads[i].pc; !pc.Own1? && !pc.Own2? && !pc.Clear1? && !pc.Clear2?
    ensures var pc, pc' := s.threads[i].pc, Do(s, Step(i)).threads[i].pc;
            s.checks ==> (Registered(pc') <==> Registered(pc)) && (Flagged(pc') ==> Flagged(pc))
  {
  }

  /** The holder's stores: nobody else is registered, and no other thread stores its number. */
  lemma StoreCoherent<D, J, L>(s: State<D, J, L>, h: Stores, j: nat, i: nat)
    requires Inv(s) && Enabled(s, Step(j)) && Coherent(s, h) && i < |s.threads|
    requires var pc := s.threads[j].pc; pc.Own1? || pc.Own2? || pc.Clear1? || pc.Clear2?
    ensures ThreadCoherent(Do(s, Step(j)), Record(s, Step(j), h), i)
  {
    assert ThreadCoherent(s, h, i) && ThreadCoherent(s, h, j);
    assert s.checks && s.holder == Some(j);
    if i != j {
      assert !Inside(s.threads[i].pc);
    }
  }

  lemma StepCoherent<D, J, L>(s: State<D, J, L>, a: Action, h: Stores)
    requires Inv(s) && Enabled(s, a) && Coherent(s, h)
    ensures Coherent(Do(s, a), Record(s, a, h))
  {
    forall i | 0 <= i < |s.threads| ensures ThreadCoherent(Do(s, a), Record(s, a, h), i) {
      if a.Step? && (s.threads[a.i].pc.Own1? || s.threads[a.i].pc.Own2? || s.threads[a.i].pc.Clear1? || s.threads[a.i].pc.Clear2?) {
        StoreCoherent(s, h, a.i, i);
      } else {
        NoStoreCoherent(s, a, h, i);
      }
    }
  }

  lemma {:induction false} RunCoherent<D, J, L>(s: State<D, J, L>, acts: seq<Action>, h: Stores)
    requires Inv(s) && ValidRun(s, acts) && Coherent(s, h)
    ensures Inv(Run(s, acts)) && Coherent(Run(s, acts), RunRecord(s, acts, h)) && Run(s, acts).checks == s.checks
    decreases |acts|
  {
    if acts != [] {
      StepCoherent(s, acts[0], h);
      StepInv(s, acts[0]);
      RunCoherent(Do(s, acts[0]), acts[1..], Record(s, acts[0], h));
    }
  }

  /** After any run with the checks compiled in and whatever stores the loads return: the recursion
      test of a thread outside never fires, that of a thread in its section always does, and
      `unlock`'s assertion holds. */
  lemma ChecksExact<D, J, L>(sec: Section<D, J, L>, d: D, jobs: seq<seq<Job<J>>>, acts: seq<Action>, i: nat)
    requires ValidRun(Init(sec, true, d, jobs), acts) && i < |jobs|
    ensures var s, h := Run(Init(sec, true, d, jobs), acts), RunRecord(Init(sec, true, d, jobs), acts, Start(|jobs|));
            && Sized(s, h) && |s.threads| == |jobs|
            && (!Inside(s.threads[i].pc) ==> NeverSelf(h, i))
            && (Flagged(s.threads[i].pc) ==> LoadsSet(h, i) && LoadsSelf(h, i))
            && h.ownerFrom[i] < |h.owners| && h.setFrom[i] < |h.sets|
  {
    var s0 := Init(sec, true, d, jobs);
    InitInv(sec, true, d, jobs);
    RunCoherent(s0, acts, Start(|jobs|));
    RunThreads(s0, acts);
    assert ThreadCoherent(Run(s0, acts), RunRecord(s0, acts, Start(|jobs|)), i);
  }

  lemma {:induction false} RunThreads<D, J, L>(s: State<D, J, L>, acts: seq<Action>)
    requires ValidRun(s, acts)
    ensures |Run(s, acts).threads| == |s.threads|
    decreases |acts|
  {
    if acts != [] {
      RunThreads(Do(s, acts[0]), acts[1..]);
    }
  }
}
