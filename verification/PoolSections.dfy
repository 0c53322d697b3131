/**
 The pool's critical sections, one memory access at a time, run by threads that interleave
 under the futex mutex: together they behave as operations on one first-in first-out free
 list, in the order in which the lock was acquired.
 */
module PoolSections {
  import opened Helpers
  import opened Memory
  import opened FreeRing
  import M = FutexMutex
  import MutexTheorems

  datatype Op = Acquire | Release(obj: nat) | AcquireBatch(maxCount: nat) | ReleaseBatch(items: seq<nat>)

  /** Where a thread is inside a section, with its local variables. */
  datatype Local =
    | AcqCount | AcqHead | AcqLoad(head: nat) | AcqStore(head: nat, obj: nat) | AcqDrop(obj: nat)
    | RelHead(obj: nat) | RelCount(obj: nat, head: nat) | RelStore(obj: nat, tail: nat) | RelAdd
    | AbCount(maxCount: nat) | AbHead(num: nat) | AbCopy(num: nat, head: nat, out: seq<nat>) | AbDrop(num: nat, out: seq<nat>)
    | RbHead(items: seq<nat>) | RbCount(items: seq<nat>, head: nat) | RbCopy(items: seq<nat>, tail: nat, i: nat)
    | Got(objs: seq<nat>)

  function Get(buf: seq<nat>, i: int): nat {
    if 0 <= i < |buf| then buf[i] else 0
  }

  /** `x & (_pool_size - 1)` */
  function Wrap(r: Ring, x: nat): nat {
    if r.buf == [] then 0 else CellOf(x, |r.buf|)
  }

  /** Word `i` of a block that starts at `at`, in the second of two blocks once past the end. */
  function BlockIndex(r: Ring, at: nat, i: nat): nat {
    if at + i < |r.buf| then at + i else at + i - |r.buf|
  }

  function Start(op: Op): Local {
    match op
    case Acquire => AcqCount
    case Release(obj) => RelHead(obj)
    case AcquireBatch(maxCount) => AbCount(maxCount)
    case ReleaseBatch(items) => if items == [] then Got([]) else RbHead(items)
  }

  function Access(r: Ring, l: Local): (Ring, Local) {
    match l
    case AcqCount => (r, if r.count == 0 then Got([]) else AcqHead)
    case AcqHead => (r, AcqLoad(r.head))
    case AcqLoad(head) => (r, AcqStore(head, Get(r.buf, head)))
    case AcqStore(head, obj) => (r.(head := Wrap(r, head + 1)), AcqDrop(obj))
    case AcqDrop(obj) => (r.(count := if r.count == 0 then 0 else r.count - 1), Got([obj]))
    case RelHead(obj) => (r, RelCount(obj, r.head))
    case RelCount(obj, head) => (r, RelStore(obj, Wrap(r, head + r.count)))
    case RelStore(obj, tail) => (r.(buf := Put(r.buf, tail, obj)), RelAdd)
    case RelAdd => (r.(count := r.count + 1), Got([]))
    case AbCount(maxCount) => (r, if Min(maxCount, r.count) == 0 then Got([]) else AbHead(Min(maxCount, r.count)))
    case AbHead(num) => (r, AbCopy(num, r.head, []))
    case AbCopy(num, head, out) =>
      if |out| < num then (r, AbCopy(num, head, out + [Get(r.buf, BlockIndex(r, head, |out|))]))
      else (r.(head := Wrap(r, head + num)), AbDrop(num, out))
    case AbDrop(num, out) => (r.(count := if r.count < num then 0 else r.count - num), Got(out))
    case RbHead(items) => (r, RbCount(items, r.head))
    case RbCount(items, head) => (r, RbCopy(items, Wrap(r, head + r.count), 0))
    case RbCopy(items, tail, i) =>
      if i < |items| then (r.(buf := Put(r.buf, BlockIndex(r, tail, i), items[i])), RbCopy(items, tail, i + 1))
      else (r.(count := r.count + |items|), Got([]))
    case Got(_) => (r, l)
  }

  function PoolSection(): M.Section<Ring, Op, Local> {
    M.Section((op: Op) => Start(op), (r: Ring, l: Local) => Access(r, l), (l: Local) => l.Got?)
  }

  // ----- each section alone --------------------------------------------------------------

  function Rank(l: Local): nat {
    match l
    case AcqCount => 5
    case AcqHead => 4
    case AcqLoad(_) => 3
    case AcqStore(_, _) => 2
    case AcqDrop(_) => 1
    case RelHead(_) => 4
    case RelCount(_, _) => 3
    case RelStore(_, _) => 2
    case RelAdd => 1
    case AbCount(maxCount) => maxCount + 4
    case AbHead(num) => num + 3
    case AbCopy(num, _, out) => 2 + if |out| < num then num - |out| else 0
    case AbDrop(_, _) => 1
    case RbHead(items) => |items| + 3
    case RbCount(items, _) => |items| + 2
    case RbCopy(items, _, i) => 1 + if i < |items| then |items| - i else 0
    case Got(_) => 0
  }

  lemma AccessAdvances(r: Ring, l: Local)
    requires !l.Got?
    ensures Rank(Access(r, l).1) < Rank(l)
  {
  }

  /** Run alone from `(r, l)`, a section ends at `(r', l')` after `n` more accesses. */
  ghost predicate RunsIn(n: nat, r: Ring, l: Local, r': Ring, l': Local) {
    if n == 0 then l.Got? && (r, l) == (r', l')
    else !l.Got? && RunsIn(n - 1, Access(r, l).0, Access(r, l).1, r', l')
  }

  ghost predicate Leads(r: Ring, l: Local, r': Ring, l': Local) {
    exists n: nat :: RunsIn(n, r, l, r', l')
  }

  lemma AtEnd(r: Ring, objs: seq<nat>)
    ensures Leads(r, Got(objs), r, Got(objs))
  {
    assert RunsIn(0, r, Got(objs), r, Got(objs));
  }

  lemma Before(r: Ring, l: Local, r1: Ring, l1: Local, r': Ring, l': Local)
    requires !l.Got? && Access(r, l) == (r1, l1) && Leads(r1, l1, r', l')
    ensures Leads(r, l, r', l')
  {
    var n: nat :| RunsIn(n, r1, l1, r', l');
    assert RunsIn(n + 1, r, l, r', l');
  }

  /** `k` accesses into `op` begun on ring `r0`, not done before, a section is at `(r, l)`. */
  ghost predicate At(op: Op, r0: Ring, k: nat, r: Ring, l: Local) {
    M.Iter(PoolSection(), k, r0, Start(op)) == (r, l) && M.Unfinished(PoolSection(), k, r0, Start(op))
  }

  lemma OneMore(op: Op, r0: Ring, k: nat, r: Ring, l: Local)
    requires At(op, r0, k, r, l) && !l.Got?
    ensures At(op, r0, k + 1, Access(r, l).0, Access(r, l).1)
  {
    assert !PoolSection().done(M.Iter(PoolSection(), k, r0, Start(op)).1);
  }

  lemma {:induction false} RunsCompletes(op: Op, r0: Ring, k: nat, n: nat, r: Ring, l: Local, r': Ring, l': Local)
    requires At(op, r0, k, r, l) && RunsIn(n, r, l, r', l')
    ensures M.Completes(PoolSection(), op, r0, r', l')
    decreases n
  {
    if n == 0 {
      assert M.CompletesIn(PoolSection(), k, op, r0, r, l);
    } else {
      OneMore(op, r0, k, r, l);
      RunsCompletes(op, r0, k + 1, n - 1, Access(r, l).0, Access(r, l).1, r', l');
    }
  }

  lemma LeadsCompletes(op: Op, r: Ring, r': Ring, l': Local)
    requires Leads(r, Start(op), r', l')
    ensures M.Completes(PoolSection(), op, r, r', l')
  {
    var n: nat :| RunsIn(n, r, Start(op), r', l');
    RunsCompletes(op, r, 0, n, r, Start(op), r', l');
  }

  lemma {:induction false} SectionRuns(r: Ring, l: Local) returns (r': Ring, l': Local)
    ensures Leads(r, l, r', l')
    decreases Rank(l)
  {
    if l.Got? {
      r', l' := r, l;
      AtEnd(r, l.objs);
    } else {
      AccessAdvances(r, l);
      r', l' := SectionRuns(Access(r, l).0, Access(r, l).1);
      Before(r, l, Access(r, l).0, Access(r, l).1, r', l');
    }
  }

  /** Whatever state the ring is in, every section ends. */
  lemma SectionsEnd()
    ensures MutexTheorems.Terminates(PoolSection())
  {
    forall r: Ring, op: Op ensures MutexTheorems.Ends(PoolSection(), r, op) {
      var r', l' := SectionRuns(r, Start(op));
      LeadsCompletes(op, r, r', l');
      var n: nat :| M.CompletesIn(PoolSection(), n, op, r, r', l');
      assert PoolSection().done(M.Iter(PoolSection(), n, r, PoolSection().start(op)).1);
    }
  }

  lemma AcquireAlone(r: Ring)
    requires Wf(r)
    ensures if r.count == 0 then Leads(r, AcqCount, r, Got([])) else Leads(r, AcqCount, Take(r), Got([Free(r)[0]]))
  {
    if r.count == 0 {
      AtEnd(r, []);
      Before(r, AcqCount, r, Got([]), r, Got([]));
    } else {
      TakeFree(r);
      AcquireSome(r, r.buf[r.head]);
    }
  }

  lemma AcquireSome(r: Ring, obj: nat)
    requires Wf(r) && 0 < r.count && obj == r.buf[r.head]
    ensures Leads(r, AcqCount, Take(r), Got([obj]))
  {
    var r', l' := Take(r), Got([obj]);
    var r1 := r.(head := CellOf(r.head + 1, |r.buf|));
    AtEnd(r', [obj]);
    Before(r1, AcqDrop(obj), r', l', r', l');
    Before(r, AcqStore(r.head, obj), r1, AcqDrop(obj), r', l');
    Before(r, AcqLoad(r.head), r, AcqStore(r.head, obj), r', l');
    Before(r, AcqHead, r, AcqLoad(r.head), r', l');
    Before(r, AcqCount, r, AcqHead, r', l');
  }

  lemma ReleaseAlone(r: Ring, obj: nat)
    requires Wf(r) && r.count < |r.buf|
    ensures Leads(r, RelHead(obj), Give(r, obj), Got([]))
  {
    var r', l' := Give(r, obj), Got([]);
    var tail := CellOf(r.head + r.count, |r.buf|);
    var r1 := r.(buf := r.buf[tail := obj]);
    AtEnd(r', []);
    Before(r1, RelAdd, r', l', r', l');
    Before(r, RelStore(obj, tail), r1, RelAdd, r', l');
    Before(r, RelCount(obj, r.head), r, RelStore(obj, tail), r', l');
    Before(r, RelHead(obj), r, RelCount(obj, r.head), r', l');
  }

  lemma WrapOnce(r: Ring, at: nat, i: nat)
    requires at < |r.buf| && i < |r.buf|
    ensures BlockIndex(r, at, i) == CellOf(at + i, |r.buf|)
  {
  }

  lemma CopyOutWord(r: Ring, num: nat, i: nat)
    requires Wf(r) && i < num <= r.count
    ensures Access(r, AbCopy(num, r.head, Free(r)[..i])) == (r, AbCopy(num, r.head, Free(r)[..i + 1]))
  {
    WrapOnce(r, r.head, i);
    assert Free(r)[..i] + [Free(r)[i]] == Free(r)[..i + 1];
  }

  /** The copy loop of `acquire_batch`, from word `i` on. */
  lemma {:induction false} CopyOutFrom(r: Ring, num: nat, i: nat, r': Ring, l': Local)
    requires Wf(r) && i <= num <= r.count
    requires Leads(r, AbCopy(num, r.head, Free(r)[..num]), r', l')
    ensures Leads(r, AbCopy(num, r.head, Free(r)[..i]), r', l')
    decreases num - i
  {
    if i < num {
      CopyOutFrom(r, num, i + 1, r', l');
      CopyOutWord(r, num, i);
      Before(r, AbCopy(num, r.head, Free(r)[..i]), r, AbCopy(num, r.head, Free(r)[..i + 1]), r', l');
    }
  }

  lemma AcquireBatchAlone(r: Ring, maxCount: nat)
    requires Wf(r)
    ensures var num := Min(maxCount, r.count);
            Leads(r, AbCount(maxCount), TakeN(r, num), Got(Free(r)[..num]))
  {
    var num := Min(maxCount, r.count);
    if num == 0 {
      AtEnd(r, []);
      Before(r, AbCount(maxCount), r, Got([]), r, Got([]));
    } else {
      AcquireBatchSome(r, maxCount, num, TakeN(r, num), Got(Free(r)[..num]));
    }
  }

  lemma AcquireBatchSome(r: Ring, maxCount: nat, num: nat, r': Ring, l': Local)
    requires Wf(r) && 0 < num == Min(maxCount, r.count)
    requires r' == TakeN(r, num) && l' == Got(Free(r)[..num])
    ensures Leads(r, AbCount(maxCount), r', l')
  {
    DropTaken(r, num);
    CopyOutAll(r, num, r', l');
    Before(r, AbCount(maxCount), r, AbHead(num), r', l');
  }

  lemma CopyOutAll(r: Ring, num: nat, r': Ring, l': Local)
    requires Wf(r) && num <= r.count && Leads(r, AbCopy(num, r.head, Free(r)[..num]), r', l')
    ensures Leads(r, AbHead(num), r', l')
  {
    CopyOutFrom(r, num, 0, r', l');
    assert Free(r)[..0] == [];
    Before(r, AbHead(num), r, AbCopy(num, r.head, []), r', l');
  }

  lemma DropTaken(r: Ring, num: nat)
    requires Wf(r) && 0 < num <= r.count
    ensures Leads(r, AbCopy(num, r.head, Free(r)[..num]), TakeN(r, num), Got(Free(r)[..num]))
  {
    var out := Free(r)[..num];
    var r', l' := TakeN(r, num), Got(out);
    var r1 := r.(head := CellOf(r.head + num, |r.buf|));
    TakeNFree(r, num);
    AtEnd(r', out);
    Before(r1, AbDrop(num, out), r', l', r', l');
    Before(r, AbCopy(num, r.head, out), r1, AbDrop(num, out), r', l');
  }

  /** The ring with the first `i` items of a batch stored but not yet counted. */
  function Stored(r: Ring, items: seq<nat>, i: nat): Ring
    requires Wf(r) && i <= |items| && r.count + |items| <= |r.buf|
  {
    r.(buf := GiveAll(r, items[..i]).buf)
  }

  lemma StoreOne(r: Ring, items: seq<nat>, i: nat)
    requires Wf(r) && i < |items| && r.count + |items| <= |r.buf|
    ensures var tail := CellOf(r.head + r.count, |r.buf|);
            Stored(r, items, i + 1).buf == Put(Stored(r, items, i).buf, BlockIndex(r, tail, i), items[i])
  {
    CellAdd(r.head + r.count, i, |r.buf|);
    WrapOnce(r, CellOf(r.head + r.count, |r.buf|), i);
    assert items[..i + 1][..i] == items[..i];
  }

  lemma CopyInWord(r: Ring, items: seq<nat>, i: nat)
    requires Wf(r) && i < |items| && r.count + |items| <= |r.buf|
    ensures var tail := CellOf(r.head + r.count, |r.buf|);
            Access(Stored(r, items, i), RbCopy(items, tail, i)) == (Stored(r, items, i + 1), RbCopy(items, tail, i + 1))
  {
    StoreOne(r, items, i);
  }

  /** The copy loop of `release_batch`, from word `i` on. */
  lemma {:induction false} CopyInFrom(r: Ring, items: seq<nat>, tail: nat, i: nat, r': Ring, l': Local)
    requires Wf(r) && i <= |items| && r.count + |items| <= |r.buf| && tail == CellOf(r.head + r.count, |r.buf|)
    requires Leads(Stored(r, items, |items|), RbCopy(items, tail, |items|), r', l')
    ensures Leads(Stored(r, items, i), RbCopy(items, tail, i), r', l')
    decreases |items| - i
  {
    if i < |items| {
      CopyInFrom(r, items, tail, i + 1, r', l');
      CopyInWord(r, items, i);
      Before(Stored(r, items, i), RbCopy(items, tail, i), Stored(r, items, i + 1), RbCopy(items, tail, i + 1), r', l');
    }
  }

  lemma ReleaseBatchAlone(r: Ring, items: seq<nat>)
    requires Wf(r) && r.count + |items| <= |r.buf|
    ensures Leads(r, Start(ReleaseBatch(items)), GiveAll(r, items), Got([]))
  {
    var r', l' := GiveAll(r, items), Got([]);
    if items == [] {
      AtEnd(r, []);
    } else {
      var tail := CellOf(r.head + r.count, |r.buf|);
      CountGiven(r, items, tail);
      CopyInAll(r, items, tail, r', l');
      Before(r, RbHead(items), r, RbCount(items, r.head), r', l');
    }
  }

  lemma CopyInAll(r: Ring, items: seq<nat>, tail: nat, r': Ring, l': Local)
    requires Wf(r) && r.count + |items| <= |r.buf| && tail == CellOf(r.head + r.count, |r.buf|)
    requires Leads(Stored(r, items, |items|), RbCopy(items, tail, |items|), r', l')
    ensures Leads(r, RbCount(items, r.head), r', l')
  {
    CopyInFrom(r, items, tail, 0, r', l');
    assert Stored(r, items, 0) == r;
    Before(r, RbCount(items, r.head), r, RbCopy(items, tail, 0), r', l');
  }

  lemma CountGiven(r: Ring, items: seq<nat>, tail: nat)
    requires Wf(r) && r.count + |items| <= |r.buf|
    ensures Leads(Stored(r, items, |items|), RbCopy(items, tail, |items|), GiveAll(r, items), Got([]))
  {
    var r', l' := GiveAll(r, items), Got([]);
    assert items[..|items|] == items;
    AtEnd(r', []);
    Before(Stored(r, items, |items|), RbCopy(items, tail, |items|), r', l', r', l');
  }

  // ----- the free list as a FIFO ---------------------------------------------------------

  function FifoNext(f: seq<nat>, op: Op): seq<nat> {
    match op
    case Acquire => if f == [] then [] else f[1..]
    case Release(obj) => f + [obj]
    case AcquireBatch(maxCount) => f[Min(maxCount, |f|)..]
    case ReleaseBatch(items) => f + items
  }

  /** The objects an operation hands to its caller. */
  function FifoObjs(f: seq<nat>, op: Op): seq<nat> {
    match op
    case Acquire => if f == [] then [] else [f[0]]
    case AcquireBatch(maxCount) => f[..Min(maxCount, |f|)]
    case _ => []
  }

  predicate Room(f: seq<nat>, op: Op, size: nat) {
    match op
    case Release(_) => |f| < size
    case ReleaseBatch(items) => |f| + |items| <= size
    case _ => true
  }

  /** One section run alone is one FIFO operation. */
  lemma SectionIsFifo(op: Op, r: Ring) returns (r': Ring)
    requires Wf(r) && Room(Free(r), op, |r.buf|)
    ensures Wf(r') && |r'.buf| == |r.buf| && Free(r') == FifoNext(Free(r), op)
    ensures Leads(r, Start(op), r', Got(FifoObjs(Free(r), op)))
  {
    match op
    case Acquire =>
      AcquireAlone(r);
      if r.count == 0 { return r; }
      TakeFree(r);
      return Take(r);
    case Release(obj) =>
      ReleaseAlone(r, obj);
      GiveFree(r, obj);
      return Give(r, obj);
    case AcquireBatch(maxCount) =>
      AcquireBatchAlone(r, maxCount);
      TakeNFree(r, Min(maxCount, r.count));
      return TakeN(r, Min(maxCount, r.count));
    case ReleaseBatch(items) =>
      ReleaseBatchAlone(r, items);
      GiveAllFree(r, items);
      return GiveAll(r, items);
  }

  /** That is its only outcome. */
  lemma OnlyFifo(op: Op, r: Ring, r': Ring, l: Local)
    requires Wf(r) && Room(Free(r), op, |r.buf|) && M.Completes(PoolSection(), op, r, r', l)
    ensures Wf(r') && |r'.buf| == |r.buf| && Free(r') == FifoNext(Free(r), op) && l == Got(FifoObjs(Free(r), op))
  {
    var r1 := SectionIsFifo(op, r);
    LeadsCompletes(op, r, r1, Got(FifoObjs(Free(r), op)));
    MutexTheorems.CompletesOnce(PoolSection(), op, r, r', l, r1, Got(FifoObjs(Free(r), op)));
  }

  /** The free list after the first `k` operations of the lock-acquisition order. */
  function FifoAfter(f: seq<nat>, log: seq<M.Entry<Op>>, k: nat): seq<nat>
    requires k <= |log|
  {
    if k == 0 then f else FifoNext(FifoAfter(f, log, k - 1), log[k - 1].j)
  }

  lemma {:induction false} TrailIsFifo(log: seq<M.Entry<Op>>, trail: seq<Ring>, results: seq<Local>, k: nat)
    requires k <= |results| <= |log| && |trail| == |results| + 1 && Wf(trail[0])
    requires forall i :: 0 <= i < |results| ==>
               M.Completes(PoolSection(), log[i].j, trail[i], trail[i + 1], results[i])
    requires forall i :: 0 <= i < |results| ==> Room(FifoAfter(Free(trail[0]), log, i), log[i].j, |trail[0].buf|)
    ensures Wf(trail[k]) && |trail[k].buf| == |trail[0].buf| && Free(trail[k]) == FifoAfter(Free(trail[0]), log, k)
    ensures 0 < k ==> results[k - 1] == Got(FifoObjs(FifoAfter(Free(trail[0]), log, k - 1), log[k - 1].j))
  {
    if 0 < k {
      var i := k - 1;
      TrailIsFifo(log, trail, results, i);
      OnlyFifo(log[i].j, trail[i], trail[i + 1], results[i]);
    }
  }

  // ----- objects in callers' hands -------------------------------------------------------

  /** The objects an operation takes back from its caller. */
  function Returned(op: Op): multiset<nat> {
    match op
    case Release(obj) => multiset{obj}
    case ReleaseBatch(items) => multiset(items)
    case _ => multiset{}
  }

  function HeldNext(free: seq<nat>, held: multiset<nat>, op: Op): multiset<nat> {
    held - Returned(op) + multiset(FifoObjs(free, op))
  }

  /** The objects callers hold after the first `k` operations of the lock-acquisition order. */
  function HeldAfter(f: seq<nat>, log: seq<M.Entry<Op>>, k: nat): multiset<nat>
    requires k <= |log|
  {
    if k == 0 then multiset{} else HeldNext(FifoAfter(f, log, k - 1), HeldAfter(f, log, k - 1), log[k - 1].j)
  }

  /** Operation `k` gives back only what callers hold at its place in the lock-acquisition
      order, whoever acquired it. */
  predicate GivesBackHeld(f: seq<nat>, log: seq<M.Entry<Op>>, k: nat)
    requires k < |log|
  {
    Returned(log[k].j) <= HeldAfter(f, log, k)
  }

  ghost predicate Disciplined(f: seq<nat>, log: seq<M.Entry<Op>>, m: nat)
    requires m <= |log|
  {
    forall k :: 0 <= k < m ==> GivesBackHeld(f, log, k)
  }

  lemma OpConserves(f: seq<nat>, op: Op)
    ensures multiset(FifoNext(f, op)) + multiset(FifoObjs(f, op)) == multiset(f) + Returned(op)
  {
    match op
    case Acquire => if f != [] { assert f == [f[0]] + f[1..]; }
    case AcquireBatch(maxCount) => assert f == f[..Min(maxCount, |f|)] + f[Min(maxCount, |f|)..];
    case _ =>
  }

  /** Free list and callers together hold the objects of `f`. */
  ghost predicate Balanced(f: seq<nat>, free: seq<nat>, held: multiset<nat>) {
    forall x: nat :: multiset(free)[x] + held[x] == multiset(f)[x]
  }

  lemma BalancedSums(f: seq<nat>, free: seq<nat>, held: multiset<nat>)
    requires Balanced(f, free, held)
    ensures multiset(free) + held == multiset(f) && |free| + |held| == |f|
  {
    assert multiset(free) + held == multiset(f);
    assert |multiset(free) + held| == |multiset(free)| + |held|;
  }

  lemma LogConserves(f: seq<nat>, log: seq<M.Entry<Op>>, k: nat)
    requires k <= |log| && Disciplined(f, log, k)
    ensures Balanced(f, FifoAfter(f, log, k), HeldAfter(f, log, k))
  {
    LogConservesTo(f, log, k, k, FifoAfter(f, log, k), HeldAfter(f, log, k));
  }

  lemma {:induction false} LogConservesTo(f: seq<nat>, log: seq<M.Entry<Op>>, m: nat, k: nat, free: seq<nat>, held: multiset<nat>)
    requires k <= m <= |log| && Disciplined(f, log, m)
    requires free == FifoAfter(f, log, k) && held == HeldAfter(f, log, k)
    ensures Balanced(f, free, held)
    decreases k
  {
    if k == 0 {
      NothingHeld(f);
    } else {
      var free0, held0, op := FifoAfter(f, log, k - 1), HeldAfter(f, log, k - 1), log[k - 1].j;
      LogConservesTo(f, log, m, k - 1, free0, held0);
      assert GivesBackHeld(f, log, k - 1);
      OpBalanced(f, free0, held0, op, free, held);
    }
  }

  lemma NothingHeld(f: seq<nat>)
    ensures Balanced(f, f, multiset{})
  {
    assert multiset(f) + multiset{} == multiset(f);
  }

  lemma OpBalanced(f: seq<nat>, free: seq<nat>, held: multiset<nat>, op: Op, free': seq<nat>, held': multiset<nat>)
    requires Balanced(f, free, held) && Returned(op) <= held
    requires free' == FifoNext(free, op) && held' == HeldNext(free, held, op)
    ensures Balanced(f, free', held')
  {
    OpConserves(free, op);
    forall x: nat ensures multiset(free')[x] + held'[x] == multiset(f)[x] {
      assert (multiset(free') + multiset(FifoObjs(free, op)))[x] == (multiset(free) + Returned(op))[x];
    }
  }

  lemma DisciplineRoom(f: seq<nat>, log: seq<M.Entry<Op>>, k: nat, size: nat)
    requires k < |log| && Disciplined(f, log, k + 1) && |f| <= size
    ensures Room(FifoAfter(f, log, k), log[k].j, size)
  {
    LogConserves(f, log, k);
    assert GivesBackHeld(f, log, k);
    BalancedSums(f, FifoAfter(f, log, k), HeldAfter(f, log, k));
    NoMoreThan(Returned(log[k].j), HeldAfter(f, log, k));
  }

  lemma NoMoreThan(a: multiset<nat>, b: multiset<nat>)
    requires a <= b
    ensures |a| <= |b|
  {
    assert b == (b - a) + a;
  }

  /** No object is handed out while a caller holds it, nor twice in one batch. */
  lemma HandedOutOnce(f: seq<nat>, log: seq<M.Entry<Op>>, k: nat, x: nat)
    requires Distinct(f) && k < |log| && Disciplined(f, log, k)
    requires x in FifoObjs(FifoAfter(f, log, k), log[k].j)
    ensures HeldAfter(f, log, k)[x] == 0 && multiset(FifoObjs(FifoAfter(f, log, k), log[k].j))[x] == 1
  {
    LogConserves(f, log, k);
    DistinctOnce(f, x);
    GivenOnce(FifoAfter(f, log, k), HeldAfter(f, log, k), f, log[k].j, x);
  }

  lemma GivenOnce(free: seq<nat>, held: multiset<nat>, f: seq<nat>, op: Op, x: nat)
    requires Balanced(f, free, held) && multiset(f)[x] <= 1 && x in FifoObjs(free, op)
    ensures held[x] == 0 && multiset(FifoObjs(free, op))[x] == 1
  {
    OpConserves(free, op);
    assert Returned(op) == multiset{};
    assert (multiset(FifoNext(free, op)) + multiset(FifoObjs(free, op)))[x] == multiset(free)[x];
    assert multiset(free)[x] + held[x] == multiset(f)[x];
  }

  // ----- under the lock ------------------------------------------------------------------

  /** However the threads interleave, as long as callers give back only what they hold, every
      operation returns what the FIFO free list gives at its place in the lock-acquisition
      order, an unlocked pool holds that free list, and no object is lost. */
  lemma {:induction false} PoolIsFifo(checks: bool, r0: Ring, jobs: seq<seq<M.Job<Op>>>, s: M.State<Ring, Op, Local>)
    requires Wf(r0) && M.Reachable(PoolSection(), checks, r0, jobs, s)
    requires |s.results| <= |s.log| && Disciplined(Free(r0), s.log, |s.results|)
    ensures forall k :: 0 <= k < |s.results| ==> ResultOk(Free(r0), s.log, s.results, k)
    ensures s.state.Free? ==>
              && |s.results| == |s.log| && Wf(s.data) && Free(s.data) == FifoAfter(Free(r0), s.log, |s.log|)
              && Balanced(Free(r0), Free(s.data), HeldAfter(Free(r0), s.log, |s.log|))
  {
    MutexTheorems.Serializable(PoolSection(), checks, r0, jobs, s);
    TrailResults(s.log, s.trail, s.results);
    TrailEnd(s.log, s.trail, s.results);
  }

  lemma {:induction false} TrailRoom(log: seq<M.Entry<Op>>, f: seq<nat>, size: nat, m: nat)
    requires m <= |log| && Disciplined(f, log, m) && |f| <= size
    ensures forall i :: 0 <= i < m ==> Room(FifoAfter(f, log, i), log[i].j, size)
  {
    forall i | 0 <= i < m ensures Room(FifoAfter(f, log, i), log[i].j, size) {
      DisciplineRoom(f, log, i, size);
    }
  }

  /** Operation `k` returned what the FIFO free list gives at its place. */
  predicate ResultOk(f: seq<nat>, log: seq<M.Entry<Op>>, results: seq<Local>, k: nat)
    requires k < |results| <= |log|
  {
    results[k] == Got(FifoObjs(FifoAfter(f, log, k), log[k].j))
  }

  lemma {:induction false} TrailResults(log: seq<M.Entry<Op>>, trail: seq<Ring>, results: seq<Local>)
    requires |results| <= |log| && |trail| == |results| + 1 && Wf(trail[0])
    requires forall i :: 0 <= i < |results| ==>
               M.Completes(PoolSection(), log[i].j, trail[i], trail[i + 1], results[i])
    requires Disciplined(Free(trail[0]), log, |results|)
    ensures forall k :: 0 <= k < |results| ==> ResultOk(Free(trail[0]), log, results, k)
  {
    forall k | 0 <= k < |results| ensures ResultOk(Free(trail[0]), log, results, k) {
      ResultAt(log, trail, results, k + 1);
    }
  }

  lemma {:induction false} ResultAt(log: seq<M.Entry<Op>>, trail: seq<Ring>, results: seq<Local>, m: nat)
    requires 0 < m <= |results| <= |log| && |trail| == |results| + 1 && Wf(trail[0])
    requires forall i :: 0 <= i < |results| ==>
               M.Completes(PoolSection(), log[i].j, trail[i], trail[i + 1], results[i])
    requires Disciplined(Free(trail[0]), log, |results|)
    ensures ResultOk(Free(trail[0]), log, results, m - 1)
  {
    TrailRoom(log, Free(trail[0]), |trail[0].buf|, |results|);
    TrailIsFifo(log, trail, results, m);
  }

  lemma {:induction false} TrailEnd(log: seq<M.Entry<Op>>, trail: seq<Ring>, results: seq<Local>)
    requires |results| <= |log| && |trail| == |results| + 1 && Wf(trail[0])
    requires forall i :: 0 <= i < |results| ==>
               M.Completes(PoolSection(), log[i].j, trail[i], trail[i + 1], results[i])
    requires Disciplined(Free(trail[0]), log, |results|)
    ensures var r, f := trail[|results|], Free(trail[0]);
            && Wf(r) && Free(r) == FifoAfter(f, log, |results|)
            && Balanced(f, Free(r), HeldAfter(f, log, |results|))
  {
    TrailRoom(log, Free(trail[0]), |trail[0].buf|, |results|);
    TrailIsFifo(log, trail, results, |results|);
    LogConserves(Free(trail[0]), log, |results|);
  }

  /** No interleaving of pool operations is ever stuck. */
  lemma PoolNeverStuck(checks: bool, r0: Ring, jobs: seq<seq<M.Job<Op>>>, s: M.State<Ring, Op, Local>)
    requires M.Reachable(PoolSection(), checks, r0, jobs, s)
    ensures exists acts: seq<M.Action> :: M.ValidRun(s, acts) && MutexTheorems.Done(M.Run(s, acts))
  {
    SectionsEnd();
    MutexTheorems.NeverStuck(PoolSection(), checks, r0, jobs, s);
  }
}
