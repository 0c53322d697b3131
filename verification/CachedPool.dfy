/**
 `ThreadCachedObjectPool` as a transition system: any number of threads, each with its own
 cache, over one global free list.  A step is one `acquire`, `release` or `flush`; each makes
 at most one call into the global pool.
 */
module CachedPool {
  import opened Helpers

  /** What one operation makes of the free list and the caller's cache.  It constructs an object
      in each of the nodes `built` and destroys the one in each of `wrecked`; `written` is how
      many entries of the cache array it reached, `locked` whether it took the global lock. */
  datatype Outcome = Outcome(free: seq<nat>, cache: seq<nat>, obj: Option<nat>,
                             built: seq<nat>, wrecked: seq<nat>, written: nat, locked: bool)

  function AcquireCached(free: seq<nat>, cache: seq<nat>, batch: nat): Outcome {
    if cache == [] then
      var k := Min(batch, |free|);
      if k == 0 then Outcome(free, [], None, [], [], 0, true)
      else Outcome(free[k..], free[..k - 1], Some(free[k - 1]), free[..k], [], k, true)
    else
      Outcome(free, cache[..|cache| - 1], Some(cache[|cache| - 1]), [], [], |cache|, false)
  }

  function ReleaseCached(free: seq<nat>, cache: seq<nat>, obj: nat, threshold: nat): Outcome {
    var half := |cache| / 2;
    if threshold <= |cache| && 0 < half then
      var keep := |cache| - half;
      Outcome(free + cache[keep..], cache[..keep] + [obj], None, [], cache[keep..], keep + 1, true)
    else
      Outcome(free, cache + [obj], None, [], [], |cache| + 1, false)
  }

  function FlushCached(free: seq<nat>, cache: seq<nat>): Outcome {
    Outcome(free + cache, [], None, [], cache, 0, cache != [])
  }

  /** `BatchSize` and `CacheFlushThreshold`. */
  datatype Params = Params(batch: nat, threshold: nat)

  /** `out` holds the objects handed out, `live` the nodes that hold a constructed object.
      History: `high`, the most entries of a cache array any operation reached; per thread,
      `ops` done, global `locks` taken, operations `since` the last. */
  datatype State = State(
    free: seq<nat>, caches: seq<seq<nat>>, out: set<nat>, live: set<nat>,
    high: nat, ops: seq<nat>, locks: seq<nat>, since: seq<nat>)

  datatype Action = Acquire(t: nat) | Release(t: nat, obj: nat) | Flush(t: nat)

  function Nodes(n: nat): seq<nat> {
    seq(n, i => i)
  }

  function Init(n: nat, threads: nat): State {
    State(Nodes(n), seq(threads, _ => []), {}, {}, 0, seq(threads, _ => 0), seq(threads, _ => 0), seq(threads, _ => 0))
  }

  /** Only an object that is out may be released, by whatever thread. */
  predicate Enabled(s: State, a: Action) {
    && a.t < |s.caches| == |s.ops| == |s.locks| == |s.since|
    && (a.Release? ==> a.obj in s.out)
  }

  function OutcomeOf(p: Params, s: State, a: Action): Outcome
    requires Enabled(s, a)
  {
    match a
    case Acquire(t) => AcquireCached(s.free, s.caches[t], p.batch)
    case Release(t, obj) => ReleaseCached(s.free, s.caches[t], obj, p.threshold)
    case Flush(t) => FlushCached(s.free, s.caches[t])
  }

  function ToSet(xs: seq<nat>): set<nat> {
    set x | x in xs
  }

  function Do(p: Params, s: State, a: Action): State
    requires Enabled(s, a)
  {
    var o, t := OutcomeOf(p, s, a), a.t;
    State(o.free, s.caches[t := o.cache],
          match a
          case Acquire(_) => if o.obj.Some? then s.out + {o.obj.value} else s.out
          case Release(_, obj) => s.out - {obj}
          case Flush(_) => s.out,
          s.live + ToSet(o.built) - ToSet(o.wrecked),
          if s.high < o.written then o.written else s.high,
          s.ops[t := s.ops[t] + 1],
          s.locks[t := s.locks[t] + if o.locked then 1 else 0],
          s.since[t := if o.locked then 0 else s.since[t] + 1])
  }

  predicate ValidRun(p: Params, s: State, acts: seq<Action>)
    decreases |acts|
  {
    acts == [] || (Enabled(s, acts[0]) && ValidRun(p, Do(p, s, acts[0]), acts[1..]))
  }

  function Run(p: Params, s: State, acts: seq<Action>): State
    requires ValidRun(p, s, acts)
    decreases |acts|
  {
    if acts == [] then s else Run(p, Do(p, s, acts[0]), acts[1..])
  }

  ghost predicate Reachable(p: Params, n: nat, threads: nat, s: State) {
    exists acts: seq<Action> :: ValidRun(p, Init(n, threads), acts) && Run(p, Init(n, threads), acts) == s
  }

  // ----- conservation --------------------------------------------------------------------

  /** Everything held in caches. */
  function Cached(caches: seq<seq<nat>>): multiset<nat> {
    if caches == [] then multiset{} else multiset(caches[0]) + Cached(caches[1..])
  }

  /** The free list, the caches and the objects out are a partition of the nodes. */
  ghost predicate Conserved(n: nat, s: State) {
    multiset(s.free) + Cached(s.caches) + multiset(s.out) == multiset(Nodes(n))
  }

  lemma {:induction false} CachedUpdate(caches: seq<seq<nat>>, t: nat, c: seq<nat>)
    requires t < |caches|
    ensures Cached(caches[t := c]) + multiset(caches[t]) == Cached(caches) + multiset(c)
  {
    if t == 0 {
      assert caches[0 := c][1..] == caches[1..];
    } else {
      CachedUpdate(caches[1..], t - 1, c);
      var u, first := caches[t := c], multiset(caches[0]);
      assert u[1..] == caches[1..][t - 1 := c] && caches[1..][t - 1] == caches[t];
      assert Cached(u) + multiset(caches[t]) == first + (Cached(u[1..]) + multiset(caches[t]));
    }
  }

  /** Moving things between a cache and the free list, seen from the sum of all caches. */
  lemma Exchange(free: multiset<nat>, caches: multiset<nat>, cache: multiset<nat>, inn: multiset<nat>,
                 free': multiset<nat>, caches': multiset<nat>, cache': multiset<nat>, outt: multiset<nat>)
    requires caches' + cache == caches + cache'
    requires free' + cache' + outt == free + cache + inn
    ensures free' + caches' + outt == free + caches + inn
  {
    forall x: nat ensures (free' + caches' + outt)[x] == (free + caches + inn)[x] {
      assert (caches' + cache)[x] == (caches + cache')[x];
      assert (free' + cache' + outt)[x] == (free + cache + inn)[x];
    }
  }

  function Obj(o: Option<nat>): multiset<nat> {
    match o
    case None => multiset{}
    case Some(x) => multiset{x}
  }

  lemma AcquireMoves(free: seq<nat>, cache: seq<nat>, batch: nat)
    ensures var o := AcquireCached(free, cache, batch);
            multiset(o.free) + multiset(o.cache) + Obj(o.obj) == multiset(free) + multiset(cache)
  {
    var k := Min(batch, |free|);
    if cache != [] {
      assert cache == cache[..|cache| - 1] + [cache[|cache| - 1]];
    } else if k != 0 {
      assert free == free[..k - 1] + [free[k - 1]] + free[k..];
    }
  }

  lemma ReleaseMoves(free: seq<nat>, cache: seq<nat>, obj: nat, threshold: nat)
    ensures var o := ReleaseCached(free, cache, obj, threshold);
            multiset(o.free) + multiset(o.cache) == multiset(free) + multiset(cache) + multiset{obj}
  {
    var half := |cache| / 2;
    assert cache == cache[..|cache| - half] + cache[|cache| - half..];
  }

  lemma {:induction false} NodesOnce(n: nat, x: nat)
    ensures multiset(Nodes(n))[x] == if x < n then 1 else 0
  {
    if n != 0 {
      NodesOnce(n - 1, x);
      assert Nodes(n) == Nodes(n - 1) + [n - 1];
    }
  }

  /** What leaves the free list and a cache goes out, and the other way round. */
  lemma Flow(p: Params, s: State, a: Action)
    requires Enabled(s, a)
    ensures var s' := Do(p, s, a);
            multiset(s'.free) + Cached(s'.caches) + (if a.Acquire? then Obj(OutcomeOf(p, s, a).obj) else multiset{})
            == multiset(s.free) + Cached(s.caches) + (if a.Release? then multiset{a.obj} else multiset{})
  {
    var o, t, s' := OutcomeOf(p, s, a), a.t, Do(p, s, a);
    CachedUpdate(s.caches, t, o.cache);
    var inn := if a.Release? then multiset{a.obj} else multiset{};
    var outt := if a.Acquire? then Obj(o.obj) else multiset{};
    match a {
      case Acquire(_) => AcquireMoves(s.free, s.caches[t], p.batch);
      case Release(_, obj) => ReleaseMoves(s.free, s.caches[t], obj, p.threshold);
      case Flush(_) =>
    }
    Exchange(multiset(s.free), Cached(s.caches), multiset(s.caches[t]), inn,
             multiset(o.free), Cached(s'.caches), multiset(o.cache), outt);
  }

  lemma ConservedStep(p: Params, n: nat, s: State, a: Action)
    requires Conserved(n, s) && Enabled(s, a)
    ensures Conserved(n, Do(p, s, a))
  {
    match a
    case Acquire(t) => AcquireConserves(p, n, s, t);
    case Release(t, obj) => ReleaseConserves(p, n, s, t, obj);
    case Flush(t) => FlushConserves(p, n, s, t);
  }

  lemma AcquireConserves(p: Params, n: nat, s: State, t: nat)
    requires Conserved(n, s) && Enabled(s, Acquire(t))
    ensures Conserved(n, Do(p, s, Acquire(t)))
  {
    var s', obj := Do(p, s, Acquire(t)), OutcomeOf(p, s, Acquire(t)).obj;
    Flow(p, s, Acquire(t));
    if obj.Some? {
      AcquiredIsNew(p, n, s, t);
    }
    assert multiset(s'.out) == multiset(s.out) + Obj(obj);
    Regroup(multiset(s'.free) + Cached(s'.caches), Obj(obj), multiset(s.out), multiset(s.free) + Cached(s.caches));
  }

  lemma ReleaseConserves(p: Params, n: nat, s: State, t: nat, obj: nat)
    requires Conserved(n, s) && Enabled(s, Release(t, obj))
    ensures Conserved(n, Do(p, s, Release(t, obj)))
  {
    var s' := Do(p, s, Release(t, obj));
    Flow(p, s, Release(t, obj));
    assert multiset(s.out) == multiset(s'.out) + multiset{obj};
    Regroup(multiset(s.free) + Cached(s.caches), multiset{obj}, multiset(s'.out), multiset(s'.free) + Cached(s'.caches));
  }

  lemma FlushConserves(p: Params, n: nat, s: State, t: nat)
    requires Conserved(n, s) && Enabled(s, Flush(t))
    ensures Conserved(n, Do(p, s, Flush(t)))
  {
    var s' := Do(p, s, Flush(t));
    Flow(p, s, Flush(t));
    Regroup(multiset(s'.free) + Cached(s'.caches), multiset{}, multiset(s.out), multiset(s.free) + Cached(s.caches));
    assert multiset(s.out) + multiset{} == multiset(s.out);
  }

  lemma Regroup(a: multiset<nat>, b: multiset<nat>, c: multiset<nat>, d: multiset<nat>)
    requires a + b == d
    ensures a + (c + b) == d + c
  {
    assert a + (c + b) == (a + b) + c;
  }

  /** An acquired object is a node that was not out: none is handed out twice. */
  lemma AcquiredIsNew(p: Params, n: nat, s: State, t: nat)
    requires Conserved(n, s) && Enabled(s, Acquire(t)) && OutcomeOf(p, s, Acquire(t)).obj.Some?
    ensures var x := OutcomeOf(p, s, Acquire(t)).obj.value; x < n && x !in s.out
  {
    var o := OutcomeOf(p, s, Acquire(t));
    var x := o.obj.value;
    NodesOnce(n, x);
    AcquireMoves(s.free, s.caches[t], p.batch);
    CachedUpdate(s.caches, t, []);
    assert (multiset(o.free) + multiset(o.cache) + Obj(o.obj))[x] >= 1;
    assert Cached(s.caches[t := []]) + multiset(s.caches[t]) == Cached(s.caches);
    assert (multiset(s.free) + Cached(s.caches) + multiset(s.out))[x] <= 1;
  }

  /** What is handed out has just been constructed exactly when the cache was empty. */
  lemma HandedOut(p: Params, n: nat, s: State, t: nat)
    requires Conserved(n, s) && Enabled(s, Acquire(t)) && OutcomeOf(p, s, Acquire(t)).obj.Some?
    ensures var o := OutcomeOf(p, s, Acquire(t));
            o.obj.value < n && (o.obj.value in o.built <==> s.caches[t] == [])
  {
    AcquiredIsNew(p, n, s, t);
    var o := OutcomeOf(p, s, Acquire(t));
    if s.caches[t] == [] {
      assert o.built[|o.built| - 1] == o.obj.value;
    }
  }

  // ----- what each operation does --------------------------------------------------------

  /** Only thread `t`'s cache and counters change. */
  ghost predicate OthersSame(s: State, s': State, t: nat) {
    && |s'.caches| == |s.caches| && |s'.locks| == |s.locks| && |s'.ops| == |s.ops|
    && forall u :: 0 <= u < |s.caches| && u != t ==> s'.caches[u] == s.caches[u]
  }

  /** `flush` leaves nothing in the cache: all of it joins the end of the free list, destroyed, and
      the lock is taken exactly if there was anything. */
  lemma FlushEmpties(p: Params, s: State, t: nat)
    requires Enabled(s, Flush(t))
    ensures var s' := Do(p, s, Flush(t));
            && s'.caches[t] == [] && s'.free == s.free + s.caches[t] && s'.out == s.out && OthersSame(s, s', t)
            && (forall x: nat :: x in s'.live <==> x in s.live && x !in s.caches[t])
            && OutcomeOf(p, s, Flush(t)).wrecked == s.caches[t]
            && s'.locks[t] == s.locks[t] + if s.caches[t] == [] then 0 else 1
  {
  }

  /** `acquire` hands out the newest entry of the cache, or of the batch an empty cache is refilled
      with from the front of the free list. */
  lemma AcquireTakesNewest(p: Params, s: State, t: nat)
    requires Enabled(s, Acquire(t))
    ensures var s', obj, k := Do(p, s, Acquire(t)), OutcomeOf(p, s, Acquire(t)).obj, Min(p.batch, |s.free|);
            && OthersSame(s, s', t)
            && (obj.None? <==> s.caches[t] == [] && k == 0)
            && (obj.None? ==> s'.free == s.free && s'.caches == s.caches && s'.out == s.out && s'.live == s.live)
            && (obj.Some? ==> s'.out == s.out + {obj.value})
            && (s.caches[t] != [] ==>
                  s'.caches[t] + [obj.value] == s.caches[t] && s'.free == s.free && s'.live == s.live)
            && (s.caches[t] == [] && k != 0 ==>
                  && s'.caches[t] + [obj.value] == s.free[..k] && s'.free == s.free[k..]
                  && (forall x: nat :: x in s'.live <==> x in s.live || x in s.free[..k]))
            && OutcomeOf(p, s, Acquire(t)).built == (if s.caches[t] == [] then s.free[..k] else [])
            && s'.locks[t] == s.locks[t] + if s.caches[t] == [] then 1 else 0
  {
    var k := Min(p.batch, |s.free|);
    if s.caches[t] == [] && k != 0 {
      assert s.free[..k] == s.free[..k - 1] + [s.free[k - 1]];
    }
  }

  /** `release` puts the object on top of the cache; a full cache first gives its upper half, in
      order, to the end of the free list. */
  lemma ReleaseStacks(p: Params, s: State, t: nat, obj: nat)
    requires Enabled(s, Release(t, obj))
    ensures var s', keep := Do(p, s, Release(t, obj)), |s.caches[t]| - |s.caches[t]| / 2;
            && OthersSame(s, s', t) && s'.out == s.out - {obj}
            && s'.caches[t] != [] && Last(s'.caches[t]) == obj
            && OutcomeOf(p, s, Release(t, obj)).wrecked
               == (if |s.caches[t]| < p.threshold || |s.caches[t]| < 2 then [] else s.caches[t][keep..])
            && (if |s.caches[t]| < p.threshold || |s.caches[t]| < 2 then
                  s'.caches[t] == s.caches[t] + [obj] && s'.free == s.free && s'.live == s.live && s'.locks == s.locks
                else
                  && s'.caches[t] == s.caches[t][..keep] + [obj] && s'.free == s.free + s.caches[t][keep..]
                  && (forall x: nat :: x in s'.live <==> x in s.live && x !in s.caches[t][keep..])
                  && s'.locks[t] == s.locks[t] + 1)
  {
  }

  lemma {:induction false} OwnCacheKept(p: Params, s: State, acts: seq<Action>, t: nat)
    requires ValidRun(p, s, acts) && t < |s.caches| && forall a :: a in acts ==> a.t != t
    ensures |Run(p, s, acts).caches| == |s.caches| && Run(p, s, acts).caches[t] == s.caches[t]
    decreases |acts|
  {
    if acts != [] {
      assert acts[0] in acts && forall a :: a in acts[1..] ==> a in acts;
      OwnCacheKept(p, Do(p, s, acts[0]), acts[1..], t);
    }
  }

  /** A thread's acquire right after its release returns that object, whatever the other threads do
      in between, and without the lock. */
  lemma ReleasedIsNext(p: Params, s: State, t: nat, obj: nat, acts: seq<Action>)
    requires Enabled(s, Release(t, obj)) && ValidRun(p, Do(p, s, Release(t, obj)), acts)
    requires forall a :: a in acts ==> a.t != t
    ensures var s' := Run(p, Do(p, s, Release(t, obj)), acts);
            && t < |s'.caches| && s'.caches[t] != []
            && (Enabled(s', Acquire(t)) ==>
                  OutcomeOf(p, s', Acquire(t)).obj == Some(obj) && !OutcomeOf(p, s', Acquire(t)).locked)
  {
    var s1 := Do(p, s, Release(t, obj));
    ReleaseStacks(p, s, t, obj);
    OwnCacheKept(p, s1, acts, t);
    var s' := Run(p, s1, acts);
    if Enabled(s', Acquire(t)) {
      AcquireTakesNewest(p, s', t);
    }
  }

  // ----- every run -----------------------------------------------------------------------

  lemma {:induction false} RunConserved(p: Params, n: nat, s: State, acts: seq<Action>)
    requires Conserved(n, s) && ValidRun(p, s, acts)
    ensures Conserved(n, Run(p, s, acts)) && |Run(p, s, acts).caches| == |s.caches|
    decreases |acts|
  {
    if acts != [] {
      ConservedStep(p, n, s, acts[0]);
      RunConserved(p, n, Do(p, s, acts[0]), acts[1..]);
    }
  }

  lemma {:induction false} NothingCached(caches: seq<seq<nat>>)
    requires forall i :: 0 <= i < |caches| ==> caches[i] == []
    ensures Cached(caches) == multiset{}
  {
    if caches != [] {
      NothingCached(caches[1..]);
    }
  }

  /** Whatever the threads do, also releasing on another thread, the free list, the caches and
      the objects out partition the nodes, and nothing that is out can be acquired again. */
  lemma Partition(p: Params, n: nat, threads: nat, s: State)
    requires Reachable(p, n, threads, s)
    ensures Conserved(n, s) && |s.caches| == threads
    ensures forall t :: Enabled(s, Acquire(t)) && OutcomeOf(p, s, Acquire(t)).obj.Some? ==>
              OutcomeOf(p, s, Acquire(t)).obj.value < n && OutcomeOf(p, s, Acquire(t)).obj.value !in s.out
  {
    var acts: seq<Action> :| ValidRun(p, Init(n, threads), acts) && Run(p, Init(n, threads), acts) == s;
    NothingCached(Init(n, threads).caches);
    RunConserved(p, n, Init(n, threads), acts);
    forall t | Enabled(s, Acquire(t)) && OutcomeOf(p, s, Acquire(t)).obj.Some?
      ensures OutcomeOf(p, s, Acquire(t)).obj.value < n && OutcomeOf(p, s, Acquire(t)).obj.value !in s.out
    {
      AcquiredIsNew(p, n, s, t);
    }
  }

  // ----- lifetimes -----------------------------------------------------------------------

  /** Exactly the nodes outside the free list hold an object: those out and those cached. */
  ghost predicate LiveOk(n: nat, s: State) {
    forall x: nat :: x in s.live <==> x < n && x !in s.free
  }

  /** A node is in one place only. */
  lemma OnePlace(n: nat, s: State, t: nat, x: nat)
    requires Conserved(n, s) && t < |s.caches|
    ensures multiset(s.free)[x] + multiset(s.caches[t])[x] + multiset(s.out)[x] <= if x < n then 1 else 0
  {
    NodesOnce(n, x);
    CachedUpdate(s.caches, t, []);
    assert Cached(s.caches[t := []]) + multiset(s.caches[t]) == Cached(s.caches);
    assert (multiset(s.free) + Cached(s.caches) + multiset(s.out))[x] <= if x < n then 1 else 0;
  }

  /** What an operation constructs leaves the front of the free list. */
  lemma BuiltWasFree(p: Params, s: State, a: Action)
    requires Enabled(s, a)
    ensures var o := OutcomeOf(p, s, a); o.built != [] ==> o.wrecked == [] && s.free == o.built + o.free
  {
  }

  /** What it destroys joins the end, out of the caller's cache. */
  lemma WreckedWasCached(p: Params, s: State, a: Action)
    requires Enabled(s, a)
    ensures var o := OutcomeOf(p, s, a);
            && (o.built == [] ==> o.free == s.free + o.wrecked)
            && |o.wrecked| <= |s.caches[a.t]|
            && o.wrecked == s.caches[a.t][|s.caches[a.t]| - |o.wrecked|..]
  {
  }

  /** Every node an operation constructs an object in is raw, every node whose object it destroys
      holds one, and it does either at most once. */
  ghost predicate Lawful(p: Params, s: State, a: Action)
    requires Enabled(s, a)
  {
    var o := OutcomeOf(p, s, a);
    && Distinct(o.built) && (forall x :: x in o.built ==> x !in s.live)
    && Distinct(o.wrecked) && (forall x :: x in o.wrecked ==> x in s.live)
    && (o.built == [] || o.wrecked == [])
  }

  lemma LawfulStep(p: Params, n: nat, s: State, a: Action)
    requires Conserved(n, s) && LiveOk(n, s) && Enabled(s, a)
    ensures Lawful(p, s, a)
  {
    var o, cache := OutcomeOf(p, s, a), s.caches[a.t];
    WreckedWasCached(p, s, a);
    CacheIsLive(n, s, a.t);
    PartDistinct(cache[..|cache| - |o.wrecked|], o.wrecked, cache);
    FreeIsRaw(n, s, a.t);
    BuiltWasFree(p, s, a);
    if o.built != [] {
      PartDistinct(o.built, o.free, s.free);
    }
  }

  lemma CacheIsLive(n: nat, s: State, t: nat)
    requires Conserved(n, s) && LiveOk(n, s) && t < |s.caches|
    ensures Distinct(s.caches[t]) && forall x :: x in s.caches[t] ==> x in s.live
  {
    forall x: nat ensures multiset(s.caches[t])[x] <= 1 {
      OnePlace(n, s, t, x);
    }
    OnceDistinct(s.caches[t]);
    forall x | x in s.caches[t] ensures x in s.live {
      OnePlace(n, s, t, x);
    }
  }

  lemma FreeIsRaw(n: nat, s: State, t: nat)
    requires Conserved(n, s) && LiveOk(n, s) && t < |s.caches|
    ensures Distinct(s.free) && forall x :: x in s.free ==> x < n && x !in s.live
  {
    forall x: nat ensures multiset(s.free)[x] <= 1 {
      OnePlace(n, s, t, x);
    }
    OnceDistinct(s.free);
    forall x | x in s.free ensures x < n {
      OnePlace(n, s, t, x);
    }
  }

  /** Two parts of a sequence without repetitions have none and nothing in common. */
  lemma PartDistinct(xs: seq<nat>, ys: seq<nat>, whole: seq<nat>)
    requires whole == xs + ys && Distinct(whole)
    ensures Distinct(xs) && Distinct(ys) && forall x :: x in xs ==> x in whole && x !in ys
    ensures forall y :: y in ys ==> y in whole
    ensures forall x :: x in whole ==> x in xs || x in ys
  {
    forall i | 0 <= i < |xs| ensures whole[i] == xs[i] && xs[i] in whole && xs[i] !in ys {
      assert whole[i] == xs[i];
      forall j | 0 <= j < |ys| ensures ys[j] != xs[i] {
        assert i < |xs| + j && whole[|xs| + j] == ys[j];
      }
    }
    forall j | 0 <= j < |ys| ensures whole[|xs| + j] == ys[j] {
    }
  }

  lemma LiveStep(p: Params, n: nat, s: State, a: Action)
    requires Conserved(n, s) && LiveOk(n, s) && Enabled(s, a)
    ensures LiveOk(n, Do(p, s, a))
  {
    var o, cache := OutcomeOf(p, s, a), s.caches[a.t];
    BuiltWasFree(p, s, a);
    WreckedWasCached(p, s, a);
    FreeIsRaw(n, s, a.t);
    if o.built != [] {
      PartDistinct(o.built, o.free, s.free);
    } else {
      LawfulStep(p, n, s, a);
      forall x | x in o.wrecked ensures x < n && x !in s.free {
        assert x in s.live;
      }
    }
  }

  /** What a run does to node `x`: true for each construction, false for each destruction. */
  function History(p: Params, s: State, acts: seq<Action>, x: nat): seq<bool>
    requires ValidRun(p, s, acts)
    decreases |acts|
  {
    if acts == [] then []
    else Marks(OutcomeOf(p, s, acts[0]), x) + History(p, Do(p, s, acts[0]), acts[1..], x)
  }

  function Times(k: nat, b: bool): seq<bool> {
    if k == 0 then [] else [b] + Times(k - 1, b)
  }

  /** One mark for every time `x` occurs among the nodes built, then among those wrecked. */
  function Marks(o: Outcome, x: nat): seq<bool> {
    Times(multiset(o.built)[x], true) + Times(multiset(o.wrecked)[x], false)
  }

  /** Constructions and destructions take turns, from a node that is live or not. */
  predicate Alternating(live: bool, marks: seq<bool>)
    decreases |marks|
  {
    marks == [] || (marks[0] != live && Alternating(marks[0], marks[1..]))
  }

  lemma MarksTakeTurns(p: Params, s: State, a: Action, x: nat)
    requires Enabled(s, a) && Lawful(p, s, a)
    ensures var marks := Marks(OutcomeOf(p, s, a), x);
            || (marks == [] && (x in Do(p, s, a).live <==> x in s.live))
            || (marks == [x !in s.live] && (x in Do(p, s, a).live <==> x !in s.live))
  {
    var o := OutcomeOf(p, s, a);
    DistinctOnce(o.built, x);
    DistinctOnce(o.wrecked, x);
    assert x in o.built <==> multiset(o.built)[x] == 1;
    assert x in o.wrecked <==> multiset(o.wrecked)[x] == 1;
  }

  lemma {:induction false} RunAlternates(p: Params, n: nat, s: State, acts: seq<Action>, x: nat)
    requires Conserved(n, s) && LiveOk(n, s) && ValidRun(p, s, acts)
    ensures LiveOk(n, Run(p, s, acts)) && Alternating(x in s.live, History(p, s, acts, x))
    decreases |acts|
  {
    if acts != [] {
      var a, s' := acts[0], Do(p, s, acts[0]);
      LawfulStep(p, n, s, a);
      LiveStep(p, n, s, a);
      ConservedStep(p, n, s, a);
      MarksTakeTurns(p, s, a, x);
      RunAlternates(p, n, s', acts[1..], x);
      var rest := History(p, s', acts[1..], x);
      if Marks(OutcomeOf(p, s, a), x) == [] {
        assert History(p, s, acts, x) == rest;
      } else {
        assert History(p, s, acts, x) == [x !in s.live] + rest;
        assert ([x !in s.live] + rest)[1..] == rest;
      }
    }
  }

  lemma InitConserved(n: nat, threads: nat)
    ensures Conserved(n, Init(n, threads)) && LiveOk(n, Init(n, threads))
  {
    NothingCached(Init(n, threads).caches);
    forall x: nat | x < n ensures x in Nodes(n) {
      assert Nodes(n)[x] == x;
    }
  }

  /** In every run of any number of threads, construction and destruction take turns on each
      node, beginning with a construction; and in the state it leads to, a node is live exactly
      when it is outside the free list, and the next operation, whatever it is, constructs only
      in raw nodes and destroys only live objects. */
  lemma LifetimesAlternate(p: Params, n: nat, threads: nat, acts: seq<Action>, x: nat)
    requires ValidRun(p, Init(n, threads), acts)
    ensures Alternating(false, History(p, Init(n, threads), acts, x))
    ensures var s := Run(p, Init(n, threads), acts);
            && (x in s.live <==> x < n && x !in s.free)
            && (forall a :: Enabled(s, a) ==> Lawful(p, s, a))
  {
    var s0 := Init(n, threads);
    InitConserved(n, threads);
    RunAlternates(p, n, s0, acts, x);
    RunConserved(p, n, s0, acts);
    var s := Run(p, s0, acts);
    forall a | Enabled(s, a) ensures Lawful(p, s, a) {
      LawfulStep(p, n, s, a);
    }
  }

  // ----- exhaustion ----------------------------------------------------------------------

  function CachedCount(caches: seq<seq<nat>>): nat {
    if caches == [] then 0 else |caches[0]| + CachedCount(caches[1..])
  }

  lemma {:induction false} CountIsSize(caches: seq<seq<nat>>)
    ensures |Cached(caches)| == CachedCount(caches)
  {
    if caches != [] {
      CountIsSize(caches[1..]);
    }
  }

  lemma {:induction false} CountAtMost(caches: seq<seq<nat>>, bound: nat, t: nat)
    requires t < |caches| && caches[t] == []
    requires forall i :: 0 <= i < |caches| ==> |caches[i]| <= bound
    ensures CachedCount(caches) <= (|caches| - 1) * bound
  {
    if t == 0 {
      CountAtMostAll(caches[1..], bound);
    } else {
      CountAtMost(caches[1..], bound, t - 1);
      assert (|caches| - 1) * bound == bound + (|caches| - 2) * bound;
    }
  }

  lemma {:induction false} CountAtMostAll(caches: seq<seq<nat>>, bound: nat)
    requires forall i :: 0 <= i < |caches| ==> |caches[i]| <= bound
    ensures CachedCount(caches) <= |caches| * bound
  {
    if caches != [] {
      CountAtMostAll(caches[1..], bound);
      assert |caches| * bound == bound + (|caches| - 1) * bound;
    }
  }

  lemma ConservedCount(n: nat, s: State)
    requires Conserved(n, s)
    ensures |s.free| + CachedCount(s.caches) + |s.out| == n
  {
    CountIsSize(s.caches);
    assert |multiset(s.free) + Cached(s.caches) + multiset(s.out)| == |multiset(Nodes(n))|;
    assert |multiset(s.out)| == |s.out|;
  }

  // ----- index bounds --------------------------------------------------------------------

  /** When no operation of any run reaches past the end of a cache array. */
  predicate FitParams(p: Params, n: nat) {
    Min(p.batch, n) <= p.threshold && (2 <= p.threshold || n == 1 || p.batch == 0)
  }

  ghost predicate Fits(p: Params, n: nat, s: State) {
    && Conserved(n, s) && s.high <= p.threshold
    && (forall i :: 0 <= i < |s.caches| ==> |s.caches[i]| <= p.threshold)
    && (p.batch == 0 ==> s.out == {} && forall i :: 0 <= i < |s.caches| ==> s.caches[i] == [])
  }

  lemma {:induction false} OneOfCount(caches: seq<seq<nat>>, t: nat)
    requires t < |caches|
    ensures |caches[t]| <= CachedCount(caches)
  {
    if t != 0 {
      OneOfCount(caches[1..], t - 1);
    }
  }

  /** One operation stays within the cache array and leaves at most a full one. */
  lemma OutcomeFits(p: Params, n: nat, s: State, a: Action)
    requires FitParams(p, n) && Fits(p, n, s) && Enabled(s, a)
    ensures OutcomeOf(p, s, a).written <= p.threshold && |OutcomeOf(p, s, a).cache| <= p.threshold
  {
    ConservedCount(n, s);
    OneOfCount(s.caches, a.t);
    if a.Release? {
      assert s.out != {};
    }
  }

  lemma FitsStep(p: Params, n: nat, s: State, a: Action)
    requires FitParams(p, n) && Fits(p, n, s) && Enabled(s, a)
    ensures Fits(p, n, Do(p, s, a))
  {
    ConservedStep(p, n, s, a);
    OutcomeFits(p, n, s, a);
  }

  lemma {:induction false} RunFits(p: Params, n: nat, s: State, acts: seq<Action>)
    requires FitParams(p, n) && Fits(p, n, s) && ValidRun(p, s, acts)
    ensures Fits(p, n, Run(p, s, acts))
    decreases |acts|
  {
    if acts != [] {
      FitsStep(p, n, s, acts[0]);
      RunFits(p, n, Do(p, s, acts[0]), acts[1..]);
    }
  }

  lemma ReachableFits(p: Params, n: nat, threads: nat, s: State)
    requires FitParams(p, n) && Reachable(p, n, threads, s)
    ensures Fits(p, n, s)
  {
    var acts: seq<Action> :| ValidRun(p, Init(n, threads), acts) && Run(p, Init(n, threads), acts) == s;
    NothingCached(Init(n, threads).caches);
    RunFits(p, n, Init(n, threads), acts);
  }

  /** A run that reaches past the end of a cache array when the parameters do not fit. */
  function Overrun(p: Params, n: nat): seq<Action> {
    if p.threshold < Min(p.batch, n) then [Acquire(0)]
    else [Acquire(0), Acquire(0), Release(0, 0), Release(0, 1)]
  }

  lemma OverrunReaches(p: Params, n: nat, threads: nat)
    requires 1 <= n && 1 <= threads && !FitParams(p, n)
    ensures ValidRun(p, Init(n, threads), Overrun(p, n))
    ensures p.threshold < Run(p, Init(n, threads), Overrun(p, n)).high
  {
    var s0 := Init(n, threads);
    if p.threshold < Min(p.batch, n) {
      assert [Acquire(0)][1..] == [];
      assert Run(p, s0, [Acquire(0)]) == Do(p, s0, Acquire(0));
    } else {
      // threshold 1, batch 1, at least two nodes
      var s1 := Do(p, s0, Acquire(0));
      var s2 := Do(p, s1, Acquire(0));
      var s3 := Do(p, s2, Release(0, 0));
      var s4 := Do(p, s3, Release(0, 1));
      assert s1.caches[0] == [] && s1.out == {0} && s1.free[0] == 1;
      assert s2.caches[0] == [] && s2.out == {0, 1};
      assert s3.caches[0] == [0] && s4.high >= 2;
      RunCons(p, s3, Release(0, 1), []);
      RunCons(p, s2, Release(0, 0), [Release(0, 1)]);
      RunCons(p, s1, Acquire(0), [Release(0, 0), Release(0, 1)]);
      RunCons(p, s0, Acquire(0), [Acquire(0), Release(0, 0), Release(0, 1)]);
    }
  }

  lemma RunCons(p: Params, s: State, a: Action, rest: seq<Action>)
    requires Enabled(s, a) && ValidRun(p, Do(p, s, a), rest)
    ensures ValidRun(p, s, [a] + rest) && Run(p, s, [a] + rest) == Run(p, Do(p, s, a), rest)
  {
    assert ([a] + rest)[1..] == rest;
  }

  /** No operation of any run indexes past the cache array, exactly when the parameters fit. */
  lemma FitsIff(p: Params, n: nat, threads: nat)
    requires 1 <= n && 1 <= threads
    ensures (forall s :: Reachable(p, n, threads, s) ==> s.high <= p.threshold) <==> FitParams(p, n)
  {
    if FitParams(p, n) {
      forall s | Reachable(p, n, threads, s) ensures s.high <= p.threshold {
        ReachableFits(p, n, threads, s);
      }
    } else {
      OverrunReaches(p, n, threads);
      assert Reachable(p, n, threads, Run(p, Init(n, threads), Overrun(p, n)));
    }
  }

  /** When the parameters fit, every operation of every run finds room in the caller's cache: what
      `ThreadCachedPool` asks of its callers always holds. */
  lemma RoomInCache(p: Params, n: nat, threads: nat, s: State, a: Action)
    requires FitParams(p, n) && Reachable(p, n, threads, s) && Enabled(s, a)
    ensures a.Acquire? ==> s.caches[a.t] != [] || Min(p.batch, |s.free|) <= p.threshold
    ensures a.Release? ==> |s.caches[a.t]| < p.threshold || 2 <= p.threshold
  {
    ReachableFits(p, n, threads, s);
    OutcomeFits(p, n, s, a);
  }

  /** A cached `acquire` that finds nothing means every node is out or in another thread's
      cache; so with few enough objects out it succeeds. */
  lemma ExhaustionGuarantee(p: Params, n: nat, threads: nat, s: State, t: nat)
    requires 1 <= p.batch && FitParams(p, n) && Reachable(p, n, threads, s) && Enabled(s, Acquire(t))
    ensures OutcomeOf(p, s, Acquire(t)).obj.None? <==> s.caches[t] == [] && CachedCount(s.caches) + |s.out| == n
    ensures |s.out| + (threads - 1) * p.threshold < n ==> OutcomeOf(p, s, Acquire(t)).obj.Some?
  {
    Partition(p, n, threads, s);
    ReachableFits(p, n, threads, s);
    ConservedCount(n, s);
    if s.caches[t] == [] {
      CountAtMost(s.caches, p.threshold, t);
    }
  }

  // ----- amortised locking ---------------------------------------------------------------

  /** The guaranteed distance, in operations of one thread, between its global locks. */
  function Gap(p: Params): int {
    var a := if p.batch < p.threshold / 2 then p.batch else p.threshold / 2;
    var b := p.threshold - p.batch + 2;
    if a < b then a else b
  }

  /** Thread `t` never flushes, and each of its refills gets a full batch. */
  predicate Refilled(p: Params, s: State, a: Action, t: nat)
    requires Enabled(s, a)
  {
    a.t == t ==> !a.Flush? && (a.Acquire? && s.caches[t] == [] ==> p.batch <= |s.free|)
  }

  ghost predicate RefilledRun(p: Params, s: State, acts: seq<Action>, t: nat)
    decreases |acts|
  {
    acts == [] ||
    (Enabled(s, acts[0]) && Refilled(p, s, acts[0], t) && RefilledRun(p, Do(p, s, acts[0]), acts[1..], t))
  }

  /** The cache has drifted at most one entry per operation since the last lock, which left
      `base` entries; and the locks so far are a gap apart. */
  ghost predicate Spaced(p: Params, s: State, t: nat) {
    && t < |s.caches| == |s.ops| == |s.locks| == |s.since|
    && |s.caches[t]| <= p.threshold
    && (s.locks[t] == 0 || (exists base: nat :: Drifted(p, s, t, base)))
    && (s.locks[t] != 0 ==> (s.locks[t] - 1) * Gap(p) + s.since[t] + 1 <= s.ops[t])
  }

  ghost predicate Drifted(p: Params, s: State, t: nat, base: nat)
    requires t < |s.caches| == |s.since|
  {
    && (base == p.batch - 1 || base == p.threshold - p.threshold / 2 + 1)
    && base - s.since[t] <= |s.caches[t]| <= base + s.since[t]
  }

  /** A lock comes no sooner than a gap after the one before. */
  lemma LockIsLate(p: Params, s: State, a: Action)
    requires 1 <= p.batch <= p.threshold && 2 <= p.threshold
    requires Spaced(p, s, a.t) && Enabled(s, a) && Refilled(p, s, a, a.t)
    requires OutcomeOf(p, s, a).locked && s.locks[a.t] != 0
    ensures Gap(p) <= s.since[a.t] + 1
  {
  }

  lemma SpacedStep(p: Params, s: State, a: Action, t: nat)
    requires 1 <= p.batch <= p.threshold && 2 <= p.threshold
    requires Spaced(p, s, t) && Enabled(s, a) && Refilled(p, s, a, t)
    ensures Spaced(p, Do(p, s, a), t)
  {
    var s' := Do(p, s, a);
    if a.t != t {
      if base: nat :| Drifted(p, s, t, base) {
        assert Drifted(p, s', t, base);
      }
    } else if OutcomeOf(p, s, a).locked {
      assert Drifted(p, s', t, |s'.caches[t]|);
      if s.locks[t] != 0 {
        LockIsLate(p, s, a);
        assert s.locks[t] * Gap(p) == (s.locks[t] - 1) * Gap(p) + Gap(p);
      }
    } else if base: nat :| Drifted(p, s, t, base) {
      assert Drifted(p, s', t, base);
    }
  }

  lemma {:induction false} RunSpaced(p: Params, s: State, acts: seq<Action>, t: nat)
    requires 1 <= p.batch <= p.threshold && 2 <= p.threshold
    requires Spaced(p, s, t) && RefilledRun(p, s, acts, t)
    ensures ValidRun(p, s, acts) && Spaced(p, Run(p, s, acts), t)
    decreases |acts|
  {
    if acts != [] {
      SpacedStep(p, s, acts[0], t);
      RunSpaced(p, Do(p, s, acts[0]), acts[1..], t);
    }
  }

  /** A thread that has done `ops` operations has taken the global lock at most
      `1 + (ops - 1) / Gap` times, whatever the other threads did. */
  lemma AmortisedLocking(p: Params, n: nat, threads: nat, acts: seq<Action>, t: nat)
    requires 1 <= p.batch <= p.threshold && 2 <= p.threshold && t < threads
    requires RefilledRun(p, Init(n, threads), acts, t)
    ensures ValidRun(p, Init(n, threads), acts)
    ensures var s := Run(p, Init(n, threads), acts);
            |s.ops| == |s.locks| == threads && (1 <= s.ops[t] ==> (s.locks[t] - 1) * Gap(p) <= s.ops[t] - 1)
    ensures 1 <= Gap(p) && (p == Params(1024, 2048) ==> Gap(p) == 1024)
  {
    RunSpaced(p, Init(n, threads), acts, t);
    RunLengths(p, Init(n, threads), acts);
  }

  lemma {:induction false} RunLengths(p: Params, s: State, acts: seq<Action>)
    requires ValidRun(p, s, acts)
    ensures |Run(p, s, acts).ops| == |s.ops| && |Run(p, s, acts).locks| == |s.locks|
    decreases |acts|
  {
    if acts != [] {
      RunLengths(p, Do(p, s, acts[0]), acts[1..]);
    }
  }
}
