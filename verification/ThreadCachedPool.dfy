/**
 `ThreadCachedObjectPool` over the real pool: each operation works in place on the calling
 thread's cache array and, when the cache runs empty or full, on the global pool.  The
 contracts say each does what `CachedPool` describes.
 */
module ThreadCachedPool {
  import opened Helpers
  import opened Memory
  import opened Pow2
  import opened FreeRing
  import OP = ObjectPool
  import CP = CachedPool

  class ThreadCache {
    const cache: array<nat>
    var cacheSize: nat

    constructor (threshold: nat)
      ensures cache.Length == threshold && cacheSize == 0 && fresh(cache)
    {
      cache := new nat[threshold](_ => 0);
      cacheSize := 0;
    }

    function Contents(): seq<nat>
      requires cacheSize <= cache.Length
      reads this, cache
    {
      cache[..cacheSize]
    }
  }

  method NewCaches(threshold: nat, threads: nat) returns (cs: seq<ThreadCache>)
    ensures |cs| == threads && fresh(cs)
    ensures forall i :: 0 <= i < threads ==> fresh(cs[i].cache) && cs[i].cache.Length == threshold && cs[i].cacheSize == 0
    ensures forall i, j :: 0 <= i < j < threads ==> cs[i] != cs[j] && cs[i].cache != cs[j].cache
  {
    cs := [];
    for k := 0 to threads
      invariant |cs| == k && fresh(cs)
      invariant forall i :: 0 <= i < k ==> fresh(cs[i].cache) && cs[i].cache.Length == threshold && cs[i].cacheSize == 0
      invariant forall i, j :: 0 <= i < j < k ==> cs[i] != cs[j] && cs[i].cache != cs[j].cache
    {
      var c := new ThreadCache(threshold);
      cs := cs + [c];
    }
  }

  /** Cached objects, and any object that is out, are different live nodes. */
  lemma OutstandingInPool<V>(n: nat, m: CP.State, t: nat, nodes: seq<Slot<V>>)
    requires CP.Conserved(n, m) && CP.LiveOk(n, m) && t < |m.caches|
    requires OP.Consistent(m.free, nodes) && |nodes| == n
    ensures OP.Outstanding(m.caches[t], nodes)
    ensures forall obj :: obj in m.out ==> OP.Outstanding(m.caches[t] + [obj], nodes)
  {
    CP.CacheIsLive(n, m, t);
    forall i | 0 <= i < |m.caches[t]| ensures m.caches[t][i] < n && nodes[m.caches[t][i]].Live? {
      assert m.caches[t][i] in m.live;
    }
    forall obj | obj in m.out ensures OP.Outstanding(m.caches[t] + [obj], nodes) {
      CP.OnePlace(n, m, t, obj);
      assert obj !in m.caches[t];
    }
  }

  /** Node `x` holds a new object `v`, or else the object it held before. */
  ghost predicate HoldsObject<V>(before: seq<Slot<V>>, after: seq<Slot<V>>, x: nat, isNew: bool, v: V) {
    x < |before| == |after| && after[x].Live? && after[x] == if isNew then Live(v) else before[x]
  }

  /** A refill hands out a new object, a cached `acquire` the old one. */
  lemma HandedOver<V>(n: nat, p: CP.Params, m: CP.State, t: nat, before: seq<Slot<V>>, after: seq<Slot<V>>, v: V)
    requires CP.Conserved(n, m) && CP.LiveOk(n, m) && CP.Enabled(m, CP.Acquire(t))
    requires OP.Consistent(m.free, before) && |before| == n
    requires OP.Changed(before, after, CP.OutcomeOf(p, m, CP.Acquire(t)).built, Live(v))
    ensures var obj := CP.OutcomeOf(p, m, CP.Acquire(t)).obj;
            obj.Some? ==> HoldsObject(before, after, obj.value, m.caches[t] == [], v)
  {
    var obj := CP.OutcomeOf(p, m, CP.Acquire(t)).obj;
    if obj.Some? {
      CP.HandedOut(p, n, m, t);
      if m.caches[t] != [] {
        CP.CacheIsLive(n, m, t);
        assert obj.value in m.caches[t];
        assert obj.value !in m.free;
      }
    }
  }

  /** The object is on top of the cache and nothing else has happened. */
  ghost predicate Stacked<V>(m: CP.State, m': CP.State, t: nat, obj: nat, before: seq<Slot<V>>, after: seq<Slot<V>>) {
    && t < |m.caches| == |m'.caches| && m'.caches[t] == m.caches[t] + [obj]
    && m'.free == m.free && m'.locks == m.locks && after == before
  }

  /** All but the first `keep` entries of the cache have gone to the end of the free list, in order
      and destroyed, and the object is on top of the rest. */
  ghost predicate HalfBack<V>(m: CP.State, m': CP.State, t: nat, obj: nat, keep: nat, before: seq<Slot<V>>, after: seq<Slot<V>>) {
    && t < |m.caches| == |m'.caches| && t < |m.locks| == |m'.locks| && keep <= |m.caches[t]|
    && m'.caches[t] == m.caches[t][..keep] + [obj] && m'.free == m.free + m.caches[t][keep..]
    && m'.locks[t] == m.locks[t] + 1
    && OP.Changed(before, after, m.caches[t][keep..], Raw)
  }

  lemma ReleaseEffect<V>(p: CP.Params, m: CP.State, t: nat, obj: nat, before: seq<Slot<V>>, after: seq<Slot<V>>)
    requires CP.Enabled(m, CP.Release(t, obj)) && |m.caches[t]| <= p.threshold
    requires |m.caches[t]| < p.threshold || 2 <= p.threshold
    requires OP.Changed(before, after, CP.OutcomeOf(p, m, CP.Release(t, obj)).wrecked, Raw)
    ensures var m' := CP.Do(p, m, CP.Release(t, obj));
            && CP.OthersSame(m, m', t) && m'.out == m.out - {obj}
            && (|m.caches[t]| < p.threshold ==> Stacked(m, m', t, obj, before, after))
            && (p.threshold <= |m.caches[t]| ==> HalfBack(m, m', t, obj, p.threshold - p.threshold / 2, before, after))
  {
    CP.ReleaseStacks(p, m, t, obj);
    if |m.caches[t]| < p.threshold {
      assert after == before;
    }
  }

  /** `threads` caches, one per thread, over one global pool.  `m` is the state of the machine
      `CachedPool` that this pool is in. */
  class Pool<V> {
    const globalPool: OP.Pool<V>
    const batch: nat
    const threshold: nat
    const caches: seq<ThreadCache>
    ghost var m: CP.State

    ghost function P(): CP.Params {
      CP.Params(batch, threshold)
    }

    ghost function Arrays(): set<array<nat>> {
      set i | 0 <= i < |caches| :: caches[i].cache
    }

    /** No two threads share a cache. */
    ghost predicate Apart() {
      && (forall i, j :: 0 <= i < j < |caches| ==> caches[i] != caches[j] && caches[i].cache != caches[j].cache)
      && (forall i :: 0 <= i < |caches| ==> caches[i].cache != globalPool.available && caches[i].cache.Length == threshold)
    }

    ghost predicate Holds(c: ThreadCache, xs: seq<nat>)
      reads c, c.cache
    {
      c.cacheSize <= threshold == c.cache.Length && c.Contents() == xs
    }

    ghost predicate Valid()
      reads this, globalPool, globalPool.available, globalPool.nodes, caches, Arrays()
    {
      && Apart() && globalPool.Valid()
      && |m.caches| == |m.ops| == |m.locks| == |m.since| == |caches|
      && m.free == Free()
      && (forall i :: 0 <= i < |caches| ==> Holds(caches[i], m.caches[i]))
      && CP.Conserved(globalPool.poolSize, m) && CP.LiveOk(globalPool.poolSize, m)
    }

    function Free(): seq<nat>
      requires Wf(globalPool.R())
      reads globalPool, globalPool.available
    {
      FreeRing.Free(globalPool.R())
    }

    constructor (size: nat, batch: nat, threshold: nat, threads: nat)
      requires size <= Pow(WORD - 1)
      ensures Valid() && m == CP.Init(RoundUpPow2(size), threads)
      ensures this.batch == batch && this.threshold == threshold
      ensures globalPool.poolSize == RoundUpPow2(size)
    {
      globalPool := new OP.Pool(size);
      this.batch := batch;
      this.threshold := threshold;
      var cs := NewCaches(threshold, threads);
      caches := cs;
      new;
      Open(RoundUpPow2(size), threads);
    }

    /** The machine starts with what the arrays hold. */
    ghost method Open(n: nat, threads: nat)
      requires Apart() && globalPool.Valid() && globalPool.poolSize == n && Free() == CP.Nodes(n)
      requires |caches| == threads && forall i :: 0 <= i < threads ==> Holds(caches[i], [])
      modifies this`m
      ensures Valid() && m == CP.Init(n, threads)
    {
      CP.InitConserved(n, threads);
      m := CP.Init(n, threads);
    }

    /** The machine takes the step `a` that the arrays have already taken. */
    ghost method Follow(a: CP.Action)
      requires Apart() && globalPool.Valid()
      requires |m.caches| == |m.ops| == |m.locks| == |m.since| == |caches| && CP.Enabled(m, a)
      requires CP.Conserved(globalPool.poolSize, m) && CP.LiveOk(globalPool.poolSize, m)
      requires Free() == CP.OutcomeOf(P(), m, a).free
      requires forall i :: 0 <= i < |caches| ==>
                 Holds(caches[i], if i == a.t then CP.OutcomeOf(P(), m, a).cache else m.caches[i])
      modifies this`m
      ensures Valid() && m == CP.Do(P(), old(m), a)
    {
      CP.ConservedStep(P(), globalPool.poolSize, m, a);
      CP.LiveStep(P(), globalPool.poolSize, m, a);
      m := CP.Do(P(), m, a);
    }

    /** `acquire` by thread `t`: a step of the machine.  It hands out the newest entry of the cache,
        or of the batch that refills an empty one, whose objects it constructs. */
    method Acquire(t: nat, v: V) returns (obj: Option<nat>)
      requires Valid() && t < |caches|
      requires caches[t].cacheSize != 0 || Min(batch, |m.free|) <= threshold
      modifies this`m, globalPool, globalPool.available, globalPool.nodes, caches[t], caches[t].cache
      ensures Valid() && m == CP.Do(P(), old(m), CP.Acquire(t))
      ensures obj == CP.OutcomeOf(P(), old(m), CP.Acquire(t)).obj
      ensures CP.OthersSame(old(m), m, t)
      ensures old(m.caches[t]) != [] ==>
                && obj.Some? && old(m.caches[t]) == m.caches[t] + [obj.value]
                && m.free == old(m.free) && m.locks[t] == old(m.locks[t])
                && globalPool.nodes[..] == old(globalPool.nodes[..])
      ensures old(m.caches[t]) == [] ==>
                var k := Min(batch, |old(m.free)|);
                && (obj.None? <==> k == 0) && m.free == old(m.free)[k..] && m.locks[t] == old(m.locks[t]) + 1
                && (if obj.None? then m.caches[t] == [] else m.caches[t] + [obj.value] == old(m.free)[..k])
                && OP.Changed(old(globalPool.nodes[..]), globalPool.nodes[..], old(m.free)[..k], Live(v))
      ensures obj.Some? ==>
                HoldsObject(old(globalPool.nodes[..]), globalPool.nodes[..], obj.value, old(caches[t].cacheSize) == 0, v)
    {
      ghost var m0 := m;
      obj := AcquireStep(t, v);
      CP.AcquireTakesNewest(P(), m0, t);
    }

    method AcquireStep(t: nat, v: V) returns (obj: Option<nat>)
      requires Valid() && t < |caches|
      requires caches[t].cacheSize != 0 || Min(batch, |m.free|) <= threshold
      modifies this`m, globalPool, globalPool.available, globalPool.nodes, caches[t], caches[t].cache
      ensures Valid() && m == CP.Do(P(), old(m), CP.Acquire(t))
      ensures obj == CP.OutcomeOf(P(), old(m), CP.Acquire(t)).obj
      ensures obj.Some? ==>
                HoldsObject(old(globalPool.nodes[..]), globalPool.nodes[..], obj.value, old(caches[t].cacheSize) == 0, v)
      ensures OP.Changed(old(globalPool.nodes[..]), globalPool.nodes[..], CP.OutcomeOf(P(), old(m), CP.Acquire(t)).built, Live(v))
    {
      OutstandingInPool(globalPool.poolSize, m, t, globalPool.nodes[..]);
      ghost var nodes, o := globalPool.nodes[..], CP.OutcomeOf(P(), m, CP.Acquire(t));
      obj := AcquireFrom(caches[t], v);
      OP.BuildChanges(nodes, o.built, v);
      HandedOver(globalPool.poolSize, P(), m, t, nodes, globalPool.nodes[..], v);
      Follow(CP.Acquire(t));
    }

    /** `release` by thread `t` of an object that is out, whoever acquired it: a step of the machine.
        The object goes on top of the cache; the upper half of a full one is given back first. */
    method Release(t: nat, obj: nat)
      requires Valid() && t < |caches| && obj in m.out
      requires caches[t].cacheSize < threshold || 2 <= threshold
      modifies this`m, globalPool, globalPool.available, globalPool.nodes, caches[t], caches[t].cache
      ensures Valid() && m == CP.Do(P(), old(m), CP.Release(t, obj))
      ensures CP.OthersSame(old(m), m, t) && m.out == old(m.out) - {obj}
      ensures |old(m.caches[t])| < threshold ==> Stacked(old(m), m, t, obj, old(globalPool.nodes[..]), globalPool.nodes[..])
      ensures threshold <= |old(m.caches[t])| ==>
                HalfBack(old(m), m, t, obj, threshold - threshold / 2, old(globalPool.nodes[..]), globalPool.nodes[..])
    {
      ghost var m0, nodes := m, globalPool.nodes[..];
      ReleaseStep(t, obj);
      ReleaseEffect(P(), m0, t, obj, nodes, globalPool.nodes[..]);
    }

    method ReleaseStep(t: nat, obj: nat)
      requires Valid() && t < |caches| && obj in m.out
      requires caches[t].cacheSize < threshold || 2 <= threshold
      modifies this`m, globalPool, globalPool.available, globalPool.nodes, caches[t], caches[t].cache
      ensures Valid() && m == CP.Do(P(), old(m), CP.Release(t, obj))
      ensures OP.Changed(old(globalPool.nodes[..]), globalPool.nodes[..], CP.OutcomeOf(P(), old(m), CP.Release(t, obj)).wrecked, Raw)
    {
      OutstandingInPool(globalPool.poolSize, m, t, globalPool.nodes[..]);
      ghost var nodes, o := globalPool.nodes[..], CP.OutcomeOf(P(), m, CP.Release(t, obj));
      ReleaseTo(caches[t], obj);
      OP.WreckChanges(nodes, o.wrecked);
      Follow(CP.Release(t, obj));
    }

    /** `flush` by thread `t`: a step of the machine.  All that is cached is destroyed and free. */
    method Flush(t: nat)
      requires Valid() && t < |caches|
      modifies this`m, globalPool, globalPool.available, globalPool.nodes, caches[t]
      ensures Valid() && m == CP.Do(P(), old(m), CP.Flush(t))
      ensures CP.OthersSame(old(m), m, t) && m.out == old(m.out)
      ensures m.caches[t] == [] && m.free == old(m.free) + old(m.caches[t])
      ensures m.locks[t] == old(m.locks[t]) + if old(m.caches[t]) == [] then 0 else 1
      ensures OP.Changed(old(globalPool.nodes[..]), globalPool.nodes[..], old(m.caches[t]), Raw)
    {
      ghost var m0 := m;
      FlushStep(t);
      CP.FlushEmpties(P(), m0, t);
    }

    method FlushStep(t: nat)
      requires Valid() && t < |caches|
      modifies this`m, globalPool, globalPool.available, globalPool.nodes, caches[t]
      ensures Valid() && m == CP.Do(P(), old(m), CP.Flush(t))
      ensures OP.Changed(old(globalPool.nodes[..]), globalPool.nodes[..], CP.OutcomeOf(P(), old(m), CP.Flush(t)).wrecked, Raw)
    {
      OutstandingInPool(globalPool.poolSize, m, t, globalPool.nodes[..]);
      ghost var nodes, o := globalPool.nodes[..], CP.OutcomeOf(P(), m, CP.Flush(t));
      FlushAll(caches[t]);
      OP.WreckChanges(nodes, o.wrecked);
      Follow(CP.Flush(t));
    }

    // ----- on the caller's cache alone ---------------------------------------------------

    /** The cache `c` and the global pool, without the other threads' caches. */
    ghost predicate Ready(c: ThreadCache)
      reads globalPool, globalPool.available, globalPool.nodes, c, c.cache
    {
      && globalPool.Valid() && c.cache != globalPool.available
      && c.cacheSize <= threshold == c.cache.Length
      && OP.Outstanding(c.Contents(), globalPool.nodes[..])
    }

    /** From the cache, refilled first if it is empty. */
    method AcquireFrom(c: ThreadCache, v: V) returns (obj: Option<nat>)
      requires Ready(c) && (c.cacheSize != 0 || Min(batch, |Free()|) <= threshold)
      modifies globalPool, globalPool.available, globalPool.nodes, c, c.cache
      ensures Ready(c)
      ensures var o := CP.AcquireCached(old(Free()), old(c.Contents()), batch);
              && Free() == o.free && c.Contents() == o.cache && obj == o.obj
              && globalPool.nodes[..] == OP.Build(old(globalPool.nodes[..]), o.built, v)
    {
      if c.cacheSize == 0 {
        obj := RefillAndPop(c, v);
      } else {
        obj := PopAny(c);
      }
    }

    method RefillAndPop(c: ThreadCache, v: V) returns (obj: Option<nat>)
      requires Ready(c) && c.cacheSize == 0 && Min(batch, |Free()|) <= threshold
      modifies globalPool, globalPool.available, globalPool.nodes, c, c.cache
      ensures Ready(c)
      ensures var o := CP.AcquireCached(old(Free()), [], batch);
              && Free() == o.free && c.Contents() == o.cache && obj == o.obj
              && globalPool.nodes[..] == OP.Build(old(globalPool.nodes[..]), o.built, v)
    {
      Refill(c, v);
      obj := PopAny(c);
    }

    method PopAny(c: ThreadCache) returns (obj: Option<nat>)
      requires Ready(c)
      modifies c
      ensures Ready(c)
      ensures if old(c.cacheSize) == 0 then obj.None? && c.Contents() == old(c.Contents())
              else obj.Some? && old(c.Contents()) == c.Contents() + [obj.value]
    {
      if c.cacheSize > 0 {
        var x := Pop(c);
        return Some(x);
      }
      return None;
    }

    method Refill(c: ThreadCache, v: V)
      requires Ready(c) && c.cacheSize == 0 && Min(batch, |Free()|) <= threshold
      modifies globalPool, globalPool.available, globalPool.nodes, c, c.cache
      ensures Ready(c)
      ensures var k := Min(batch, |old(Free())|);
              && c.Contents() == old(Free())[..k] && Free() == old(Free())[k..]
              && globalPool.nodes[..] == OP.Build(old(globalPool.nodes[..]), old(Free())[..k], v)
    {
      var acquired := globalPool.AcquireBatch(c.cache, batch, v);
      c.cacheSize := acquired;
    }

    method Pop(c: ThreadCache) returns (x: nat)
      requires Ready(c) && 0 < c.cacheSize
      modifies c
      ensures Ready(c) && old(c.Contents()) == c.Contents() + [x]
    {
      c.cacheSize := c.cacheSize - 1;
      x := c.cache[c.cacheSize];
      ghost var full := c.cache[..c.cacheSize + 1];
      assert full == c.Contents() + [x];
      forall i | 0 <= i < |c.Contents()| ensures c.Contents()[i] == full[i] {}
    }

    /** `_flush_half` */
    method FlushHalf(c: ThreadCache)
      requires Ready(c)
      modifies globalPool, globalPool.available, globalPool.nodes, c
      ensures Ready(c) && c.cacheSize == old(c.cacheSize) - old(c.cacheSize) / 2
      ensures c.Contents() == old(c.Contents())[..c.cacheSize]
      ensures Free() == old(Free()) + old(c.Contents())[c.cacheSize..]
      ensures globalPool.nodes[..] == OP.Wreck(old(globalPool.nodes[..]), old(c.Contents())[c.cacheSize..])
    {
      var half := c.cacheSize / 2;
      ghost var xs, nodes := c.Contents(), globalPool.nodes[..];
      var from := c.cacheSize - half;
      assert c.cache[from..from + half] == xs[from..];
      if half > 0 {
        globalPool.ReleaseBatch(c.cache, from, half);
        c.cacheSize := c.cacheSize - half;
      }
      KeepOutstanding(nodes, xs[..from], xs[from..], xs);
      assert c.Contents() == xs[..from];
    }

    /** Destroying some of a thread's objects leaves its other objects live. */
    static lemma KeepOutstanding(nodes: seq<Slot<V>>, kept: seq<nat>, gone: seq<nat>, xs: seq<nat>)
      requires xs == kept + gone && OP.Outstanding(xs, nodes)
      ensures OP.Outstanding(gone, nodes) && OP.Outstanding(kept, OP.Wreck(nodes, gone))
    {
      forall i | 0 <= i < |gone| ensures gone[i] == xs[|kept| + i] {}
      forall i, j | 0 <= i < j < |kept| ensures kept[i] != kept[j] {
        assert xs[i] == kept[i] && xs[j] == kept[j];
      }
      forall i | 0 <= i < |kept| ensures kept[i] < |nodes| && OP.Wreck(nodes, gone)[kept[i]].Live? {
        assert kept[i] == xs[i];
        OP.WreckAt(nodes, gone, kept[i]);
      }
    }

    /** Into the cache, half of which goes back first if it is full.  The object is not destroyed
        as long as it stays cached. */
    method ReleaseTo(c: ThreadCache, obj: nat)
      requires Ready(c) && (c.cacheSize < threshold || 2 <= threshold)
      requires OP.Outstanding(c.Contents() + [obj], globalPool.nodes[..])
      modifies globalPool, globalPool.available, globalPool.nodes, c, c.cache
      ensures Ready(c)
      ensures var o := CP.ReleaseCached(old(Free()), old(c.Contents()), obj, threshold);
              && Free() == o.free && c.Contents() == o.cache
              && globalPool.nodes[..] == OP.Wreck(old(globalPool.nodes[..]), o.wrecked)
    {
      ghost var xs, nodes := c.Contents(), globalPool.nodes[..];
      if c.cacheSize >= threshold {
        FlushHalf(c);
        assert xs == c.Contents() + xs[c.cacheSize..];
        StillOut(nodes, c.Contents(), xs[c.cacheSize..], obj);
      }
      ghost var kept := c.Contents();
      c.cache[c.cacheSize] := obj;
      c.cacheSize := c.cacheSize + 1;
      assert c.Contents() == kept + [obj];
    }

    static lemma StillOut(nodes: seq<Slot<V>>, kept: seq<nat>, gone: seq<nat>, obj: nat)
      requires OP.Outstanding(kept + gone + [obj], nodes) && OP.Outstanding(gone, nodes)
      ensures OP.Outstanding(kept + [obj], OP.Wreck(nodes, gone))
    {
      var all := kept + gone + [obj];
      forall i | 0 <= i < |kept| + 1
        ensures (kept + [obj])[i] < |nodes| && OP.Wreck(nodes, gone)[(kept + [obj])[i]].Live?
      {
        var x := (kept + [obj])[i];
        var at := if i < |kept| then i else |all| - 1;
        assert all[at] == x;
        forall j | 0 <= j < |gone| ensures gone[j] != x {
          assert all[|kept| + j] == gone[j];
        }
        OP.WreckAt(nodes, gone, x);
      }
      forall i, j | 0 <= i < j < |kept| + 1 ensures (kept + [obj])[i] != (kept + [obj])[j] {
        assert all[i] == (kept + [obj])[i];
        assert all[if j < |kept| then j else |all| - 1] == (kept + [obj])[j];
      }
    }

    /** Everything cached goes back and is destroyed. */
    method FlushAll(c: ThreadCache)
      requires Ready(c)
      modifies globalPool, globalPool.available, globalPool.nodes, c
      ensures Ready(c)
      ensures var o := CP.FlushCached(old(Free()), old(c.Contents()));
              && Free() == o.free && c.Contents() == o.cache
              && globalPool.nodes[..] == OP.Wreck(old(globalPool.nodes[..]), o.wrecked)
    {
      if c.cacheSize > 0 {
        assert c.cache[0..c.cacheSize] == c.Contents();
        globalPool.ReleaseBatch(c.cache, 0, c.cacheSize);
        c.cacheSize := 0;
      }
    }
  }
}
