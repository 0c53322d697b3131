/**
 `ObjectPool`: node storage and a circular buffer of free nodes, with single and batch
 operations.  A pointer to a node is its number.  Each operation is one critical section of
 the pool's mutex; `PoolSections` runs them in small interleaved steps.
 */
module ObjectPool {
  import opened Helpers
  import opened Memory
  import opened Pow2
  import opened FreeRing

  /** Block copy of `n` words. */
  method Memcpy(dst: array<nat>, at: nat, src: array<nat>, from: nat, n: nat)
    requires dst != src && at + n <= dst.Length && from + n <= src.Length
    modifies dst
    ensures dst[..] == old(dst[..at]) + src[from..from + n] + old(dst[at + n..])
  {
    for i := 0 to n
      invariant dst[..at] == old(dst[..at]) && dst[at + n..] == old(dst[at + n..])
      invariant dst[at..at + i] == src[from..from + i]
    {
      dst[at + i] := src[from + i];
    }
    assert dst[..] == dst[..at] + dst[at..at + n] + dst[at + n..];
  }

  method Number(a: array<nat>)
    modifies a
    ensures a[..] == seq(a.Length, i => i)
  {
    for i := 0 to a.Length
      invariant forall j :: 0 <= j < i ==> a[j] == j
    {
      a[i] := i;
    }
  }

  /** The slots after constructing `v` in each of the nodes `xs`. */
  function Build<V>(nodes: seq<Slot<V>>, xs: seq<nat>, v: V): (r: seq<Slot<V>>)
    requires forall i :: 0 <= i < |xs| ==> xs[i] < |nodes|
    ensures |r| == |nodes|
  {
    if xs == [] then nodes else Build(nodes, xs[..|xs| - 1], v)[xs[|xs| - 1] := Live(v)]
  }

  /** The slots after destroying the objects in the nodes `xs`. */
  function Wreck<V>(nodes: seq<Slot<V>>, xs: seq<nat>): (r: seq<Slot<V>>)
    requires forall i :: 0 <= i < |xs| ==> xs[i] < |nodes|
    ensures |r| == |nodes|
  {
    if xs == [] then nodes else Wreck(nodes, xs[..|xs| - 1])[xs[|xs| - 1] := Raw]
  }

  /** From `before` to `after`, exactly the nodes `xs` became `to`. */
  ghost predicate Changed<V>(before: seq<Slot<V>>, after: seq<Slot<V>>, xs: seq<nat>, to: Slot<V>) {
    && |after| == |before|
    && forall x :: 0 <= x < |before| ==> after[x] == if x in xs then to else before[x]
  }

  lemma BuildChanges<V>(nodes: seq<Slot<V>>, xs: seq<nat>, v: V)
    requires forall i :: 0 <= i < |xs| ==> xs[i] < |nodes|
    ensures Changed(nodes, Build(nodes, xs, v), xs, Live(v))
  {
    forall x | 0 <= x < |nodes| ensures Build(nodes, xs, v)[x] == if x in xs then Live(v) else nodes[x] {
      BuildAt(nodes, xs, v, x);
    }
  }

  lemma WreckChanges<V>(nodes: seq<Slot<V>>, xs: seq<nat>)
    requires forall i :: 0 <= i < |xs| ==> xs[i] < |nodes|
    ensures Changed(nodes, Wreck(nodes, xs), xs, Raw)
  {
    forall x | 0 <= x < |nodes| ensures Wreck(nodes, xs)[x] == if x in xs then Raw else nodes[x] {
      WreckAt(nodes, xs, x);
    }
  }

  lemma {:induction false} BuildAt<V>(nodes: seq<Slot<V>>, xs: seq<nat>, v: V, j: nat)
    requires forall i :: 0 <= i < |xs| ==> xs[i] < |nodes|
    requires j < |nodes|
    ensures Build(nodes, xs, v)[j] == if j in xs then Live(v) else nodes[j]
  {
    if xs != [] {
      BuildAt(nodes, xs[..|xs| - 1], v, j);
      assert xs == xs[..|xs| - 1] + [xs[|xs| - 1]];
    }
  }

  lemma {:induction false} WreckAt<V>(nodes: seq<Slot<V>>, xs: seq<nat>, j: nat)
    requires forall i :: 0 <= i < |xs| ==> xs[i] < |nodes|
    requires j < |nodes|
    ensures Wreck(nodes, xs)[j] == if j in xs then Raw else nodes[j]
  {
    if xs != [] {
      WreckAt(nodes, xs[..|xs| - 1], j);
      assert xs == xs[..|xs| - 1] + [xs[|xs| - 1]];
    }
  }

  /** A free list over nodes: no node twice, and a node is raw storage exactly when it is free. */
  ghost predicate Consistent<V>(free: seq<nat>, nodes: seq<Slot<V>>) {
    && Distinct(free)
    && (forall i :: 0 <= i < |free| ==> free[i] < |nodes|)
    && (forall x :: 0 <= x < |nodes| ==> (nodes[x].Raw? <==> x in free))
  }

  /** Objects a caller may hand back: different, live nodes. */
  ghost predicate Outstanding<V>(xs: seq<nat>, nodes: seq<Slot<V>>) {
    && Distinct(xs)
    && (forall i :: 0 <= i < |xs| ==> xs[i] < |nodes| && nodes[xs[i]].Live?)
  }

  lemma ConsistentTake<V>(free: seq<nat>, nodes: seq<Slot<V>>, k: nat, v: V)
    requires Consistent(free, nodes) && k <= |free|
    ensures Consistent(free[k..], Build(nodes, free[..k], v))
    ensures Outstanding(free[..k], Build(nodes, free[..k], v))
  {
    forall x | 0 <= x < |nodes| ensures Build(nodes, free[..k], v)[x] == if x in free[..k] then Live(v) else nodes[x] {
      BuildAt(nodes, free[..k], v, x);
    }
    forall x | x in free ensures x in free[..k] <==> x !in free[k..] {
      var i :| 0 <= i < |free| && free[i] == x;
      if i < k { assert free[..k][i] == x; } else { assert free[k..][i - k] == x; }
    }
    assert free == free[..k] + free[k..];
  }

  /** Handing back outstanding objects keeps the pool consistent, and there is room for them. */
  lemma ConsistentGive<V>(free: seq<nat>, nodes: seq<Slot<V>>, xs: seq<nat>)
    requires Consistent(free, nodes) && Outstanding(xs, nodes)
    ensures Consistent(free + xs, Wreck(nodes, xs))
    ensures |free| + |xs| <= |nodes|
  {
    forall x | 0 <= x < |nodes| ensures Wreck(nodes, xs)[x] == if x in xs then Raw else nodes[x] {
      WreckAt(nodes, xs, x);
    }
    forall i, j | 0 <= i < |free| && 0 <= j < |xs| ensures free[i] != xs[j] {
      assert free[i] in free && nodes[free[i]].Raw?;
    }
    assert Distinct(free + xs);
    Pigeonhole(free + xs, |nodes|);
  }

  lemma AllFree<V>(nodes: seq<Slot<V>>)
    requires forall x :: 0 <= x < |nodes| ==> nodes[x].Raw?
    ensures Consistent(seq(|nodes|, i => i), nodes)
  {
    var free := seq(|nodes|, i => i);
    forall x | 0 <= x < |nodes| ensures x in free {
      assert free[x] == x;
    }
  }

  class Pool<V> {
    const poolSize: nat
    const available: array<nat>
    const nodes: array<Slot<V>>
    var head: nat
    var count: nat

    function R(): Ring
      reads this, available
    {
      Ring(available[..], head, count)
    }

    ghost predicate Valid()
      reads this, available, nodes
    {
      && IsPow2(poolSize) && available.Length == poolSize == nodes.Length
      && Wf(R()) && Consistent(Free(R()), nodes[..])
    }

    constructor (size: nat)
      requires size <= Pow(WORD - 1)
      ensures Valid() && fresh(available) && fresh(nodes)
      ensures poolSize == RoundUpPow2(size)
      ensures Free(R()) == seq(poolSize, i => i)
    {
      var n := RoundUpPow2(size);
      poolSize := n;
      var a := new nat[n];
      Number(a);
      available := a;
      nodes := new Slot<V>[n](_ => Raw);
      head := 0;
      count := n;
      new;
      FullRing(available[..]);
      AllFree(nodes[..]);
    }

    /** `acquire`: the longest-free node, now holding a new object; nothing when none is free. */
    method Acquire(v: V) returns (obj: Option<nat>)
      requires Valid()
      modifies this, available, nodes
      ensures Valid()
      ensures old(count) == 0 ==> obj.None? && R() == old(R()) && nodes[..] == old(nodes[..])
      ensures old(count) != 0 ==>
                && obj == Some(old(Free(R()))[0]) && R() == Take(old(R()))
                && Free(R()) == old(Free(R()))[1..]
                && old(nodes[Free(R())[0]].Raw?)
                && nodes[..] == Build(old(nodes[..]), [obj.value], v)
    {
      if count == 0 {
        return None;
      }
      ConsistentTake(Free(R()), nodes[..], 1, v);
      assert Free(R())[0] in Free(R());
      var x := TakeOne();
      nodes[x] := Live(v);
      return Some(x);
    }

    /** The first free node leaves the ring. */
    method TakeOne() returns (x: nat)
      requires Valid() && 0 < count
      modifies this
      ensures x == old(Free(R()))[0] && Wf(R())
      ensures R() == Take(old(R())) && Free(R()) == old(Free(R()))[1..]
    {
      TakeFree(R());
      MaskIsCell(head + 1, poolSize);
      x := available[head];
      head := And(head + 1, poolSize - 1);
      count := count - 1;
    }

    /** `release`: destroy the object and append its node to the free list. */
    method Release(obj: nat)
      requires Valid() && Outstanding([obj], nodes[..])
      modifies this, available, nodes
      ensures Valid() && old(count) < poolSize && R() == Give(old(R()), obj)
      ensures Free(R()) == old(Free(R())) + [obj]
      ensures nodes[..] == Wreck(old(nodes[..]), [obj])
    {
      ConsistentGive(Free(R()), nodes[..], [obj]);
      assert [obj][0] == obj;
      nodes[obj] := Raw;
      GiveOne(obj);
    }

    /** One node joins the end of the ring. */
    method GiveOne(obj: nat)
      requires available.Length == poolSize && IsPow2(poolSize) && Wf(R()) && count < poolSize
      modifies this, available
      ensures Wf(R()) && R() == Give(old(R()), obj) && Free(R()) == old(Free(R())) + [obj]
    {
      GiveFree(R(), obj);
      MaskIsCell(head + count, poolSize);
      var tail := And(head + count, poolSize - 1);
      available[tail] := obj;
      count := count + 1;
    }

    /** Copies the first `num` free nodes out of the ring, in one block or two. */
    method CopyOut(out: array<nat>, num: nat)
      requires Valid() && num <= count && num <= out.Length && out != available
      modifies out
      ensures out[..num] == Free(R())[..num] && out[num..] == old(out[num..])
    {
      FrontBlocks(R(), num);
      var endPos := head + num;
      if endPos <= poolSize {
        Memcpy(out, 0, available, head, num);
      } else {
        CopyTwo(out, num);
      }
    }

    method CopyTwo(out: array<nat>, num: nat)
      requires available.Length == poolSize && head < poolSize < head + num && num <= poolSize
      requires num <= out.Length && out != available
      modifies out
      ensures out[..num] == available[head..] + available[..num - (poolSize - head)]
      ensures out[num..] == old(out[num..])
    {
      var firstPart := poolSize - head;
      Memcpy(out, 0, available, head, firstPart);
      ghost var mid := out[..];
      assert mid[..firstPart] == available[head..];
      Memcpy(out, firstPart, available, 0, num - firstPart);
      AfterTwo(out[..], mid, available[..num - firstPart], firstPart);
    }

    static lemma AfterTwo(after: seq<nat>, mid: seq<nat>, xs: seq<nat>, at: nat)
      requires at + |xs| <= |mid| && after == mid[..at] + xs + mid[at + |xs|..]
      ensures after[..at + |xs|] == mid[..at] + xs && after[at + |xs|..] == mid[at + |xs|..]
    {
    }

    /** Constructs an object in each of the first `num` nodes of `out`, all of them raw. */
    method ConstructAll(out: array<nat>, num: nat, v: V)
      requires num <= out.Length && Distinct(out[..num])
      requires forall i :: 0 <= i < num ==> out[i] < nodes.Length && nodes[out[i]].Raw?
      modifies nodes
      ensures nodes[..] == Build(old(nodes[..]), out[..num], v)
    {
      ghost var got := out[..num];
      for i := 0 to num
        invariant out[..num] == got
        invariant nodes[..] == Build(old(nodes[..]), got[..i], v)
      {
        assert got[..i + 1][..i] == got[..i] && got[..i + 1][i] == out[i];
        assert nodes[out[i]].Raw? by {
          BuildAt(old(nodes[..]), got[..i], v, got[i]);
        }
        nodes[out[i]] := Live(v);
      }
      assert got[..num] == got;
    }

    /** Destroys the object in each of `num` items, all of them live. */
    method DestroyAll(items: array<nat>, from: nat, num: nat)
      requires from + num <= items.Length && Outstanding(items[from..from + num], nodes[..])
      modifies nodes
      ensures nodes[..] == Wreck(old(nodes[..]), items[from..from + num])
    {
      ghost var xs := items[from..from + num];
      for i := 0 to num
        invariant items[from..from + num] == xs
        invariant nodes[..] == Wreck(old(nodes[..]), xs[..i])
      {
        assert xs[..i + 1][..i] == xs[..i] && xs[..i + 1][i] == items[from + i];
        assert nodes[items[from + i]].Live? by {
          WreckAt(old(nodes[..]), xs[..i], xs[i]);
        }
        nodes[items[from + i]] := Raw;
      }
      assert xs[..num] == xs;
    }

    /** `acquire_batch`: the same as `num` single acquires, where `num` is as many as asked for
        or as there are. */
    method AcquireBatch(out: array<nat>, maxCount: nat, v: V) returns (num: nat)
      requires Valid() && out != available
      requires maxCount <= out.Length || count <= out.Length
      modifies this, available, nodes, out
      ensures Valid() && num == if maxCount < old(count) then maxCount else old(count)
      ensures num <= out.Length && out[num..] == old(out[num..])
      ensures out[..num] == old(Free(R()))[..num]
      ensures R() == TakeN(old(R()), num) && Free(R()) == old(Free(R()))[num..]
      ensures Outstanding(out[..num], nodes[..])
      ensures nodes[..] == Build(old(nodes[..]), out[..num], v)
    {
      num := if maxCount < count then maxCount else count;
      ghost var free := Free(R());
      ConsistentTake(free, nodes[..], num, v);
      if num == 0 {
        TakeNFree(R(), 0);
        return;
      }
      TakeBlock(out, num);
      forall i | 0 <= i < num ensures out[i] < nodes.Length && nodes[out[i]].Raw? {
        assert out[i] == out[..num][i] == free[i];
      }
      ConstructAll(out, num, v);
    }

    /** The first `num` free nodes leave the ring for `out`. */
    method TakeBlock(out: array<nat>, num: nat)
      requires Valid() && num <= count && num <= out.Length && out != available
      modifies this, out
      ensures out[..num] == old(Free(R()))[..num] && out[num..] == old(out[num..])
      ensures Wf(R()) && R() == TakeN(old(R()), num) && Free(R()) == old(Free(R()))[num..]
    {
      TakeNFree(R(), num);
      CopyOut(out, num);
      MaskIsCell(head + num, poolSize);
      head := And(head + num, poolSize - 1);
      count := count - num;
    }

    /** Copies `num` items to the end of the free list, in one block or two. */
    method CopyIn(items: array<nat>, from: nat, num: nat)
      requires available.Length == poolSize && IsPow2(poolSize) && Wf(R()) && items != available
      requires from + num <= items.Length && count + num <= poolSize
      modifies available
      ensures Copied(old(available[..]), available[..], CellOf(head + count, poolSize), items[from..from + num])
    {
      MaskIsCell(head + count, poolSize);
      var tail := And(head + count, poolSize - 1);
      var endPos := tail + num;
      if endPos <= poolSize {
        CopyStraight(items, from, num, tail);
      } else {
        CopyAround(items, from, num, tail);
      }
    }

    method CopyStraight(items: array<nat>, from: nat, num: nat, tail: nat)
      requires items != available && from + num <= items.Length
      requires available.Length == poolSize && tail < poolSize && tail + num <= poolSize
      modifies available
      ensures Copied(old(available[..]), available[..], tail, items[from..from + num])
    {
      Memcpy(available, tail, items, from, num);
      OneBlock(old(available[..]), tail, items[from..from + num]);
      assert available[..] == old(available[..])[..tail] + items[from..from + num] + old(available[..])[tail + num..];
    }

    method CopyAround(items: array<nat>, from: nat, num: nat, tail: nat)
      requires items != available && from + num <= items.Length
      requires available.Length == poolSize && tail < poolSize < tail + num && num <= poolSize
      modifies available
      ensures Copied(old(available[..]), available[..], tail, items[from..from + num])
    {
      ghost var xs := items[from..from + num];
      var firstPart := poolSize - tail;
      Memcpy(available, tail, items, from, firstPart);
      ghost var mid := available[..];
      assert mid == old(available[..])[..tail] + xs[..firstPart];
      Memcpy(available, 0, items, from + firstPart, num - firstPart);
      assert available[..] == xs[firstPart..] + mid[num - firstPart..];
      TwoBlocks(old(available[..]), mid, tail, xs);
    }

    /** `release_batch`: the same as releasing the items one by one. */
    method ReleaseBatch(items: array<nat>, from: nat, num: nat)
      requires Valid() && items != available && from + num <= items.Length
      requires Outstanding(items[from..from + num], nodes[..])
      modifies this, available, nodes
      ensures Valid() && old(count) + num <= poolSize
      ensures R() == GiveAll(old(R()), items[from..from + num])
      ensures Free(R()) == old(Free(R())) + items[from..from + num]
      ensures nodes[..] == Wreck(old(nodes[..]), items[from..from + num])
    {
      ghost var xs := items[from..from + num];
      ConsistentGive(Free(R()), nodes[..], xs);
      if num == 0 {
        return;
      }
      DestroyAll(items, from, num);
      GiveBlock(items, from, num);
    }

    /** `num` items join the end of the ring. */
    method GiveBlock(items: array<nat>, from: nat, num: nat)
      requires available.Length == poolSize && IsPow2(poolSize) && Wf(R()) && items != available
      requires from + num <= items.Length && count + num <= poolSize
      modifies this, available
      ensures Wf(R()) && R() == GiveAll(old(R()), items[from..from + num])
      ensures Free(R()) == old(Free(R())) + items[from..from + num]
    {
      ghost var xs := items[from..from + num];
      GiveAllFree(R(), xs);
      CopyIn(items, from, num);
      CopiedGives(old(R()), xs, available[..]);
      count := count + num;
    }
  }
}
