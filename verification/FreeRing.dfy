/** The circular buffer of free nodes, as a value, with its one-at-a-time operations. */
module FreeRing {
  import opened Helpers
  import opened Memory

  /** Nodes are numbered; `buf` holds node numbers. */
  datatype Ring = Ring(buf: seq<nat>, head: nat, count: nat)

  ghost predicate Wf(r: Ring) {
    r.head < |r.buf| && r.count <= |r.buf|
  }

  /** The free list: what the ring stands for. */
  function Free(r: Ring): (f: seq<nat>)
    requires Wf(r)
    ensures |f| == r.count
  {
    seq(r.count, i requires 0 <= i < r.count => r.buf[CellOf(r.head + i, |r.buf|)])
  }

  /** `acquire`: drop the first free node. */
  function Take(r: Ring): (t: Ring)
    requires Wf(r) && 0 < r.count
  {
    Ring(r.buf, CellOf(r.head + 1, |r.buf|), r.count - 1)
  }

  /** `release`: add a free node at the end. */
  function Give(r: Ring, x: nat): (t: Ring)
    requires Wf(r) && r.count < |r.buf|
  {
    Ring(r.buf[CellOf(r.head + r.count, |r.buf|) := x], r.head, r.count + 1)
  }

  /** `k` single acquires. */
  function TakeN(r: Ring, k: nat): (t: Ring)
    requires Wf(r) && k <= r.count
    ensures Wf(t) && |t.buf| == |r.buf| && t.count == r.count - k
  {
    if k == 0 then r else Take(TakeN(r, k - 1))
  }

  /** Single releases of `xs`, in order. */
  function GiveAll(r: Ring, xs: seq<nat>): (t: Ring)
    requires Wf(r) && r.count + |xs| <= |r.buf|
    ensures Wf(t) && |t.buf| == |r.buf| && t.head == r.head && t.count == r.count + |xs|
  {
    if xs == [] then r else Give(GiveAll(r, xs[..|xs| - 1]), xs[|xs| - 1])
  }

  /** Taking removes the front of the free list and nothing else. */
  lemma TakeFree(r: Ring)
    requires Wf(r) && 0 < r.count
    ensures Wf(Take(r)) && Free(Take(r)) == Free(r)[1..]
    ensures Free(r)[0] == r.buf[r.head]
  {
    assert CellOf(r.head, |r.buf|) == r.head;
    forall i | 0 <= i < r.count - 1 ensures Free(Take(r))[i] == Free(r)[i + 1] {
      CellAdd(r.head + 1, i, |r.buf|);
    }
  }

  /** Giving appends to the free list and overwrites none of it. */
  lemma GiveFree(r: Ring, x: nat)
    requires Wf(r) && r.count < |r.buf|
    ensures Wf(Give(r, x)) && Free(Give(r, x)) == Free(r) + [x]
  {
    var n := |r.buf|;
    forall i | 0 <= i < r.count ensures Free(Give(r, x))[i] == Free(r)[i] {
      if CellOf(r.head + i, n) == CellOf(r.head + r.count, n) {
        SameCell(r.head + i, r.head + r.count, n);
      }
    }
  }

  lemma {:induction false} TakeNFree(r: Ring, k: nat)
    requires Wf(r) && k <= r.count
    ensures Free(TakeN(r, k)) == Free(r)[k..]
    ensures TakeN(r, k) == Ring(r.buf, CellOf(r.head + k, |r.buf|), r.count - k)
  {
    if k != 0 {
      TakeNFree(r, k - 1);
      TakeFree(TakeN(r, k - 1));
      CellAdd(r.head + k - 1, 1, |r.buf|);
    }
  }

  lemma {:induction false} GiveAllFree(r: Ring, xs: seq<nat>)
    requires Wf(r) && r.count + |xs| <= |r.buf|
    ensures Free(GiveAll(r, xs)) == Free(r) + xs
  {
    if xs != [] {
      GiveAllFree(r, xs[..|xs| - 1]);
      GiveFree(GiveAll(r, xs[..|xs| - 1]), xs[|xs| - 1]);
      assert xs == xs[..|xs| - 1] + [xs[|xs| - 1]];
    }
  }

  /** The buffer after copying `xs` to `tail` on, in one or two blocks. */
  ghost predicate Copied(before: seq<nat>, after: seq<nat>, tail: nat, xs: seq<nat>) {
    && |after| == |before| && tail < |before| && |xs| <= |before|
    && (forall j :: 0 <= j < |before| ==>
          after[j] == if tail <= j < tail + |xs| then xs[j - tail]
                     else if j + |before| < tail + |xs| then xs[j + |before| - tail]
                     else before[j])
  }

  lemma OneBlock(before: seq<nat>, tail: nat, xs: seq<nat>)
    requires tail < |before| && tail + |xs| <= |before|
    ensures Copied(before, before[..tail] + xs + before[tail + |xs|..], tail, xs)
  {
  }

  lemma TwoBlocks(before: seq<nat>, mid: seq<nat>, tail: nat, xs: seq<nat>)
    requires tail < |before| < tail + |xs| && |xs| <= |before|
    requires mid == before[..tail] + xs[..|before| - tail]
    ensures Copied(before, xs[|before| - tail..] + mid[|xs| - (|before| - tail)..], tail, xs)
  {
  }

  /** The split copy of `release_batch` is the same as releasing one at a time. */
  lemma {:induction false} CopiedIsGiveAll(r: Ring, xs: seq<nat>)
    requires Wf(r) && r.count + |xs| <= |r.buf|
    ensures Copied(r.buf, GiveAll(r, xs).buf, CellOf(r.head + r.count, |r.buf|), xs)
  {
    var n, tail := |r.buf|, CellOf(r.head + r.count, |r.buf|);
    if xs != [] {
      var init := xs[..|xs| - 1];
      CopiedIsGiveAll(r, init);
      CellAdd(r.head + r.count, |init|, n);
      CopyOneMore(r.buf, GiveAll(r, init).buf, tail, init, xs[|xs| - 1]);
      assert init + [xs[|xs| - 1]] == xs;
    }
  }

  lemma CopyOneMore(before: seq<nat>, after: seq<nat>, tail: nat, xs: seq<nat>, x: nat)
    requires Copied(before, after, tail, xs) && |xs| < |before|
    ensures Copied(before, after[CellOf(tail + |xs|, |before|) := x], tail, xs + [x])
  {
    var n := |before|;
    assert CellOf(tail + |xs|, n) == if tail + |xs| < n then tail + |xs| else tail + |xs| - n;
  }

  lemma CopiedGives(r: Ring, xs: seq<nat>, after: seq<nat>)
    requires Wf(r) && r.count + |xs| <= |r.buf|
    requires Copied(r.buf, after, CellOf(r.head + r.count, |r.buf|), xs)
    ensures Ring(after, r.head, r.count + |xs|) == GiveAll(r, xs)
  {
    CopiedIsGiveAll(r, xs);
    assert after == GiveAll(r, xs).buf;
  }

  /** The front of the free list lies in the buffer as one block, or two. */
  lemma FrontBlocks(r: Ring, k: nat)
    requires Wf(r) && k <= r.count
    ensures var n := |r.buf|;
            Free(r)[..k] == if r.head + k <= n then r.buf[r.head..r.head + k]
                            else r.buf[r.head..] + r.buf[..k - (n - r.head)]
  {
    var n := |r.buf|;
    forall i | 0 <= i < k ensures Free(r)[i] == r.buf[if r.head + i < n then r.head + i else r.head + i - n] {
      assert CellOf(r.head + i, n) == if r.head + i < n then r.head + i else r.head + i - n;
    }
  }

  /** A ring that lists its whole buffer from the start. */
  lemma FullRing(buf: seq<nat>)
    requires buf != []
    ensures Wf(Ring(buf, 0, |buf|)) && Free(Ring(buf, 0, |buf|)) == buf
  {
    FrontBlocks(Ring(buf, 0, |buf|), |buf|);
  }

  /** At most `n` different numbers are below `n`. */
  lemma {:induction false} Pigeonhole(xs: seq<nat>, n: nat)
    requires Distinct(xs) && forall i :: 0 <= i < |xs| ==> xs[i] < n
    ensures |xs| <= n
    decreases n
  {
    if xs != [] {
      assert xs[0] < n;
      if k :| 0 <= k < |xs| && xs[k] == n - 1 {
        Pigeonhole(xs[..k] + xs[k + 1..], n - 1);
      } else {
        Pigeonhole(xs, n - 1);
      }
    }
  }
}
