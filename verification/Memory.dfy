/**
 The release/acquire memory the queue protocols run on.

 Every atomic location keeps the whole sequence of values ever stored to it (its
 modification order).  A thread's `View` records, per location, the newest store it is
 known to have seen; a load may return that store or any later one.  A release store
 carries the storing thread's view, and an acquire load joins it into the loader's view.
 Payload storage is not atomic: `data[c]` counts the accesses to slot `c` that are ordered
 before the thread's next step, so an access is race free exactly when the thread's count
 equals the number of accesses made so far.
 */
module Memory {
  import opened Helpers

  datatype View = View(head: nat, tail: nat, status: nat, cell: seq<nat>, data: seq<nat>)

  /** One release store, with the view it publishes. */
  datatype Mark = Mark(val: nat, view: View)

  datatype Status = Running | Stopped

  function Zero(n: nat): View {
    View(0, 0, 0, seq(n, _ => 0), seq(n, _ => 0))
  }

  function MaxSeq(a: seq<nat>, b: seq<nat>): seq<nat> {
    seq(|a|, i requires 0 <= i < |a| => if i < |b| then Max(a[i], b[i]) else a[i])
  }

  /** Least upper bound of two views. */
  function Join(v: View, w: View): View {
    View(Max(v.head, w.head), Max(v.tail, w.tail), Max(v.status, w.status),
         MaxSeq(v.cell, w.cell), MaxSeq(v.data, w.data))
  }

  function Put<X>(a: seq<X>, i: nat, x: X): seq<X> {
    if i < |a| then a[i := x] else a
  }

  function SeeCell(v: View, c: nat, k: nat): View {
    v.(cell := if c < |v.cell| then v.cell[c := Max(v.cell[c], k)] else v.cell)
  }

  function SeeData(v: View, c: nat, k: nat): View {
    v.(data := Put(v.data, c, k))
  }

  /** A payload slot: raw storage, or storage holding a constructed object. */
  datatype Slot<T> = Raw | Live(value: T)

  /** The ring cell of position `pos` in a ring of `n` cells: `pos` reduced modulo `n`. */
  function CellOf(pos: nat, n: nat): (c: nat)
    requires 0 < n
    ensures c < n
  {
    if pos < n then pos else CellOf(pos - n, n)
  }

  lemma {:induction false} CellAdd(a: nat, i: nat, n: nat)
    requires 0 < n
    ensures CellOf(CellOf(a, n) + i, n) == CellOf(a + i, n)
  {
    if n <= a {
      CellAdd(a - n, i, n);
      assert CellOf(a + i, n) == CellOf(a - n + i, n);
    }
  }

  /** Two positions less than a ring apart that share a cell are the same position. */
  lemma {:induction false} SameCell(p: nat, q: nat, n: nat)
    requires 0 < n && CellOf(p, n) == CellOf(q, n) && p <= q < p + n
    ensures p == q
  {
    if n <= p {
      SameCell(p - n, q - n, n);
    }
  }

  /** Positions sharing a cell are a whole number of rings apart. */
  lemma CellGap(p: nat, q: nat, n: nat)
    requires 0 < n && CellOf(p, n) == CellOf(q, n) && p < q
    ensures p + n <= q
  {
    if q < p + n {
      SameCell(p, q, n);
    }
  }

  /** Every cell belongs to exactly one position of any window of `n` positions. */
  lemma {:induction false} PositionOf(lo: nat, c: nat, n: nat) returns (p: nat)
    requires c < n
    ensures lo <= p < lo + n && CellOf(p, n) == c
  {
    if lo == 0 {
      p := c;
    } else {
      p := PositionOf(lo - 1, c, n);
      if p == lo - 1 {
        p := p + n;
      }
    }
  }
}
