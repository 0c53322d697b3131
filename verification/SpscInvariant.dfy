/** The inductive invariant of the single-producer queue. */
module SpscInvariant {
  import opened Memory
  import opened SpscQueue

  ghost predicate ViewOk<T>(s: State<T>, v: View) {
    && |v.data| == |s.slots| == |s.uses|
    && v.head < |s.heads| && v.tail < |s.tails| && v.status < |s.statuses|
    && forall c :: 0 <= c < |s.slots| ==> v.data[c] <= s.uses[c]
  }

  ghost predicate Counters<T>(s: State<T>) {
    && s.slots != [] && |s.uses| == |s.slots| && s.statuses != []
    && |s.heads| == |s.log| + 1 && |s.tails| == |s.popped| + 1
    && |s.popped| <= |s.log| < |s.popped| + |s.slots|
    && (forall j :: 0 <= j < |s.popped| ==> s.popped[j] == s.log[j])
    && MarksOk(s, s.heads) && MarksOk(s, s.tails)
  }

  /** The `k`-th store to an index holds position `k`. */
  ghost predicate MarksOk<T>(s: State<T>, marks: seq<Mark>)
    requires s.slots != []
  {
    forall k :: 0 <= k < |marks| ==> marks[k].val == CellOf(k, |s.slots|) && ViewOk(s, marks[k].view)
  }

  /** The consumer has already accessed the slot it is popping. */
  predicate Taking<T>(s: State<T>) {
    s.cons.pc.CDestroy? || s.cons.pc.CStore?
  }

  /** A position that is pushed and not yet popped. */
  ghost predicate ReadyOk<T>(s: State<T>, p: nat)
    requires s.slots != [] && |s.uses| == |s.slots|
    requires |s.prod.view.data| == |s.slots| && |s.cons.view.data| == |s.slots|
    requires forall k :: 0 <= k < |s.heads| ==> |s.heads[k].view.data| == |s.slots|
  {
    var c := CellOf(p, |s.slots|);
    && p < |s.log|
    && s.slots[c] == (if p == |s.popped| && s.cons.pc.CStore? then Raw else Live(s.log[p]))
    && (if p == |s.popped| && Taking(s) then s.cons.view.data[c] == s.uses[c]
        else && s.prod.view.data[c] == s.uses[c]
             && forall k :: p < k < |s.heads| ==> s.heads[k].view.data[c] == s.uses[c])
    && (p == |s.popped| && s.cons.pc.CMoveOut? ==> s.cons.view.data[c] == s.uses[c])
  }

  /** A position the producer may push next, within one ring of the consumer. */
  ghost predicate FreeOk<T>(s: State<T>, p: nat)
    requires s.slots != [] && |s.uses| == |s.slots|
    requires |s.prod.view.data| == |s.slots| && |s.cons.view.data| == |s.slots|
    requires forall k :: 0 <= k < |s.tails| ==> |s.tails[k].view.data| == |s.slots|
  {
    var c := CellOf(p, |s.slots|);
    if p == |s.log| && s.prod.pc.PStore? then
      s.slots[c] == Live(s.prod.pc.v) && s.prod.view.data[c] == s.uses[c]
    else
      && s.slots[c] == Raw && s.cons.view.data[c] == s.uses[c]
      && (forall k :: 0 <= k < |s.tails| && p < k + |s.slots| ==> s.tails[k].view.data[c] == s.uses[c])
      && (p == |s.log| && s.prod.pc.PConstruct? ==> s.prod.view.data[c] == s.uses[c])
  }

  /** However stale the tail it knows, the producer is never a full ring ahead of it. */
  ghost predicate ProdOk<T>(s: State<T>)
    requires s.slots != []
  {
    var h, n := |s.log|, |s.slots|;
    && ViewOk(s, s.prod.view) && s.prod.view.head == h < s.prod.view.tail + n
    && match s.prod.pc
       case PIdle => true
       case PLoadHead(_) => true
       case PLoadTail(_, head) => head == CellOf(h, n)
       case PConstruct(_, head) => head == CellOf(h, n) && h + 1 < s.prod.view.tail + n
       case PStore(_, head) => head == CellOf(h, n) && h + 1 < s.prod.view.tail + n
  }

  ghost predicate ConsOk<T>(s: State<T>)
    requires s.slots != []
  {
    var t, n := |s.popped|, |s.slots|;
    && ViewOk(s, s.cons.view) && s.cons.view.tail == t <= s.cons.view.head
    && match s.cons.pc
       case CIdle => true
       case CLoadHead(tail) => tail == CellOf(t, n)
       case CMoveOut(tail) => tail == CellOf(t, n) && t < s.cons.view.head
       case CDestroy(tail, x) => tail == CellOf(t, n) && t < s.cons.view.head && t < |s.log| && x == s.log[t]
       case CStore(tail, x) => tail == CellOf(t, n) && t < s.cons.view.head && t < |s.log| && x == s.log[t]
  }

  ghost predicate Inv<T>(s: State<T>) {
    && Counters(s) && ProdOk(s) && ConsOk(s)
    && (forall p :: |s.popped| <= p < |s.log| ==> ReadyOk(s, p))
    && (forall p :: |s.log| <= p < |s.popped| + |s.slots| ==> FreeOk(s, p))
  }

  lemma InitInv<T>(n: nat)
    requires 1 <= n
    ensures Inv(Init<T>(n))
  {
  }

  lemma OneCell(lo: nat, p: nat, q: nat, n: nat)
    requires 0 < n && lo <= p < lo + n && lo <= q < lo + n
    ensures p == q || CellOf(p, n) != CellOf(q, n)
  {
    if p < q {
      if CellOf(p, n) == CellOf(q, n) { SameCell(p, q, n); }
    } else {
      if CellOf(p, n) == CellOf(q, n) { SameCell(q, p, n); }
    }
  }

  /** `next == tail` compares positions correctly: it holds exactly a full ring apart. */
  lemma {:induction false} NextMeets(h: nat, k: nat, n: nat)
    requires 0 < n && k <= h < k + n
    ensures Next(CellOf(h, n), n) == CellOf(h + 1, n)
    ensures CellOf(h + 1, n) == CellOf(k, n) <==> h + 1 == k + n
    ensures CellOf(h, n) == CellOf(k, n) <==> h == k
  {
    CellAdd(h, 1, n);
    if h + 1 < k + n {
      OneCell(k, k, h + 1, n);
    } else {
      assert CellOf(k + n, n) == CellOf(k, n);
    }
    OneCell(k, k, h, n);
  }

  /** Steps that touch no slot and publish nothing. */
  lemma LoadStep<T>(s: State<T>, a: Action<T>)
    requires Inv(s) && Enabled(s, a)
    requires a.Begin? || a.ReadOwnHead? || a.ReadOwnTail? || a.CheckStatusP? || a.CheckStatusC? || a.SetStatus? || a.SyncStop?
    ensures Inv(Do(s, a))
  {
    Reframe(s, Do(s, a));
  }

  /** `w` knows at least every access `v` knows all of. */
  ghost predicate Knows<T>(s: State<T>, v: View, w: View) {
    && |v.data| == |w.data| == |s.uses|
    && forall c :: 0 <= c < |s.uses| && v.data[c] == s.uses[c] ==> w.data[c] == s.uses[c]
  }

  lemma JoinOk<T>(s: State<T>, v: View, w: View)
    requires ViewOk(s, v) && ViewOk(s, w)
    ensures ViewOk(s, Join(v, w)) && Knows(s, v, Join(v, w)) && Knows(s, w, Join(v, w))
  {
  }

  /** A step that stores nothing but possibly a status keeps all slot facts as long as no
      thread forgets an access, none finishes working on a slot, and one that starts knows
      every access to it. */
  lemma Reframe<T>(s: State<T>, s': State<T>)
    requires Inv(s) && s'.slots == s.slots && ProdOk(s') && ConsOk(s')
    requires s'.heads == s.heads && s'.tails == s.tails && s'.uses == s.uses
    requires s'.log == s.log && s'.popped == s.popped && s.statuses <= s'.statuses
    requires Knows(s, s.prod.view, s'.prod.view) && Knows(s, s.cons.view, s'.cons.view)
    requires || s'.prod.pc == s.prod.pc
             || (&& !s.prod.pc.PStore? && !s'.prod.pc.PStore?
                 && (s'.prod.pc.PConstruct? ==> s'.prod.view.data[CellOf(|s.log|, |s.slots|)] == s.uses[CellOf(|s.log|, |s.slots|)]))
    requires || s'.cons.pc == s.cons.pc
             || (&& !Taking(s) && !Taking(s')
                 && (s'.cons.pc.CMoveOut? ==> s'.cons.view.data[CellOf(|s.popped|, |s.slots|)] == s.uses[CellOf(|s.popped|, |s.slots|)]))
    ensures Inv(s')
  {
    forall p | |s.popped| <= p < |s.log| ensures ReadyOk(s', p) {
      assert ReadyOk(s, p);
    }
    forall p | |s.log| <= p < |s.popped| + |s.slots| ensures FreeOk(s', p) {
      assert FreeOk(s, p);
    }
  }

  lemma SyncStep<T>(s: State<T>)
    requires Inv(s) && Enabled(s, Sync)
    ensures Inv(Do(s, Sync))
  {
    JoinOk(s, s.cons.view, s.prod.view);
    Reframe(s, Do(s, Sync));
  }

  lemma ReadTailStep<T>(s: State<T>, k: nat)
    requires Inv(s) && Enabled(s, ReadTail(k))
    ensures Inv(Do(s, ReadTail(k)))
  {
    ReadTailProd(s, k);
    ReadTailKnows(s, k);
    Reframe(s, Do(s, ReadTail(k)));
  }

  lemma ReadTailProd<T>(s: State<T>, k: nat)
    requires Inv(s) && Enabled(s, ReadTail(k))
    ensures ProdOk(Do(s, ReadTail(k)))
  {
    NextMeets(|s.log|, k, |s.slots|);
    JoinOk(s, s.prod.view, s.tails[k].view);
  }

  /** A tail load that leaves room makes the producer know every access to the slot it will write. */
  lemma ReadTailKnows<T>(s: State<T>, k: nat)
    requires Inv(s) && Enabled(s, ReadTail(k))
    ensures var s', c := Do(s, ReadTail(k)), CellOf(|s.log|, |s.slots|);
            && Knows(s, s.prod.view, s'.prod.view)
            && (s'.prod.pc.PConstruct? ==> s'.prod.view.data[c] == s.uses[c])
  {
    NextMeets(|s.log|, k, |s.slots|);
    JoinOk(s, s.prod.view, s.tails[k].view);
    assert FreeOk(s, |s.log|);
  }

  lemma ReadHeadStep<T>(s: State<T>, k: nat)
    requires Inv(s) && Enabled(s, ReadHead(k))
    ensures Inv(Do(s, ReadHead(k)))
  {
    ReadHeadCons(s, k);
    ReadHeadKnows(s, k);
    Reframe(s, Do(s, ReadHead(k)));
  }

  lemma ReadHeadCons<T>(s: State<T>, k: nat)
    requires Inv(s) && Enabled(s, ReadHead(k))
    ensures ConsOk(Do(s, ReadHead(k)))
  {
    NextMeets(k, |s.popped|, |s.slots|);
    JoinOk(s, s.cons.view, s.heads[k].view);
  }

  /** A head load that finds something makes the consumer know every access to the slot it will read. */
  lemma ReadHeadKnows<T>(s: State<T>, k: nat)
    requires Inv(s) && Enabled(s, ReadHead(k))
    ensures var s', c := Do(s, ReadHead(k)), CellOf(|s.popped|, |s.slots|);
            && Knows(s, s.cons.view, s'.cons.view)
            && (s'.cons.pc.CMoveOut? ==> s'.cons.view.data[c] == s.uses[c])
  {
    NextMeets(k, |s.popped|, |s.slots|);
    JoinOk(s, s.cons.view, s.heads[k].view);
    if |s.popped| < |s.log| {
      assert ReadyOk(s, |s.popped|);
    }
  }

  lemma ConstructStep<T>(s: State<T>)
    requires Inv(s) && Enabled(s, DoConstruct)
    ensures Inv(Do(s, DoConstruct))
  {
    ConstructThreads(s);
    ConstructReady(s);
    ConstructFree(s);
  }

  lemma ConstructThreads<T>(s: State<T>)
    requires Inv(s) && Enabled(s, DoConstruct)
    ensures var s' := Do(s, DoConstruct); Counters(s') && ProdOk(s') && ConsOk(s')
  {
    var s' := Do(s, DoConstruct);
    assert FreeOk(s, |s.log|);
    forall k | 0 <= k < |s.heads| ensures ViewOk(s', s.heads[k].view) {
      assert ViewOk(s, s.heads[k].view);
    }
    forall k | 0 <= k < |s.tails| ensures ViewOk(s', s.tails[k].view) {
      assert ViewOk(s, s.tails[k].view);
    }
  }

  lemma ConstructReady<T>(s: State<T>)
    requires Inv(s) && Enabled(s, DoConstruct)
    ensures |Do(s, DoConstruct).prod.view.data| == |s.slots|
    ensures forall p :: |s.popped| <= p < |s.log| ==> ReadyOk(Do(s, DoConstruct), p)
  {
    forall p | |s.popped| <= p < |s.log| ensures ReadyOk(Do(s, DoConstruct), p) {
      assert ReadyOk(s, p);
      OneCell(|s.popped|, |s.log|, p, |s.slots|);
    }
  }

  lemma ConstructFree<T>(s: State<T>)
    requires Inv(s) && Enabled(s, DoConstruct)
    ensures |Do(s, DoConstruct).prod.view.data| == |s.slots|
    ensures forall p :: |s.log| <= p < |s.popped| + |s.slots| ==> FreeOk(Do(s, DoConstruct), p)
  {
    assert FreeOk(s, |s.log|);
    forall p | |s.log| <= p < |s.popped| + |s.slots| ensures FreeOk(Do(s, DoConstruct), p) {
      assert FreeOk(s, p);
      OneCell(|s.popped|, |s.log|, p, |s.slots|);
    }
  }

  lemma MoveOutStep<T>(s: State<T>)
    requires Inv(s) && Enabled(s, MoveOut)
    ensures Inv(Do(s, MoveOut))
  {
    MoveOutReady(s);
    MoveOutFree(s);
    MoveOutThreads(s);
  }

  lemma MoveOutThreads<T>(s: State<T>)
    requires Inv(s) && Enabled(s, MoveOut)
    ensures var s' := Do(s, MoveOut); Counters(s') && ProdOk(s') && ConsOk(s')
  {
    assert |s.popped| < |s.log| && ReadyOk(s, |s.popped|);
    forall k | 0 <= k < |s.heads| ensures ViewOk(Do(s, MoveOut), s.heads[k].view) {
      assert ViewOk(s, s.heads[k].view);
    }
    forall k | 0 <= k < |s.tails| ensures ViewOk(Do(s, MoveOut), s.tails[k].view) {
      assert ViewOk(s, s.tails[k].view);
    }
  }

  lemma MoveOutReady<T>(s: State<T>)
    requires Inv(s) && Enabled(s, MoveOut)
    ensures |Do(s, MoveOut).cons.view.data| == |s.slots|
    ensures forall p :: |s.popped| <= p < |s.log| ==> ReadyOk(Do(s, MoveOut), p)
  {
    var s', t := Do(s, MoveOut), |s.popped|;
    assert t < |s.log| && ReadyOk(s, t);
    forall p | t <= p < |s.log| ensures ReadyOk(s', p) {
      assert ReadyOk(s, p);
      OneCell(t, t, p, |s.slots|);
    }
  }

  lemma MoveOutFree<T>(s: State<T>)
    requires Inv(s) && Enabled(s, MoveOut)
    ensures |Do(s, MoveOut).cons.view.data| == |s.slots|
    ensures forall p :: |s.log| <= p < |s.popped| + |s.slots| ==> FreeOk(Do(s, MoveOut), p)
  {
    forall p | |s.log| <= p < |s.popped| + |s.slots| ensures FreeOk(Do(s, MoveOut), p) {
      assert FreeOk(s, p);
      OneCell(|s.popped|, |s.popped|, p, |s.slots|);
    }
  }

  lemma DestroyStep<T>(s: State<T>)
    requires Inv(s) && Enabled(s, Destroy)
    ensures Inv(Do(s, Destroy))
  {
    DestroyReady(s);
    DestroyFree(s);
    DestroyThreads(s);
  }

  lemma DestroyThreads<T>(s: State<T>)
    requires Inv(s) && Enabled(s, Destroy)
    ensures var s' := Do(s, Destroy); Counters(s') && ProdOk(s') && ConsOk(s')
  {
    assert |s.popped| < |s.log| && ReadyOk(s, |s.popped|);
    forall k | 0 <= k < |s.heads| ensures ViewOk(Do(s, Destroy), s.heads[k].view) {
      assert ViewOk(s, s.heads[k].view);
    }
    forall k | 0 <= k < |s.tails| ensures ViewOk(Do(s, Destroy), s.tails[k].view) {
      assert ViewOk(s, s.tails[k].view);
    }
  }

  lemma DestroyReady<T>(s: State<T>)
    requires Inv(s) && Enabled(s, Destroy)
    ensures |Do(s, Destroy).cons.view.data| == |s.slots|
    ensures forall p :: |s.popped| <= p < |s.log| ==> ReadyOk(Do(s, Destroy), p)
  {
    var s', t := Do(s, Destroy), |s.popped|;
    assert t < |s.log| && ReadyOk(s, t);
    forall p | t <= p < |s.log| ensures ReadyOk(s', p) {
      assert ReadyOk(s, p);
      OneCell(t, t, p, |s.slots|);
    }
  }

  lemma DestroyFree<T>(s: State<T>)
    requires Inv(s) && Enabled(s, Destroy)
    ensures |Do(s, Destroy).cons.view.data| == |s.slots|
    ensures forall p :: |s.log| <= p < |s.popped| + |s.slots| ==> FreeOk(Do(s, Destroy), p)
  {
    forall p | |s.log| <= p < |s.popped| + |s.slots| ensures FreeOk(Do(s, Destroy), p) {
      assert FreeOk(s, p);
      OneCell(|s.popped|, |s.popped|, p, |s.slots|);
    }
  }

  lemma StoreHeadStep<T>(s: State<T>)
    requires Inv(s) && Enabled(s, StoreHead)
    ensures Inv(Do(s, StoreHead))
  {
    StoreHeadThreads(s);
    StoreHeadReady(s);
    forall p | |s.log| + 1 <= p < |s.popped| + |s.slots| ensures FreeOk(Do(s, StoreHead), p) {
      assert FreeOk(s, p);
    }
  }

  lemma StoreHeadThreads<T>(s: State<T>)
    requires Inv(s) && Enabled(s, StoreHead)
    ensures var s' := Do(s, StoreHead); Counters(s') && ProdOk(s') && ConsOk(s')
  {
    var s' := Do(s, StoreHead);
    ViewKept(s, s', s.prod.view);
    ViewKept(s, s', s.cons.view);
    StoreHeadMarks(s);
  }

  lemma StoreHeadMarks<T>(s: State<T>)
    requires Inv(s) && Enabled(s, StoreHead)
    ensures var s' := Do(s, StoreHead); MarksOk(s', s'.heads) && MarksOk(s', s'.tails)
  {
    var s' := Do(s, StoreHead);
    MarksKept(s, s', s.heads);
    MarksKept(s, s', s.tails);
    ViewKept(s, s', s.prod.view);
    CellAdd(|s.log|, 1, |s.slots|);
    MarkAdded(s', s.heads, s'.heads[|s.heads|]);
  }

  lemma StoreHeadReady<T>(s: State<T>)
    requires Inv(s) && Enabled(s, StoreHead)
    requires forall k :: 0 <= k < |Do(s, StoreHead).heads| ==> |Do(s, StoreHead).heads[k].view.data| == |s.slots|
    ensures forall p :: |s.popped| <= p < |s.log| + 1 ==> ReadyOk(Do(s, StoreHead), p)
  {
    assert FreeOk(s, |s.log|);
    forall p | |s.popped| <= p < |s.log| + 1 ensures ReadyOk(Do(s, StoreHead), p) {
      if p < |s.log| {
        assert ReadyOk(s, p);
      }
    }
  }

  lemma StoreTailStep<T>(s: State<T>)
    requires Inv(s) && Enabled(s, StoreTail)
    ensures Inv(Do(s, StoreTail))
  {
    StoreTailThreads(s);
    StoreTailReady(s);
    StoreTailFree(s);
  }

  lemma StoreTailThreads<T>(s: State<T>)
    requires Inv(s) && Enabled(s, StoreTail)
    ensures var s' := Do(s, StoreTail); Counters(s') && ProdOk(s') && ConsOk(s')
  {
    var s' := Do(s, StoreTail);
    ViewKept(s, s', s.prod.view);
    ViewKept(s, s', s.cons.view);
    StoreTailMarks(s);
  }

  lemma StoreTailMarks<T>(s: State<T>)
    requires Inv(s) && Enabled(s, StoreTail)
    ensures var s' := Do(s, StoreTail); MarksOk(s', s'.heads) && MarksOk(s', s'.tails)
  {
    var s' := Do(s, StoreTail);
    MarksKept(s, s', s.heads);
    MarksKept(s, s', s.tails);
    ViewKept(s, s', s.cons.view);
    CellAdd(|s.popped|, 1, |s.slots|);
    MarkAdded(s', s.tails, s'.tails[|s.tails|]);
  }

  lemma MarkAdded<T>(s: State<T>, marks: seq<Mark>, m: Mark)
    requires s.slots != [] && MarksOk(s, marks)
    requires m.val == CellOf(|marks|, |s.slots|) && ViewOk(s, m.view)
    ensures MarksOk(s, marks + [m])
  {
    var all := marks + [m];
    forall k | 0 <= k < |all| ensures all[k].val == CellOf(k, |s.slots|) && ViewOk(s, all[k].view) {
      MarkAddedAt(s, marks, m, k, all[k]);
    }
  }

  lemma MarkAddedAt<T>(s: State<T>, marks: seq<Mark>, m: Mark, k: nat, mk: Mark)
    requires s.slots != [] && MarksOk(s, marks) && k <= |marks| && mk == (marks + [m])[k]
    requires m.val == CellOf(|marks|, |s.slots|) && ViewOk(s, m.view)
    ensures mk.val == CellOf(k, |s.slots|) && ViewOk(s, mk.view)
  {
    if k < |marks| {
      assert mk == marks[k];
    } else {
      assert mk == m;
    }
  }

  lemma MarksKept<T>(s: State<T>, s': State<T>, marks: seq<Mark>)
    requires s.slots != [] && MarksOk(s, marks) && |s'.slots| == |s.slots| && s'.uses == s.uses
    requires |s.heads| <= |s'.heads| && |s.tails| <= |s'.tails| && |s.statuses| <= |s'.statuses|
    ensures MarksOk(s', marks)
  {
    forall k | 0 <= k < |marks| ensures ViewOk(s', marks[k].view) {
      ViewKept(s, s', marks[k].view);
    }
  }

  lemma ViewKept<T>(s: State<T>, s': State<T>, v: View)
    requires ViewOk(s, v) && |s'.slots| == |s.slots| && s'.uses == s.uses
    requires |s.heads| <= |s'.heads| && |s.tails| <= |s'.tails| && |s.statuses| <= |s'.statuses|
    ensures ViewOk(s', v)
  {
  }

  lemma StoreTailReady<T>(s: State<T>)
    requires Inv(s) && Enabled(s, StoreTail)
    ensures forall p :: |s.popped| + 1 <= p < |s.log| ==> ReadyOk(Do(s, StoreTail), p)
  {
    forall p | |s.popped| + 1 <= p < |s.log| ensures ReadyOk(Do(s, StoreTail), p) {
      assert ReadyOk(s, p);
    }
  }

  lemma StoreTailFree<T>(s: State<T>)
    requires Inv(s) && Enabled(s, StoreTail)
    requires forall k :: 0 <= k < |Do(s, StoreTail).tails| ==> |Do(s, StoreTail).tails[k].view.data| == |s.slots|
    ensures forall p :: |s.log| <= p < |s.popped| + 1 + |s.slots| ==> FreeOk(Do(s, StoreTail), p)
  {
    var s', t, n := Do(s, StoreTail), |s.popped|, |s.slots|;
    assert ReadyOk(s, t);
    forall p | |s.log| <= p < t + 1 + n ensures FreeOk(s', p) {
      if p < t + n {
        assert FreeOk(s, p);
      } else {
        assert CellOf(p, n) == CellOf(t, n);
      }
    }
  }

  lemma StepInv<T>(s: State<T>, a: Action<T>)
    requires Inv(s) && Enabled(s, a)
    ensures Inv(Do(s, a))
  {
    match a
    case ReadTail(k) => ReadTailStep(s, k);
    case ReadHead(k) => ReadHeadStep(s, k);
    case DoConstruct => ConstructStep(s);
    case MoveOut => MoveOutStep(s);
    case Destroy => DestroyStep(s);
    case StoreHead => StoreHeadStep(s);
    case StoreTail => StoreTailStep(s);
    case Sync => SyncStep(s);
    case _ => LoadStep(s, a);
  }

  lemma {:induction false} RunInv<T>(s: State<T>, acts: seq<Action<T>>)
    requires Inv(s) && ValidRun(s, acts)
    ensures Inv(Run(s, acts))
    decreases |acts|
  {
    if acts != [] {
      StepInv(s, acts[0]);
      RunInv(Do(s, acts[0]), acts[1..]);
    }
  }

  lemma ReachableInv<T(!new)>(n: nat, s: State<T>)
    requires 1 <= n && Reachable(n, s)
    ensures Inv(s)
  {
    var acts: seq<Action<T>> :| ValidRun(Init<T>(n), acts) && Run(Init<T>(n), acts) == s;
    InitInv<T>(n);
    RunInv(Init<T>(n), acts);
  }
}
