/** The inductive invariant of the multi-producer queue with at least two cells. */
module MpscInvariant {
  import opened Helpers
  import opened Memory
  import opened MpscQueue

  /** `v` never runs ahead of the memory. */
  ghost predicate ViewOk<T>(s: State<T>, v: View) {
    && |v.cell| == |s.cells| && |v.data| == |s.cells|
    && v.head < |s.heads| && v.tail < |s.tails| && v.status < |s.statuses|
    && forall c :: 0 <= c < |s.cells| ==> v.cell[c] < |s.cells[c].marks| && v.data[c] <= s.cells[c].uses
  }

  /** The marks of a cell increase, and seeing one past `pos` implies having seen `_head` pass `pos`. */
  ghost predicate MarksOk<T>(s: State<T>, c: nat)
    requires c < |s.cells|
  {
    var marks := s.cells[c].marks;
    && marks != []
    && (forall i, j :: 0 <= i < j < |marks| ==> marks[i].val < marks[j].val)
    && (forall k :: 0 <= k < |marks| ==> ViewOk(s, marks[k].view))
    && (forall k, pos: nat :: 0 <= k < |marks| && CellOf(pos, |s.cells|) == c && pos < marks[k].val
                              ==> pos < marks[k].view.head)
  }

  /** The state of the cell of position `p`, for the `n` positions from `released` on. */
  ghost predicate CellOk<T>(s: State<T>, p: nat)
    requires s.cells != []
  {
    var c := CellOf(p, |s.cells|);
    var d := s.cells[c];
    && d.marks != [] && c < |Last(d.marks).view.data|
    && match d.owner
       case NoOwner =>
         && Last(d.marks).view.data[c] == d.uses
         && (if p < |s.log| then Last(d.marks).val == p + 1 && d.slot == Live(s.log[p].v)
             else Last(d.marks).val == p && d.slot == Raw)
       case ByProducer(i) =>
         && p < |s.log| && s.log[p].id == i < |s.prods|
         && Last(d.marks).val == p
         && c < |s.prods[i].view.data| && s.prods[i].view.data[c] == d.uses
         && (|| (s.prods[i].pc == Construct(s.log[p].v, p) && d.slot == Raw)
             || (s.prods[i].pc == Publish(s.log[p].v, p) && d.slot == Live(s.log[p].v)))
       case ByConsumer =>
         && p == s.released < |s.log|
         && Last(d.marks).val == p + 1
         && c < |s.cons.view.data| && s.cons.view.data[c] == d.uses
         && (|| (s.cons.pc in [CStoreTail(p), CMoveOut(p), CDestroy(p, s.log[p].v)] && d.slot == Live(s.log[p].v))
             || (s.cons.pc == CRelease(p, s.log[p].v) && d.slot == Raw))
  }

  /** During a call no reservation from the first loaded head on is the caller's own, and every
      retry moved its position up. */
  ghost predicate CallOk<T>(s: State<T>, i: nat, pos: nat)
    requires i < |s.prods|
  {
    var p := s.prods[i];
    && p.first + p.retries <= pos <= p.view.head
    && forall j :: p.first <= j < |s.log| ==> s.log[j].id != i
  }

  ghost predicate ProdOk<T>(s: State<T>, i: nat)
    requires s.cells != [] && i < |s.prods|
  {
    var p := s.prods[i];
    && ViewOk(s, p.view)
    && p.sent == Mine(s.log, i)
    && (forall j :: 0 <= j < |s.log| && s.log[j].id == i ==> j < p.view.head)
    && match p.pc
       case Idle => true
       case LoadHead(v) => true
       case LoadSeq(v, pos) => CallOk(s, i, pos)
       case Cas(v, pos, k) =>
         && CallOk(s, i, pos)
         && var c := CellOf(pos, |s.cells|);
         && k < |s.cells[c].marks| && s.cells[c].marks[k].val == pos
         && c < |s.cells[c].marks[k].view.data|
         && s.cells[c].marks[k].view.data[c] <= p.view.data[c]
       case Reload(v, pos) => CallOk(s, i, pos) && pos < p.view.head
       case Construct(v, pos) => Holds(s, i, pos)
       case Publish(v, pos) => Holds(s, i, pos)
  }

  ghost predicate Holds<T>(s: State<T>, i: nat, pos: nat)
    requires s.cells != [] && i < |s.prods|
  {
    && s.released <= pos < |s.log| && pos < s.prods[i].view.head
    && s.cells[CellOf(pos, |s.cells|)].owner == ByProducer(i)
  }

  ghost predicate ConsOk<T>(s: State<T>)
    requires s.cells != []
  {
    && ViewOk(s, s.cons.view) && s.cons.view.tail == |s.tails| - 1
    && (match s.cons.pc
        case CIdle => s.cons.view.tail == s.released == |s.popped|
        case CLoadSeq(pos) => pos == s.cons.view.tail == s.released == |s.popped|
        case CStoreTail(pos) => pos == s.cons.view.tail == s.released == |s.popped| && Takes(s, pos)
        case CMoveOut(pos) => pos == s.cons.view.tail - 1 == s.released == |s.popped| && Takes(s, pos)
        case CDestroy(pos, x) => pos == s.cons.view.tail - 1 == s.released == |s.popped| - 1 && Takes(s, pos)
        case CRelease(pos, x) => pos == s.cons.view.tail - 1 == s.released == |s.popped| - 1 && Takes(s, pos))
  }

  ghost predicate Takes<T>(s: State<T>, pos: nat)
    requires s.cells != []
  {
    && pos < |s.log| && pos < s.cons.view.head
    && s.cells[CellOf(pos, |s.cells|)].owner == ByConsumer
  }

  ghost predicate Counters<T>(s: State<T>) {
    && |s.heads| == |s.log| + 1 && s.statuses != [] && s.tails != []
    && (forall k :: 0 <= k < |s.heads| ==> s.heads[k] == k)
    && (forall k :: 0 <= k < |s.tails| ==> s.tails[k] == k)
    && s.released <= |s.popped| <= |s.log| <= s.released + |s.cells|
    && (forall j :: 0 <= j < |s.popped| ==> s.popped[j] == s.log[j].v)
  }

  ghost predicate Core<T>(s: State<T>) {
    && 2 <= |s.cells| && Counters(s)
    && (forall c :: 0 <= c < |s.cells| ==> MarksOk(s, c))
    && (forall p :: s.released <= p < s.released + |s.cells| ==> CellOk(s, p))
    && (forall i :: 0 <= i < |s.prods| ==> ProdOk(s, i))
    && ConsOk(s)
  }

  lemma InitCore<T>(n: nat, producers: nat)
    requires 2 <= n
    ensures Core(Init<T>(n, producers))
  {
    var s := Init<T>(n, producers);
    forall c | 0 <= c < n ensures MarksOk(s, c) {
      forall k, pos: nat | 0 <= k < 1 && CellOf(pos, n) == c && pos < s.cells[c].marks[k].val
        ensures false
      {
      }
    }
    forall p | 0 <= p < n ensures CellOk(s, p) {
      assert CellOf(p, n) == p;
    }
  }

  /** A step of producer `i` that only moves the producer, outside its own slot access. */
  lemma ProducerMoves<T>(s: State<T>, i: nat, p: Producer<T>)
    requires Core(s) && i < |s.prods|
    requires !s.prods[i].pc.Construct? && !s.prods[i].pc.Publish?
    requires ProdOk(WithProd(s, i, p), i)
    ensures Core(WithProd(s, i, p))
  {
    var s' := WithProd(s, i, p);
    forall c | 0 <= c < |s.cells| ensures MarksOk(s', c) {
      assert MarksOk(s, c);
      forall k | 0 <= k < |s.cells[c].marks| ensures ViewOk(s', s.cells[c].marks[k].view) {}
    }
    forall q | s.released <= q < s.released + |s.cells| ensures CellOk(s', q) {
      assert CellOk(s, q);
    }
    forall j | 0 <= j < |s.prods| ensures ProdOk(s', j) {
      assert ProdOk(s, j);
    }
  }

  lemma AcquireOk<T>(s: State<T>, v: View, c: nat, k: nat)
    requires s.cells != [] && ViewOk(s, v) && c < |s.cells| && k < |s.cells[c].marks| && MarksOk(s, c)
    ensures ViewOk(s, Acquire(s, v, c, k))
    ensures var w, m := Acquire(s, v, c, k), s.cells[c].marks[k].view;
            w.head == Max(v.head, m.head) && w.tail == Max(v.tail, m.tail)
            && w.data[c] == Max(v.data[c], m.data[c])
  {
    assert ViewOk(s, s.cells[c].marks[k].view);
  }

  lemma BeginStep<T>(s: State<T>, i: nat, v: T, k: nat)
    requires Core(s) && Enabled(s, Begin(i, v, k))
    ensures Core(Do(s, Begin(i, v, k)))
  {
    var s' := Do(s, Begin(i, v, k));
    assert ProdOk(s, i) && ViewOk(s', s'.prods[i].view);
    ProducerMoves(s, i, s'.prods[i]);
  }

  lemma ReadHeadStep<T>(s: State<T>, i: nat, k: nat)
    requires Core(s) && Enabled(s, ReadHead(i, k))
    ensures Core(Do(s, ReadHead(i, k)))
  {
    var s' := Do(s, ReadHead(i, k));
    assert ProdOk(s, i) && ViewOk(s', s'.prods[i].view);
    ProducerMoves(s, i, s'.prods[i]);
  }

  lemma CasFailStep<T>(s: State<T>, i: nat, k: nat)
    requires Core(s) && Enabled(s, CasFail(i, k))
    ensures Core(Do(s, CasFail(i, k)))
  {
    var s' := Do(s, CasFail(i, k));
    assert ProdOk(s, i) && ViewOk(s', s'.prods[i].view);
    ProducerMoves(s, i, s'.prods[i]);
  }

  lemma CheckStep<T>(s: State<T>, i: nat, k: nat)
    requires Core(s) && Enabled(s, CheckStatus(i, k))
    ensures Core(Do(s, CheckStatus(i, k)))
  {
    var s' := Do(s, CheckStatus(i, k));
    assert ProdOk(s, i) && ViewOk(s', s'.prods[i].view);
    ProducerMoves(s, i, s'.prods[i]);
  }

  lemma ReadSeqStep<T>(s: State<T>, i: nat, k: nat)
    requires Core(s) && Enabled(s, ReadSeq(i, k))
    ensures Core(Do(s, ReadSeq(i, k)))
  {
    ReadSeqProd(s, i, k);
    ProducerMoves(s, i, Do(s, ReadSeq(i, k)).prods[i]);
  }

  lemma ReadSeqProd<T>(s: State<T>, i: nat, k: nat)
    requires Core(s) && Enabled(s, ReadSeq(i, k))
    ensures ProdOk(Do(s, ReadSeq(i, k)), i)
  {
    assert ProdOk(s, i);
    ReadSeqView(s, i, k);
    ReadSeqSeen(s, i, k);
  }

  lemma ReadSeqView<T>(s: State<T>, i: nat, k: nat)
    requires Core(s) && Enabled(s, ReadSeq(i, k))
    ensures var s', c := Do(s, ReadSeq(i, k)), CellOf(s.prods[i].pc.pos, |s.cells|);
            && ViewOk(s', s'.prods[i].view)
            && s.prods[i].view.head <= s'.prods[i].view.head
            && s.cells[c].marks[k].view.head <= s'.prods[i].view.head
            && |s.cells[c].marks[k].view.data| == |s.cells|
            && s.cells[c].marks[k].view.data[c] <= s'.prods[i].view.data[c]
  {
    var c := CellOf(s.prods[i].pc.pos, |s.cells|);
    assert ProdOk(s, i) && MarksOk(s, c);
    AcquireOk(s, s.prods[i].view, c, k);
    assert ViewOk(s, s.cells[c].marks[k].view);
  }

  /** A mark above the position shows that the head has moved past it. */
  lemma ReadSeqSeen<T>(s: State<T>, i: nat, k: nat)
    requires Core(s) && Enabled(s, ReadSeq(i, k))
    ensures var pos := s.prods[i].pc.pos;
            var m := s.cells[CellOf(pos, |s.cells|)].marks[k];
            pos < m.val ==> pos < m.view.head
  {
    assert MarksOk(s, CellOf(s.prods[i].pc.pos, |s.cells|));
  }

  /** The memory of `s'` extends that of `s`, so views that were valid stay valid. */
  ghost predicate Extends<T>(s: State<T>, s': State<T>) {
    && |s'.cells| == |s.cells| && |s.heads| <= |s'.heads| && |s.tails| <= |s'.tails|
    && |s.statuses| <= |s'.statuses|
    && forall c :: 0 <= c < |s.cells| ==>
         s.cells[c].marks <= s'.cells[c].marks && s.cells[c].uses <= s'.cells[c].uses
  }

  lemma ViewKept<T>(s: State<T>, s': State<T>, v: View)
    requires Extends(s, s') && ViewOk(s, v)
    ensures ViewOk(s', v)
  {
  }

  lemma MarksKept<T>(s: State<T>, s': State<T>, c: nat)
    requires Extends(s, s') && c < |s.cells| && MarksOk(s, c) && s'.cells[c].marks == s.cells[c].marks
    ensures MarksOk(s', c)
  {
    forall k | 0 <= k < |s.cells[c].marks| ensures ViewOk(s', s.cells[c].marks[k].view) {
      ViewKept(s, s', s.cells[c].marks[k].view);
    }
  }

  lemma MarksPushed<T>(s: State<T>, s': State<T>, c: nat, m: Mark)
    requires Extends(s, s') && c < |s.cells| && MarksOk(s, c)
    requires s'.cells[c].marks == s.cells[c].marks + [m]
    requires Last(s.cells[c].marks).val < m.val && ViewOk(s', m.view)
    requires forall pos: nat :: CellOf(pos, |s.cells|) == c && pos < m.val ==> pos < m.view.head
    ensures MarksOk(s', c)
  {
    var marks := s.cells[c].marks;
    forall k | 0 <= k < |marks| ensures ViewOk(s', marks[k].view) {
      ViewKept(s, s', marks[k].view);
    }
    assert forall i :: 0 <= i < |marks| ==> marks[i].val <= Last(marks).val;
  }

  /** A producer untouched by a step that neither takes its cell nor logs for it. */
  lemma ProdKept<T>(s: State<T>, s': State<T>, i: nat)
    requires s.cells != [] && Extends(s, s') && i < |s.prods| == |s'.prods| && s'.prods[i] == s.prods[i]
    requires ProdOk(s, i)
    requires s.log <= s'.log
    requires forall j :: |s.log| <= j < |s'.log| ==> s'.log[j].id != i
    requires Mine(s'.log, i) == Mine(s.log, i)
    requires s.released <= s'.released
    requires forall pos :: Holds(s, i, pos) ==> s'.released <= pos && s'.cells[CellOf(pos, |s.cells|)].owner == ByProducer(i)
    ensures ProdOk(s', i)
  {
    ViewKept(s, s', s.prods[i].view);
  }

  lemma CasOkStep<T>(s: State<T>, i: nat)
    requires Core(s) && Enabled(s, CasOk(i))
    ensures Core(Do(s, CasOk(i)))
  {
    var s' := Do(s, CasOk(i));
    forall d | 0 <= d < |s.cells| ensures MarksOk(s', d) {
      MarksKept(s, s', d);
    }
    CasFindsFree(s, i);
    CasOkProds(s, i);
    CasOkCells(s, i);
    ViewKept(s, s', s.cons.view);
  }

  lemma CasOkProds<T>(s: State<T>, i: nat)
    requires Core(s) && Enabled(s, CasOk(i))
    ensures var s' := Do(s, CasOk(i));
            Counters(s') && forall j :: 0 <= j < |s'.prods| ==> ProdOk(s', j)
  {
    CasFindsFree(s, i);
    forall j | 0 <= j < |s.prods| ensures ProdOk(Do(s, CasOk(i)), j) {
      if j != i {
        CasOkLoser(s, i, j);
      } else {
        CasOkWinner(s, i);
      }
    }
  }

  lemma CasOkLoser<T>(s: State<T>, i: nat, j: nat)
    requires Core(s) && Enabled(s, CasOk(i)) && j < |s.prods| && j != i
    ensures ProdOk(Do(s, CasOk(i)), j)
  {
    var s' := Do(s, CasOk(i));
    assert ProdOk(s, j);
    CasFindsFree(s, i);
    assert s'.log[..|s'.log| - 1] == s.log;
    ProdKept(s, s', j);
  }

  lemma CasOkWinner<T>(s: State<T>, i: nat)
    requires Core(s) && Enabled(s, CasOk(i))
    ensures ProdOk(Do(s, CasOk(i)), i)
  {
    var s' := Do(s, CasOk(i));
    assert ProdOk(s, i);
    CasFindsFree(s, i);
    assert s'.log[..|s'.log| - 1] == s.log;
    ViewKept(s, s', s.prods[i].view);
    assert ViewOk(s', s'.prods[i].view);
  }

  lemma CasOkCells<T>(s: State<T>, i: nat)
    requires Core(s) && Enabled(s, CasOk(i))
    ensures var s' := Do(s, CasOk(i));
            forall q :: s'.released <= q < s'.released + |s'.cells| ==> CellOk(s', q)
  {
    forall q | s.released <= q < s.released + |s.cells| ensures CellOk(Do(s, CasOk(i)), q) {
      CasOkCell(s, i, q);
    }
  }

  lemma CasOkCell<T>(s: State<T>, i: nat, q: nat)
    requires Core(s) && Enabled(s, CasOk(i)) && s.released <= q < s.released + |s.cells|
    ensures CellOk(Do(s, CasOk(i)), q)
  {
    CasFindsFree(s, i);
    assert CellOk(s, q);
    OneCell(s, s.prods[i].pc.pos, q);
  }

  /** Two different positions of the current window have different cells. */
  lemma {:induction false} OneCell<T>(s: State<T>, p: nat, q: nat)
    requires s.cells != []
    requires s.released <= p < s.released + |s.cells| && s.released <= q < s.released + |s.cells|
    ensures p == q || CellOf(p, |s.cells|) != CellOf(q, |s.cells|)
  {
    if CellOf(p, |s.cells|) == CellOf(q, |s.cells|) {
      if p <= q { SameCell(p, q, |s.cells|); } else { SameCell(q, p, |s.cells|); }
    }
  }

  /** A successful compare-exchange on `_head` reserves a released, untouched cell whose free
      mark the producer has acquired. */
  lemma CasFindsFree<T>(s: State<T>, i: nat)
    requires Core(s) && Enabled(s, CasOk(i))
    ensures var pos := s.prods[i].pc.pos;
            var d := s.cells[CellOf(pos, |s.cells|)];
            && pos == |s.log| < s.released + |s.cells|
            && d.owner == NoOwner && d.slot == Raw
            && |s.prods[i].view.data| == |s.cells|
            && s.prods[i].view.data[CellOf(pos, |s.cells|)] == d.uses
  {
    var n, pos := |s.cells|, s.prods[i].pc.pos;
    var q := PositionOf(s.released, CellOf(pos, n), n);
    CasReadsLast(s, i, q);
    assert CellOk(s, q) && ProdOk(s, i);
  }

  /** The free mark the producer saw is still the newest of its cell, and its position is the one
      of the current window. */
  lemma CasReadsLast<T>(s: State<T>, i: nat, q: nat)
    requires Core(s) && Enabled(s, CasOk(i)) && s.released <= q < s.released + |s.cells|
    requires CellOf(q, |s.cells|) == CellOf(s.prods[i].pc.pos, |s.cells|)
    ensures q == s.prods[i].pc.pos == |s.log|
    ensures s.prods[i].pc.read + 1 == |s.cells[CellOf(q, |s.cells|)].marks|
  {
    var n, pos := |s.cells|, s.prods[i].pc.pos;
    assert ProdOk(s, i) && MarksOk(s, CellOf(pos, n)) && CellOk(s, q);
    if q < pos {
      CellGap(q, pos, n);
    } else if pos < q {
      CellGap(pos, q, n);
    }
  }

  /** A step that changes only the cell a producer holds, and that producer. */
  ghost predicate OwnerStep<T>(s: State<T>, s': State<T>, i: nat, pos: nat)
    requires s.cells != [] && i < |s.prods|
  {
    && Extends(s, s') && Holds(s, i, pos)
    && |s'.prods| == |s.prods|
    && s' == s.(cells := s'.cells, prods := s'.prods)
    && (forall j :: 0 <= j < |s.prods| && j != i ==> s'.prods[j] == s.prods[j])
    && (forall d :: 0 <= d < |s.cells| && d != CellOf(pos, |s.cells|) ==> s'.cells[d] == s.cells[d])
  }

  lemma OwnerStepFrame<T>(s: State<T>, s': State<T>, i: nat, pos: nat)
    requires Core(s) && i < |s.prods| && OwnerStep(s, s', i, pos)
    requires MarksOk(s', CellOf(pos, |s.cells|)) && ProdOk(s', i) && CellOk(s', pos)
    ensures Core(s')
  {
    assert CellOk(s, pos);
    forall d | 0 <= d < |s.cells| ensures MarksOk(s', d) {
      if d != CellOf(pos, |s.cells|) { MarksKept(s, s', d); }
    }
    OwnerStepOthers(s, s', i, pos);
    ViewKept(s, s', s.cons.view);
  }

  lemma OwnerStepOthers<T>(s: State<T>, s': State<T>, i: nat, pos: nat)
    requires Core(s) && i < |s.prods| && OwnerStep(s, s', i, pos)
    requires ProdOk(s', i) && CellOk(s', pos)
    ensures forall j :: 0 <= j < |s.prods| ==> ProdOk(s', j)
    ensures forall q :: s.released <= q < s.released + |s.cells| ==> CellOk(s', q)
  {
    assert CellOk(s, pos);
    forall j | 0 <= j < |s.prods| ensures ProdOk(s', j) {
      assert ProdOk(s, j);
      if j != i {
        ProdKept(s, s', j);
      }
    }
    forall q | s.released <= q < s.released + |s.cells| ensures CellOk(s', q) {
      OwnerStepCell(s, s', i, pos, q);
    }
  }

  lemma OwnerStepCell<T>(s: State<T>, s': State<T>, i: nat, pos: nat, q: nat)
    requires Core(s) && i < |s.prods| && OwnerStep(s, s', i, pos) && CellOk(s', pos)
    requires s.released <= q < s.released + |s.cells|
    ensures CellOk(s', q)
  {
    assert CellOk(s, pos) && CellOk(s, q);
    OneCell(s, pos, q);
    if q != pos {
      assert s'.cells[CellOf(q, |s.cells|)] == s.cells[CellOf(q, |s.cells|)];
    }
  }

  lemma ConstructStep<T>(s: State<T>, i: nat)
    requires Core(s) && Enabled(s, DoConstruct(i))
    ensures Core(Do(s, DoConstruct(i)))
  {
    var s', pos := Do(s, DoConstruct(i)), s.prods[i].pc.pos;
    ConstructOwn(s, i);
    assert MarksOk(s, CellOf(pos, |s.cells|));
    MarksKept(s, s', CellOf(pos, |s.cells|));
    ConstructCell(s, i);
    OwnerStepFrame(s, s', i, pos);
  }

  lemma ConstructOwn<T>(s: State<T>, i: nat)
    requires Core(s) && Enabled(s, DoConstruct(i))
    ensures var s', pos := Do(s, DoConstruct(i)), s.prods[i].pc.pos;
            && OwnerStep(s, s', i, pos) && ProdOk(s', i)
            && s'.cells[CellOf(pos, |s.cells|)].marks == s.cells[CellOf(pos, |s.cells|)].marks
  {
    assert ProdOk(s, i) && CellOk(s, s.prods[i].pc.pos);
    ConstructView(s, i);
  }

  lemma ConstructView<T>(s: State<T>, i: nat)
    requires Core(s) && Enabled(s, DoConstruct(i))
    ensures var s' := Do(s, DoConstruct(i)); Extends(s, s') && ViewOk(s', s'.prods[i].view)
  {
    assert ProdOk(s, i) && CellOk(s, s.prods[i].pc.pos);
    ViewKept(s, Do(s, DoConstruct(i)), s.prods[i].view);
  }

  lemma ConstructCell<T>(s: State<T>, i: nat)
    requires Core(s) && Enabled(s, DoConstruct(i))
    ensures CellOk(Do(s, DoConstruct(i)), s.prods[i].pc.pos)
  {
    assert ProdOk(s, i) && CellOk(s, s.prods[i].pc.pos);
  }

  lemma PublishStep<T>(s: State<T>, i: nat)
    requires Core(s) && Enabled(s, DoPublish(i))
    ensures Core(Do(s, DoPublish(i)))
  {
    PublishOwn(s, i);
    PublishMarks(s, i);
    PublishCell(s, i);
    OwnerStepFrame(s, Do(s, DoPublish(i)), i, s.prods[i].pc.pos);
  }

  lemma PublishOwn<T>(s: State<T>, i: nat)
    requires Core(s) && Enabled(s, DoPublish(i))
    ensures var s' := Do(s, DoPublish(i)); OwnerStep(s, s', i, s.prods[i].pc.pos) && ProdOk(s', i)
  {
    assert ProdOk(s, i) && CellOk(s, s.prods[i].pc.pos);
    PublishView(s, i);
  }

  lemma PublishView<T>(s: State<T>, i: nat)
    requires Core(s) && Enabled(s, DoPublish(i))
    ensures var s' := Do(s, DoPublish(i)); Extends(s, s') && ViewOk(s', s'.prods[i].view)
  {
    var s' := Do(s, DoPublish(i));
    assert ProdOk(s, i);
    ViewKept(s, s', s.prods[i].view);
  }

  lemma PublishMarks<T>(s: State<T>, i: nat)
    requires Core(s) && Enabled(s, DoPublish(i))
    ensures MarksOk(Do(s, DoPublish(i)), CellOf(s.prods[i].pc.pos, |s.cells|))
  {
    var s', pos := Do(s, DoPublish(i)), s.prods[i].pc.pos;
    var c, m := CellOf(pos, |s.cells|), Mark(pos + 1, s'.prods[i].view);
    PublishView(s, i);
    PublishNewer(s, i);
    assert MarksOk(s, c);
    assert s'.cells[c].marks == s.cells[c].marks + [m];
    MarksPushed(s, s', c, m);
  }

  lemma PublishNewer<T>(s: State<T>, i: nat)
    requires Core(s) && Enabled(s, DoPublish(i))
    ensures var pos := s.prods[i].pc.pos;
            var marks := s.cells[CellOf(pos, |s.cells|)].marks;
            marks != [] && Last(marks).val == pos < Do(s, DoPublish(i)).prods[i].view.head
  {
    assert ProdOk(s, i) && CellOk(s, s.prods[i].pc.pos);
  }

  lemma PublishCell<T>(s: State<T>, i: nat)
    requires Core(s) && Enabled(s, DoPublish(i))
    ensures CellOk(Do(s, DoPublish(i)), s.prods[i].pc.pos)
  {
    assert ProdOk(s, i) && CellOk(s, s.prods[i].pc.pos);
  }

  lemma ConsumerLoadStep<T>(s: State<T>, a: Action<T>)
    requires Core(s) && Enabled(s, a) && (a.ReadTail? || a.CheckStatusC? || a.SyncStop?)
    ensures Core(Do(s, a))
  {
    assert CellOk(s, s.released);
    ConsumerMoves(s, Do(s, a));
  }

  lemma SyncStep<T>(s: State<T>, i: nat)
    requires Core(s) && Enabled(s, Sync(i))
    ensures Core(Do(s, Sync(i)))
  {
    assert ProdOk(s, i) && CellOk(s, s.released);
    JoinOk(s, s.cons.view, s.prods[i].view);
    ConsumerMoves(s, Do(s, Sync(i)));
  }

  lemma JoinOk<T>(s: State<T>, v: View, w: View)
    requires ViewOk(s, v) && ViewOk(s, w)
    ensures ViewOk(s, Join(v, w))
  {
  }

  /** A consumer step that touches no slot and changes the owner of at most its own cell. */
  lemma ConsumerMoves<T>(s: State<T>, s': State<T>)
    requires Core(s) && Extends(s, s') && ConsOk(s') && Counters(s')
    requires s'.prods == s.prods && s'.log == s.log && s'.released == s.released
    requires forall c :: 0 <= c < |s.cells| ==> s'.cells[c].marks == s.cells[c].marks
    requires forall c :: 0 <= c < |s.cells| && s'.cells[c] != s.cells[c] ==>
               c == CellOf(s.released, |s.cells|) && !s.cells[c].owner.ByProducer?
    requires CellOk(s', s.released)
    requires s.cells[CellOf(s.released, |s.cells|)].owner == ByConsumer || s.cons.pc.CIdle? || s.cons.pc.CLoadSeq?
    ensures Core(s')
  {
    forall d | 0 <= d < |s.cells| ensures MarksOk(s', d) {
      MarksKept(s, s', d);
    }
    forall j | 0 <= j < |s.prods| ensures ProdOk(s', j) {
      assert ProdOk(s, j);
      ProdKept(s, s', j);
    }
    forall q | s.released <= q < s.released + |s.cells| ensures CellOk(s', q) {
      assert CellOk(s, q);
      OneCell(s, s.released, q);
    }
  }

  lemma ReadMarkStep<T>(s: State<T>, k: nat)
    requires Core(s) && Enabled(s, ReadMark(k))
    ensures Core(Do(s, ReadMark(k)))
  {
    var s' := Do(s, ReadMark(k));
    assert CellOk(s, s.released);
    ReadMarkCons(s, k);
    ConsumerMoves(s, s');
  }

  lemma ReadMarkView<T>(s: State<T>, k: nat)
    requires Core(s) && Enabled(s, ReadMark(k))
    ensures var s', m := Do(s, ReadMark(k)), s.cells[CellOf(s.released, |s.cells|)].marks[k];
            && ViewOk(s', s'.cons.view) && s'.cons.view.tail == s.cons.view.tail
            && m.view.head <= s'.cons.view.head
            && |m.view.data| == |s.cells|
            && m.view.data[CellOf(s.released, |s.cells|)] <= s'.cons.view.data[CellOf(s.released, |s.cells|)]
  {
    var s', c := Do(s, ReadMark(k)), CellOf(s.released, |s.cells|);
    assert MarksOk(s, c) && ViewOk(s, s.cells[c].marks[k].view);
    AcquireOk(s, s.cons.view, c, k);
    ViewKept(s, s', s'.cons.view);
  }

  lemma ReadMarkCons<T>(s: State<T>, k: nat)
    requires Core(s) && Enabled(s, ReadMark(k))
    ensures ConsOk(Do(s, ReadMark(k))) && CellOk(Do(s, ReadMark(k)), s.released)
  {
    assert CellOk(s, s.released);
    ReadMarkView(s, k);
    if s.cells[CellOf(s.released, |s.cells|)].marks[k].val == s.released + 1 {
      PublishedIsLast(s, k);
      ReadMarkHit(s, k);
    }
  }

  lemma PublishedIsLast<T>(s: State<T>, k: nat)
    requires Core(s) && Enabled(s, ReadMark(k))
    requires s.cells[CellOf(s.released, |s.cells|)].marks[k].val == s.released + 1
    ensures var d := s.cells[CellOf(s.released, |s.cells|)];
            && d.marks[k] == Last(d.marks) && d.owner == NoOwner && s.released < |s.log|
            && s.released < d.marks[k].view.head
  {
    var c := CellOf(s.released, |s.cells|);
    assert CellOk(s, s.released) && MarksOk(s, c);
  }

  lemma ReadMarkHit<T>(s: State<T>, k: nat)
    requires Core(s) && Enabled(s, ReadMark(k))
    requires s.cells[CellOf(s.released, |s.cells|)].marks[k].val == s.released + 1
    ensures ConsOk(Do(s, ReadMark(k))) && CellOk(Do(s, ReadMark(k)), s.released)
  {
    assert CellOk(s, s.released);
    ReadMarkView(s, k);
    PublishedIsLast(s, k);
  }

  lemma StoreTailStep<T>(s: State<T>)
    requires Core(s) && Enabled(s, StoreTail)
    ensures Core(Do(s, StoreTail))
  {
    var s' := Do(s, StoreTail);
    assert CellOk(s, s.released);
    ViewKept(s, s', s.cons.view);
    ConsumerMoves(s, s');
  }

  lemma MoveOutStep<T>(s: State<T>)
    requires Core(s) && Enabled(s, MoveOut)
    ensures Core(Do(s, MoveOut))
  {
    MoveOutCons(s);
    ConsumerMoves(s, Do(s, MoveOut));
  }

  lemma MoveOutCons<T>(s: State<T>)
    requires Core(s) && Enabled(s, MoveOut)
    ensures var s' := Do(s, MoveOut); Extends(s, s') && ConsOk(s') && Counters(s') && CellOk(s', s.released)
  {
    assert CellOk(s, s.released);
    MoveOutExtends(s);
    ViewKept(s, Do(s, MoveOut), s.cons.view);
  }

  lemma MoveOutExtends<T>(s: State<T>)
    requires Core(s) && Enabled(s, MoveOut)
    ensures Extends(s, Do(s, MoveOut))
  {
  }

  lemma DestroyStep<T>(s: State<T>)
    requires Core(s) && Enabled(s, Destroy)
    ensures Core(Do(s, Destroy))
  {
    DestroyCons(s);
    ConsumerMoves(s, Do(s, Destroy));
  }

  lemma DestroyCons<T>(s: State<T>)
    requires Core(s) && Enabled(s, Destroy)
    ensures var s' := Do(s, Destroy); Extends(s, s') && ConsOk(s') && Counters(s') && CellOk(s', s.released)
  {
    assert CellOk(s, s.released);
    DestroyExtends(s);
    ViewKept(s, Do(s, Destroy), s.cons.view);
  }

  lemma DestroyExtends<T>(s: State<T>)
    requires Core(s) && Enabled(s, Destroy)
    ensures Extends(s, Do(s, Destroy))
  {
  }

  lemma ReleaseStep<T>(s: State<T>)
    requires Core(s) && Enabled(s, Release)
    ensures Core(Do(s, Release))
  {
    assert CellOk(s, s.cons.pc.pos);
    ReleaseMarks(s);
    ReleaseProds(s);
    ReleaseCells(s);
  }

  lemma ReleaseCells<T>(s: State<T>)
    requires Core(s) && Enabled(s, Release)
    ensures var s' := Do(s, Release);
            forall q :: s'.released <= q < s'.released + |s'.cells| ==> CellOk(s', q)
  {
    var s', pos, n := Do(s, Release), s.cons.pc.pos, |s.cells|;
    forall q | s'.released <= q < s'.released + n ensures CellOk(s', q) {
      if q < pos + n {
        ReleaseKeepsCell(s, q);
      } else {
        ReleaseFreesCell(s);
      }
    }
  }

  lemma ReleaseKeepsCell<T>(s: State<T>, q: nat)
    requires Core(s) && Enabled(s, Release) && s.cons.pc.pos < q < s.cons.pc.pos + |s.cells|
    ensures CellOk(Do(s, Release), q)
  {
    assert CellOk(s, q);
    OneCell(s, s.cons.pc.pos, q);
  }

  lemma ReleaseFreesCell<T>(s: State<T>)
    requires Core(s) && Enabled(s, Release)
    ensures CellOk(Do(s, Release), s.cons.pc.pos + |s.cells|)
  {
    var pos, n := s.cons.pc.pos, |s.cells|;
    assert CellOk(s, pos);
    assert CellOf(pos + n, n) == CellOf(pos, n);
  }

  lemma ReleaseProds<T>(s: State<T>)
    requires Core(s) && Enabled(s, Release)
    ensures var s' := Do(s, Release); forall j :: 0 <= j < |s'.prods| ==> ProdOk(s', j)
  {
    var s' := Do(s, Release);
    forall j | 0 <= j < |s.prods| ensures ProdOk(s', j) {
      assert ProdOk(s, j);
      ProdKept(s, s', j);
    }
  }

  lemma ReleaseMarks<T>(s: State<T>)
    requires Core(s) && Enabled(s, Release)
    ensures var s' := Do(s, Release);
            ViewOk(s', s'.cons.view) && forall d :: 0 <= d < |s'.cells| ==> MarksOk(s', d)
  {
    var s', c := Do(s, Release), CellOf(s.cons.pc.pos, |s.cells|);
    ReleaseView(s);
    forall d | 0 <= d < |s.cells| ensures MarksOk(s', d) {
      if d == c { ReleaseMark(s); } else { MarksKept(s, s', d); }
    }
  }

  lemma ReleaseView<T>(s: State<T>)
    requires Core(s) && Enabled(s, Release)
    ensures var s' := Do(s, Release); Extends(s, s') && ViewOk(s', s'.cons.view)
  {
    assert CellOk(s, s.cons.pc.pos);
    ViewKept(s, Do(s, Release), s.cons.view);
  }

  lemma ReleaseMark<T>(s: State<T>)
    requires Core(s) && Enabled(s, Release)
    ensures MarksOk(Do(s, Release), CellOf(s.cons.pc.pos, |s.cells|))
  {
    var s', pos, n := Do(s, Release), s.cons.pc.pos, |s.cells|;
    var c := CellOf(pos, n);
    var m := Mark(pos + n, s'.cons.view);
    assert CellOk(s, pos) && MarksOk(s, c);
    ReleaseView(s);
    forall q: nat | CellOf(q, n) == c && q < pos + n ensures q < m.view.head {
      if pos < q { SameCell(pos, q, n); }
    }
    assert s'.cells[c].marks == s.cells[c].marks + [m];
    MarksPushed(s, s', c, m);
  }

  lemma StatusStep<T>(s: State<T>, status: Status)
    requires Core(s)
    ensures Core(Do(s, SetStatus(status)))
  {
    var s' := Do(s, SetStatus(status));
    ViewKept(s, s', s.cons.view);
    forall d | 0 <= d < |s.cells| ensures MarksOk(s', d) {
      MarksKept(s, s', d);
    }
    forall j | 0 <= j < |s.prods| ensures ProdOk(s', j) {
      assert ProdOk(s, j);
      ProdKept(s, s', j);
    }
    forall q | s.released <= q < s.released + |s.cells| ensures CellOk(s', q) {
      assert CellOk(s, q);
    }
  }

  /** Every step of every thread keeps the core. */
  lemma StepCore<T>(s: State<T>, a: Action<T>)
    requires Core(s) && Enabled(s, a)
    ensures Core(Do(s, a))
  {
    match a
    case Begin(i, v, k) => BeginStep(s, i, v, k);
    case ReadHead(i, k) => ReadHeadStep(s, i, k);
    case CasFail(i, k) => CasFailStep(s, i, k);
    case ReadSeq(i, k) => ReadSeqStep(s, i, k);
    case CasOk(i) => CasOkStep(s, i);
    case DoConstruct(i) => ConstructStep(s, i);
    case DoPublish(i) => PublishStep(s, i);
    case ReadTail(_) => ConsumerLoadStep(s, a);
    case CheckStatus(i, k) => CheckStep(s, i, k);
    case CheckStatusC(_) => ConsumerLoadStep(s, a);
    case ReadMark(k) => ReadMarkStep(s, k);
    case StoreTail => StoreTailStep(s);
    case MoveOut => MoveOutStep(s);
    case Destroy => DestroyStep(s);
    case Release => ReleaseStep(s);
    case SetStatus(status) => StatusStep(s, status);
    case Sync(i) => SyncStep(s, i);
    case SyncStop => ConsumerLoadStep(s, a);
  }

  // ----- the newest stores to the cells --------------------------------------------------

  ghost predicate Newest<T>(s: State<T>, v: View, c: nat)
    requires c < |s.cells|
  {
    c < |v.cell| && v.cell[c] + 1 == |s.cells[c].marks|
  }

  /** The newest store to the `seq` of cell `c` is known to the consumer or to some producer. */
  ghost predicate Known<T>(s: State<T>, c: nat)
    requires c < |s.cells|
  {
    Newest(s, s.cons.view, c) || exists i: nat :: i < |s.prods| && Newest(s, s.prods[i].view, c)
  }

  ghost predicate Covered<T>(s: State<T>) {
    forall c :: 0 <= c < |s.cells| ==> Known(s, c)
  }

  ghost predicate Inv<T>(s: State<T>) {
    Core(s) && Covered(s)
  }

  /** From two cells on a fresh queue satisfies the invariant. */
  lemma InitInv<T>(n: nat, producers: nat)
    ensures Inv(Init<T>(n, producers)) <==> 2 <= n
  {
    if 2 <= n {
      InitCore<T>(n, producers);
      var s := Init<T>(n, producers);
      forall c | 0 <= c < n ensures Known(s, c) {
        assert Newest(s, s.cons.view, c);
      }
    }
  }

  /** `w` knows every store to a `seq` that `v` knows. */
  ghost predicate Grows(v: View, w: View) {
    |v.cell| <= |w.cell| && forall c :: 0 <= c < |v.cell| ==> v.cell[c] <= w.cell[c]
  }

  /** No thread forgets a store to a `seq`. */
  ghost predicate AllGrow<T>(s: State<T>, s': State<T>) {
    && |s'.prods| == |s.prods| && Grows(s.cons.view, s'.cons.view)
    && forall i :: 0 <= i < |s.prods| ==> Grows(s.prods[i].view, s'.prods[i].view)
  }

  /** A step that stores to no `seq`. */
  ghost predicate NoMark<T>(s: State<T>, s': State<T>) {
    && |s'.cells| == |s.cells| && AllGrow(s, s')
    && forall c :: 0 <= c < |s.cells| ==> s'.cells[c].marks == s.cells[c].marks
  }

  lemma ProducerGrows<T>(s: State<T>, a: Action<T>)
    requires Core(s) && Enabled(s, a)
    requires a.Begin? || a.ReadHead? || a.CasOk? || a.CasFail? || a.DoConstruct? || a.CheckStatus?
    ensures NoMark(s, Do(s, a))
  {
  }

  lemma ReadSeqGrows<T>(s: State<T>, i: nat, k: nat)
    requires Core(s) && Enabled(s, ReadSeq(i, k))
    ensures NoMark(s, Do(s, ReadSeq(i, k)))
  {
  }

  lemma ConsumerGrows<T>(s: State<T>, a: Action<T>)
    requires Core(s) && Enabled(s, a)
    requires a.ReadTail? || a.StoreTail? || a.MoveOut? || a.Destroy? || a.CheckStatusC? || a.SetStatus? || a.Sync? || a.SyncStop?
    ensures NoMark(s, Do(s, a))
  {
  }

  lemma ReadMarkGrows<T>(s: State<T>, k: nat)
    requires Core(s) && Enabled(s, ReadMark(k))
    ensures NoMark(s, Do(s, ReadMark(k)))
  {
  }

  lemma KnownKept<T>(s: State<T>, s': State<T>, c: nat)
    requires Core(s') && AllGrow(s, s') && |s'.cells| == |s.cells| && c < |s.cells|
    requires Known(s, c) && s'.cells[c].marks == s.cells[c].marks
    ensures Known(s', c)
  {
    if Newest(s, s.cons.view, c) {
      assert Newest(s', s'.cons.view, c);
    } else {
      var i: nat :| i < |s.prods| && Newest(s, s.prods[i].view, c);
      assert ProdOk(s', i);
      assert Newest(s', s'.prods[i].view, c);
    }
  }

  lemma AllKept<T>(s: State<T>, s': State<T>)
    requires Core(s') && NoMark(s, s') && Covered(s)
    ensures Covered(s')
  {
    forall c | 0 <= c < |s.cells| ensures Known(s', c) {
      KnownKept(s, s', c);
    }
  }

  /** A thread that stores to a `seq` knows that store. */
  lemma PublishCovered<T>(s: State<T>, i: nat)
    requires Inv(s) && Enabled(s, DoPublish(i)) && Core(Do(s, DoPublish(i)))
    ensures Covered(Do(s, DoPublish(i)))
  {
    var s', c0 := Do(s, DoPublish(i)), CellOf(s.prods[i].pc.pos, |s.cells|);
    assert ProdOk(s, i);
    forall c | 0 <= c < |s.cells| ensures Known(s', c) {
      if c == c0 {
        assert Newest(s', s'.prods[i].view, c);
      } else {
        KnownKept(s, s', c);
      }
    }
  }

  lemma ReleaseCovered<T>(s: State<T>)
    requires Inv(s) && Enabled(s, Release) && Core(Do(s, Release))
    ensures Covered(Do(s, Release))
  {
    var s', c0 := Do(s, Release), CellOf(s.cons.pc.pos, |s.cells|);
    forall c | 0 <= c < |s.cells| ensures Known(s', c) {
      if c == c0 {
        assert Newest(s', s'.cons.view, c);
      } else {
        KnownKept(s, s', c);
      }
    }
  }

  /** Every step of every thread keeps the invariant. */
  lemma StepInv<T>(s: State<T>, a: Action<T>)
    requires Inv(s) && Enabled(s, a)
    ensures Inv(Do(s, a))
  {
    StepCore(s, a);
    StepCovered(s, a);
  }

  lemma StepCovered<T>(s: State<T>, a: Action<T>)
    requires Inv(s) && Enabled(s, a) && Core(Do(s, a))
    ensures Covered(Do(s, a))
  {
    if a.DoPublish? {
      PublishCovered(s, a.i);
    } else if a.Release? {
      ReleaseCovered(s);
    } else {
      OtherGrows(s, a);
      AllKept(s, Do(s, a));
    }
  }

  lemma OtherGrows<T>(s: State<T>, a: Action<T>)
    requires Core(s) && Enabled(s, a) && !a.DoPublish? && !a.Release?
    ensures NoMark(s, Do(s, a))
  {
    if a.ReadSeq? {
      ReadSeqGrows(s, a.i, a.k);
    } else if a.ReadMark? {
      ReadMarkGrows(s, a.k);
    } else if a.Begin? || a.ReadHead? || a.CasOk? || a.CasFail? || a.DoConstruct? || a.CheckStatus? {
      ProducerGrows(s, a);
    } else {
      ConsumerGrows(s, a);
    }
  }

  lemma {:induction false} RunInv<T>(s: State<T>, acts: seq<Action<T>>)
    requires Inv(s) && ValidRun(s, acts)
    ensures Inv(Run(s, acts))
    decreases |acts|
  {
    if acts != [] {
      StepInv(s, acts[0]);
      RunInv(Do(s, acts[0]), acts[1..]);
    }
  }
}
