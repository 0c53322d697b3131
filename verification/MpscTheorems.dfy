/** What the multi-producer queue guarantees over all of its runs. */
module MpscTheorems {
  import opened Helpers
  import opened Memory
  import opened MpscQueue
  import opened MpscInvariant

  // ----- safety --------------------------------------------------------------------------

  /** The position whose slot producer `i` is entitled to write, if any. */
  function Writing<T>(p: Producer<T>): (r: set<nat>) {
    match p.pc
    case Construct(_, pos) => {pos}
    case Publish(_, pos) => {pos}
    case _ => {}
  }

  function Taking<T>(c: Consumer<T>): (r: set<nat>) {
    match c.pc
    case CStoreTail(pos) => {pos}
    case CMoveOut(pos) => {pos}
    case CDestroy(pos, _) => {pos}
    case CRelease(pos, _) => {pos}
    case _ => {}
  }

  /** The access to the slot of `pos` that a thread with view `v` makes next is ordered after
      every earlier access to that slot. */
  ghost predicate Ordered<T>(s: State<T>, v: View, pos: nat)
    requires s.cells != []
  {
    var c := CellOf(pos, |s.cells|);
    c < |v.data| && v.data[c] == s.cells[c].uses
  }

  // ----- what the memory allows ----------------------------------------------------------

  /** A load may return every store that is not older than the newest its thread is bound to see. */
  lemma AnyStoreLoads<T>(s: State<T>, i: nat, k: nat)
    requires s.cells != [] && i < |s.prods|
    ensures s.prods[i].pc.LoadHead? || s.prods[i].pc.Reload? ==>
              (Enabled(s, ReadHead(i, k)) <==> s.prods[i].view.head <= k < |s.heads|)
    ensures s.prods[i].pc.LoadSeq? ==>
              var c := CellOf(s.prods[i].pc.pos, |s.cells|);
              Enabled(s, ReadSeq(i, k)) <==> c < |s.prods[i].view.cell| && s.prods[i].view.cell[c] <= k < |s.cells[c].marks|
    ensures s.prods[i].pc.Idle? ==>
              (Enabled(s, CheckStatus(i, k)) <==> s.prods[i].view.status <= k < |s.statuses|)
    ensures s.prods[i].pc.Cas? ==>
              && (Enabled(s, CasFail(i, k)) <==> s.prods[i].view.head <= k < |s.heads|)
              && (Enabled(s, CasOk(i)) <==> s.heads != [] && Last(s.heads) == s.prods[i].pc.pos)
    ensures s.cons.pc.CLoadSeq? ==>
              var c := CellOf(s.cons.pc.pos, |s.cells|);
              Enabled(s, ReadMark(k)) <==> c < |s.cons.view.cell| && s.cons.view.cell[c] <= k < |s.cells[c].marks|
  {
  }

  /** The accesses to `_head`, `_tail` and the status, all of them relaxed or counted as such, tell a
      thread nothing about the cells: only an acquire of a `seq` does, or a join. */
  lemma RelaxedTellNothing<T>(s: State<T>, a: Action<T>)
    requires Enabled(s, a)
    ensures a.Begin? || a.ReadHead? || a.CasOk? || a.CasFail? || a.CheckStatus? ==>
              && Do(s, a).prods[a.i].view.cell == s.prods[a.i].view.cell
              && Do(s, a).prods[a.i].view.data == s.prods[a.i].view.data
    ensures a.ReadTail? || a.StoreTail? || a.CheckStatusC? || a.SetStatus? ==>
              && Do(s, a).cons.view.cell == s.cons.view.cell && Do(s, a).cons.view.data == s.cons.view.data
  {
  }

  /** The step constructs, moves out or destroys in the slot of cell `c`. */
  predicate Touches<T>(s: State<T>, a: Action<T>, c: nat)
    requires Enabled(s, a)
  {
    match a
    case DoConstruct(i) => c == CellOf(s.prods[i].pc.pos, |s.cells|)
    case MoveOut => c == CellOf(s.cons.pc.pos, |s.cells|)
    case Destroy => c == CellOf(s.cons.pc.pos, |s.cells|)
    case _ => false
  }

  /** Every access to a slot counts, once, and nothing else does; only they change the slot. */
  lemma AccessesCounted<T>(s: State<T>, a: Action<T>, c: nat)
    requires Enabled(s, a) && c < |s.cells|
    ensures |Do(s, a).cells| == |s.cells|
    ensures Do(s, a).cells[c].uses == s.cells[c].uses + if Touches(s, a, c) then 1 else 0
    ensures !Touches(s, a, c) ==> Do(s, a).cells[c].slot == s.cells[c].slot
  {
  }

  /** Values come out exactly in reservation order. */
  ghost predicate InOrder<T>(s: State<T>) {
    |s.popped| <= |s.log| && forall j :: 0 <= j < |s.popped| ==> s.popped[j] == s.log[j].v
  }

  ghost predicate Bounded<T>(s: State<T>) {
    && s.heads != [] && s.tails != []
    && Last(s.heads) == |s.log| && Last(s.tails) <= Last(s.heads) <= Last(s.tails) + |s.cells|
  }

  /** Every slot access is race free and finds the slot in the right lifetime state. */
  ghost predicate Accesses<T>(s: State<T>) {
    && s.cells != []
    && (forall i :: 0 <= i < |s.prods| && s.prods[i].pc.Construct? ==>
          && Ordered(s, s.prods[i].view, s.prods[i].pc.pos)
          && s.cells[CellOf(s.prods[i].pc.pos, |s.cells|)].slot == Raw)
    && (s.cons.pc.CMoveOut? ==>
          && Ordered(s, s.cons.view, s.cons.pc.pos) && s.cons.pc.pos < |s.log|
          && s.cells[CellOf(s.cons.pc.pos, |s.cells|)].slot == Live(s.log[s.cons.pc.pos].v))
    && (s.cons.pc.CDestroy? ==>
          && Ordered(s, s.cons.view, s.cons.pc.pos)
          && s.cells[CellOf(s.cons.pc.pos, |s.cells|)].slot.Live?)
  }

  ghost predicate Apart(ps: set<nat>, qs: set<nat>, n: nat)
    requires 0 < n
  {
    forall p, q :: p in ps && q in qs ==> CellOf(p, n) != CellOf(q, n)
  }

  /** No two threads work on one cell. */
  ghost predicate Exclusive<T>(s: State<T>) {
    && s.cells != []
    && (forall i, j :: 0 <= i < j < |s.prods| ==> Apart(Writing(s.prods[i]), Writing(s.prods[j]), |s.cells|))
    && (forall i :: 0 <= i < |s.prods| ==> Apart(Writing(s.prods[i]), Taking(s.cons), |s.cells|))
  }

  ghost predicate Safe<T>(s: State<T>) {
    InOrder(s) && Bounded(s) && Accesses(s) && Exclusive(s)
  }

  lemma HolderOwns<T>(s: State<T>, i: nat, p: nat)
    requires Inv(s) && i < |s.prods| && p in Writing(s.prods[i])
    ensures s.released <= p < s.released + |s.cells| && CellOk(s, p)
    ensures s.cells[CellOf(p, |s.cells|)].owner == ByProducer(i)
  {
    assert ProdOk(s, i);
  }

  lemma InvAccess<T>(s: State<T>)
    requires Inv(s)
    ensures Accesses(s)
  {
    forall i | 0 <= i < |s.prods| && s.prods[i].pc.Construct?
      ensures CellOk(s, s.prods[i].pc.pos)
      ensures s.cells[CellOf(s.prods[i].pc.pos, |s.cells|)].owner == ByProducer(i)
    {
      HolderOwns(s, i, s.prods[i].pc.pos);
    }
    assert CellOk(s, s.released);
  }

  /** Cells with different owners are different. */
  lemma OwnersApart<T>(s: State<T>, ps: set<nat>, qs: set<nat>, a: Owner, b: Owner)
    requires s.cells != [] && a != b
    requires forall p :: p in ps ==> s.cells[CellOf(p, |s.cells|)].owner == a
    requires forall q :: q in qs ==> s.cells[CellOf(q, |s.cells|)].owner == b
    ensures Apart(ps, qs, |s.cells|)
  {
  }

  lemma WriterOwns<T>(s: State<T>, i: nat)
    requires Inv(s) && i < |s.prods|
    ensures forall p :: p in Writing(s.prods[i]) ==> s.cells[CellOf(p, |s.cells|)].owner == ByProducer(i)
  {
    forall p | p in Writing(s.prods[i]) ensures s.cells[CellOf(p, |s.cells|)].owner == ByProducer(i) {
      HolderOwns(s, i, p);
    }
  }

  lemma InvExclusive<T>(s: State<T>)
    requires Inv(s)
    ensures Exclusive(s)
  {
    forall i, j | 0 <= i < j < |s.prods| ensures Apart(Writing(s.prods[i]), Writing(s.prods[j]), |s.cells|) {
      WriterOwns(s, i);
      WriterOwns(s, j);
      OwnersApart(s, Writing(s.prods[i]), Writing(s.prods[j]), ByProducer(i), ByProducer(j));
    }
    forall i | 0 <= i < |s.prods| ensures Apart(Writing(s.prods[i]), Taking(s.cons), |s.cells|) {
      WriterOwns(s, i);
      OwnersApart(s, Writing(s.prods[i]), Taking(s.cons), ByProducer(i), ByConsumer);
    }
  }

  lemma InvSafe<T>(s: State<T>)
    requires Inv(s)
    ensures Safe(s)
  {
    InvAccess(s);
    InvExclusive(s);
  }

  lemma ReachableInv<T(!new)>(n: nat, producers: nat, s: State<T>)
    requires 2 <= n && Reachable(n, producers, s)
    ensures Inv(s)
  {
    var acts: seq<Action<T>> :| ValidRun(Init<T>(n, producers), acts) && Run(Init<T>(n, producers), acts) == s;
    InitInv<T>(n, producers);
    RunInv(Init<T>(n, producers), acts);
  }

  lemma {:induction false} RunSnoc<T>(s: State<T>, acts: seq<Action<T>>, a: Action<T>)
    requires ValidRun(s, acts) && Enabled(Run(s, acts), a)
    ensures ValidRun(s, acts + [a]) && Run(s, acts + [a]) == Do(Run(s, acts), a)
    decreases |acts|
  {
    if acts == [] {
      assert acts + [a] == [a];
    } else {
      RunSnoc(Do(s, acts[0]), acts[1..], a);
      assert (acts + [a])[1..] == acts[1..] + [a];
    }
  }

  lemma ReachSnoc<T(!new)>(n: nat, producers: nat, s: State<T>, a: Action<T>)
    requires Reachable(n, producers, s) && Enabled(s, a)
    ensures Reachable(n, producers, Do(s, a))
  {
    var acts: seq<Action<T>> :| ValidRun(Init<T>(n, producers), acts) && Run(Init<T>(n, producers), acts) == s;
    RunSnoc(Init<T>(n, producers), acts, a);
  }

  lemma ReachInit<T(!new)>(n: nat, producers: nat)
    ensures Reachable(n, producers, Init<T>(n, producers))
  {
    assert ValidRun(Init<T>(n, producers), []);
  }

  /** Two pushes by one producer through a one-cell queue: the second sees the publication of
      the first (`pos + 1`) as a free mark (`pos + _size`) and is about to construct over it. */
  lemma OneCellOverwrites<T(!new)>(producers: nat, v: T) returns (s: State<T>)
    requires 1 <= producers
    ensures Reachable(1, producers, s) && !Safe(s)
    ensures |s.cells| == 1 && s.prods != []
    ensures s.prods[0].pc == Construct(v, 1) && s.cells[0].slot == Live(v) && s.popped == []
  {
    s := OneCellSecondPush(producers, v);
    ReachSnoc(1, producers, s, CasOk(0)); s := Do(s, CasOk(0));
    assert CellOf(1, 1) == CellOf(0, 1) == 0;
    assert s.prods[0].pc == Construct(v, 1) && s.cells[CellOf(1, 1)].slot == Live(v);
    assert |s.cells| == 1 && !Accesses(s);
  }

  lemma OneCellSecondPush<T(!new)>(producers: nat, v: T) returns (s: State<T>)
    requires 1 <= producers
    ensures Reachable(1, producers, s)
    ensures |s.cells| == 1 && s.prods != [] && s.prods[0].pc == Cas(v, 1, 1)
    ensures s.heads == [0, 1] && s.cells[0].slot == Live(v) && s.popped == []
  {
    s := OneCellFirstPush(producers, v);
    ReachSnoc(1, producers, s, Begin(0, v, 0)); s := Do(s, Begin(0, v, 0));
    ReachSnoc(1, producers, s, ReadHead(0, 1)); s := Do(s, ReadHead(0, 1));
    assert CellOf(1, 1) == CellOf(0, 1) == 0;
    ReachSnoc(1, producers, s, ReadSeq(0, 1)); s := Do(s, ReadSeq(0, 1));
  }

  lemma OneCellFirstPush<T(!new)>(producers: nat, v: T) returns (s: State<T>)
    requires 1 <= producers
    ensures Reachable(1, producers, s)
    ensures |s.cells| == 1 && s.prods != [] && s.prods[0].pc == Idle && s.prods[0].view.status == 0
    ensures s.heads == [0, 1] && s.prods[0].view.head == 1 && s.statuses == [Running]
    ensures s.cells[0].slot == Live(v) && |s.cells[0].marks| == 2 && s.cells[0].marks[1].val == 1
    ensures s.prods[0].view.cell == [1] && s.popped == []
  {
    s := OneCellReserves(producers, v);
    assert CellOf(0, 1) == 0;
    ReachSnoc(1, producers, s, DoConstruct(0)); s := Do(s, DoConstruct(0));
    ReachSnoc(1, producers, s, DoPublish(0)); s := Do(s, DoPublish(0));
  }

  lemma OneCellReserves<T(!new)>(producers: nat, v: T) returns (s: State<T>)
    requires 1 <= producers
    ensures Reachable(1, producers, s)
    ensures |s.cells| == 1 && s.prods != [] && s.prods[0].pc == Construct(v, 0) && s.prods[0].view.status == 0
    ensures s.heads == [0, 1] && s.prods[0].view.head == 1 && s.statuses == [Running]
    ensures |s.cells[0].marks| == 1 && s.prods[0].view.cell == [0] && s.popped == []
  {
    s := Init<T>(1, producers);
    ReachInit<T>(1, producers);
    ReachSnoc(1, producers, s, Begin(0, v, 0)); s := Do(s, Begin(0, v, 0));
    ReachSnoc(1, producers, s, ReadHead(0, 0)); s := Do(s, ReadHead(0, 0));
    assert CellOf(0, 1) == 0;
    ReachSnoc(1, producers, s, ReadSeq(0, 0)); s := Do(s, ReadSeq(0, 0));
    ReachSnoc(1, producers, s, CasOk(0)); s := Do(s, CasOk(0));
  }

  /** The queue is safe in every run exactly when it has at least two cells; the source's
      power-of-two check alone admits one cell. */
  lemma SafeIffTwoCells<T(!new)>(n: nat, producers: nat, v: T)
    requires 1 <= n && 1 <= producers
    ensures (forall s: State<T> :: Reachable(n, producers, s) ==> Safe(s)) <==> 2 <= n
  {
    if 2 <= n {
      forall s: State<T> | Reachable(n, producers, s) ensures Safe(s) {
        ReachableInv(n, producers, s);
        InvSafe(s);
      }
    } else {
      var s := OneCellOverwrites(producers, v);
    }
  }

  // ----- order ---------------------------------------------------------------------------

  lemma {:induction false} MinePrefix<T>(log: seq<Entry<T>>, k: nat, i: nat)
    requires k <= |log|
    ensures Mine(log[..k], i) <= Mine(log, i)
  {
    if k == |log| {
      assert log[..k] == log;
    } else {
      MinePrefix(log[..|log| - 1], k, i);
      assert log[..|log| - 1][..k] == log[..k];
    }
  }

  /** First in, first out per producer: what has been popped of producer `i` is a prefix of
      what `i` pushed, in the order it pushed. */
  lemma FifoPerProducer<T(!new)>(n: nat, producers: nat, s: State<T>, i: nat)
    requires 2 <= n && Reachable(n, producers, s) && i < |s.prods|
    ensures |s.popped| <= |s.log|
    ensures forall j :: 0 <= j < |s.popped| ==> s.popped[j] == s.log[j].v
    ensures Mine(s.log[..|s.popped|], i) <= s.prods[i].sent
  {
    ReachableInv(n, producers, s);
    assert ProdOk(s, i);
    MinePrefix(s.log, |s.popped|, i);
  }

  // ----- refusal and retries -------------------------------------------------------------

  /** The last mark of a cell tells which position of the current window it serves. */
  lemma LastMark<T>(s: State<T>, pos: nat)
    requires Inv(s) && pos <= s.released + |s.cells|
    ensures var marks := s.cells[CellOf(pos, |s.cells|)].marks;
            marks != [] && (Last(marks).val < pos <==> pos == s.released + |s.cells|)
  {
    var n, c := |s.cells|, CellOf(pos, |s.cells|);
    var p := PositionOf(s.released, c, n);
    assert CellOk(s, p);
    if p < pos {
      CellGap(p, pos, n);
    } else if pos < p {
      CellGap(pos, p, n);
    }
  }

  /** The newest store to the `seq` of `pos`'s cell. */
  function NewestIndex<T>(s: State<T>, pos: nat): nat
    requires s.cells != []
  {
    var k := |s.cells[CellOf(pos, |s.cells|)].marks|;
    if k == 0 then 0 else k - 1
  }

  /** A push whose `seq` load is up to date refuses exactly when its position is the current
      head and all cells are unreleased, however old that position is. */
  lemma RefusalExact<T(!new)>(n: nat, producers: nat, s: State<T>, i: nat)
    requires 2 <= n && Reachable(n, producers, s) && i < |s.prods| && s.prods[i].pc.LoadSeq?
    ensures s.cells != [] && Enabled(s, ReadSeq(i, NewestIndex(s, s.prods[i].pc.pos)))
    ensures Do(s, ReadSeq(i, NewestIndex(s, s.prods[i].pc.pos))).prods[i].pc.Idle?
            <==> s.prods[i].pc.pos == |s.log| && |s.log| - s.released == |s.cells|
  {
    ReachableInv(n, producers, s);
    RefusalInv(s, i, s.prods[i].pc.pos);
  }

  lemma RefusalInv<T>(s: State<T>, i: nat, pos: nat)
    requires Inv(s) && i < |s.prods| && s.prods[i].pc.LoadSeq? && s.prods[i].pc.pos == pos
    ensures Enabled(s, ReadSeq(i, NewestIndex(s, pos)))
    ensures Do(s, ReadSeq(i, NewestIndex(s, pos))).prods[i].pc.Idle?
            <==> pos == |s.log| && |s.log| - s.released == |s.cells|
  {
    assert ProdOk(s, i);
    LastMark(s, pos);
  }

  /** The step is a retry of producer `i`: it goes back to the head after a mark above its position,
      or after a compare-exchange that found another head. */
  predicate Retries<T>(s: State<T>, a: Action<T>, i: nat)
    requires Enabled(s, a)
  {
    match a
    case ReadHead(j, _) => j == i && s.prods[i].pc.Reload?
    case CasFail(j, k) => j == i && s.heads[k] != s.prods[i].pc.pos
    case _ => false
  }

  /** `retries` counts exactly the retries since the call first loaded the head, and `first` keeps
      what that load returned. */
  lemma RetriesCounted<T>(s: State<T>, a: Action<T>, i: nat)
    requires Enabled(s, a) && i < |s.prods|
    ensures var p, p' := s.prods[i], Do(s, a).prods[i];
            if a.ReadHead? && a.i == i && p.pc.LoadHead? then p'.retries == 0 && p'.first == s.heads[a.k]
            else p'.first == p.first && p'.retries == p.retries + if Retries(s, a, i) then 1 else 0
  {
  }

  /** In `r` non-spurious retries a call has seen the head advance by at least `r` from the first
      value it loaded, and none of the reservations from that value on is its own producer's. */
  lemma RetriesArePaid<T(!new)>(n: nat, producers: nat, s: State<T>, i: nat)
    requires 2 <= n && Reachable(n, producers, s) && i < |s.prods|
    requires s.prods[i].pc.LoadSeq? || s.prods[i].pc.Cas? || s.prods[i].pc.Reload?
    ensures s.prods[i].first + s.prods[i].retries <= s.prods[i].pc.pos <= s.prods[i].view.head <= |s.log|
    ensures forall j :: s.prods[i].first <= j < |s.log| ==> s.log[j].id != i
  {
    ReachableInv(n, producers, s);
    assert ProdOk(s, i);
  }
}
