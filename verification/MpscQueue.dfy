/**
 `BoundedMPSCQueue` as a transition system: any number of producers, one consumer, one step
 per atomic access, under release/acquire memory.

 The nondeterminism of an execution (which thread moves, which store a load returns, whether
 a weak compare-exchange fails spuriously) is resolved by the `Action`, so a run is a plain
 sequence of actions.  Positions are natural numbers.
 */
module MpscQueue {
  import opened Helpers
  import opened Memory

  /** Who may touch the slot; a history variable no step consults. */
  datatype Owner = NoOwner | ByProducer(id: nat) | ByConsumer

  datatype Cell<T> = Cell(marks: seq<Mark>, slot: Slot<T>, uses: nat, owner: Owner)

  /** Where a producer stands in `try_push`. */
  datatype Pc<T> =
    | Idle
    | LoadHead(v: T)
    | LoadSeq(v: T, pos: nat)
    | Cas(v: T, pos: nat, read: nat)  // `read` indexes the free mark it saw
    | Reload(v: T, pos: nat)
    | Construct(v: T, pos: nat)
    | Publish(v: T, pos: nat)

  /** `first`, `retries` and `sent` are history: the first head value loaded by the current
      call, its non-spurious retries, and the values this producer has reserved places for. */
  datatype Producer<T> = Producer(pc: Pc<T>, view: View, first: nat, retries: nat, sent: seq<T>)

  /** Where the consumer stands in `try_pop`. */
  datatype CPc<T> =
    | CIdle
    | CLoadSeq(pos: nat)
    | CStoreTail(pos: nat)
    | CMoveOut(pos: nat)
    | CDestroy(pos: nat, x: T)
    | CRelease(pos: nat, x: T)

  datatype Consumer<T> = Consumer(pc: CPc<T>, view: View)

  datatype Entry<T> = Entry(id: nat, v: T)

  /** `heads`, `tails`, `statuses` are the modification orders of `_head`, `_tail` and
      `_queue_status`.  `log` (reservations in compare-exchange order), `popped` (values moved
      out) and `released` (cells handed back) are history. */
  datatype State<T> = State(
    heads: seq<nat>, tails: seq<nat>, statuses: seq<Status>, cells: seq<Cell<T>>,
    prods: seq<Producer<T>>, cons: Consumer<T>,
    log: seq<Entry<T>>, popped: seq<T>, released: nat)

  datatype Action<T> =
    | Begin(i: nat, v: T, k: nat)     // load the status
    | ReadHead(i: nat, k: nat)
    | ReadSeq(i: nat, k: nat)
    | CasOk(i: nat)
    | CasFail(i: nat, k: nat)         // the failing load returned store k
    | DoConstruct(i: nat)
    | DoPublish(i: nat)
    | ReadTail(k: nat)
    | ReadMark(k: nat)
    | StoreTail
    | MoveOut
    | Destroy
    | Release
    | CheckStatus(i: nat, k: nat)     // a status load of blocking_push, between two tries
    | CheckStatusC(k: nat)            // a status load of blocking_pop
    | SetStatus(status: Status)       // run() or stop()
    | Sync(i: nat)                    // the consumer's thread joins that of producer i
    | SyncStop                        // and that of the last caller of run() or stop()

  function Init<T>(n: nat, producers: nat): State<T> {
    State([0], [0], [Running],
          seq(n, c requires 0 <= c < n => Cell([Mark(c, Zero(n))], Raw, 0, NoOwner)),
          seq(producers, _ => Producer(Idle, Zero(n), 0, 0, [])),
          Consumer(CIdle, Zero(n)), [], [], 0)
  }

  predicate Enabled<T>(s: State<T>, a: Action<T>) {
    && s.cells != []
    && match a
       case Begin(i, v, k) =>
         i < |s.prods| && s.prods[i].pc.Idle? && s.prods[i].view.status <= k < |s.statuses|
       case ReadHead(i, k) =>
         && i < |s.prods| && (s.prods[i].pc.LoadHead? || s.prods[i].pc.Reload?)
         && s.prods[i].view.head <= k < |s.heads|
       case ReadSeq(i, k) =>
         && i < |s.prods| && s.prods[i].pc.LoadSeq?
         && CanRead(s, s.prods[i].view, s.prods[i].pc.pos, k)
       case CasOk(i) =>
         i < |s.prods| && s.prods[i].pc.Cas? && s.heads != [] && Last(s.heads) == s.prods[i].pc.pos
       case CasFail(i, k) =>
         i < |s.prods| && s.prods[i].pc.Cas? && s.prods[i].view.head <= k < |s.heads|
       case DoConstruct(i) => i < |s.prods| && s.prods[i].pc.Construct?
       case DoPublish(i) => i < |s.prods| && s.prods[i].pc.Publish?
       case ReadTail(k) => s.cons.pc.CIdle? && s.cons.view.tail <= k < |s.tails|
       case ReadMark(k) => s.cons.pc.CLoadSeq? && CanRead(s, s.cons.view, s.cons.pc.pos, k)
       case StoreTail => s.cons.pc.CStoreTail?
       case MoveOut => s.cons.pc.CMoveOut? && s.cells[CellOf(s.cons.pc.pos, |s.cells|)].slot.Live?
       case Destroy => s.cons.pc.CDestroy?
       case Release => s.cons.pc.CRelease?
       case CheckStatus(i, k) =>
         i < |s.prods| && s.prods[i].pc.Idle? && s.prods[i].view.status <= k < |s.statuses|
       case CheckStatusC(k) => s.cons.pc.CIdle? && s.cons.view.status <= k < |s.statuses|
       case SetStatus(_) => true
       case Sync(i) => i < |s.prods| && s.cons.pc.CIdle?
       case SyncStop => s.cons.pc.CIdle? && s.statuses != []
  }

  /** Store `k` to the `seq` of `pos`'s cell may be returned to a thread with view `v`. */
  predicate CanRead<T>(s: State<T>, v: View, pos: nat, k: nat)
    requires s.cells != []
  {
    var c := CellOf(pos, |s.cells|);
    c < |v.cell| && v.cell[c] <= k < |s.cells[c].marks|
  }

  /** The view after acquiring store `k` to the `seq` of cell `c`. */
  function Acquire<T>(s: State<T>, v: View, c: nat, k: nat): View
    requires c < |s.cells| && k < |s.cells[c].marks|
  {
    SeeCell(Join(v, s.cells[c].marks[k].view), c, k)
  }

  function WithProd<T>(s: State<T>, i: nat, p: Producer<T>): State<T>
    requires i < |s.prods|
  {
    s.(prods := s.prods[i := p])
  }

  function WithCell<T>(s: State<T>, c: nat, d: Cell<T>): State<T>
    requires c < |s.cells|
  {
    s.(cells := s.cells[c := d])
  }

  function Do<T>(s: State<T>, a: Action<T>): State<T>
    requires Enabled(s, a)
  {
    var n := |s.cells|;
    match a
    case Begin(i, v, k) =>
      var p := s.prods[i];
      WithProd(s, i, p.(view := p.view.(status := k),
                        pc := if s.statuses[k].Stopped? then Idle else LoadHead(v)))
    case ReadHead(i, k) =>
      var p := s.prods[i];
      WithProd(s, i, p.(view := p.view.(head := k), pc := LoadSeq(p.pc.v, s.heads[k]),
                        first := if p.pc.LoadHead? then s.heads[k] else p.first,
                        retries := if p.pc.LoadHead? then 0 else p.retries + 1))
    case ReadSeq(i, k) =>
      var p := s.prods[i];
      var c := CellOf(p.pc.pos, n);
      var seen := s.cells[c].marks[k].val;
      WithProd(s, i, p.(view := Acquire(s, p.view, c, k),
                        pc := if seen == p.pc.pos then Cas(p.pc.v, p.pc.pos, k)
                              else if seen < p.pc.pos then Idle
                              else Reload(p.pc.v, p.pc.pos)))
    case CasOk(i) =>
      var p := s.prods[i];
      var c := CellOf(p.pc.pos, n);
      WithCell(WithProd(s, i, p.(view := p.view.(head := |s.heads|), pc := Construct(p.pc.v, p.pc.pos),
                                 sent := p.sent + [p.pc.v])),
               c, s.cells[c].(owner := ByProducer(i)))
      .(heads := s.heads + [p.pc.pos + 1], log := s.log + [Entry(i, p.pc.v)])
    case CasFail(i, k) =>
      var p := s.prods[i];
      WithProd(s, i, p.(view := p.view.(head := k), pc := LoadSeq(p.pc.v, s.heads[k]),
                        retries := if s.heads[k] == p.pc.pos then p.retries else p.retries + 1))
    case DoConstruct(i) =>
      var p := s.prods[i];
      var c := CellOf(p.pc.pos, n);
      var d := s.cells[c];
      WithCell(WithProd(s, i, p.(view := SeeData(p.view, c, d.uses + 1), pc := Publish(p.pc.v, p.pc.pos))),
               c, d.(slot := Live(p.pc.v), uses := d.uses + 1))
    case DoPublish(i) =>
      var p := s.prods[i];
      var c := CellOf(p.pc.pos, n);
      var d := s.cells[c];
      var w := SeeCell(p.view, c, |d.marks|);
      WithCell(WithProd(s, i, p.(view := w, pc := Idle)),
               c, d.(marks := d.marks + [Mark(p.pc.pos + 1, w)], owner := NoOwner))
    case ReadTail(k) =>
      s.(cons := Consumer(CLoadSeq(s.tails[k]), s.cons.view.(tail := k)))
    case ReadMark(k) =>
      var pos := s.cons.pc.pos;
      var c := CellOf(pos, n);
      var w := Acquire(s, s.cons.view, c, k);
      if s.cells[c].marks[k].val == pos + 1 then
        WithCell(s, c, s.cells[c].(owner := ByConsumer)).(cons := Consumer(CStoreTail(pos), w))
      else
        s.(cons := Consumer(CIdle, w))
    case StoreTail =>
      var pos := s.cons.pc.pos;
      s.(tails := s.tails + [pos + 1],
         cons := Consumer(CMoveOut(pos), s.cons.view.(tail := |s.tails|)))
    case MoveOut =>
      var pos := s.cons.pc.pos;
      var c := CellOf(pos, n);
      var d := s.cells[c];
      WithCell(s, c, d.(uses := d.uses + 1))
      .(popped := s.popped + [d.slot.value],
        cons := Consumer(CDestroy(pos, d.slot.value), SeeData(s.cons.view, c, d.uses + 1)))
    case Destroy =>
      var pos := s.cons.pc.pos;
      var c := CellOf(pos, n);
      var d := s.cells[c];
      WithCell(s, c, d.(slot := Raw, uses := d.uses + 1))
      .(cons := Consumer(CRelease(pos, s.cons.pc.x), SeeData(s.cons.view, c, d.uses + 1)))
    case Release =>
      var pos := s.cons.pc.pos;
      var c := CellOf(pos, n);
      var d := s.cells[c];
      var w := SeeCell(s.cons.view, c, |d.marks|);
      WithCell(s, c, d.(marks := d.marks + [Mark(pos + n, w)], owner := NoOwner))
      .(cons := Consumer(CIdle, w), released := pos + 1)
    case CheckStatus(i, k) =>
      WithProd(s, i, s.prods[i].(view := s.prods[i].view.(status := k)))
    case CheckStatusC(k) =>
      s.(cons := Consumer(CIdle, s.cons.view.(status := k)))
    case SetStatus(status) =>
      s.(statuses := s.statuses + [status])
    case Sync(i) =>
      s.(cons := Consumer(CIdle, Join(s.cons.view, s.prods[i].view)))
    case SyncStop =>
      s.(cons := Consumer(CIdle, s.cons.view.(status := |s.statuses| - 1)))
  }

  predicate ValidRun<T>(s: State<T>, acts: seq<Action<T>>)
    decreases |acts|
  {
    acts == [] || (Enabled(s, acts[0]) && ValidRun(Do(s, acts[0]), acts[1..]))
  }

  function Run<T>(s: State<T>, acts: seq<Action<T>>): State<T>
    requires ValidRun(s, acts)
    decreases |acts|
  {
    if acts == [] then s else Run(Do(s, acts[0]), acts[1..])
  }

  /** `s` is the outcome of some run of a fresh `n`-cell queue with `producers` producers. */
  ghost predicate Reachable<T(!new)>(n: nat, producers: nat, s: State<T>) {
    exists acts: seq<Action<T>> ::
      ValidRun(Init<T>(n, producers), acts) && Run(Init<T>(n, producers), acts) == s
  }

  /** The values producer `i` reserved places for, in reservation order. */
  function Mine<T>(log: seq<Entry<T>>, i: nat): seq<T> {
    if log == [] then []
    else Mine(log[..|log| - 1], i) + if Last(log).id == i then [Last(log).v] else []
  }
}
