/**
 `BoundedSPSCQueue` as a transition system: one producer, one consumer, one step per atomic
 access, under release/acquire memory.  Indices are stored reduced modulo the size, as in the
 source; positions (how many pushes or pops came before) appear only in history variables.
 */
module SpscQueue {
  import opened Helpers
  import opened Memory

  datatype PPc<T> =
    | PIdle
    | PLoadHead(v: T)
    | PLoadTail(v: T, head: nat)
    | PConstruct(v: T, head: nat)
    | PStore(v: T, head: nat)

  datatype CPc<T> =
    | CIdle
    | CLoadHead(tail: nat)
    | CMoveOut(tail: nat)
    | CDestroy(tail: nat, x: T)
    | CStore(tail: nat, x: T)

  datatype Producer<T> = Producer(pc: PPc<T>, view: View)
  datatype Consumer<T> = Consumer(pc: CPc<T>, view: View)

  /** `heads`, `tails`, `statuses`: modification orders.  `uses[c]` counts the accesses to slot
      `c`.  `log` and `popped`: the values pushed and popped so far. */
  datatype State<T> = State(
    heads: seq<Mark>, tails: seq<Mark>, statuses: seq<Status>, slots: seq<Slot<T>>, uses: seq<nat>,
    prod: Producer<T>, cons: Consumer<T>, log: seq<T>, popped: seq<T>)

  datatype Action<T> =
    | Begin(v: T, k: nat)      // load the status
    | ReadOwnHead(k: nat)
    | ReadTail(k: nat)
    | DoConstruct
    | StoreHead
    | ReadOwnTail(k: nat)
    | ReadHead(k: nat)
    | MoveOut
    | Destroy
    | StoreTail
    | CheckStatusP(k: nat)     // a status load of blocking_push, after a failed try
    | CheckStatusC(k: nat)
    | SetStatus(status: Status)
    | Sync                     // the consumer's thread joins that of the producer
    | SyncStop                 // and that of the last caller of run() or stop()

  function Init<T>(n: nat): State<T> {
    State([Mark(0, Zero(n))], [Mark(0, Zero(n))], [Running], seq(n, _ => Raw), seq(n, _ => 0),
          Producer(PIdle, Zero(n)), Consumer(CIdle, Zero(n)), [], [])
  }

  predicate Enabled<T>(s: State<T>, a: Action<T>) {
    && s.slots != [] && |s.uses| == |s.slots|
    && match a
       case Begin(v, k) => s.prod.pc.PIdle? && s.prod.view.status <= k < |s.statuses|
       case ReadOwnHead(k) => s.prod.pc.PLoadHead? && s.prod.view.head <= k < |s.heads|
       case ReadTail(k) => s.prod.pc.PLoadTail? && s.prod.view.tail <= k < |s.tails|
       case DoConstruct => s.prod.pc.PConstruct? && s.prod.pc.head < |s.slots|
       case StoreHead => s.prod.pc.PStore?
       case ReadOwnTail(k) => s.cons.pc.CIdle? && s.cons.view.tail <= k < |s.tails|
       case ReadHead(k) => s.cons.pc.CLoadHead? && s.cons.view.head <= k < |s.heads|
       case MoveOut => s.cons.pc.CMoveOut? && s.cons.pc.tail < |s.slots| && s.slots[s.cons.pc.tail].Live?
       case Destroy => s.cons.pc.CDestroy? && s.cons.pc.tail < |s.slots|
       case StoreTail => s.cons.pc.CStore?
       case CheckStatusP(k) => s.prod.pc.PIdle? && s.prod.view.status <= k < |s.statuses|
       case CheckStatusC(k) => s.cons.pc.CIdle? && s.cons.view.status <= k < |s.statuses|
       case SetStatus(_) => true
       case Sync => s.cons.pc.CIdle?
       case SyncStop => s.cons.pc.CIdle? && s.statuses != []
  }

  /** `(i + 1) & _mask` */
  function Next(i: nat, n: nat): (r: nat)
    requires 0 < n
  {
    CellOf(i + 1, n)
  }

  function Do<T>(s: State<T>, a: Action<T>): State<T>
    requires Enabled(s, a)
  {
    var n := |s.slots|;
    var p, c := s.prod, s.cons;
    match a
    case Begin(v, k) =>
      s.(prod := Producer(if s.statuses[k].Stopped? then PIdle else PLoadHead(v), p.view.(status := k)))
    case ReadOwnHead(k) =>
      s.(prod := Producer(PLoadTail(p.pc.v, s.heads[k].val), p.view.(head := k)))
    case ReadTail(k) =>
      var w := Join(p.view, s.tails[k].view);
      s.(prod := Producer(if Next(p.pc.head, n) == s.tails[k].val then PIdle else PConstruct(p.pc.v, p.pc.head),
                          w.(tail := Max(w.tail, k))))
    case DoConstruct =>
      var i := p.pc.head;
      s.(slots := s.slots[i := Live(p.pc.v)], uses := s.uses[i := s.uses[i] + 1],
         prod := Producer(PStore(p.pc.v, i), SeeData(p.view, i, s.uses[i] + 1)))
    case StoreHead =>
      var w := p.view.(head := |s.heads|);
      s.(heads := s.heads + [Mark(Next(p.pc.head, n), w)], prod := Producer(PIdle, w), log := s.log + [p.pc.v])
    case ReadOwnTail(k) =>
      s.(cons := Consumer(CLoadHead(s.tails[k].val), c.view.(tail := k)))
    case ReadHead(k) =>
      var w := Join(c.view, s.heads[k].view);
      s.(cons := Consumer(if c.pc.tail == s.heads[k].val then CIdle else CMoveOut(c.pc.tail),
                          w.(head := Max(w.head, k))))
    case MoveOut =>
      var i := c.pc.tail;
      s.(uses := s.uses[i := s.uses[i] + 1],
         cons := Consumer(CDestroy(i, s.slots[i].value), SeeData(c.view, i, s.uses[i] + 1)))
    case Destroy =>
      var i := c.pc.tail;
      s.(slots := s.slots[i := Raw], uses := s.uses[i := s.uses[i] + 1],
         cons := Consumer(CStore(i, c.pc.x), SeeData(c.view, i, s.uses[i] + 1)))
    case StoreTail =>
      var w := c.view.(tail := |s.tails|);
      s.(tails := s.tails + [Mark(Next(c.pc.tail, n), w)], cons := Consumer(CIdle, w), popped := s.popped + [c.pc.x])
    case CheckStatusP(k) => s.(prod := Producer(PIdle, p.view.(status := k)))
    case CheckStatusC(k) => s.(cons := Consumer(CIdle, c.view.(status := k)))
    case SetStatus(status) => s.(statuses := s.statuses + [status])
    case Sync => s.(cons := Consumer(CIdle, Join(c.view, p.view)))
    case SyncStop => s.(cons := Consumer(CIdle, c.view.(status := |s.statuses| - 1)))
  }

  predicate ValidRun<T>(s: State<T>, acts: seq<Action<T>>)
    decreases |acts|
  {
    acts == [] || (Enabled(s, acts[0]) && ValidRun(Do(s, acts[0]), acts[1..]))
  }

  function Run<T>(s: State<T>, acts: seq<Action<T>>): State<T>
    requires ValidRun(s, acts)
    decreases |acts|
  {
    if acts == [] then s else Run(Do(s, acts[0]), acts[1..])
  }

  ghost predicate Reachable<T(!new)>(n: nat, s: State<T>) {
    exists acts: seq<Action<T>> :: ValidRun(Init<T>(n), acts) && Run(Init<T>(n), acts) == s
  }

  /** What is in the queue. */
  function Contents<T>(s: State<T>): seq<T> {
    if |s.popped| <= |s.log| then s.log[|s.popped|..] else []
  }
}
