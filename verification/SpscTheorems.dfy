/** What the single-producer queue guarantees over all of its runs. */
module SpscTheorems {
  import opened Helpers
  import opened Memory
  import opened SpscQueue
  import opened SpscInvariant

  // ----- safety --------------------------------------------------------------------------

  /** Slot accesses are race free and find the slot as they must; the slot being written is
      outside the readable range, and nothing is lost, duplicated or reordered. */
  ghost predicate Safe<T>(s: State<T>) {
    && s.slots != [] && |s.uses| == |s.slots|
    && |s.popped| <= |s.log| < |s.popped| + |s.slots| && s.log[..|s.popped|] == s.popped
    && (s.prod.pc.PConstruct? ==>
          && s.prod.pc.head < |s.slots| == |s.prod.view.data|
          && s.prod.view.data[s.prod.pc.head] == s.uses[s.prod.pc.head]
          && s.slots[s.prod.pc.head] == Raw)
    && (s.cons.pc.CMoveOut? ==>
          && s.cons.pc.tail < |s.slots| == |s.cons.view.data|
          && s.cons.view.data[s.cons.pc.tail] == s.uses[s.cons.pc.tail]
          && Contents(s) != [] && s.slots[s.cons.pc.tail] == Live(Contents(s)[0]))
    && (s.cons.pc.CDestroy? ==>
          && s.cons.pc.tail < |s.slots| == |s.cons.view.data|
          && s.cons.view.data[s.cons.pc.tail] == s.uses[s.cons.pc.tail]
          && s.slots[s.cons.pc.tail].Live?)
    && (s.prod.pc.PConstruct? || s.prod.pc.PStore? ==>
          forall p :: |s.popped| <= p < |s.log| ==> CellOf(p, |s.slots|) != s.prod.pc.head)
  }

  /** A load may return every store that is not older than the newest its thread is bound to see. */
  lemma AnyStoreLoads<T>(s: State<T>, k: nat)
    requires s.slots != [] && |s.uses| == |s.slots|
    ensures s.prod.pc.PLoadTail? ==> (Enabled(s, ReadTail(k)) <==> s.prod.view.tail <= k < |s.tails|)
    ensures s.cons.pc.CLoadHead? ==> (Enabled(s, ReadHead(k)) <==> s.cons.view.head <= k < |s.heads|)
    ensures s.prod.pc.PIdle? ==> (Enabled(s, CheckStatusP(k)) <==> s.prod.view.status <= k < |s.statuses|)
    ensures s.cons.pc.CIdle? ==> (Enabled(s, CheckStatusC(k)) <==> s.cons.view.status <= k < |s.statuses|)
  {
  }

  /** A thread's loads of its own index and of the status tell it nothing about the slots. */
  lemma RelaxedTellNothing<T>(s: State<T>, a: Action<T>)
    requires Enabled(s, a) && (a.Begin? || a.ReadOwnHead? || a.ReadOwnTail? || a.CheckStatusP? || a.CheckStatusC? || a.SetStatus?)
    ensures Do(s, a).prod.view.data == s.prod.view.data && Do(s, a).cons.view.data == s.cons.view.data
  {
  }

  /** The step constructs, moves out or destroys in slot `c`. */
  predicate Touches<T>(s: State<T>, a: Action<T>, c: nat)
    requires Enabled(s, a)
  {
    match a
    case DoConstruct => c == s.prod.pc.head
    case MoveOut => c == s.cons.pc.tail
    case Destroy => c == s.cons.pc.tail
    case _ => false
  }

  /** Every access to a slot counts, once, and nothing else does; only they change the slot. */
  lemma AccessesCounted<T>(s: State<T>, a: Action<T>, c: nat)
    requires Enabled(s, a) && c < |s.slots|
    ensures |Do(s, a).slots| == |Do(s, a).uses| == |s.slots|
    ensures Do(s, a).uses[c] == s.uses[c] + if Touches(s, a, c) then 1 else 0
    ensures !Touches(s, a, c) ==> Do(s, a).slots[c] == s.slots[c]
  {
  }

  lemma InvSafe<T>(s: State<T>)
    requires Inv(s)
    ensures Safe(s)
  {
    var t, h, n := |s.popped|, |s.log|, |s.slots|;
    if s.prod.pc.PConstruct? || s.prod.pc.PStore? {
      assert FreeOk(s, h);
      forall p | t <= p < h ensures CellOf(p, n) != s.prod.pc.head {
        OneCell(t, p, h, n);
      }
    }
    if s.cons.pc.CMoveOut? || s.cons.pc.CDestroy? {
      assert ReadyOk(s, t);
    }
  }

  lemma AlwaysSafe<T(!new)>(n: nat, s: State<T>)
    requires 1 <= n && Reachable(n, s)
    ensures Safe(s)
  {
    ReachableInv(n, s);
    InvSafe(s);
  }

  // ----- linearizability -----------------------------------------------------------------

  /** The operation, with its result, that takes effect at a step.  A failed try reports how many
      pops, or pushes, it has seen. */
  datatype Event<T> = Silent | PushOk(v: T) | PushFull(seen: nat) | PopOk(x: T) | PopEmpty(seen: nat)

  /** A push takes effect when it stores the head, a pop when it stores the tail, and a failed
      try at its load of the other index. */
  function EventOf<T>(s: State<T>, a: Action<T>): Event<T>
    requires Enabled(s, a)
  {
    match a
    case StoreHead => PushOk(s.prod.pc.v)
    case StoreTail => PopOk(s.cons.pc.x)
    case ReadTail(k) => if Do(s, a).prod.pc.PIdle? then PushFull(k) else Silent
    case ReadHead(k) => if Do(s, a).cons.pc.CIdle? then PopEmpty(k) else Silent
    case _ => Silent
  }

  /** A first-in first-out queue, with how often it has been pushed to and popped from. */
  datatype Fifo<T> = Fifo(q: seq<T>, pushed: nat, popped: nat)

  /** One operation on a queue holding at most `cap` values.  A failed try may go by an old count,
      and fails exactly because of it; with the present one the queue is full, or empty. */
  predicate Allowed<T(==)>(f: Fifo<T>, e: Event<T>, cap: int) {
    match e
    case Silent => true
    case PushOk(_) => |f.q| < cap
    case PushFull(seen) => seen <= f.popped && f.pushed == seen + cap && (seen == f.popped ==> |f.q| == cap)
    case PopOk(x) => f.q != [] && f.q[0] == x
    case PopEmpty(seen) => seen == f.popped <= f.pushed && (seen == f.pushed ==> f.q == [])
  }

  function FifoNext<T>(f: Fifo<T>, e: Event<T>): Fifo<T> {
    match e
    case PushOk(v) => Fifo(f.q + [v], f.pushed + 1, f.popped)
    case PopOk(_) => if f.q == [] then f else Fifo(f.q[1..], f.pushed, f.popped + 1)
    case _ => f
  }

  ghost predicate Legal<T>(f: Fifo<T>, es: seq<Event<T>>, cap: int)
    decreases |es|
  {
    es == [] || (Allowed(f, es[0], cap) && Legal(FifoNext(f, es[0]), es[1..], cap))
  }

  function Events<T>(s: State<T>, acts: seq<Action<T>>): seq<Event<T>>
    requires ValidRun(s, acts)
    decreases |acts|
  {
    if acts == [] then [] else [EventOf(s, acts[0])] + Events(Do(s, acts[0]), acts[1..])
  }

  function AsFifo<T>(s: State<T>): Fifo<T> {
    Fifo(Contents(s), |s.log|, |s.popped|)
  }

  lemma LinearPushLoad<T>(s: State<T>, k: nat)
    requires Inv(s) && Enabled(s, ReadTail(k))
    ensures Do(s, ReadTail(k)).prod.pc.PIdle? <==> |s.log| + 1 == k + |s.slots|
  {
    NextMeets(|s.log|, k, |s.slots|);
  }

  lemma LinearPopLoad<T>(s: State<T>, k: nat)
    requires Inv(s) && Enabled(s, ReadHead(k))
    ensures Do(s, ReadHead(k)).cons.pc.CIdle? <==> k == |s.popped|
  {
    NextMeets(k, |s.popped|, |s.slots|);
  }

  lemma LinearStep<T>(s: State<T>, a: Action<T>)
    requires Inv(s) && Enabled(s, a)
    ensures Allowed(AsFifo(s), EventOf(s, a), |s.slots| - 1)
    ensures AsFifo(Do(s, a)) == FifoNext(AsFifo(s), EventOf(s, a))
  {
    match a
    case ReadTail(k) => LinearPushLoad(s, k);
    case ReadHead(k) => LinearPopLoad(s, k);
    case StoreHead =>
    case StoreTail =>
    case _ => SilentStep(s, a);
  }

  lemma SilentStep<T>(s: State<T>, a: Action<T>)
    requires Enabled(s, a) && !a.StoreHead? && !a.StoreTail?
    ensures AsFifo(Do(s, a)) == AsFifo(s)
  {
  }

  lemma SizeKept<T>(s: State<T>, a: Action<T>)
    requires Enabled(s, a)
    ensures |Do(s, a).slots| == |s.slots|
  {
  }

  lemma Prepend<T>(f: Fifo<T>, e: Event<T>, es: seq<Event<T>>, cap: int)
    requires Allowed(f, e, cap) && Legal(FifoNext(f, e), es, cap)
    ensures Legal(f, [e] + es, cap)
  {
    assert ([e] + es)[1..] == es;
  }

  lemma {:induction false} LinearRun<T>(s: State<T>, acts: seq<Action<T>>)
    requires Inv(s) && ValidRun(s, acts)
    ensures Legal(AsFifo(s), Events(s, acts), |s.slots| - 1)
    decreases |acts|
  {
    if acts != [] {
      var s', e := Do(s, acts[0]), EventOf(s, acts[0]);
      LinearStep(s, acts[0]);
      SizeKept(s, acts[0]);
      StepInv(s, acts[0]);
      LinearRun(s', acts[1..]);
      Prepend(AsFifo(s), e, Events(s', acts[1..]), |s.slots| - 1);
    }
  }

  /** Every interleaving, failed tries included, is step by step a run of a bounded first-in
      first-out queue of capacity size - 1. */
  lemma Linearizable<T>(n: nat, acts: seq<Action<T>>)
    requires 1 <= n && ValidRun(Init<T>(n), acts)
    ensures Legal(Fifo([], 0, 0), Events(Init<T>(n), acts), n - 1)
  {
    InitInv<T>(n);
    LinearRun(Init<T>(n), acts);
  }

  /** With an up-to-date load of the other index, a push fails exactly when the queue is full
      and a pop exactly when it is empty; a stale load can only make them fail. */
  lemma FailureExact<T(!new)>(n: nat, s: State<T>, k: nat)
    requires 1 <= n && Reachable(n, s)
    ensures Enabled(s, ReadTail(k)) && k == |s.tails| - 1
            ==> (Do(s, ReadTail(k)).prod.pc.PIdle? <==> |Contents(s)| == |s.slots| - 1)
    ensures Enabled(s, ReadHead(k)) && k == |s.heads| - 1
            ==> (Do(s, ReadHead(k)).cons.pc.CIdle? <==> Contents(s) == [])
    ensures Enabled(s, ReadTail(k)) && !Do(s, ReadTail(k)).prod.pc.PIdle? ==> |Contents(s)| < |s.slots| - 1
    ensures Enabled(s, ReadHead(k)) && !Do(s, ReadHead(k)).cons.pc.CIdle? ==> Contents(s) != []
  {
    ReachableInv(n, s);
    if Enabled(s, ReadTail(k)) {
      LinearPushLoad(s, k);
    }
    if Enabled(s, ReadHead(k)) {
      LinearPopLoad(s, k);
    }
  }

  // ----- size, empty, full ---------------------------------------------------------------

  lemma {:induction false} WrapDifference(t: nat, h: nat, n: nat)
    requires 0 < n && t <= h < t + n
    ensures CellOf(h, n) + n >= CellOf(t, n)
    ensures CellOf(CellOf(h, n) + n - CellOf(t, n), n) == h - t
    decreases h
  {
    if n <= t {
      WrapDifference(t - n, h - n, n);
    } else if n <= h {
      assert CellOf(h, n) == h - n;
    } else {
      assert CellOf(h - t + n, n) == CellOf(h - t, n);
    }
  }

  lemma LastIndices<T>(s: State<T>)
    requires Counters(s)
    ensures Last(s.heads).val == CellOf(|s.log|, |s.slots|)
    ensures Last(s.tails).val == CellOf(|s.popped|, |s.slots|)
    ensures |Contents(s)| == |s.log| - |s.popped|
  {
  }

  /** `size`, `empty` and `full` computed from both latest indices give the true content. */
  lemma SizeExact<T(!new)>(n: nat, s: State<T>)
    requires 1 <= n && Reachable(n, s)
    ensures s.heads != [] && s.tails != [] && s.slots != []
    ensures var head, tail := Last(s.heads).val, Last(s.tails).val;
            && head + |s.slots| >= tail
            && CellOf(head + |s.slots| - tail, |s.slots|) == |Contents(s)|
            && (head == tail <==> Contents(s) == [])
            && (Next(head, |s.slots|) == tail <==> |Contents(s)| == |s.slots| - 1)
  {
    ReachableInv(n, s);
    var t, h := |s.popped|, |s.log|;
    LastIndices(s);
    WrapDifference(t, h, |s.slots|);
    NextMeets(h, t, |s.slots|);
  }

  // ----- stop ----------------------------------------------------------------------------

  ghost predicate StoppedFrom<T>(s: State<T>, m: nat) {
    forall k :: m <= k < |s.statuses| ==> s.statuses[k].Stopped?
  }

  ghost predicate NoRestart<T>(acts: seq<Action<T>>) {
    forall a :: a in acts ==> a != SetStatus(Running)
  }

  /** How many calls of `try_push` in a run load a status stored before store `m`, the stop. */
  function Missed<T>(acts: seq<Action<T>>, m: nat): nat {
    if acts == [] then 0
    else Missed(acts[1..], m) + if acts[0].Begin? && acts[0].k < m then 1 else 0
  }

  function Entering<T>(s: State<T>): nat {
    if s.prod.pc.PIdle? then 0 else 1
  }

  lemma StopStep<T>(s: State<T>, a: Action<T>, m: nat)
    requires Enabled(s, a) && StoppedFrom(s, m) && a != SetStatus(Running)
    ensures StoppedFrom(Do(s, a), m)
    ensures |Do(s, a).log| + Entering(Do(s, a)) <= |s.log| + Entering(s) + if a.Begin? && a.k < m then 1 else 0
  {
  }

  /** Once stopped, only a push already under way, and those whose relaxed load misses the stop,
      still get in. */
  lemma {:induction false} StopBound<T>(s: State<T>, acts: seq<Action<T>>, m: nat)
    requires StoppedFrom(s, m) && ValidRun(s, acts) && NoRestart(acts)
    ensures |Run(s, acts).log| + Entering(Run(s, acts)) <= |s.log| + Entering(s) + Missed(acts, m)
    decreases |acts|
  {
    if acts != [] {
      assert acts[0] in acts && forall a :: a in acts[1..] ==> a in acts;
      StopStep(s, acts[0], m);
      StopBound(Do(s, acts[0]), acts[1..], m);
    }
  }

  // ----- "nothing" from blocking_pop -----------------------------------------------------

  ghost predicate UpToDate<T>(s: State<T>, k: nat) {
    k + 1 == |s.heads|
  }

  /** A head load of the consumer misses exactly when it returns the store that published the
      last value popped; so an up-to-date one exactly when the queue is empty. */
  lemma MissExact<T>(s: State<T>, k: nat)
    requires Inv(s) && Enabled(s, ReadHead(k))
    ensures Do(s, ReadHead(k)).cons.pc.CIdle? <==> k == |s.popped|
    ensures UpToDate(s, k) ==> (Do(s, ReadHead(k)).cons.pc.CIdle? <==> |s.log| == |s.popped|)
  {
    LinearPopLoad(s, k);
  }

  lemma {:induction false} RunSnoc<T>(s: State<T>, acts: seq<Action<T>>, a: Action<T>)
    requires ValidRun(s, acts) && Enabled(Run(s, acts), a)
    ensures ValidRun(s, acts + [a]) && Run(s, acts + [a]) == Do(Run(s, acts), a)
    decreases |acts|
  {
    if acts == [] {
      assert acts + [a] == [a];
    } else {
      RunSnoc(Do(s, acts[0]), acts[1..], a);
      assert (acts + [a])[1..] == acts[1..] + [a];
    }
  }

  /** `acts` lead from a fresh queue to `s`. */
  ghost predicate Reaches<T>(n: nat, acts: seq<Action<T>>, s: State<T>) {
    ValidRun(Init<T>(n), acts) && Run(Init<T>(n), acts) == s
  }

  lemma Then<T>(n: nat, acts: seq<Action<T>>, s: State<T>, a: Action<T>)
    requires Reaches(n, acts, s) && Enabled(s, a)
    ensures Reaches(n, acts + [a], Do(s, a))
  {
    RunSnoc(Init<T>(n), acts, a);
  }

  /** A pop that misses, then a push, from beginning to end. */
  function MissThenPush<T>(v: T): seq<Action<T>> {
    [ReadOwnTail(0)] + [ReadHead(0)] + [Begin(v, 0)] + [ReadOwnHead(0)] + [ReadTail(0)] + [DoConstruct] + [StoreHead]
  }

  lemma MissesFirst<T>(n: nat, v: T) returns (acts: seq<Action<T>>, s: State<T>)
    requires 2 <= n
    ensures Reaches(n, acts, s) && acts == [ReadOwnTail(0)] + [ReadHead(0)] + [Begin(v, 0)] + [ReadOwnHead(0)]
    ensures |s.slots| == |s.uses| == n && s.prod.pc == PLoadTail(v, 0) && s.cons.pc.CIdle?
    ensures s.statuses == [Running] && s.cons.view.status == 0 && s.popped == [] && s.log == []
    ensures |s.tails| == 1 && s.tails[0].val == 0 && s.prod.view.tail == 0
  {
    acts, s := [], Init<T>(n);
    Then(n, acts, s, ReadOwnTail(0)); acts, s := acts + [ReadOwnTail(0)], Do(s, ReadOwnTail(0));
    Then(n, acts, s, ReadHead(0)); acts, s := acts + [ReadHead(0)], Do(s, ReadHead(0));
    Then(n, acts, s, Begin(v, 0)); acts, s := acts + [Begin(v, 0)], Do(s, Begin(v, 0));
    Then(n, acts, s, ReadOwnHead(0)); acts, s := acts + [ReadOwnHead(0)], Do(s, ReadOwnHead(0));
  }

  lemma PushesThen<T>(n: nat, v: T) returns (s: State<T>)
    requires 2 <= n
    ensures Reaches(n, MissThenPush(v), s)
    ensures |s.slots| == |s.uses| == n && s.slots[0] == Live(v) && s.cons.pc.CIdle?
    ensures s.statuses == [Running] && s.cons.view.status == 0 && s.popped == [] && |s.log| == 1
  {
    var acts;
    acts, s := MissesFirst(n, v);
    assert Next(0, n) == 1;
    Then(n, acts, s, ReadTail(0)); acts, s := acts + [ReadTail(0)], Do(s, ReadTail(0));
    Then(n, acts, s, DoConstruct); acts, s := acts + [DoConstruct], Do(s, DoConstruct);
    Then(n, acts, s, StoreHead); acts, s := acts + [StoreHead], Do(s, StoreHead);
  }

  /** `blocking_pop` can return nothing although the queue is stopped and holds an element: the
      push and the stop fall between its failed try and its two status loads. */
  lemma NothingButNotEmpty<T>(n: nat, v: T) returns (s: State<T>)
    requires 2 <= n
    ensures Reaches(n, MissThenPush(v) + [SetStatus(Stopped)] + [CheckStatusC(1)] + [CheckStatusC(1)], s)
    ensures s.cons.pc.CIdle? && s.statuses == [Running, Stopped] && s.cons.view.status == 1
    ensures s.popped == [] && |s.log| == 1 && |s.slots| == n && s.slots[0] == Live(v)
  {
    s := PushesThen(n, v);
    var acts := MissThenPush(v);
    Then(n, acts, s, SetStatus(Stopped)); acts, s := acts + [SetStatus(Stopped)], Do(s, SetStatus(Stopped));
    Then(n, acts, s, CheckStatusC(1)); acts, s := acts + [CheckStatusC(1)], Do(s, CheckStatusC(1));
    Then(n, acts, s, CheckStatusC(1)); acts, s := acts + [CheckStatusC(1)], Do(s, CheckStatusC(1));
  }
}
