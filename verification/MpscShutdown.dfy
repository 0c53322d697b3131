/** Stopping the multi-producer queue: how much can still get in, and what a pop that finds
    nothing means. */
module MpscShutdown {
  import opened Memory
  import opened MpscQueue
  import opened MpscInvariant
  import opened MpscTheorems

  /** Past the status check of `try_push`, with no place reserved yet. */
  predicate Entering<T>(p: Producer<T>) {
    p.pc.LoadHead? || p.pc.LoadSeq? || p.pc.Cas? || p.pc.Reload?
  }

  function CountEntering<T>(prods: seq<Producer<T>>): (r: nat)
    ensures r <= |prods|
  {
    if prods == [] then 0
    else CountEntering(prods[1..]) + if Entering(prods[0]) then 1 else 0
  }

  lemma {:induction false} CountUpdate<T>(prods: seq<Producer<T>>, i: nat, p: Producer<T>)
    requires i < |prods|
    ensures CountEntering(prods[i := p]) + (if Entering(prods[i]) then 1 else 0)
            == CountEntering(prods) + (if Entering(p) then 1 else 0)
  {
    if i == 0 {
      assert prods[0 := p][1..] == prods[1..];
    } else {
      CountUpdate(prods[1..], i - 1, p);
      assert prods[i := p][1..] == prods[1..][i - 1 := p];
    }
  }

  /** A run in which nobody calls `run()`. */
  ghost predicate NoRestart<T>(acts: seq<Action<T>>) {
    forall a :: a in acts ==> a != SetStatus(Running)
  }

  /** How many calls of `try_push` in a run load a status stored before store `m`, the stop. */
  function Missed<T>(acts: seq<Action<T>>, m: nat): nat {
    if acts == [] then 0
    else Missed(acts[1..], m) + if acts[0].Begin? && acts[0].k < m then 1 else 0
  }

  ghost predicate StoppedFrom<T>(s: State<T>, m: nat) {
    forall k :: m <= k < |s.statuses| ==> s.statuses[k].Stopped?
  }

  lemma StopStep<T>(s: State<T>, a: Action<T>, m: nat)
    requires Enabled(s, a) && StoppedFrom(s, m) && a != SetStatus(Running)
    ensures StoppedFrom(Do(s, a), m)
    ensures |Do(s, a).log| + CountEntering(Do(s, a).prods)
            <= |s.log| + CountEntering(s.prods) + if a.Begin? && a.k < m then 1 else 0
  {
    if a.Begin? || a.ReadHead? || a.ReadSeq? || a.CasOk? || a.CasFail? || a.DoConstruct? || a.DoPublish? || a.CheckStatus? {
      ProducerStep(s, a);
    }
  }

  lemma ProducerStep<T>(s: State<T>, a: Action<T>)
    requires Enabled(s, a)
    requires a.Begin? || a.ReadHead? || a.ReadSeq? || a.CasOk? || a.CasFail? || a.DoConstruct? || a.DoPublish? || a.CheckStatus?
    ensures Do(s, a).statuses == s.statuses
    ensures |Do(s, a).log| + CountEntering(Do(s, a).prods)
            <= |s.log| + CountEntering(s.prods) + if a.Begin? && s.statuses[a.k].Running? then 1 else 0
  {
    CountUpdate(s.prods, a.i, Do(s, a).prods[a.i]);
  }

  /** Once stopped, only the producers already past the status check, and those whose relaxed
      load misses the stop, reserve a place. */
  lemma {:induction false} StopBound<T>(s: State<T>, acts: seq<Action<T>>, m: nat)
    requires StoppedFrom(s, m) && ValidRun(s, acts) && NoRestart(acts)
    ensures |Run(s, acts).log| + CountEntering(Run(s, acts).prods) <= |s.log| + CountEntering(s.prods) + Missed(acts, m)
    decreases |acts|
  {
    if acts != [] {
      assert acts[0] in acts && forall a :: a in acts[1..] ==> a in acts;
      StopStep(s, acts[0], m);
      StopBound(Do(s, acts[0]), acts[1..], m);
    }
  }

  // ----- "nothing" from blocking_pop -----------------------------------------------------

  /** `pos`'s cell belongs to a producer that has reserved it and not yet published. */
  ghost predicate InFlight<T>(s: State<T>, pos: nat) {
    s.cells != [] && s.cells[CellOf(pos, |s.cells|)].owner.ByProducer?
  }

  ghost predicate UpToDate<T>(s: State<T>, k: nat) {
    && s.cells != [] && s.cons.pc.CLoadSeq?
    && k + 1 == |s.cells[CellOf(s.cons.pc.pos, |s.cells|)].marks|
  }

  /** An up-to-date `seq` load of the consumer misses exactly when the queue is empty or the
      oldest place is reserved and not published. */
  lemma MissExact<T>(s: State<T>, k: nat)
    requires Inv(s) && Enabled(s, ReadMark(k)) && UpToDate(s, k)
    ensures Do(s, ReadMark(k)).cons.pc.CIdle? <==> |s.log| == |s.popped| || InFlight(s, s.released)
  {
    assert CellOk(s, s.released);
  }

  /** `acts` lead from a fresh queue to `s`. */
  ghost predicate After<T>(n: nat, producers: nat, acts: seq<Action<T>>, s: State<T>) {
    ValidRun(Init<T>(n, producers), acts) && Run(Init<T>(n, producers), acts) == s
  }

  lemma Then<T>(n: nat, producers: nat, acts: seq<Action<T>>, s: State<T>, a: Action<T>)
    requires After(n, producers, acts, s) && Enabled(s, a)
    ensures After(n, producers, acts + [a], Do(s, a))
  {
    RunSnoc(Init<T>(n, producers), acts, a);
  }

  /** A pop that misses, then a push, from beginning to end. */
  function MissThenPush<T>(v: T): seq<Action<T>> {
    [ReadTail(0)] + [ReadMark(0)] + [Begin(0, v, 0)] + [ReadHead(0, 0)]
    + [ReadSeq(0, 0)] + [CasOk(0)] + [DoConstruct(0)] + [DoPublish(0)]
  }

  lemma MissesFirst<T>(n: nat, producers: nat, v: T) returns (acts: seq<Action<T>>, s: State<T>)
    requires 1 <= n && 1 <= producers
    ensures After(n, producers, acts, s) && acts == [ReadTail(0)] + [ReadMark(0)] + [Begin(0, v, 0)] + [ReadHead(0, 0)]
    ensures |s.cells| == n && s.prods != [] && s.prods[0].pc == LoadSeq(v, 0) && s.cons.pc.CIdle?
    ensures s.statuses == [Running] && s.cons.view.status == 0 && s.popped == [] && s.log == [] && s.heads == [0]
    ensures |s.prods[0].view.cell| == n && s.prods[0].view.cell[0] == 0
    ensures |s.cells[0].marks| == 1 && s.cells[0].marks[0].val == 0
  {
    acts, s := [], Init<T>(n, producers);
    assert CellOf(0, n) == 0;
    Then(n, producers, acts, s, ReadTail(0)); acts, s := acts + [ReadTail(0)], Do(s, ReadTail(0));
    Then(n, producers, acts, s, ReadMark(0)); acts, s := acts + [ReadMark(0)], Do(s, ReadMark(0));
    Then(n, producers, acts, s, Begin(0, v, 0)); acts, s := acts + [Begin(0, v, 0)], Do(s, Begin(0, v, 0));
    Then(n, producers, acts, s, ReadHead(0, 0)); acts, s := acts + [ReadHead(0, 0)], Do(s, ReadHead(0, 0));
  }

  lemma PushesThen<T>(n: nat, producers: nat, v: T) returns (s: State<T>)
    requires 1 <= n && 1 <= producers
    ensures After(n, producers, MissThenPush(v), s)
    ensures |s.cells| == n && s.cells[0].slot == Live(v) && s.cons.pc.CIdle?
    ensures s.statuses == [Running] && s.cons.view.status == 0 && s.popped == [] && |s.log| == 1
  {
    var acts;
    acts, s := MissesFirst(n, producers, v);
    assert CellOf(0, n) == 0;
    Then(n, producers, acts, s, ReadSeq(0, 0)); acts, s := acts + [ReadSeq(0, 0)], Do(s, ReadSeq(0, 0));
    Then(n, producers, acts, s, CasOk(0)); acts, s := acts + [CasOk(0)], Do(s, CasOk(0));
    Then(n, producers, acts, s, DoConstruct(0)); acts, s := acts + [DoConstruct(0)], Do(s, DoConstruct(0));
    Then(n, producers, acts, s, DoPublish(0)); acts, s := acts + [DoPublish(0)], Do(s, DoPublish(0));
  }

  /** `blocking_pop` can return nothing although the queue is stopped and holds an element: the
      push and the stop fall between its failed try and its two status loads. */
  lemma NothingButNotEmpty<T>(n: nat, producers: nat, v: T) returns (s: State<T>)
    requires 1 <= n && 1 <= producers
    ensures After(n, producers, MissThenPush(v) + [SetStatus(Stopped)] + [CheckStatusC(1)] + [CheckStatusC(1)], s)
    ensures s.cons.pc.CIdle? && s.statuses == [Running, Stopped] && s.cons.view.status == 1
    ensures s.popped == [] && |s.log| == 1 && |s.cells| == n && s.cells[0].slot == Live(v)
  {
    s := PushesThen(n, producers, v);
    var acts := MissThenPush(v);
    Then(n, producers, acts, s, SetStatus(Stopped)); acts, s := acts + [SetStatus(Stopped)], Do(s, SetStatus(Stopped));
    Then(n, producers, acts, s, CheckStatusC(1)); acts, s := acts + [CheckStatusC(1)], Do(s, CheckStatusC(1));
    Then(n, producers, acts, s, CheckStatusC(1)); acts, s := acts + [CheckStatusC(1)], Do(s, CheckStatusC(1));
  }
}
