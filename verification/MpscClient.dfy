/**
 The operations of `BoundedMPSCQueue` as the calling thread runs them: straight-line and
 retrying code, with the other threads free to take any number of steps between any two
 accesses.
 */
module MpscClient {
  import opened Helpers
  import opened Memory
  import opened MpscQueue
  import opened MpscInvariant
  import opened MpscTheorems
  import opened MpscShutdown

  datatype Thread = Prod(i: nat) | Cons | Controller

  function Actor<T>(a: Action<T>): Thread {
    match a
    case Begin(i, _, _) => Prod(i)
    case ReadHead(i, _) => Prod(i)
    case ReadSeq(i, _) => Prod(i)
    case CasOk(i) => Prod(i)
    case CasFail(i, _) => Prod(i)
    case DoConstruct(i) => Prod(i)
    case DoPublish(i) => Prod(i)
    case CheckStatus(i, _) => Prod(i)
    case SetStatus(_) => Controller
    case _ => Cons
  }

  /** Threads other than `me` lead from `s` to `s'`. */
  ghost predicate ByOthers<T(!new)>(s: State<T>, s': State<T>, me: Thread) {
    exists acts: seq<Action<T>> ::
      ValidRun(s, acts) && Run(s, acts) == s' && forall a :: a in acts ==> Actor(a) != me
  }

  /** `s'` is no earlier than `s`: nothing recorded in `s` is undone. */
  ghost predicate Later<T>(s: State<T>, s': State<T>) {
    && s.log <= s'.log && s.popped <= s'.popped && s.released <= s'.released
    && s.statuses <= s'.statuses && |s'.prods| == |s.prods|
  }

  /** What a thread may rely on across the steps of others. */
  ghost predicate Kept<T>(s: State<T>, s': State<T>, me: Thread) {
    && s.log <= s'.log && |s'.prods| == |s.prods| && |s'.cells| == |s.cells|
    && (me.Prod? && me.i < |s.prods| ==> s'.prods[me.i] == s.prods[me.i])
    && (me.Cons? ==> s'.cons == s.cons && s'.popped == s.popped && s'.released == s.released)
  }

  lemma StepKeeps<T>(s: State<T>, a: Action<T>, me: Thread)
    requires Enabled(s, a) && Actor(a) != me
    ensures Kept(s, Do(s, a), me)
  {
  }

  lemma {:induction false} OthersKeep<T>(s: State<T>, acts: seq<Action<T>>, me: Thread)
    requires ValidRun(s, acts) && forall a :: a in acts ==> Actor(a) != me
    ensures Kept(s, Run(s, acts), me)
    decreases |acts|
  {
    if acts != [] {
      assert acts[0] in acts;
      StepKeeps(s, acts[0], me);
      OthersKeep(Do(s, acts[0]), acts[1..], me);
    }
  }

  datatype PushResult = Pushed | Refused | OutOfRounds

  /** What `try_push` makes of a running queue when undisturbed: it pushes in the first round that the
      compare-exchange does not fail for no reason. */
  function AloneResult<T>(s: State<T>, weak: seq<bool>): PushResult {
    if |s.log| >= s.released + |s.cells| then Refused else if false in weak then Pushed else OutOfRounds
  }

  datatype PopResult<T> = Popped(x: T) | Nothing

  lemma StepLater<T>(s: State<T>, a: Action<T>)
    requires Inv(s) && Enabled(s, a)
    ensures Later(s, Do(s, a))
  {
    if a.Release? {
      assert ConsOk(s);
    }
  }

  lemma {:induction false} RunLater<T>(s: State<T>, acts: seq<Action<T>>)
    requires Inv(s) && ValidRun(s, acts)
    ensures Later(s, Run(s, acts))
    decreases |acts|
  {
    if acts != [] {
      StepLater(s, acts[0]);
      StepInv(s, acts[0]);
      RunLater(Do(s, acts[0]), acts[1..]);
    }
  }

  /** All that a run of the other threads can do. */
  lemma {:induction false} OthersAllow<T(!new)>(s: State<T>, acts: seq<Action<T>>, me: Thread)
    requires Inv(s) && ValidRun(s, acts) && forall k :: 0 <= k < |acts| ==> Actor(acts[k]) != me
    ensures var s' := Run(s, acts); Inv(s') && ByOthers(s, s', me) && Kept(s, s', me) && Later(s, s')
  {
    OthersKeep(s, acts, me);
    RunInv(s, acts);
    RunLater(s, acts);
  }

  /** The last step was producer `i` giving up on `v`: on a `seq` load that found the cell
      unreleased, or on a status load that found Stopped. */
  ghost predicate RefusedAt<T>(at: State<T>, s: State<T>, i: nat, v: T, k: nat) {
    && Inv(at) && i < |at.prods|
    && (|| (at.prods[i].pc.LoadSeq? && at.prods[i].pc.v == v && Enabled(at, ReadSeq(i, k)) && s == Do(at, ReadSeq(i, k)))
        || (Enabled(at, Begin(i, v, k)) && at.statuses[k].Stopped? && s == Do(at, Begin(i, v, k))))
  }

  /** A load in state `at` on which producer `i` gives up on `v`. */
  ghost predicate Refuses<T>(at: State<T>, i: nat, v: T, k: nat) {
    && Inv(at) && i < |at.prods|
    && (|| (at.prods[i].pc.LoadSeq? && at.prods[i].pc.v == v && Enabled(at, ReadSeq(i, k)) && Do(at, ReadSeq(i, k)).prods[i].pc.Idle?)
        || (Enabled(at, Begin(i, v, k)) && at.statuses[k].Stopped?))
  }

  /** In state `at` producer `i`'s compare-exchange for `v` fails: another thread has moved the
      head, or it is one of the failures without a reason that `weak` stands for. */
  ghost predicate LosesAt<T>(at: State<T>, i: nat, v: T, weak: bool) {
    && Inv(at) && i < |at.prods| && at.prods[i].pc.Cas? && at.prods[i].pc.v == v
    && (weak || Last(at.heads) != at.prods[i].pc.pos)
  }

  /** In state `at` producer `i` loads a mark above its position: others have gone past it. */
  ghost predicate BehindAt<T>(at: State<T>, i: nat, v: T, k: nat) {
    && Inv(at) && i < |at.prods| && at.prods[i].pc.LoadSeq? && at.prods[i].pc.v == v && Enabled(at, ReadSeq(i, k))
    && at.prods[i].pc.pos < at.cells[CellOf(at.prods[i].pc.pos, |at.cells|)].marks[k].val
  }

  /** A state in which a thread did an access, and the store that returned. */
  datatype Pass<T> = Pass(at: State<T>, k: nat)

  /** A pass of the retry loop of `try_push` that neither pushed nor refused. */
  ghost predicate Again<T>(s0: State<T>, q: Pass<T>, i: nat, v: T, weak: bool) {
    Later(s0, q.at) && (LosesAt(q.at, i, v, weak) || BehindAt(q.at, i, v, q.k))
  }

  ghost predicate AllAgain<T>(s0: State<T>, passes: seq<Pass<T>>, i: nat, v: T, weak: seq<bool>) {
    |passes| <= |weak| && forall j :: 0 <= j < |passes| ==> Again(s0, passes[j], i, v, weak[j])
  }

  lemma AgainMore<T>(s0: State<T>, passes: seq<Pass<T>>, q: Pass<T>, i: nat, v: T, weak: seq<bool>)
    requires AllAgain(s0, passes, i, v, weak) && |passes| < |weak| && Again(s0, q, i, v, weak[|passes|])
    ensures AllAgain(s0, passes + [q], i, v, weak)
  {
    forall j | 0 <= j < |passes + [q]| ensures Again(s0, (passes + [q])[j], i, v, weak[j]) {
      if j < |passes| {
        assert (passes + [q])[j] == passes[j];
      }
    }
  }

  lemma AgainEarlier<T>(s0: State<T>, s1: State<T>, q: Pass<T>, i: nat, v: T, weak: bool)
    requires Later(s0, s1) && Again(s1, q, i, v, weak)
    ensures Again(s0, q, i, v, weak)
  {
  }

  lemma AgainAfter<T>(s0: State<T>, s1: State<T>, passes: seq<Pass<T>>, q: Pass<T>, i: nat, v: T, weak: seq<bool>)
    requires AllAgain(s0, passes, i, v, weak) && |passes| < |weak| && Later(s0, s1) && Again(s1, q, i, v, weak[|passes|])
    ensures AllAgain(s0, passes + [q], i, v, weak)
  {
    AgainEarlier(s0, s1, q, i, v, weak[|passes|]);
    AgainMore(s0, passes, q, i, v, weak);
  }

  /** Tries that gave up on `v`. */
  ghost predicate AllRefused<T>(s0: State<T>, tries: seq<Pass<T>>, i: nat, v: T) {
    forall j :: 0 <= j < |tries| ==> Later(s0, tries[j].at) && Refuses(tries[j].at, i, v, tries[j].k)
  }

  lemma RefusedMore<T>(s0: State<T>, tries: seq<Pass<T>>, q: Pass<T>, i: nat, v: T)
    requires AllRefused(s0, tries, i, v) && Later(s0, q.at) && Refuses(q.at, i, v, q.k)
    ensures AllRefused(s0, tries + [q], i, v)
  {
    forall j | 0 <= j < |tries + [q]| ensures Later(s0, (tries + [q])[j].at) && Refuses((tries + [q])[j].at, i, v, (tries + [q])[j].k) {
      if j < |tries| {
        assert (tries + [q])[j] == tries[j];
      }
    }
  }

  /** Tries that found nothing. */
  ghost predicate AllMissed<T>(s0: State<T>, tries: seq<Pass<T>>) {
    forall j :: 0 <= j < |tries| ==> Later(s0, tries[j].at) && Misses(tries[j].at, tries[j].k)
  }

  lemma MissedMore<T>(s0: State<T>, tries: seq<Pass<T>>, q: Pass<T>)
    requires AllMissed(s0, tries) && Later(s0, q.at) && Misses(q.at, q.k)
    ensures AllMissed(s0, tries + [q])
  {
    forall j | 0 <= j < |tries + [q]| ensures Later(s0, (tries + [q])[j].at) && Misses((tries + [q])[j].at, (tries + [q])[j].k) {
      if j < |tries| {
        assert (tries + [q])[j] == tries[j];
      }
    }
  }

  /** Nothing has been pushed, popped or stored to the status. */
  ghost predicate Same<T>(s: State<T>, s': State<T>) {
    s'.log == s.log && s'.popped == s.popped && s'.released == s.released && s'.statuses == s.statuses && |s'.cells| == |s.cells|
  }

  /** Producer `i` has reserved nothing and forgotten no status. */
  ghost predicate SameProducer<T>(s: State<T>, s': State<T>, i: nat) {
    && i < |s.prods| == |s'.prods|
    && s'.prods[i].sent == s.prods[i].sent && s.prods[i].view.status <= s'.prods[i].view.status
  }

  /** Exactly one push has happened, of `v` by producer `i`. */
  ghost predicate OnePush<T>(s: State<T>, s': State<T>, i: nat, v: T) {
    && s'.log == s.log + [Entry(i, v)]
    && s'.popped == s.popped && s'.released == s.released && s'.statuses == s.statuses
  }

  /** An undisturbed compare-exchange at the head pushes unless `weak` makes it fail, and then may be
      tried again. */
  ghost predicate AloneCas<T>(s: State<T>, s': State<T>, i: nat, v: T, weak: bool, pushed: bool) {
    && i < |s'.prods| && pushed == !weak
    && (pushed ==> OnePush(s, s', i, v))
    && (!pushed ==> Same(s, s') && s'.prods[i].pc.LoadSeq? && s'.prods[i].pc.pos == |s'.log|)
  }

  /** There is room, producer `i` is at the head, and so far every compare-exchange failed for no
      reason; nothing has happened since `s0`. */
  ghost predicate AllWeak<T>(s0: State<T>, s: State<T>, i: nat, weak: seq<bool>, done: nat) {
    && Same(s0, s) && HasRoom(s) && i < |s.prods| && (s.prods[i].pc.LoadSeq? ==> s.prods[i].pc.pos == |s.log|)
    && done <= |weak| && forall j :: 0 <= j < done ==> weak[j]
  }

  /** An undisturbed round at the head refuses without room. */
  ghost predicate AloneRound<T>(s: State<T>, s': State<T>, i: nat, v: T, weak: bool, pushed: bool) {
    if HasRoom(s) then AloneCas(s, s', i, v, weak, pushed) else i < |s'.prods| && !pushed && s'.prods[i].pc.Idle?
  }

  /** Undisturbed, after `done` rounds: nothing has happened yet, or only failures for no reason. */
  ghost predicate AloneAt<T>(s0: State<T>, s: State<T>, i: nat, weak: seq<bool>, done: nat) {
    && i < |s.prods| && s.prods[i].pc.LoadSeq? && s.prods[i].pc.pos == |s.log|
    && if done == 0 then s == s0 else AllWeak(s0, s, i, weak, done)
  }

  /** What a further undisturbed round gives: the result foretold, or only the rest of `weak`. */
  ghost predicate AloneGives<T>(s0: State<T>, s: State<T>, i: nat, v: T, weak: seq<bool>, done: nat, r: PushResult) {
    if r.OutOfRounds? then AloneAt(s0, s, i, weak, done) && (done == |weak| ==> AloneResult(s0, weak) == OutOfRounds)
    else r == AloneResult(s0, weak) && (r.Pushed? ==> OnePush(s0, s, i, v))
  }

  lemma AloneNext<T>(s0: State<T>, s: State<T>, s': State<T>, i: nat, v: T, weak: seq<bool>, done: nat, r: PushResult)
    requires done < |weak| && AloneAt(s0, s, i, weak, done)
    requires AloneRound(s, s', i, v, weak[done], r.Pushed?)
    requires !r.Pushed? ==> (r.Refused? <==> s'.prods[i].pc.Idle?)
    ensures AloneGives(s0, s', i, v, weak, done + 1, r)
  {
  }

  /** The newest status producer `i` has seen is Stopped. */
  predicate StopSeen<T>(s: State<T>, i: nat) {
    && i < |s.prods| && s.prods[i].view.status < |s.statuses|
    && s.statuses[s.prods[i].view.status].Stopped?
  }

  predicate StopSeenC<T>(s: State<T>) {
    s.cons.view.status < |s.statuses| && s.statuses[s.cons.view.status].Stopped?
  }

  lemma NotStoppedLater<T>(s: State<T>, s': State<T>, m: nat)
    requires Later(s, s') && StoppedFrom(s', m)
    ensures StoppedFrom(s, m)
  {
    forall k | m <= k < |s.statuses| ensures s.statuses[k].Stopped? {
      assert s'.statuses[k] == s.statuses[k];
    }
  }

  lemma RefusedRefuses<T>(at: State<T>, s: State<T>, i: nat, v: T, k: nat)
    requires RefusedAt(at, s, i, v, k) && s.prods[i].pc.Idle?
    ensures Refuses(at, i, v, k)
  {
  }

  /** The queue is empty in `s` exactly when, at a load in `at` that missed, the oldest place was
      not awaiting its publication and nothing has been reserved since. */
  ghost predicate EmptyIfQuiet<T>(s: State<T>, at: State<T>) {
    |s.log| == |s.popped| <==> s.log == at.log && !InFlight(at, at.released)
  }

  /** The consumer has given up on Stopped after `tries`; if the last of their loads was up to date,
      `EmptyIfQuiet` says when the queue is empty. */
  ghost predicate GaveUp<T>(s: State<T>, tries: seq<Pass<T>>) {
    && StopSeenC(s) && tries != [] && Later(Last(tries).at, s)
    && (UpToDate(Last(tries).at, Last(tries).k) ==> EmptyIfQuiet(s, Last(tries).at))
  }

  /** There is a released cell for the next push. */
  predicate HasRoom<T>(s: State<T>) {
    |s.log| < s.released + |s.cells|
  }

  /** The oldest element is published. */
  ghost predicate HasOldest<T>(s: State<T>) {
    |s.popped| < |s.log| && !InFlight(s, s.released)
  }

  /** An up-to-date `seq` load at the current head leads to the compare-exchange if there is room
      and to a refusal if there is none. */
  lemma NewestSeq<T>(s: State<T>, i: nat)
    requires Inv(s) && i < |s.prods| && s.prods[i].pc.LoadSeq? && s.prods[i].pc.pos == |s.log|
    ensures Enabled(s, ReadSeq(i, NewestIndex(s, |s.log|)))
    ensures Do(s, ReadSeq(i, NewestIndex(s, |s.log|))).prods[i].pc
            == if HasRoom(s) then Cas(s.prods[i].pc.v, |s.log|, NewestIndex(s, |s.log|)) else Idle
  {
    var pos := |s.log|;
    RefusalInv(s, i, pos);
    if HasRoom(s) {
      assert CellOk(s, pos);
    }
  }

  /** The last step was the consumer's `seq` load not finding its position published. */
  ghost predicate MissedAt<T>(at: State<T>, s: State<T>, k: nat) {
    Inv(at) && Enabled(at, ReadMark(k)) && s == Do(at, ReadMark(k)) && s.cons.pc.CIdle?
  }

  ghost predicate Misses<T>(at: State<T>, k: nat) {
    Inv(at) && Enabled(at, ReadMark(k)) && Do(at, ReadMark(k)).cons.pc.CIdle?
  }

  /** No push is between its reservation and its publication. */
  ghost predicate Quiet<T>(s: State<T>) {
    forall i :: 0 <= i < |s.prods| ==> !s.prods[i].pc.Construct? && !s.prods[i].pc.Publish?
  }

  /** Everything stored to the cells happens before the consumer's next step, as after joining
      the producers. */
  ghost predicate Synced<T>(s: State<T>) {
    |s.cons.view.cell| == |s.cells| &&
    forall c :: 0 <= c < |s.cells| ==> s.cons.view.cell[c] + 1 == |s.cells[c].marks|
  }

  /** At rest, the last mark of the oldest cell tells whether anything is left. */
  lemma OldestMark<T>(s: State<T>)
    requires Inv(s) && Quiet(s) && (s.cons.pc.CIdle? || s.cons.pc.CLoadSeq?)
    ensures var marks := s.cells[CellOf(s.released, |s.cells|)].marks;
            marks != [] && (Last(marks).val == s.released + 1 <==> s.released < |s.log|)
  {
    assert CellOk(s, s.released);
  }

  /** At rest no reserved place is waiting for its publication. */
  lemma NothingInFlight<T>(s: State<T>)
    requires Inv(s) && Quiet(s)
    ensures !InFlight(s, s.released)
  {
    assert CellOk(s, s.released);
  }

  lemma EmptyIsRaw<T>(s: State<T>)
    requires Inv(s) && s.cons.pc.CIdle? && s.released == |s.log|
    ensures forall c :: 0 <= c < |s.cells| ==> s.cells[c].slot == Raw
  {
    forall c | 0 <= c < |s.cells| ensures s.cells[c].slot == Raw {
      var p := PositionOf(s.released, c, |s.cells|);
      assert CellOk(s, p);
    }
  }

  /** A place for `v`, and nothing else, has been reserved by producer `i`. */
  ghost predicate Gained<T>(s: State<T>, s': State<T>, i: nat, v: T) {
    && i < |s.prods| == |s'.prods| && s'.prods[i].sent == s.prods[i].sent + [v]
    && exists j :: |s.log| <= j < |s'.log| && s'.log[j] == Entry(i, v)
  }

  /** The consumer knows every store to a `seq` that the first `m` producers know. */
  ghost predicate Joined<T>(s: State<T>, m: nat) {
    m <= |s.prods| && forall i :: 0 <= i < m ==> Grows(s.prods[i].view, s.cons.view)
  }

  lemma SyncJoins<T>(s: State<T>, m: nat)
    requires Inv(s) && Joined(s, m) && Enabled(s, Sync(m))
    ensures Joined(Do(s, Sync(m)), m + 1)
  {
    var s' := Do(s, Sync(m));
    assert ProdOk(s, m);
    forall i | 0 <= i < m + 1 ensures Grows(s'.prods[i].view, s'.cons.view) {
      assert ProdOk(s, i);
    }
  }

  /** Having joined all producers, the consumer knows the newest store to every `seq`. */
  lemma JoinSyncs<T>(s: State<T>)
    requires Inv(s) && Joined(s, |s.prods|)
    ensures Synced(s)
  {
    forall c | 0 <= c < |s.cells| ensures s.cons.view.cell[c] + 1 == |s.cells[c].marks| {
      assert Known(s, c);
      if i: nat :| i < |s.prods| && Newest(s, s.prods[i].view, c) {
        assert Grows(s.prods[i].view, s.cons.view);
      }
    }
  }

  class Queue<T(!new)> {
    var s: State<T>
    /** The environment: when true, no other thread moves, every load returns the newest store and
        no compare-exchange fails without a reason. */
    const alone: bool

    constructor (n: nat, producers: nat, alone: bool)
      ensures s == Init<T>(n, producers) && (Inv(s) <==> 2 <= n) && this.alone == alone
    {
      s := Init<T>(n, producers);
      this.alone := alone;
      InitInv<T>(n, producers);
    }

    /** The other threads run for a while, by any steps of theirs. */
    method Others(me: Thread)
      requires Inv(s)
      modifies this
      ensures Inv(s) && ByOthers(old(s), s, me) && Kept(old(s), s, me) && Later(old(s), s)
      ensures alone ==> s == old(s)
    {
      var acts: seq<Action<T>> := *;
      if alone || !(ValidRun(s, acts) && forall k :: 0 <= k < |acts| ==> Actor(acts[k]) != me) {
        acts := [];
      }
      OthersAllow(s, acts, me);
      s := Run(s, acts);
    }

    /** The store a load returns: any of those from `lo` on. */
    method Pick(lo: nat, hi: nat) returns (k: nat)
      requires lo < hi
      ensures lo <= k < hi && (alone ==> k == hi - 1)
    {
      k :| lo <= k < hi;
      if alone {
        k := hi - 1;
      }
    }

    method Step(a: Action<T>)
      requires Inv(s) && Enabled(s, a)
      modifies this
      ensures s == Do(old(s), a) && Inv(s)
    {
      StepInv(s, a);
      s := Do(s, a);
    }

    /** `run` */
    method Restart()
      requires Inv(s)
      modifies this
      ensures Inv(s) && s == old(s).(statuses := old(s.statuses) + [Running])
    {
      Step(SetStatus(Running));
    }

    /** `stop` */
    method Stop()
      requires Inv(s)
      modifies this
      ensures Inv(s) && s == old(s).(statuses := old(s.statuses) + [Stopped])
    {
      Step(SetStatus(Stopped));
    }

    /** Producer `i` loads `_head`, at the start of a call or again after losing a race. */
    method LoadHeadOf(i: nat)
      requires Inv(s) && i < |s.prods| && (s.prods[i].pc.LoadHead? || s.prods[i].pc.Reload?)
      modifies this
      ensures Inv(s) && Later(old(s), s) && SameProducer(old(s), s, i)
      ensures s.prods[i].pc.LoadSeq? && s.prods[i].pc.v == old(s.prods[i].pc.v)
      ensures alone ==> Same(old(s), s) && s.prods[i].pc.pos == |s.log|
    {
      Others(Prod(i));
      assert ProdOk(s, i);
      var k := Pick(s.prods[i].view.head, |s.heads|);
      Step(ReadHead(i, k));
    }

    /** The load of `seq`: `k` in state `at`. */
    method LoadSeqOf(i: nat) returns (ghost at: State<T>, ghost k: nat)
      requires Inv(s) && i < |s.prods| && s.prods[i].pc.LoadSeq?
      modifies this
      ensures Inv(s) && Later(old(s), at) && Later(at, s) && SameProducer(old(s), s, i)
      ensures || (s.prods[i].pc.Idle? && RefusedAt(at, s, i, old(s.prods[i].pc.v), k))
              || (s.prods[i].pc.Cas? && s.prods[i].pc.v == old(s.prods[i].pc.v) && s.prods[i].pc.pos == old(s.prods[i].pc.pos))
              || (s.prods[i].pc.Reload? && s.prods[i].pc.v == old(s.prods[i].pc.v) && BehindAt(at, i, old(s.prods[i].pc.v), k))
      ensures alone ==> Same(old(s), s)
      ensures alone && old(s.prods[i].pc.pos) == |s.log| ==> if old(HasRoom(s)) then s.prods[i].pc.Cas? else s.prods[i].pc.Idle?
    {
      Others(Prod(i));
      var j := PickMark(i);
      at, k := s, j;
      Step(ReadSeq(i, j));
      SeqLoaded(at, i, j);
    }

    /** A store to the `seq` of its cell that the producer's load may return. */
    method PickMark(i: nat) returns (k: nat)
      requires Inv(s) && i < |s.prods| && s.prods[i].pc.LoadSeq?
      ensures Enabled(s, ReadSeq(i, k)) && (alone ==> k == NewestIndex(s, s.prods[i].pc.pos))
    {
      assert ProdOk(s, i);
      var c := CellOf(s.prods[i].pc.pos, |s.cells|);
      k := Pick(s.prods[i].view.cell[c], |s.cells[c].marks|);
    }

    static lemma SeqLoaded(at: State<T>, i: nat, k: nat)
      requires Inv(at) && Enabled(at, ReadSeq(i, k))
      ensures var s := Do(at, ReadSeq(i, k));
              && Later(at, s) && Same(at, s) && SameProducer(at, s, i)
              && (match s.prods[i].pc
                  case Idle => RefusedAt(at, s, i, at.prods[i].pc.v, k)
                  case Cas(v, pos, _) => v == at.prods[i].pc.v && pos == at.prods[i].pc.pos
                  case Reload(v, pos) => v == at.prods[i].pc.v && BehindAt(at, i, v, k)
                  case _ => false)
              && (at.prods[i].pc.pos == |at.log| && k == NewestIndex(at, |at.log|) ==>
                    if HasRoom(at) then s.prods[i].pc.Cas? else s.prods[i].pc.Idle?)
    {
      if at.prods[i].pc.pos == |at.log| {
        NewestSeq(at, i);
      }
    }

    /** The weak compare-exchange in state `at`; `weak` makes it fail whatever `_head` is. */
    method TryReserve(i: nat, weak: bool) returns (won: bool, ghost at: State<T>)
      requires Inv(s) && i < |s.prods| && s.prods[i].pc.Cas?
      modifies this
      ensures Inv(s) && Later(old(s), at) && Later(at, s)
      ensures !won ==> s.prods[i].pc.LoadSeq? && s.prods[i].pc.v == old(s.prods[i].pc.v) && SameProducer(old(s), s, i)
      ensures !won ==> LosesAt(at, i, old(s.prods[i].pc.v), weak)
      ensures won ==> s.prods[i].pc.Construct? && s.prods[i].pc.v == old(s.prods[i].pc.v)
      ensures won ==> OnePush(at, s, i, old(s.prods[i].pc.v)) && s.prods[i].sent == old(s.prods[i].sent) + [old(s.prods[i].pc.v)]
      ensures won <==> at.heads != [] && Last(at.heads) == old(s.prods[i].pc.pos) && !weak
      ensures alone ==> at == old(s) && (!won ==> Same(old(s), s) && s.prods[i].pc.pos == |s.log|)
    {
      Others(Prod(i));
      at := s;
      assert ProdOk(s, i);
      won := Last(s.heads) == s.prods[i].pc.pos && !weak;
      if won {
        Step(CasOk(i));
      } else {
        LoseRace(i);
      }
    }

    /** The compare-exchange fails and returns some newer value of `_head`. */
    method LoseRace(i: nat)
      requires Inv(s) && i < |s.prods| && s.prods[i].pc.Cas?
      modifies this
      ensures Inv(s) && Later(old(s), s) && SameProducer(old(s), s, i)
      ensures s.prods[i].pc.LoadSeq? && s.prods[i].pc.v == old(s.prods[i].pc.v)
      ensures alone ==> Same(old(s), s) && s.prods[i].pc.pos == |s.log|
    {
      assert ProdOk(s, i);
      var k := Pick(s.prods[i].view.head, |s.heads|);
      Step(CasFail(i, k));
    }

    method FillAndPublish(i: nat)
      requires Inv(s) && i < |s.prods| && s.prods[i].pc.Construct?
      modifies this
      ensures Inv(s) && Later(old(s), s) && SameProducer(old(s), s, i)
      ensures s.prods[i].pc.Idle?
      ensures alone ==> Same(old(s), s)
    {
      Others(Prod(i));
      Step(DoConstruct(i));
      Others(Prod(i));
      Step(DoPublish(i));
    }

    /** The status check of `try_push` and its first load of `_head`. */
    method Enter(i: nat, v: T) returns (ghost at: State<T>, ghost k: nat)
      requires Inv(s) && i < |s.prods| && s.prods[i].pc.Idle?
      modifies this
      ensures Inv(s) && Later(old(s), s) && SameProducer(old(s), s, i)
      ensures || (s.prods[i].pc.Idle? && Later(old(s), at) && RefusedAt(at, s, i, v, k))
              || (s.prods[i].pc.LoadSeq? && s.prods[i].pc.v == v)
      ensures StoppedFrom(s, old(s.prods[i].view.status)) ==> s.prods[i].pc.Idle?
      ensures alone ==> Same(old(s), s) && (s.prods[i].pc.Idle? <==> Last(s.statuses).Stopped?)
      ensures alone && s.prods[i].pc.LoadSeq? ==> s.prods[i].pc.pos == |s.log|
    {
      at, k := CheckRunning(i, v);
      if s.prods[i].pc.LoadHead? {
        LoadHeadOf(i);
      }
    }

    method CheckRunning(i: nat, v: T) returns (ghost at: State<T>, ghost k: nat)
      requires Inv(s) && i < |s.prods| && s.prods[i].pc.Idle?
      modifies this
      ensures Inv(s) && Later(old(s), s) && SameProducer(old(s), s, i)
      ensures || (s.prods[i].pc.Idle? && Later(old(s), at) && RefusedAt(at, s, i, v, k))
              || (s.prods[i].pc.LoadHead? && s.prods[i].pc.v == v)
      ensures old(s.prods[i].view.status) <= k < |s.statuses| && (s.prods[i].pc.Idle? <==> s.statuses[k].Stopped?)
      ensures alone ==> Same(old(s), s) && k == |s.statuses| - 1
    {
      Others(Prod(i));
      assert ProdOk(s, i);
      var j := Pick(s.prods[i].view.status, |s.statuses|);
      at, k := s, j;
      Step(Begin(i, v, j));
    }

    /** One round of the retry loop of `try_push`; unless it pushes, load or compare-exchange in
        state `at` says why. */
    method Round(i: nat, weak: bool) returns (pushed: bool, ghost at: State<T>, ghost k: nat)
      requires Inv(s) && i < |s.prods| && s.prods[i].pc.LoadSeq?
      modifies this
      ensures Inv(s) && Later(old(s), s)
      ensures pushed ==> s.prods[i].pc.Idle? && Gained(old(s), s, i, old(s.prods[i].pc.v))
      ensures !pushed ==> SameProducer(old(s), s, i)
      ensures !pushed ==>
                || (s.prods[i].pc.Idle? && Later(old(s), at) && RefusedAt(at, s, i, old(s.prods[i].pc.v), k))
                || (&& s.prods[i].pc.LoadSeq? && s.prods[i].pc.v == old(s.prods[i].pc.v)
                    && Again(old(s), Pass(at, k), i, old(s.prods[i].pc.v), weak))
      ensures alone && old(s.prods[i].pc.pos) == |old(s.log)| ==> AloneRound(old(s), s, i, old(s.prods[i].pc.v), weak, pushed)
    {
      pushed := false;
      at, k := LoadSeqOf(i);
      if !s.prods[i].pc.Idle? {
        pushed, at, k := Proceed(i, weak, at, k, old(s));
      }
    }

    /** The round after its `seq` load, `k0` in state `at0`. */
    method Proceed(i: nat, weak: bool, ghost at0: State<T>, ghost k0: nat, ghost s0: State<T>)
      returns (pushed: bool, ghost at: State<T>, ghost k: nat)
      requires Inv(s) && i < |s.prods| && Later(s0, s) && (s.prods[i].pc.Cas? || s.prods[i].pc.Reload?)
      requires s.prods[i].pc.Reload? ==> Later(s0, at0) && BehindAt(at0, i, s.prods[i].pc.v, k0)
      modifies this
      ensures Inv(s) && Later(old(s), s)
      ensures pushed ==> s.prods[i].pc.Idle? && Gained(old(s), s, i, old(s.prods[i].pc.v))
      ensures !pushed ==> && SameProducer(old(s), s, i) && s.prods[i].pc.LoadSeq?
                          && s.prods[i].pc.v == old(s.prods[i].pc.v)
                          && Again(s0, Pass(at, k), i, old(s.prods[i].pc.v), weak)
      ensures alone && old(s.prods[i].pc.Cas?) && old(s.prods[i].pc.pos) == |old(s.log)| ==>
                AloneCas(old(s), s, i, old(s.prods[i].pc.v), weak, pushed)
    {
      pushed, at, k := false, at0, k0;
      if s.prods[i].pc.Cas? {
        pushed, at := ReserveAndFill(i, weak);
      } else {
        LoadHeadOf(i);
      }
    }

    /** From the compare-exchange on. */
    method ReserveAndFill(i: nat, weak: bool) returns (pushed: bool, ghost at: State<T>)
      requires Inv(s) && i < |s.prods| && s.prods[i].pc.Cas?
      modifies this
      ensures Inv(s) && Later(old(s), at) && Later(at, s)
      ensures pushed ==> s.prods[i].pc.Idle? && Gained(old(s), s, i, old(s.prods[i].pc.v))
      ensures !pushed ==> SameProducer(old(s), s, i) && LosesAt(at, i, old(s.prods[i].pc.v), weak)
      ensures !pushed ==> s.prods[i].pc.LoadSeq? && s.prods[i].pc.v == old(s.prods[i].pc.v)
      ensures alone && old(s.prods[i].pc.pos) == |old(s.log)| ==> AloneCas(old(s), s, i, old(s.prods[i].pc.v), weak, pushed)
    {
      pushed, at := TryReserve(i, weak);
      if pushed {
        ghost var m := |s.log| - 1;
        FillAndPublish(i);
        assert s.log[m] == Entry(i, old(s.prods[i].pc.v));
      }
    }

    /** `try_push`, cut off after `|weak|` rounds of its retry loop; `weak` says in which of them the
        compare-exchange fails without a reason.  It returns true exactly when it has reserved one
        place for `v`, and nothing else of producer `i` gets in.  When it refuses, load `k` in state
        `at`, no earlier than the call, was its reason; when it runs out of rounds, `passes` tells
        what came in the way of each.  Alone, with a compare-exchange that fails only for a reason,
        it pushes exactly when the queue runs and has room. */
    method TryPush(i: nat, v: T, weak: seq<bool>)
      returns (r: PushResult, ghost at: State<T>, ghost k: nat, ghost passes: seq<Pass<T>>)
      requires Inv(s) && i < |s.prods| && s.prods[i].pc.Idle?
      modifies this
      ensures Inv(s) && Later(old(s), s)
      ensures r.OutOfRounds? <==> !s.prods[i].pc.Idle?
      ensures r.Pushed? ==> Gained(old(s), s, i, v)
      ensures !r.Pushed? ==> SameProducer(old(s), s, i)
      ensures r.Refused? ==> Later(old(s), at) && RefusedAt(at, s, i, v, k)
      ensures r.OutOfRounds? ==> |passes| == |weak| && AllAgain(old(s), passes, i, v, weak)
      ensures StoppedFrom(s, old(s.prods[i].view.status)) ==> r.Refused?
      ensures alone && Last(old(s.statuses)).Stopped? ==> r.Refused?
      ensures alone && Last(old(s.statuses)).Running? && weak != [] ==> r == AloneResult(old(s), weak)
      ensures alone && r.Pushed? ==> OnePush(old(s), s, i, v)
    {
      at, k := Enter(i, v);
      passes := [];
      if s.prods[i].pc.Idle? {
        return Refused, at, k, passes;
      }
      ghost var mid := s;
      r, at, k, passes := Retry(i, weak);
      AllEarlier(old(s), mid, passes, i, v, weak);
    }

    /** The retry loop. */
    method Retry(i: nat, weak: seq<bool>)
      returns (r: PushResult, ghost at: State<T>, ghost k: nat, ghost passes: seq<Pass<T>>)
      requires Inv(s) && i < |s.prods| && s.prods[i].pc.LoadSeq?
      modifies this
      ensures Inv(s) && Later(old(s), s)
      ensures r.OutOfRounds? <==> !s.prods[i].pc.Idle?
      ensures r.Pushed? ==> Gained(old(s), s, i, old(s.prods[i].pc.v))
      ensures !r.Pushed? ==> SameProducer(old(s), s, i)
      ensures r.Refused? ==> Later(old(s), at) && RefusedAt(at, s, i, old(s.prods[i].pc.v), k)
      ensures AllAgain(old(s), passes, i, old(s.prods[i].pc.v), weak) && (r.OutOfRounds? ==> |passes| == |weak|)
      ensures weak == [] ==> r.OutOfRounds?
      ensures alone && weak != [] && old(s.prods[i].pc.pos) == |old(s.log)| ==>
                r == AloneResult(old(s), weak) && (r.Pushed? ==> OnePush(old(s), s, i, old(s.prods[i].pc.v)))
    {
      at, k, passes, r := s, 0, [], OutOfRounds;
      var done := 0;
      while done < |weak|
        invariant Inv(s) && Later(old(s), s) && SameProducer(old(s), s, i) && r.OutOfRounds?
        invariant s.prods[i].pc.LoadSeq? && s.prods[i].pc.v == old(s.prods[i].pc.v)
        invariant done == |passes| <= |weak| && AllAgain(old(s), passes, i, old(s.prods[i].pc.v), weak)
        invariant done == 0 ==> s == old(s)
        invariant alone && old(s.prods[i].pc.pos) == |old(s.log)| ==> AloneAt(old(s), s, i, weak, done)
        invariant alone && 0 < done == |weak| && old(s.prods[i].pc.pos) == |old(s.log)| ==>
                    AloneResult(old(s), weak) == OutOfRounds
      {
        r, at, k, passes := RoundNoted(i, weak, done, passes, old(s));
        if !r.OutOfRounds? {
          return;
        }
        done := done + 1;
      }
    }

    /** One round, noted in `passes` unless it ends the call. */
    method RoundNoted(i: nat, weak: seq<bool>, next: nat, ghost passed: seq<Pass<T>>, ghost s0: State<T>)
      returns (r: PushResult, ghost at: State<T>, ghost k: nat, ghost passes: seq<Pass<T>>)
      requires Inv(s) && i < |s.prods| && s.prods[i].pc.LoadSeq? && Later(s0, s)
      requires next == |passed| < |weak| && AllAgain(s0, passed, i, s.prods[i].pc.v, weak)
      modifies this
      ensures Inv(s) && Later(old(s), s)
      ensures r.OutOfRounds? <==> !s.prods[i].pc.Idle?
      ensures r.OutOfRounds? ==> s.prods[i].pc.LoadSeq? && s.prods[i].pc.v == old(s.prods[i].pc.v)
      ensures r.Pushed? ==> Gained(old(s), s, i, old(s.prods[i].pc.v))
      ensures !r.Pushed? ==> SameProducer(old(s), s, i)
      ensures r.Refused? ==> Later(s0, at) && RefusedAt(at, s, i, old(s.prods[i].pc.v), k)
      ensures AllAgain(s0, passes, i, old(s.prods[i].pc.v), weak)
      ensures |passes| == |passed| + if r.OutOfRounds? then 1 else 0
      ensures alone && AloneAt(s0, old(s), i, weak, next) ==> AloneGives(s0, s, i, old(s.prods[i].pc.v), weak, next + 1, r)
    {
      var pushed;
      pushed, at, k := Round(i, weak[next]);
      passes := passed;
      r := if pushed then Pushed else if s.prods[i].pc.Idle? then Refused else OutOfRounds;
      if r.OutOfRounds? {
        AgainAfter(s0, old(s), passed, Pass(at, k), i, old(s.prods[i].pc.v), weak);
        passes := passed + [Pass(at, k)];
      }
      if alone && AloneAt(s0, old(s), i, weak, next) {
        AloneNext(s0, old(s), s, i, old(s.prods[i].pc.v), weak, next, r);
      }
    }

    /** `blocking_push`: the two status loads, then a try, until pushed or stopped; cut off after
        `|weak|` tries, or inside the first of them that `weak` cuts off.  `tries` tells why each
        finished one refused, `passes` what came in the way of the last.  Once stopped it returns
        with nothing pushed; alone, on a running queue with room, it pushes at once. */
    method BlockingPush(i: nat, v: T, weak: seq<seq<bool>>)
      returns (r: PushResult, ghost tries: seq<Pass<T>>, ghost passes: seq<Pass<T>>)
      requires Inv(s) && i < |s.prods| && s.prods[i].pc.Idle?
      modifies this
      ensures Inv(s) && Later(old(s), s)
      ensures r.Pushed? ==> Gained(old(s), s, i, v)
      ensures !r.Pushed? ==> SameProducer(old(s), s, i)
      ensures r.Refused? ==> s.prods[i].pc.Idle? && StopSeen(s, i)
      ensures |tries| <= |weak| && AllRefused(old(s), tries, i, v)
      ensures r.OutOfRounds? && s.prods[i].pc.Idle? ==> |tries| == |weak|
      ensures r.OutOfRounds? && !s.prods[i].pc.Idle? ==>
                |tries| < |weak| && |passes| == |weak[|tries|]| && AllAgain(old(s), passes, i, v, weak[|tries|])
      ensures weak != [] && StoppedFrom(s, old(s.prods[i].view.status)) ==> r.Refused?
      ensures alone && weak != [] && Last(old(s.statuses)).Stopped? ==> r.Refused?
      ensures alone && weak != [] && weak[0] != [] && Last(old(s.statuses)).Running? && old(HasRoom(s)) ==>
                r == AloneResult(old(s), weak[0])
    {
      tries, passes := [], [];
      if weak == [] {
        return OutOfRounds, tries, passes;
      }
      var stopped;
      ghost var at, k;
      r, stopped, at, k, passes := PushUnlessStopped(i, v, weak[0]);
      if stopped || !r.Refused? {
        return;
      }
      ghost var mid, m0 := s, old(s.prods[i].view.status);
      tries := [Pass(at, k)];
      ghost var more;
      r, more, passes := PushOn(i, v, weak, tries, old(s));
      tries := more;
      if StoppedFrom(s, m0) {
        NotStoppedLater(mid, s, m0);
      }
    }

    /** The passes of `blocking_push` after the first `|tried|`. */
    method PushOn(i: nat, v: T, weak: seq<seq<bool>>, ghost tried: seq<Pass<T>>, ghost s0: State<T>)
      returns (r: PushResult, ghost tries: seq<Pass<T>>, ghost passes: seq<Pass<T>>)
      requires Inv(s) && i < |s.prods| && s.prods[i].pc.Idle?
      requires |tried| == 1 <= |weak| && Later(s0, s) && AllRefused(s0, tried, i, v)
      modifies this
      ensures Inv(s) && Later(old(s), s)
      ensures r.Pushed? ==> Gained(old(s), s, i, v)
      ensures !r.Pushed? ==> SameProducer(old(s), s, i)
      ensures r.Refused? ==> s.prods[i].pc.Idle? && StopSeen(s, i)
      ensures |tries| <= |weak| && AllRefused(s0, tries, i, v)
      ensures r.OutOfRounds? && s.prods[i].pc.Idle? ==> |tries| == |weak|
      ensures r.OutOfRounds? && !s.prods[i].pc.Idle? ==>
                |tries| < |weak| && |passes| == |weak[|tries|]| && AllAgain(s0, passes, i, v, weak[|tries|])
    {
      tries, passes := tried, [];
      var done := 1;
      while done < |weak|
        invariant Inv(s) && Later(old(s), s) && SameProducer(old(s), s, i) && s.prods[i].pc.Idle?
        invariant done == |tries| <= |weak| && AllRefused(s0, tries, i, v)
      {
        var stopped;
        ghost var at, k;
        ghost var before := s;
        r, stopped, at, k, passes := PushUnlessStopped(i, v, weak[done]);
        if r.OutOfRounds? {
          AllEarlier(s0, before, passes, i, v, weak[done]);
        }
        if stopped || !r.Refused? {
          return;
        }
        RefusedMore(s0, tries, Pass(at, k), i, v);
        tries := tries + [Pass(at, k)];
        done := done + 1;
      }
      return OutOfRounds, tries, passes;
    }

    static lemma AllEarlier(s0: State<T>, s1: State<T>, passes: seq<Pass<T>>, i: nat, v: T, weak: seq<bool>)
      requires Later(s0, s1) && AllAgain(s1, passes, i, v, weak)
      ensures AllAgain(s0, passes, i, v, weak)
    {
      forall j | 0 <= j < |passes| ensures Again(s0, passes[j], i, v, weak[j]) {
        AgainEarlier(s0, s1, passes[j], i, v, weak[j]);
      }
    }

    /** One pass of the loop of `blocking_push`. */
    method PushUnlessStopped(i: nat, v: T, weak: seq<bool>)
      returns (r: PushResult, stopped: bool, ghost at: State<T>, ghost k: nat, ghost passes: seq<Pass<T>>)
      requires Inv(s) && i < |s.prods| && s.prods[i].pc.Idle?
      modifies this
      ensures Inv(s) && Later(old(s), s)
      ensures r.OutOfRounds? <==> !s.prods[i].pc.Idle?
      ensures r.Pushed? ==> Gained(old(s), s, i, v)
      ensures !r.Pushed? ==> SameProducer(old(s), s, i)
      ensures stopped ==> r.Refused? && StopSeen(s, i)
      ensures r.Refused? && !stopped ==> Later(old(s), at) && Refuses(at, i, v, k)
      ensures r.OutOfRounds? ==> |passes| == |weak| && AllAgain(old(s), passes, i, v, weak)
      ensures StoppedFrom(s, old(s.prods[i].view.status)) ==> stopped
      ensures alone && Last(old(s.statuses)).Stopped? ==> stopped
      ensures alone && weak != [] && Last(old(s.statuses)).Running? ==> r == AloneResult(old(s), weak)
    {
      ghost var first, second;
      stopped, first, second := SeesStopped(i);
      if stopped {
        return Refused, true, s, 0, [];
      }
      r, at, k, passes := TryNoted(i, v, weak, old(s));
    }

    /** A try of `blocking_push`, some time after `s0`. */
    method TryNoted(i: nat, v: T, weak: seq<bool>, ghost s0: State<T>)
      returns (r: PushResult, ghost at: State<T>, ghost k: nat, ghost passes: seq<Pass<T>>)
      requires Inv(s) && i < |s.prods| && s.prods[i].pc.Idle? && Later(s0, s)
      modifies this
      ensures Inv(s) && Later(old(s), s)
      ensures r.OutOfRounds? <==> !s.prods[i].pc.Idle?
      ensures r.Pushed? ==> Gained(old(s), s, i, v)
      ensures !r.Pushed? ==> SameProducer(old(s), s, i)
      ensures r.Refused? ==> Later(s0, at) && Refuses(at, i, v, k)
      ensures r.OutOfRounds? ==> |passes| == |weak| && AllAgain(s0, passes, i, v, weak)
      ensures alone && Last(old(s.statuses)).Running? && weak != [] ==> r == AloneResult(old(s), weak)
    {
      r, at, k, passes := TryPush(i, v, weak);
      if r.Refused? {
        RefusedRefuses(at, s, i, v, k);
      } else if r.OutOfRounds? {
        AllEarlier(s0, old(s), passes, i, v, weak);
      }
    }

    /** The relaxed and then, if that says Stopped, the acquire load of the status: stores `first`
        and `second`. */
    method SeesStopped(i: nat) returns (stopped: bool, ghost first: nat, ghost second: nat)
      requires Inv(s) && i < |s.prods| && s.prods[i].pc.Idle?
      modifies this
      ensures Inv(s) && Later(old(s), s) && SameProducer(old(s), s, i) && s.prods[i].pc.Idle?
      ensures old(s.prods[i].view.status) <= first <= second == s.prods[i].view.status < |s.statuses|
      ensures stopped <==> s.statuses[first].Stopped? && s.statuses[second].Stopped?
      ensures alone ==> Same(old(s), s) && first == second == |s.statuses| - 1
    {
      stopped, first := LoadStatus(i);
      second := first;
      if stopped {
        stopped, second := LoadStatus(i);
      }
    }

    method LoadStatus(i: nat) returns (stopped: bool, ghost k: nat)
      requires Inv(s) && i < |s.prods| && s.prods[i].pc.Idle?
      modifies this
      ensures Inv(s) && Later(old(s), s) && SameProducer(old(s), s, i) && s.prods[i].pc.Idle?
      ensures old(s.prods[i].view.status) <= k == s.prods[i].view.status < |s.statuses|
      ensures stopped == s.statuses[k].Stopped?
      ensures alone ==> Same(old(s), s) && k == |s.statuses| - 1
    {
      Others(Prod(i));
      assert ProdOk(s, i);
      var j := Pick(s.prods[i].view.status, |s.statuses|);
      k := j;
      Step(CheckStatus(i, j));
      stopped := s.statuses[j].Stopped?;
    }

    /** `try_pop`.  A result is the next value in reservation order.  When there is none, `seq`
        load `k` in state `at`, no earlier than the call, was the reason.  Alone, it finds an
        element exactly when the oldest is published. */
    method TryPop() returns (r: PopResult<T>, ghost at: State<T>, ghost k: nat)
      requires Inv(s) && s.cons.pc.CIdle?
      modifies this
      ensures Inv(s) && s.cons.pc.CIdle? && Later(old(s), s) && old(s.cons.view.status) <= s.cons.view.status
      ensures s.popped == old(s.popped) + if r.Popped? then [r.x] else []
      ensures r.Popped? ==> |old(s.popped)| < |s.log| && r.x == s.log[|old(s.popped)|].v
      ensures r.Nothing? ==> Later(old(s), at) && MissedAt(at, s, k)
      ensures alone ==> s.log == old(s.log) && s.statuses == old(s.statuses) && (r.Popped? <==> old(HasOldest(s)))
    {
      at, k := Look();
      if s.cons.pc.CIdle? {
        return Nothing, at, k;
      }
      r := Take();
    }

    method Look() returns (ghost at: State<T>, ghost k: nat)
      requires Inv(s) && s.cons.pc.CIdle?
      modifies this
      ensures Inv(s) && Later(old(s), s) && s.popped == old(s.popped) && old(s.cons.view.status) <= s.cons.view.status
      ensures (s.cons.pc.CIdle? && Later(old(s), at) && MissedAt(at, s, k)) || s.cons.pc.CStoreTail?
      ensures alone ==> Same(old(s), s) && (s.cons.pc.CStoreTail? <==> old(HasOldest(s)))
    {
      LoadTail();
      at, k := LookAtSeq();
    }

    method LoadTail()
      requires Inv(s) && s.cons.pc.CIdle?
      modifies this
      ensures Inv(s) && Later(old(s), s) && s.popped == old(s.popped) && old(s.cons.view.status) == s.cons.view.status
      ensures s.cons.pc.CLoadSeq?
      ensures alone ==> Same(old(s), s) && s.cells == old(s.cells)
    {
      Others(Cons);
      var j := Pick(s.cons.view.tail, |s.tails|);
      Step(ReadTail(j));
    }

    method LookAtSeq() returns (ghost at: State<T>, ghost k: nat)
      requires Inv(s) && s.cons.pc.CLoadSeq?
      modifies this
      ensures Inv(s) && Later(old(s), s) && s.popped == old(s.popped) && old(s.cons.view.status) <= s.cons.view.status
      ensures (s.cons.pc.CIdle? && Later(old(s), at) && MissedAt(at, s, k)) || s.cons.pc.CStoreTail?
      ensures alone ==> Same(old(s), s) && (s.cons.pc.CStoreTail? <==> old(HasOldest(s)))
    {
      Others(Cons);
      var c := CellOf(s.cons.pc.pos, |s.cells|);
      var j := Pick(s.cons.view.cell[c], |s.cells[c].marks|);
      at, k := s, j;
      Step(ReadMark(j));
      MarkLoaded(at, j);
    }

    static lemma MarkLoaded(at: State<T>, k: nat)
      requires Inv(at) && Enabled(at, ReadMark(k))
      ensures var s := Do(at, ReadMark(k));
              && Later(at, s) && Same(at, s) && at.cons.view.status <= s.cons.view.status
              && (MissedAt(at, s, k) || s.cons.pc.CStoreTail?)
              && (UpToDate(at, k) ==> (s.cons.pc.CStoreTail? <==> HasOldest(at)))
    {
      if UpToDate(at, k) {
        MissExact(at, k);
      }
    }

    method Take() returns (r: PopResult<T>)
      requires Inv(s) && s.cons.pc.CStoreTail?
      modifies this
      ensures Inv(s) && s.cons.pc.CIdle? && Later(old(s), s) && old(s.cons.view.status) <= s.cons.view.status
      ensures r.Popped? && s.popped == old(s.popped) + [r.x]
      ensures |old(s.popped)| < |s.log| && r.x == s.log[|old(s.popped)|].v
      ensures alone ==> s.log == old(s.log) && s.statuses == old(s.statuses)
    {
      AdvanceTail();
      var x := Fetch();
      GiveBack();
      return Popped(x);
    }

    method AdvanceTail()
      requires Inv(s) && s.cons.pc.CStoreTail?
      modifies this
      ensures Inv(s) && s.cons.pc.CMoveOut? && Later(old(s), s) && s.cons.view.status == old(s.cons.view.status)
      ensures s.popped == old(s.popped)
      ensures alone ==> s.log == old(s.log) && s.statuses == old(s.statuses)
    {
      Others(Cons);
      Step(StoreTail);
    }

    method Fetch() returns (x: T)
      requires Inv(s) && s.cons.pc.CMoveOut?
      modifies this
      ensures Inv(s) && s.cons.pc.CDestroy? && Later(old(s), s) && s.cons.view.status == old(s.cons.view.status)
      ensures s.popped == old(s.popped) + [x]
      ensures |old(s.popped)| < |s.log| && x == s.log[|old(s.popped)|].v
      ensures alone ==> s.log == old(s.log) && s.statuses == old(s.statuses)
    {
      Others(Cons);
      assert CellOk(s, s.released);
      Step(MoveOut);
      x := s.cons.pc.x;
    }

    method GiveBack()
      requires Inv(s) && s.cons.pc.CDestroy?
      modifies this
      ensures Inv(s) && s.cons.pc.CIdle? && Later(old(s), s) && s.cons.view.status == old(s.cons.view.status)
      ensures s.popped == old(s.popped)
      ensures alone ==> s.log == old(s.log) && s.statuses == old(s.statuses)
    {
      Wreck();
      Others(Cons);
      Step(Release);
    }

    method Wreck()
      requires Inv(s) && s.cons.pc.CDestroy?
      modifies this
      ensures Inv(s) && s.cons.pc.CRelease? && Later(old(s), s) && s.cons.view.status == old(s.cons.view.status)
      ensures s.popped == old(s.popped)
      ensures alone ==> s.log == old(s.log) && s.statuses == old(s.statuses)
    {
      Others(Cons);
      Step(Destroy);
    }

    /** `blocking_pop`: a try, then the two status loads, until popped or stopped; cut off after
        `rounds` tries.  `tries` are the `seq` loads of the tries that found nothing.  When it gives
        up on Stopped and the last of them was up to date, the queue is empty on return exactly
        when the oldest place was not reserved and waiting for its publication then, and nothing
        has been reserved since.  Once stopped it returns in one round. */
    method BlockingPop(rounds: nat) returns (r: PopResult<T>, stopped: bool, ghost tries: seq<Pass<T>>)
      requires Inv(s) && s.cons.pc.CIdle?
      modifies this
      ensures Inv(s) && s.cons.pc.CIdle? && Later(old(s), s)
      ensures s.popped == old(s.popped) + if r.Popped? then [r.x] else []
      ensures r.Popped? ==> !stopped && |old(s.popped)| < |s.log| && r.x == s.log[|old(s.popped)|].v
      ensures stopped ==> GaveUp(s, tries)
      ensures |tries| <= rounds && AllMissed(old(s), tries)
      ensures r.Nothing? && !stopped ==> |tries| == rounds
      ensures 0 < rounds && StoppedFrom(s, old(s.cons.view.status)) ==> r.Popped? || stopped
      ensures 0 < rounds && alone && old(HasOldest(s)) ==> r.Popped?
      ensures 0 < rounds && alone && !old(HasOldest(s)) && Last(old(s.statuses)).Stopped? ==> stopped
    {
      tries := [];
      stopped := false;
      if rounds == 0 {
        return Nothing, false, tries;
      }
      r, stopped, tries := PopOnce(tries, old(s));
      if r.Popped? || stopped {
        return;
      }
      ghost var mid, m0 := s, old(s.cons.view.status);
      r, stopped, tries := PopOn(rounds, tries, old(s));
      if StoppedFrom(s, m0) {
        NotStoppedLater(mid, s, m0);
      }
    }

    /** One pass of the loop of `blocking_pop`, noted in `tries`. */
    method PopOnce(ghost tried: seq<Pass<T>>, ghost s0: State<T>)
      returns (r: PopResult<T>, stopped: bool, ghost tries: seq<Pass<T>>)
      requires Inv(s) && s.cons.pc.CIdle? && Later(s0, s) && AllMissed(s0, tried)
      modifies this
      ensures Inv(s) && s.cons.pc.CIdle? && Later(old(s), s)
      ensures s.popped == old(s.popped) + if r.Popped? then [r.x] else []
      ensures r.Popped? ==> !stopped && |old(s.popped)| < |s.log| && r.x == s.log[|old(s.popped)|].v
      ensures stopped ==> GaveUp(s, tries)
      ensures |tries| == |tried| + (if r.Nothing? then 1 else 0) && AllMissed(s0, tries)
      ensures r.Nothing? && StoppedFrom(s, old(s.cons.view.status)) ==> stopped
      ensures alone ==> (r.Popped? <==> old(HasOldest(s)))
      ensures alone && r.Nothing? ==> (stopped <==> Last(old(s.statuses)).Stopped?)
    {
      ghost var at, k;
      r, stopped, at, k := PopUnlessStopped();
      tries := tried;
      if r.Nothing? {
        MissedMore(s0, tried, Pass(at, k));
        tries := tried + [Pass(at, k)];
      }
    }

    /** The passes of `blocking_pop` after the first `|tried|`. */
    method PopOn(rounds: nat, ghost tried: seq<Pass<T>>, ghost s0: State<T>)
      returns (r: PopResult<T>, stopped: bool, ghost tries: seq<Pass<T>>)
      requires Inv(s) && s.cons.pc.CIdle?
      requires |tried| == 1 <= rounds && Later(s0, s) && AllMissed(s0, tried)
      modifies this
      ensures Inv(s) && s.cons.pc.CIdle? && Later(old(s), s)
      ensures s.popped == old(s.popped) + if r.Popped? then [r.x] else []
      ensures r.Popped? ==> !stopped && |old(s.popped)| < |s.log| && r.x == s.log[|old(s.popped)|].v
      ensures stopped ==> GaveUp(s, tries)
      ensures |tries| <= rounds && AllMissed(s0, tries)
      ensures r.Nothing? && !stopped ==> |tries| == rounds
    {
      tries := tried;
      var done := 1;
      while done < rounds
        invariant Inv(s) && s.cons.pc.CIdle? && Later(old(s), s) && s.popped == old(s.popped)
        invariant done == |tries| <= rounds && AllMissed(s0, tries)
      {
        r, stopped, tries := PopOnce(tries, s0);
        if r.Popped? || stopped {
          return;
        }
        done := done + 1;
      }
      return Nothing, false, tries;
    }

    /** One pass of the loop of `blocking_pop`. */
    method PopUnlessStopped() returns (r: PopResult<T>, stopped: bool, ghost at: State<T>, ghost k: nat)
      requires Inv(s) && s.cons.pc.CIdle?
      modifies this
      ensures Inv(s) && s.cons.pc.CIdle? && Later(old(s), s)
      ensures s.popped == old(s.popped) + if r.Popped? then [r.x] else []
      ensures r.Popped? ==> !stopped && |old(s.popped)| < |s.log| && r.x == s.log[|old(s.popped)|].v
      ensures stopped ==> StopSeenC(s)
      ensures r.Nothing? ==> Later(old(s), at) && Later(at, s) && Misses(at, k)
      ensures r.Nothing? && UpToDate(at, k) ==> EmptyIfQuiet(s, at)
      ensures r.Nothing? && StoppedFrom(s, old(s.cons.view.status)) ==> stopped
      ensures alone ==> (r.Popped? <==> old(HasOldest(s)))
      ensures alone && r.Nothing? ==> (stopped <==> Last(old(s.statuses)).Stopped?)
    {
      r, at, k := TryPop();
      stopped := false;
      if r.Nothing? {
        stopped := CheckAfterMiss(at, k);
      }
    }

    /** The status loads after a try that found nothing. */
    method CheckAfterMiss(ghost at: State<T>, ghost k: nat) returns (stopped: bool)
      requires Inv(s) && s.cons.pc.CIdle? && MissedAt(at, s, k)
      modifies this
      ensures Inv(s) && s.cons.pc.CIdle? && Later(old(s), s) && s.popped == old(s.popped)
      ensures Later(at, s) && Misses(at, k) && (UpToDate(at, k) ==> EmptyIfQuiet(s, at))
      ensures stopped ==> StopSeenC(s)
      ensures StoppedFrom(s, old(s.cons.view.status)) ==> stopped
      ensures alone ==> (stopped <==> Last(old(s.statuses)).Stopped?)
    {
      ghost var first, second;
      stopped, first, second := SeesStoppedC();
      AfterMiss(at, old(s), s, k);
    }

    static lemma AfterMiss(at: State<T>, mid: State<T>, s: State<T>, k: nat)
      requires MissedAt(at, mid, k) && Later(mid, s) && s.popped == mid.popped
      ensures Later(at, s) && Misses(at, k)
      ensures UpToDate(at, k) ==> EmptyIfQuiet(s, at)
    {
      if UpToDate(at, k) {
        MissExact(at, k);
        assert CellOk(at, at.released);
      }
    }

    method SeesStoppedC() returns (stopped: bool, ghost first: nat, ghost second: nat)
      requires Inv(s) && s.cons.pc.CIdle?
      modifies this
      ensures Inv(s) && s.cons.pc.CIdle? && Later(old(s), s) && s.popped == old(s.popped)
      ensures old(s.cons.view.status) <= first <= second == s.cons.view.status < |s.statuses|
      ensures stopped <==> s.statuses[first].Stopped? && s.statuses[second].Stopped?
      ensures alone ==> Same(old(s), s) && first == second == |s.statuses| - 1
    {
      stopped, first := LoadStatusC();
      second := first;
      if stopped {
        stopped, second := LoadStatusC();
      }
    }

    method LoadStatusC() returns (stopped: bool, ghost k: nat)
      requires Inv(s) && s.cons.pc.CIdle?
      modifies this
      ensures Inv(s) && s.cons.pc.CIdle? && Later(old(s), s) && s.popped == old(s.popped)
      ensures old(s.cons.view.status) <= k == s.cons.view.status < |s.statuses|
      ensures stopped == s.statuses[k].Stopped?
      ensures alone ==> Same(old(s), s) && k == |s.statuses| - 1
    {
      Others(Cons);
      var j := Pick(s.cons.view.status, |s.statuses|);
      k := j;
      Step(CheckStatusC(j));
      stopped := s.statuses[j].Stopped?;
    }

    /** Joining the producers' threads, one after the other, changes nothing but what the consumer
        knows; afterwards that is every store. */
    method JoinProducers()
      requires Inv(s) && s.cons.pc.CIdle?
      modifies this
      ensures Inv(s) && Synced(s) && s == old(s).(cons := s.cons) && s.cons.pc.CIdle?
    {
      for i := 0 to |s.prods|
        invariant Inv(s) && s == old(s).(cons := s.cons) && s.cons.pc.CIdle? && Joined(s, i)
      {
        SyncJoins(s, i);
        Step(Sync(i));
      }
      JoinSyncs(s);
    }

    /** The end of a queue's life: join the producers, then destroy the queue.  However the run so
        far went, the destructor yields exactly what was left. */
    method JoinAndDrain() returns (out: seq<T>)
      requires Inv(s) && s.cons.pc.CIdle? && Quiet(s)
      modifies this
      ensures Inv(s) && s.log == old(s.log) && Last(s.statuses).Stopped?
      ensures |out| == |s.log| - |old(s.popped)| && |s.popped| == |s.log|
      ensures forall j :: 0 <= j < |out| ==> out[j] == s.log[|old(s.popped)| + j].v
      ensures forall c :: 0 <= c < |s.cells| ==> s.cells[c].slot == Raw
    {
      JoinProducers();
      out := Drain();
    }

    /** `blocking_pop` after joining the producers and whoever stopped the queue: one try, and
        nothing exactly when the queue is empty. */
    method JoinAndPop() returns (r: PopResult<T>)
      requires Inv(s) && s.cons.pc.CIdle? && Quiet(s) && s.statuses != [] && Last(s.statuses).Stopped?
      modifies this
      ensures Inv(s) && s.cons.pc.CIdle? && s.log == old(s.log)
      ensures s.popped == old(s.popped) + if r.Popped? then [r.x] else []
      ensures r.Nothing? <==> |old(s.popped)| == |s.log|
    {
      JoinProducers();
      Step(SyncStop);
      r := BlockingPopAlone();
    }

    /** The destructor: stop, then pop until nothing is found.  With all pushes finished and
        synchronised it returns exactly what was left, in order, and leaves no live object. */
    method Drain() returns (out: seq<T>)
      requires Inv(s) && s.cons.pc.CIdle? && Quiet(s) && Synced(s)
      modifies this
      ensures Inv(s) && s.log == old(s.log) && Last(s.statuses).Stopped?
      ensures |out| == |s.log| - |old(s.popped)|
      ensures |s.popped| == |s.log|
      ensures forall j :: 0 <= j < |out| ==> out[j] == s.log[|old(s.popped)| + j].v
      ensures forall c :: 0 <= c < |s.cells| ==> s.cells[c].slot == Raw
    {
      Stop();
      out := PopAll();
      EmptyIsRaw(s);
    }

    /** Pops until nothing is found. */
    method PopAll() returns (out: seq<T>)
      requires Inv(s) && s.cons.pc.CIdle? && Quiet(s) && Synced(s)
      modifies this
      ensures Inv(s) && s.cons.pc.CIdle? && s.log == old(s.log) && s.statuses == old(s.statuses)
      ensures s.popped == old(s.popped) + out && s.released == |s.popped| == |s.log|
    {
      out := [];
      while true
        invariant Inv(s) && s.cons.pc.CIdle? && Quiet(s) && Synced(s)
        invariant s.log == old(s.log) && s.statuses == old(s.statuses) && s.popped == old(s.popped) + out
        decreases |s.log| - |s.popped|
      {
        var r := PopAlone();
        if r.Nothing? {
          break;
        }
        out := out + [r.x];
      }
    }

    /** `try_pop` with no other thread running. */
    method PopAlone() returns (r: PopResult<T>)
      requires Inv(s) && s.cons.pc.CIdle? && Quiet(s) && Synced(s)
      modifies this
      ensures Inv(s) && s.cons.pc.CIdle? && Quiet(s) && Synced(s)
      ensures s.log == old(s.log) && s.statuses == old(s.statuses) && old(s.cons.view.status) <= s.cons.view.status
      ensures s.popped == old(s.popped) + if r.Popped? then [r.x] else []
      ensures r.Nothing? <==> old(s.released) == |s.log|
      ensures s.released == |s.popped| == |old(s.popped)| + if r.Popped? then 1 else 0
    {
      LookAlone();
      if s.cons.pc.CIdle? {
        return Nothing;
      }
      r := TakeAlone();
    }

    /** `blocking_pop` once stopped, with no other thread running: one try, and nothing exactly
        when the queue is empty. */
    method BlockingPopAlone() returns (r: PopResult<T>)
      requires Inv(s) && s.cons.pc.CIdle? && Quiet(s) && Synced(s) && StoppedFrom(s, s.cons.view.status)
      modifies this
      ensures Inv(s) && s.cons.pc.CIdle? && s.log == old(s.log)
      ensures s.popped == old(s.popped) + if r.Popped? then [r.x] else []
      ensures r.Nothing? <==> |old(s.popped)| == |s.log|
    {
      r := PopAlone();
      if r.Popped? {
        return;
      }
      LoadStatusAlone();
      LoadStatusAlone();
    }

    /** A status load that can only return Stopped. */
    method LoadStatusAlone()
      requires Inv(s) && s.cons.pc.CIdle? && StoppedFrom(s, s.cons.view.status)
      modifies this
      ensures Inv(s) && s.cons.pc.CIdle? && s.log == old(s.log) && s.popped == old(s.popped)
      ensures StoppedFrom(s, s.cons.view.status) && s.cons.view.status < |s.statuses|
      ensures s.statuses[s.cons.view.status].Stopped?
    {
      var k :| s.cons.view.status <= k < |s.statuses|;
      Step(CheckStatusC(k));
    }

    method LookAlone()
      requires Inv(s) && s.cons.pc.CIdle? && Quiet(s) && Synced(s)
      modifies this
      ensures Inv(s) && Quiet(s) && Synced(s)
      ensures s.log == old(s.log) && s.statuses == old(s.statuses) && s.popped == old(s.popped)
      ensures s.released == old(s.released) && old(s.cons.view.status) <= s.cons.view.status
      ensures s.cons.pc == if s.released < |s.log| then CStoreTail(s.released) else CIdle
    {
      var k :| s.cons.view.tail <= k < |s.tails|;
      Step(ReadTail(k));
      ReadMarkAlone();
    }

    method ReadMarkAlone()
      requires Inv(s) && s.cons.pc.CLoadSeq? && Quiet(s) && Synced(s)
      modifies this
      ensures Inv(s) && Quiet(s) && Synced(s)
      ensures s.log == old(s.log) && s.statuses == old(s.statuses) && s.popped == old(s.popped)
      ensures s.released == old(s.released) && old(s.cons.view.status) <= s.cons.view.status
      ensures s.cons.pc == if s.released < |s.log| then CStoreTail(s.released) else CIdle
    {
      var c := CellOf(s.cons.pc.pos, |s.cells|);
      var k :| s.cons.view.cell[c] <= k < |s.cells[c].marks|;
      MarkSynced(s, k);
      Step(ReadMark(k));
    }

    static lemma MarkSynced(s: State<T>, k: nat)
      requires Inv(s) && Quiet(s) && Synced(s) && Enabled(s, ReadMark(k))
      ensures var s' := Do(s, ReadMark(k));
              && Quiet(s') && Synced(s') && s.cons.view.status <= s'.cons.view.status
              && s'.cons.pc == if s.released < |s.log| then CStoreTail(s.released) else CIdle
    {
      OldestMark(s);
      AcquireSynced(s, CellOf(s.cons.pc.pos, |s.cells|), k);
    }

    static lemma AcquireSynced(s: State<T>, c: nat, k: nat)
      requires Inv(s) && Synced(s) && c < |s.cells| && k + 1 == |s.cells[c].marks|
      ensures Acquire(s, s.cons.view, c, k).cell == s.cons.view.cell
    {
      assert MarksOk(s, c);
      assert ViewOk(s, s.cells[c].marks[k].view);
    }

    method TakeAlone() returns (r: PopResult<T>)
      requires Inv(s) && s.cons.pc.CStoreTail? && Quiet(s) && Synced(s)
      modifies this
      ensures Inv(s) && s.cons.pc.CIdle? && Quiet(s) && Synced(s)
      ensures s.log == old(s.log) && s.statuses == old(s.statuses) && s.cons.view.status == old(s.cons.view.status)
      ensures r.Popped? && s.popped == old(s.popped) + [r.x] && s.released == old(s.released) + 1 == |s.popped|
    {
      Step(StoreTail);
      assert CellOk(s, s.released);
      Step(MoveOut);
      r := Popped(s.cons.pc.x);
      GiveBackAlone();
    }

    method GiveBackAlone()
      requires Inv(s) && s.cons.pc.CDestroy? && Quiet(s) && Synced(s)
      modifies this
      ensures Inv(s) && s.cons.pc.CIdle? && Quiet(s) && Synced(s)
      ensures s.log == old(s.log) && s.statuses == old(s.statuses) && s.cons.view.status == old(s.cons.view.status)
      ensures s.popped == old(s.popped) && s.released == old(s.released) + 1 == |s.popped|
    {
      Step(Destroy);
      Step(Release);
    }
  }
}
