/**
 The operations of `BoundedSPSCQueue` as the calling thread runs them, with the other thread
 free to take any number of steps between any two accesses.
 */
module SpscClient {
  import opened Helpers
  import opened Memory
  import opened SpscQueue
  import opened SpscInvariant
  import opened SpscTheorems

  datatype Thread = Pusher | Popper | Controller

  function Actor<T>(a: Action<T>): Thread {
    match a
    case Begin(_, _) => Pusher
    case ReadOwnHead(_) => Pusher
    case ReadTail(_) => Pusher
    case DoConstruct => Pusher
    case StoreHead => Pusher
    case CheckStatusP(_) => Pusher
    case SetStatus(_) => Controller
    case _ => Popper
  }

  ghost predicate ByOthers<T(!new)>(s: State<T>, s': State<T>, me: Thread) {
    exists acts: seq<Action<T>> ::
      ValidRun(s, acts) && Run(s, acts) == s' && forall a :: a in acts ==> Actor(a) != me
  }

  /** `s'` is no earlier than `s`: nothing recorded in `s` is undone. */
  ghost predicate Later<T>(s: State<T>, s': State<T>) {
    && s.log <= s'.log && s.popped <= s'.popped
    && s.heads <= s'.heads && s.tails <= s'.tails && s.statuses <= s'.statuses
  }

  /** What a thread may rely on across the steps of others. */
  ghost predicate Kept<T>(s: State<T>, s': State<T>, me: Thread) {
    && Later(s, s')
    && (me.Pusher? ==> s'.prod == s.prod && s'.log == s.log)
    && (me.Popper? ==> s'.cons == s.cons && s'.popped == s.popped)
  }

  lemma StepKeeps<T>(s: State<T>, a: Action<T>, me: Thread)
    requires Enabled(s, a) && Actor(a) != me
    ensures Kept(s, Do(s, a), me)
  {
  }

  lemma {:induction false} OthersKeep<T>(s: State<T>, acts: seq<Action<T>>, me: Thread)
    requires ValidRun(s, acts) && forall a :: a in acts ==> Actor(a) != me
    ensures Kept(s, Run(s, acts), me)
    decreases |acts|
  {
    if acts != [] {
      assert acts[0] in acts;
      StepKeeps(s, acts[0], me);
      OthersKeep(Do(s, acts[0]), acts[1..], me);
    }
  }

  /** All that a run of the other thread can do. */
  lemma {:induction false} OthersAllow<T(!new)>(s: State<T>, acts: seq<Action<T>>, me: Thread)
    requires Inv(s) && ValidRun(s, acts) && forall k :: 0 <= k < |acts| ==> Actor(acts[k]) != me
    ensures var s' := Run(s, acts); Inv(s') && ByOthers(s, s', me) && Kept(s, s', me)
  {
    OthersKeep(s, acts, me);
    RunInv(s, acts);
  }

  datatype PopResult<T> = Popped(x: T) | Nothing

  /** The last step was the producer giving up on `v`: on a tail load that left no room, or on
      a status load that found Stopped. */
  ghost predicate RefusedAt<T>(at: State<T>, s: State<T>, v: T, k: nat) {
    && Inv(at)
    && (|| (at.prod.pc.PLoadTail? && at.prod.pc.v == v && Enabled(at, ReadTail(k)) && s == Do(at, ReadTail(k)))
        || (Enabled(at, Begin(v, k)) && at.statuses[k].Stopped? && s == Do(at, Begin(v, k))))
  }

  /** The last step was the consumer's load of a head equal to its tail. */
  ghost predicate MissedAt<T>(at: State<T>, s: State<T>, k: nat) {
    Inv(at) && Enabled(at, ReadHead(k)) && s == Do(at, ReadHead(k)) && s.cons.pc.CIdle?
  }

  ghost predicate Misses<T>(at: State<T>, k: nat) {
    Inv(at) && Enabled(at, ReadHead(k)) && Do(at, ReadHead(k)).cons.pc.CIdle?
  }

  /** A load in state `at` on which the producer gives up on `v`. */
  ghost predicate Refuses<T>(at: State<T>, v: T, k: nat) {
    && Inv(at)
    && (|| (at.prod.pc.PLoadTail? && at.prod.pc.v == v && Enabled(at, ReadTail(k)) && Do(at, ReadTail(k)).prod.pc.PIdle?)
        || (Enabled(at, Begin(v, k)) && at.statuses[k].Stopped?))
  }

  lemma RefusedRefuses<T>(at: State<T>, s: State<T>, v: T, k: nat)
    requires RefusedAt(at, s, v, k) && s.prod.pc.PIdle?
    ensures Refuses(at, v, k)
  {
  }

  /** A state in which a thread did a load, and the store that returned. */
  datatype Pass<T> = Pass(at: State<T>, k: nat)

  /** Tries that gave up on `v`. */
  ghost predicate AllRefused<T>(s0: State<T>, tries: seq<Pass<T>>, v: T) {
    forall j :: 0 <= j < |tries| ==> Later(s0, tries[j].at) && Refuses(tries[j].at, v, tries[j].k)
  }

  lemma RefusedMore<T>(s0: State<T>, tries: seq<Pass<T>>, q: Pass<T>, v: T)
    requires AllRefused(s0, tries, v) && Later(s0, q.at) && Refuses(q.at, v, q.k)
    ensures AllRefused(s0, tries + [q], v)
  {
    forall j | 0 <= j < |tries + [q]| ensures Later(s0, (tries + [q])[j].at) && Refuses((tries + [q])[j].at, v, (tries + [q])[j].k) {
      if j < |tries| {
        assert (tries + [q])[j] == tries[j];
      }
    }
  }

  /** Tries that found nothing. */
  ghost predicate AllMissed<T>(s0: State<T>, tries: seq<Pass<T>>) {
    forall j :: 0 <= j < |tries| ==> Later(s0, tries[j].at) && Misses(tries[j].at, tries[j].k)
  }

  lemma MissedMore<T>(s0: State<T>, tries: seq<Pass<T>>, q: Pass<T>)
    requires AllMissed(s0, tries) && Later(s0, q.at) && Misses(q.at, q.k)
    ensures AllMissed(s0, tries + [q])
  {
    forall j | 0 <= j < |tries + [q]| ensures Later(s0, (tries + [q])[j].at) && Misses((tries + [q])[j].at, (tries + [q])[j].k) {
      if j < |tries| {
        assert (tries + [q])[j] == tries[j];
      }
    }
  }

  lemma NotStoppedLater<T>(s: State<T>, s': State<T>, m: nat)
    requires Later(s, s') && StoppedFrom(s', m)
    ensures StoppedFrom(s, m)
  {
    forall k | m <= k < |s.statuses| ensures s.statuses[k].Stopped? {
      assert s'.statuses[k] == s.statuses[k];
    }
  }

  /** Nothing has been pushed, popped or stored to the status. */
  ghost predicate Same<T>(s: State<T>, s': State<T>) {
    s'.log == s.log && s'.popped == s.popped && s'.statuses == s.statuses && |s'.slots| == |s.slots|
  }

  predicate HasRoom<T>(s: State<T>) {
    |Contents(s)| + 1 < |s.slots|
  }

  /** The newest status the thread has seen is Stopped. */
  predicate StopSeen<T>(s: State<T>, v: View) {
    v.status < |s.statuses| && s.statuses[v.status].Stopped?
  }

  /** The consumer has given up on Stopped after `tries`; if the last of their loads was up to date,
      the queue is empty exactly when nothing has been pushed since. */
  ghost predicate GaveUp<T>(s: State<T>, tries: seq<Pass<T>>) {
    && StopSeen(s, s.cons.view) && tries != [] && Later(Last(tries).at, s)
    && (UpToDate(Last(tries).at, Last(tries).k) ==> (|s.log| == |s.popped| <==> s.log == Last(tries).at.log))
  }

  /** Everything the producer did happens before the consumer's next step. */
  ghost predicate Synced<T>(s: State<T>) {
    s.cons.view.head + 1 == |s.heads|
  }

  class Queue<T(!new)> {
    var s: State<T>
    /** The environment: when true, no other thread moves and every load returns the newest store. */
    const alone: bool

    constructor (n: nat, alone: bool)
      requires 1 <= n
      ensures s == Init<T>(n) && Inv(s) && this.alone == alone
    {
      s := Init<T>(n);
      this.alone := alone;
      InitInv<T>(n);
    }

    /** The other threads run for a while, by any steps of theirs. */
    method Others(me: Thread)
      requires Inv(s)
      modifies this
      ensures Inv(s) && ByOthers(old(s), s, me) && Kept(old(s), s, me)
      ensures alone ==> s == old(s)
    {
      var acts: seq<Action<T>> := *;
      if alone || !(ValidRun(s, acts) && forall k :: 0 <= k < |acts| ==> Actor(acts[k]) != me) {
        acts := [];
      }
      OthersAllow(s, acts, me);
      s := Run(s, acts);
    }

    /** The store a load returns: any of those from `lo` on. */
    method Pick(lo: nat, hi: nat) returns (k: nat)
      requires lo < hi
      ensures lo <= k < hi && (alone ==> k == hi - 1)
    {
      k :| lo <= k < hi;
      if alone {
        k := hi - 1;
      }
    }

    method Step(a: Action<T>)
      requires Inv(s) && Enabled(s, a)
      modifies this
      ensures s == Do(old(s), a) && Inv(s)
    {
      StepInv(s, a);
      s := Do(s, a);
    }

    /** `run` */
    method Restart()
      requires Inv(s)
      modifies this
      ensures Inv(s) && s == old(s).(statuses := old(s.statuses) + [Running])
    {
      Step(SetStatus(Running));
    }

    /** `stop` */
    method Stop()
      requires Inv(s)
      modifies this
      ensures Inv(s) && s == old(s).(statuses := old(s.statuses) + [Stopped])
    {
      Step(SetStatus(Stopped));
    }

    /** `try_push`: true exactly when `v` has been appended; nothing else is.  When it returns
        false, load `k` in state `at`, no earlier than the call, was its reason.  Alone, it pushes
        exactly when the queue runs and has room. */
    method TryPush(v: T) returns (pushed: bool, ghost at: State<T>, ghost k: nat)
      requires Inv(s) && s.prod.pc.PIdle?
      modifies this
      ensures Inv(s) && s.prod.pc.PIdle? && Later(old(s), s) && old(s.prod.view.status) <= s.prod.view.status
      ensures s.log == old(s.log) + if pushed then [v] else []
      ensures !pushed ==> Later(old(s), at) && RefusedAt(at, s, v, k)
      ensures StoppedFrom(s, old(s.prod.view.status)) ==> !pushed
      ensures alone ==> s.popped == old(s.popped) && s.statuses == old(s.statuses)
      ensures alone ==> (pushed <==> Last(old(s.statuses)).Running? && old(HasRoom(s)))
    {
      at, k := Enter(v);
      pushed := false;
      if s.prod.pc.PLoadTail? {
        pushed, at, k := Append();
      }
    }

    /** The status check and the load of the producer's own index. */
    method Enter(v: T) returns (ghost at: State<T>, ghost k: nat)
      requires Inv(s) && s.prod.pc.PIdle?
      modifies this
      ensures Inv(s) && Later(old(s), s) && s.log == old(s.log) && old(s.prod.view.status) <= s.prod.view.status
      ensures || (s.prod.pc.PIdle? && Later(old(s), at) && RefusedAt(at, s, v, k))
              || (s.prod.pc.PLoadTail? && s.prod.pc.v == v)
      ensures StoppedFrom(s, old(s.prod.view.status)) ==> s.prod.pc.PIdle?
      ensures s.prod.pc.PLoadTail? ==> !StoppedFrom(s, old(s.prod.view.status))
      ensures alone ==> Same(old(s), s) && (s.prod.pc.PIdle? <==> Last(s.statuses).Stopped?)
    {
      at, k := CheckRunning(v);
      if s.prod.pc.PLoadHead? {
        LoadOwnHead();
      }
    }

    method CheckRunning(v: T) returns (ghost at: State<T>, ghost k: nat)
      requires Inv(s) && s.prod.pc.PIdle?
      modifies this
      ensures Inv(s) && Later(old(s), s) && s.log == old(s.log)
      ensures || (s.prod.pc.PIdle? && Later(old(s), at) && RefusedAt(at, s, v, k))
              || (s.prod.pc.PLoadHead? && s.prod.pc.v == v)
      ensures old(s.prod.view.status) <= k == s.prod.view.status < |s.statuses|
      ensures s.prod.pc.PIdle? <==> s.statuses[k].Stopped?
      ensures alone ==> Same(old(s), s) && k == |s.statuses| - 1
    {
      Others(Pusher);
      var j := Pick(s.prod.view.status, |s.statuses|);
      at, k := s, j;
      Step(Begin(v, j));
    }

    method LoadOwnHead()
      requires Inv(s) && s.prod.pc.PLoadHead?
      modifies this
      ensures Inv(s) && Later(old(s), s) && s.log == old(s.log) && s.prod.view.status == old(s.prod.view.status)
      ensures s.prod.pc.PLoadTail? && s.prod.pc.v == old(s.prod.pc.v)
      ensures alone ==> Same(old(s), s)
    {
      Others(Pusher);
      var k := Pick(s.prod.view.head, |s.heads|);
      Step(ReadOwnHead(k));
    }

    method Append() returns (pushed: bool, ghost at: State<T>, ghost k: nat)
      requires Inv(s) && s.prod.pc.PLoadTail?
      modifies this
      ensures Inv(s) && s.prod.pc.PIdle? && Later(old(s), s) && old(s.prod.view.status) <= s.prod.view.status
      ensures s.log == old(s.log) + if pushed then [old(s.prod.pc.v)] else []
      ensures !pushed ==> Later(old(s), at) && RefusedAt(at, s, old(s.prod.pc.v), k)
      ensures alone ==> s.popped == old(s.popped) && s.statuses == old(s.statuses) && (pushed <==> old(HasRoom(s)))
    {
      at, k := LoadTail();
      pushed := s.prod.pc.PConstruct?;
      if pushed {
        FillAndStore();
      }
    }

    method LoadTail() returns (ghost at: State<T>, ghost k: nat)
      requires Inv(s) && s.prod.pc.PLoadTail?
      modifies this
      ensures Inv(s) && Later(old(s), s) && s.log == old(s.log) && old(s.prod.view.status) <= s.prod.view.status
      ensures || (s.prod.pc.PIdle? && Later(old(s), at) && RefusedAt(at, s, old(s.prod.pc.v), k))
              || (s.prod.pc.PConstruct? && s.prod.pc.v == old(s.prod.pc.v))
      ensures alone ==> Same(old(s), s) && (s.prod.pc.PConstruct? <==> old(HasRoom(s)))
    {
      Others(Pusher);
      var j := Pick(s.prod.view.tail, |s.tails|);
      at, k := s, j;
      LinearPushLoad(s, j);
      Step(ReadTail(j));
    }

    method FillAndStore()
      requires Inv(s) && s.prod.pc.PConstruct?
      modifies this
      ensures Inv(s) && s.prod.pc.PIdle? && Later(old(s), s) && s.log == old(s.log) + [old(s.prod.pc.v)]
      ensures s.prod.view.status == old(s.prod.view.status)
      ensures alone ==> s.popped == old(s.popped) && s.statuses == old(s.statuses)
    {
      Others(Pusher);
      Step(DoConstruct);
      Others(Pusher);
      Step(StoreHead);
    }

    /** `blocking_push`, cut off after `rounds` tries: a try, then the two status loads.  `tries`
        tells why each refused.  Once stopped it returns in one round with nothing pushed; alone,
        on a running queue with room, it pushes at once. */
    method BlockingPush(v: T, rounds: nat) returns (pushed: bool, stopped: bool, ghost tries: seq<Pass<T>>)
      requires Inv(s) && s.prod.pc.PIdle?
      modifies this
      ensures Inv(s) && s.prod.pc.PIdle? && Later(old(s), s)
      ensures s.log == old(s.log) + if pushed then [v] else []
      ensures stopped ==> !pushed && StopSeen(s, s.prod.view)
      ensures |tries| <= rounds && AllRefused(old(s), tries, v)
      ensures !pushed && !stopped ==> |tries| == rounds
      ensures 0 < rounds && StoppedFrom(s, old(s.prod.view.status)) ==> stopped
      ensures 0 < rounds && alone && Last(old(s.statuses)).Stopped? ==> stopped
      ensures 0 < rounds && alone && Last(old(s.statuses)).Running? && old(HasRoom(s)) ==> pushed
    {
      tries := [];
      if rounds == 0 {
        return false, false, tries;
      }
      ghost var at, k;
      pushed, stopped, at, k := PushUnlessStopped(v);
      if pushed {
        return;
      }
      RefusedMore(old(s), tries, Pass(at, k), v);
      tries := tries + [Pass(at, k)];
      if stopped {
        return;
      }
      ghost var mid, m0 := s, old(s.prod.view.status);
      pushed, stopped, tries := PushOn(v, rounds, tries, old(s));
      if StoppedFrom(s, m0) {
        NotStoppedLater(mid, s, m0);
      }
    }

    /** The rounds of `blocking_push` after the first. */
    method PushOn(v: T, rounds: nat, ghost tried: seq<Pass<T>>, ghost s0: State<T>)
      returns (pushed: bool, stopped: bool, ghost tries: seq<Pass<T>>)
      requires Inv(s) && s.prod.pc.PIdle? && |tried| == 1 <= rounds && Later(s0, s) && AllRefused(s0, tried, v)
      modifies this
      ensures Inv(s) && s.prod.pc.PIdle? && Later(old(s), s)
      ensures s.log == old(s.log) + if pushed then [v] else []
      ensures stopped ==> !pushed && StopSeen(s, s.prod.view)
      ensures |tries| <= rounds && AllRefused(s0, tries, v)
      ensures !pushed && !stopped ==> |tries| == rounds
    {
      tries := tried;
      var done := 1;
      while done < rounds
        invariant Inv(s) && s.prod.pc.PIdle? && Later(old(s), s) && s.log == old(s.log)
        invariant done == |tries| <= rounds && AllRefused(s0, tries, v)
      {
        ghost var at, k;
        pushed, stopped, at, k := PushUnlessStopped(v);
        if pushed {
          return;
        }
        RefusedMore(s0, tries, Pass(at, k), v);
        tries := tries + [Pass(at, k)];
        if stopped {
          return;
        }
        done := done + 1;
      }
      return false, false, tries;
    }

    /** One pass of the loop of `blocking_push`. */
    method PushUnlessStopped(v: T) returns (pushed: bool, stopped: bool, ghost at: State<T>, ghost k: nat)
      requires Inv(s) && s.prod.pc.PIdle?
      modifies this
      ensures Inv(s) && s.prod.pc.PIdle? && Later(old(s), s)
      ensures s.log == old(s.log) + if pushed then [v] else []
      ensures stopped ==> !pushed && StopSeen(s, s.prod.view)
      ensures !pushed ==> Later(old(s), at) && Refuses(at, v, k)
      ensures StoppedFrom(s, old(s.prod.view.status)) ==> stopped
      ensures alone ==> (pushed <==> Last(old(s.statuses)).Running? && old(HasRoom(s)))
      ensures alone && !pushed ==> (stopped <==> Last(old(s.statuses)).Stopped?)
    {
      pushed, at, k := TryPush(v);
      stopped := false;
      if !pushed {
        RefusedRefuses(at, s, v, k);
        stopped := CheckAfterRefusal();
      }
    }

    /** The status loads after a try that refused. */
    method CheckAfterRefusal() returns (stopped: bool)
      requires Inv(s) && s.prod.pc.PIdle?
      modifies this
      ensures Inv(s) && s.prod.pc.PIdle? && Later(old(s), s) && s.log == old(s.log)
      ensures stopped ==> StopSeen(s, s.prod.view)
      ensures StoppedFrom(s, old(s.prod.view.status)) ==> stopped
      ensures alone ==> (stopped <==> Last(old(s.statuses)).Stopped?)
    {
      ghost var first, second;
      stopped, first, second := SeesStopped();
    }

    /** The relaxed and then, if that says Stopped, the acquire load of the status: stores `first`
        and `second`. */
    method SeesStopped() returns (stopped: bool, ghost first: nat, ghost second: nat)
      requires Inv(s) && s.prod.pc.PIdle?
      modifies this
      ensures Inv(s) && s.prod.pc.PIdle? && Later(old(s), s) && s.log == old(s.log)
      ensures old(s.prod.view.status) <= first <= second == s.prod.view.status < |s.statuses|
      ensures stopped <==> s.statuses[first].Stopped? && s.statuses[second].Stopped?
      ensures alone ==> Same(old(s), s) && first == second == |s.statuses| - 1
    {
      stopped, first := LoadStatusP();
      second := first;
      if stopped {
        stopped, second := LoadStatusP();
      }
    }

    method LoadStatusP() returns (stopped: bool, ghost k: nat)
      requires Inv(s) && s.prod.pc.PIdle?
      modifies this
      ensures Inv(s) && s.prod.pc.PIdle? && Later(old(s), s) && s.log == old(s.log)
      ensures old(s.prod.view.status) <= k == s.prod.view.status < |s.statuses|
      ensures stopped == s.statuses[k].Stopped?
      ensures alone ==> Same(old(s), s) && k == |s.statuses| - 1
    {
      Others(Pusher);
      var j := Pick(s.prod.view.status, |s.statuses|);
      k := j;
      Step(CheckStatusP(j));
      stopped := s.statuses[j].Stopped?;
    }

    /** `try_pop`: a result is the oldest value not yet popped.  When there is none, head load `k`
        in state `at`, no earlier than the call, was the reason.  Alone, it finds one exactly when
        the queue is not empty. */
    method TryPop() returns (r: PopResult<T>, ghost at: State<T>, ghost k: nat)
      requires Inv(s) && s.cons.pc.CIdle?
      modifies this
      ensures Inv(s) && s.cons.pc.CIdle? && Later(old(s), s) && old(s.cons.view.status) <= s.cons.view.status
      ensures s.popped == old(s.popped) + if r.Popped? then [r.x] else []
      ensures r.Popped? ==> |old(s.popped)| < |s.log| && r.x == s.log[|old(s.popped)|]
      ensures r.Nothing? ==> Later(old(s), at) && MissedAt(at, s, k)
      ensures alone ==> s.log == old(s.log) && s.statuses == old(s.statuses) && (r.Popped? <==> old(Contents(s)) != [])
    {
      at, k := Look();
      if s.cons.pc.CIdle? {
        return Nothing, at, k;
      }
      r := Take();
    }

    method Look() returns (ghost at: State<T>, ghost k: nat)
      requires Inv(s) && s.cons.pc.CIdle?
      modifies this
      ensures Inv(s) && Later(old(s), s) && s.popped == old(s.popped) && old(s.cons.view.status) <= s.cons.view.status
      ensures (s.cons.pc.CIdle? && Later(old(s), at) && MissedAt(at, s, k)) || s.cons.pc.CMoveOut?
      ensures alone ==> Same(old(s), s) && (s.cons.pc.CMoveOut? <==> old(Contents(s)) != [])
    {
      LoadOwnTail();
      at, k := LookAtHead();
    }

    method LoadOwnTail()
      requires Inv(s) && s.cons.pc.CIdle?
      modifies this
      ensures Inv(s) && Later(old(s), s) && s.popped == old(s.popped) && s.cons.pc.CLoadHead?
      ensures s.cons.view.status == old(s.cons.view.status)
      ensures alone ==> Same(old(s), s)
    {
      Others(Popper);
      var j := Pick(s.cons.view.tail, |s.tails|);
      Step(ReadOwnTail(j));
    }

    method LookAtHead() returns (ghost at: State<T>, ghost k: nat)
      requires Inv(s) && s.cons.pc.CLoadHead?
      modifies this
      ensures Inv(s) && Later(old(s), s) && s.popped == old(s.popped) && old(s.cons.view.status) <= s.cons.view.status
      ensures (s.cons.pc.CIdle? && Later(old(s), at) && MissedAt(at, s, k)) || s.cons.pc.CMoveOut?
      ensures alone ==> Same(old(s), s) && (s.cons.pc.CMoveOut? <==> old(Contents(s)) != [])
    {
      Others(Popper);
      var j := Pick(s.cons.view.head, |s.heads|);
      at, k := s, j;
      MissExact(s, j);
      Step(ReadHead(j));
    }

    method Take() returns (r: PopResult<T>)
      requires Inv(s) && s.cons.pc.CMoveOut?
      modifies this
      ensures Inv(s) && s.cons.pc.CIdle? && Later(old(s), s) && s.cons.view.status == old(s.cons.view.status)
      ensures r.Popped? && s.popped == old(s.popped) + [r.x]
      ensures |old(s.popped)| < |s.log| && r.x == s.log[|old(s.popped)|]
      ensures alone ==> s.log == old(s.log) && s.statuses == old(s.statuses)
    {
      var x := Fetch();
      Finish();
      return Popped(x);
    }

    method Finish()
      requires Inv(s) && s.cons.pc.CDestroy?
      modifies this
      ensures Inv(s) && s.cons.pc.CIdle? && Later(old(s), s) && s.cons.view.status == old(s.cons.view.status)
      ensures s.popped == old(s.popped) + [old(s.cons.pc.x)]
      ensures alone ==> s.log == old(s.log) && s.statuses == old(s.statuses)
    {
      Wreck();
      Others(Popper);
      Step(StoreTail);
    }

    method Wreck()
      requires Inv(s) && s.cons.pc.CDestroy?
      modifies this
      ensures Inv(s) && s.cons.pc.CStore? && Later(old(s), s) && s.cons.view.status == old(s.cons.view.status)
      ensures s.popped == old(s.popped) && s.cons.pc.x == old(s.cons.pc.x)
      ensures alone ==> s.log == old(s.log) && s.statuses == old(s.statuses)
    {
      Others(Popper);
      Step(Destroy);
    }

    method Fetch() returns (x: T)
      requires Inv(s) && s.cons.pc.CMoveOut?
      modifies this
      ensures Inv(s) && s.cons.pc.CDestroy? && s.cons.pc.x == x && Later(old(s), s) && s.popped == old(s.popped)
      ensures s.cons.view.status == old(s.cons.view.status)
      ensures |s.popped| < |s.log| && x == s.log[|s.popped|]
      ensures alone ==> s.log == old(s.log) && s.statuses == old(s.statuses)
    {
      Others(Popper);
      assert ReadyOk(s, |s.popped|);
      Step(MoveOut);
      x := s.cons.pc.x;
    }

    /** `blocking_pop`, cut off after `rounds` tries.  `tries` are the head loads of those that found
        nothing.  When it gives up on Stopped and the last of them was up to date, the queue is
        empty on return exactly when nothing has been pushed since.  Once stopped it returns in one
        round. */
    method BlockingPop(rounds: nat) returns (r: PopResult<T>, stopped: bool, ghost tries: seq<Pass<T>>)
      requires Inv(s) && s.cons.pc.CIdle?
      modifies this
      ensures Inv(s) && s.cons.pc.CIdle? && Later(old(s), s)
      ensures s.popped == old(s.popped) + if r.Popped? then [r.x] else []
      ensures r.Popped? ==> !stopped && |old(s.popped)| < |s.log| && r.x == s.log[|old(s.popped)|]
      ensures stopped ==> GaveUp(s, tries)
      ensures |tries| <= rounds && AllMissed(old(s), tries)
      ensures r.Nothing? && !stopped ==> |tries| == rounds
      ensures 0 < rounds && StoppedFrom(s, old(s.cons.view.status)) ==> r.Popped? || stopped
      ensures 0 < rounds && alone && old(Contents(s)) != [] ==> r.Popped?
      ensures 0 < rounds && alone && old(Contents(s)) == [] && Last(old(s.statuses)).Stopped? ==> stopped
    {
      tries := [];
      stopped := false;
      if rounds == 0 {
        return Nothing, false, tries;
      }
      r, stopped, tries := PopOnce(tries, old(s));
      if r.Popped? || stopped {
        return;
      }
      ghost var mid, m0 := s, old(s.cons.view.status);
      r, stopped, tries := PopOn(rounds, tries, old(s));
      if StoppedFrom(s, m0) {
        NotStoppedLater(mid, s, m0);
      }
    }

    /** One pass of the loop of `blocking_pop`, noted in `tries`. */
    method PopOnce(ghost tried: seq<Pass<T>>, ghost s0: State<T>)
      returns (r: PopResult<T>, stopped: bool, ghost tries: seq<Pass<T>>)
      requires Inv(s) && s.cons.pc.CIdle? && Later(s0, s) && AllMissed(s0, tried)
      modifies this
      ensures Inv(s) && s.cons.pc.CIdle? && Later(old(s), s)
      ensures s.popped == old(s.popped) + if r.Popped? then [r.x] else []
      ensures r.Popped? ==> !stopped && |old(s.popped)| < |s.log| && r.x == s.log[|old(s.popped)|]
      ensures stopped ==> GaveUp(s, tries)
      ensures |tries| == |tried| + (if r.Nothing? then 1 else 0) && AllMissed(s0, tries)
      ensures r.Nothing? && StoppedFrom(s, old(s.cons.view.status)) ==> stopped
      ensures alone ==> (r.Popped? <==> old(Contents(s)) != [])
      ensures alone && r.Nothing? ==> (stopped <==> Last(old(s.statuses)).Stopped?)
    {
      ghost var at, k;
      r, stopped, at, k := PopUnlessStopped();
      tries := tried;
      if r.Nothing? {
        MissedMore(s0, tried, Pass(at, k));
        tries := tried + [Pass(at, k)];
      }
    }

    /** The rounds of `blocking_pop` after the first. */
    method PopOn(rounds: nat, ghost tried: seq<Pass<T>>, ghost s0: State<T>)
      returns (r: PopResult<T>, stopped: bool, ghost tries: seq<Pass<T>>)
      requires Inv(s) && s.cons.pc.CIdle? && |tried| == 1 <= rounds && Later(s0, s) && AllMissed(s0, tried)
      modifies this
      ensures Inv(s) && s.cons.pc.CIdle? && Later(old(s), s)
      ensures s.popped == old(s.popped) + if r.Popped? then [r.x] else []
      ensures r.Popped? ==> !stopped && |old(s.popped)| < |s.log| && r.x == s.log[|old(s.popped)|]
      ensures stopped ==> GaveUp(s, tries)
      ensures |tries| <= rounds && AllMissed(s0, tries)
      ensures r.Nothing? && !stopped ==> |tries| == rounds
    {
      tries := tried;
      var done := 1;
      while done < rounds
        invariant Inv(s) && s.cons.pc.CIdle? && Later(old(s), s) && s.popped == old(s.popped)
        invariant done == |tries| <= rounds && AllMissed(s0, tries)
      {
        r, stopped, tries := PopOnce(tries, s0);
        if r.Popped? || stopped {
          return;
        }
        done := done + 1;
      }
      return Nothing, false, tries;
    }

    /** One pass of the loop of `blocking_pop`. */
    method PopUnlessStopped() returns (r: PopResult<T>, stopped: bool, ghost at: State<T>, ghost k: nat)
      requires Inv(s) && s.cons.pc.CIdle?
      modifies this
      ensures Inv(s) && s.cons.pc.CIdle? && Later(old(s), s)
      ensures s.popped == old(s.popped) + if r.Popped? then [r.x] else []
      ensures r.Popped? ==> !stopped && |old(s.popped)| < |s.log| && r.x == s.log[|old(s.popped)|]
      ensures stopped ==> StopSeen(s, s.cons.view)
      ensures r.Nothing? ==> Later(old(s), at) && Later(at, s) && Misses(at, k)
      ensures r.Nothing? && UpToDate(at, k) ==> (|s.log| == |s.popped| <==> s.log == at.log)
      ensures r.Nothing? && StoppedFrom(s, old(s.cons.view.status)) ==> stopped
      ensures alone ==> (r.Popped? <==> old(Contents(s)) != [])
      ensures alone && r.Nothing? ==> (stopped <==> Last(old(s.statuses)).Stopped?)
    {
      r, at, k := TryPop();
      stopped := false;
      if r.Nothing? {
        stopped := CheckAfterMiss(at, k);
      }
    }

    /** The status loads after a try that found nothing. */
    method CheckAfterMiss(ghost at: State<T>, ghost k: nat) returns (stopped: bool)
      requires Inv(s) && s.cons.pc.CIdle? && MissedAt(at, s, k)
      modifies this
      ensures Inv(s) && s.cons.pc.CIdle? && Later(old(s), s) && s.popped == old(s.popped)
      ensures Later(at, s) && Misses(at, k) && (UpToDate(at, k) ==> (|s.log| == |s.popped| <==> s.log == at.log))
      ensures stopped ==> StopSeen(s, s.cons.view)
      ensures StoppedFrom(s, old(s.cons.view.status)) ==> stopped
      ensures alone ==> (stopped <==> Last(old(s.statuses)).Stopped?)
    {
      ghost var first, second;
      stopped, first, second := SeesStoppedC();
      AfterMiss(at, old(s), s, k);
    }

    static lemma AfterMiss(at: State<T>, mid: State<T>, s: State<T>, k: nat)
      requires MissedAt(at, mid, k) && Later(mid, s) && s.popped == mid.popped
      ensures Later(at, s) && Misses(at, k)
      ensures UpToDate(at, k) ==> (|s.log| == |s.popped| <==> s.log == at.log)
    {
      MissExact(at, k);
    }

    method SeesStoppedC() returns (stopped: bool, ghost first: nat, ghost second: nat)
      requires Inv(s) && s.cons.pc.CIdle?
      modifies this
      ensures Inv(s) && s.cons.pc.CIdle? && Later(old(s), s) && s.popped == old(s.popped)
      ensures old(s.cons.view.status) <= first <= second == s.cons.view.status < |s.statuses|
      ensures stopped <==> s.statuses[first].Stopped? && s.statuses[second].Stopped?
      ensures alone ==> Same(old(s), s) && first == second == |s.statuses| - 1
    {
      stopped, first := LoadStatusC();
      second := first;
      if stopped {
        stopped, second := LoadStatusC();
      }
    }

    method LoadStatusC() returns (stopped: bool, ghost k: nat)
      requires Inv(s) && s.cons.pc.CIdle?
      modifies this
      ensures Inv(s) && s.cons.pc.CIdle? && Later(old(s), s) && s.popped == old(s.popped)
      ensures old(s.cons.view.status) <= k == s.cons.view.status < |s.statuses|
      ensures stopped == s.statuses[k].Stopped?
      ensures alone ==> Same(old(s), s) && k == |s.statuses| - 1
    {
      Others(Popper);
      var j := Pick(s.cons.view.status, |s.statuses|);
      k := j;
      Step(CheckStatusC(j));
      stopped := s.statuses[j].Stopped?;
    }

    /** The end of a queue's life: join the producer, then destroy the queue.  However the run so
        far went, the destructor yields exactly what was left. */
    method JoinAndDrain() returns (out: seq<T>)
      requires Inv(s) && s.cons.pc.CIdle? && s.prod.pc.PIdle?
      modifies this
      ensures Inv(s) && s.log == old(s.log) && Last(s.statuses).Stopped?
      ensures out == old(Contents(s)) && Contents(s) == []
      ensures forall c :: 0 <= c < |s.slots| ==> s.slots[c] == Raw
    {
      JoinProducer();
      out := Drain();
    }

    /** Joining the producer's thread changes nothing but what the consumer knows; afterwards that
        is every push. */
    method JoinProducer()
      requires Inv(s) && s.cons.pc.CIdle?
      modifies this
      ensures Inv(s) && Synced(s) && s == old(s).(cons := s.cons) && s.cons.pc.CIdle?
    {
      Step(Sync);
    }

    /** `blocking_pop` after joining the producer and whoever stopped the queue: one try, and
        nothing exactly when the queue is empty. */
    method JoinAndPop() returns (r: PopResult<T>)
      requires Inv(s) && s.cons.pc.CIdle? && s.prod.pc.PIdle? && s.statuses != [] && Last(s.statuses).Stopped?
      modifies this
      ensures Inv(s) && s.cons.pc.CIdle? && s.log == old(s.log)
      ensures s.popped == old(s.popped) + if r.Popped? then [r.x] else []
      ensures r.Nothing? <==> |old(s.popped)| == |s.log|
    {
      JoinProducer();
      Step(SyncStop);
      r := BlockingPopAlone();
    }

    /** The destructor: stop, then pop until nothing is found.  With the last push finished and
        synchronised it returns exactly what was left, in order, and leaves no live object. */
    method Drain() returns (out: seq<T>)
      requires Inv(s) && s.cons.pc.CIdle? && s.prod.pc.PIdle? && Synced(s)
      modifies this
      ensures Inv(s) && s.log == old(s.log) && Last(s.statuses).Stopped?
      ensures out == old(Contents(s)) && Contents(s) == []
      ensures forall c :: 0 <= c < |s.slots| ==> s.slots[c] == Raw
    {
      Stop();
      out := [];
      while true
        invariant Inv(s) && s.cons.pc.CIdle? && s.prod.pc.PIdle? && Synced(s)
        invariant s.log == old(s.log) && Last(s.statuses).Stopped?
        invariant s.popped == old(s.popped) + out
        decreases |s.log| - |s.popped|
      {
        var r := PopAlone();
        if r.Nothing? {
          break;
        }
        out := out + [r.x];
      }
      forall c | 0 <= c < |s.slots| ensures s.slots[c] == Raw {
        var p := PositionOf(|s.log|, c, |s.slots|);
        assert FreeOk(s, p);
      }
    }

    /** `try_pop` with no other thread running. */
    method PopAlone() returns (r: PopResult<T>)
      requires Inv(s) && s.cons.pc.CIdle? && s.prod.pc.PIdle? && Synced(s)
      modifies this
      ensures Inv(s) && s.cons.pc.CIdle? && s.prod.pc.PIdle? && Synced(s)
      ensures s.log == old(s.log) && s.statuses == old(s.statuses) && old(s.cons.view.status) <= s.cons.view.status
      ensures s.popped == old(s.popped) + if r.Popped? then [r.x] else []
      ensures r.Nothing? <==> |old(s.popped)| == |s.log|
    {
      LookAlone();
      if s.cons.pc.CIdle? {
        return Nothing;
      }
      r := TakeAlone();
    }

    method LookAlone()
      requires Inv(s) && s.cons.pc.CIdle? && s.prod.pc.PIdle? && Synced(s)
      modifies this
      ensures Inv(s) && s.prod.pc.PIdle? && Synced(s) && s.popped == old(s.popped)
      ensures s.log == old(s.log) && s.statuses == old(s.statuses) && old(s.cons.view.status) <= s.cons.view.status
      ensures if |s.popped| < |s.log| then s.cons.pc.CMoveOut? else s.cons.pc.CIdle?
    {
      var k :| s.cons.view.tail <= k < |s.tails|;
      Step(ReadOwnTail(k));
      k :| s.cons.view.head <= k < |s.heads|;
      MissExact(s, k);
      Step(ReadHead(k));
    }

    /** `blocking_pop` once stopped, with no other thread running: one try, and nothing exactly
        when the queue is empty. */
    method BlockingPopAlone() returns (r: PopResult<T>)
      requires Inv(s) && s.cons.pc.CIdle? && s.prod.pc.PIdle? && Synced(s) && StoppedFrom(s, s.cons.view.status)
      modifies this
      ensures Inv(s) && s.cons.pc.CIdle? && s.log == old(s.log)
      ensures s.popped == old(s.popped) + if r.Popped? then [r.x] else []
      ensures r.Nothing? <==> |old(s.popped)| == |s.log|
    {
      r := PopAlone();
      if r.Popped? {
        return;
      }
      LoadStatusAlone();
      LoadStatusAlone();
    }

    /** A status load that can only return Stopped. */
    method LoadStatusAlone()
      requires Inv(s) && s.cons.pc.CIdle? && StoppedFrom(s, s.cons.view.status)
      modifies this
      ensures Inv(s) && s.cons.pc.CIdle? && s.log == old(s.log) && s.popped == old(s.popped)
      ensures StoppedFrom(s, s.cons.view.status) && s.cons.view.status < |s.statuses|
      ensures s.statuses[s.cons.view.status].Stopped?
    {
      var k :| s.cons.view.status <= k < |s.statuses|;
      Step(CheckStatusC(k));
    }

    method TakeAlone() returns (r: PopResult<T>)
      requires Inv(s) && s.cons.pc.CMoveOut? && s.prod.pc.PIdle? && Synced(s)
      modifies this
      ensures Inv(s) && s.cons.pc.CIdle? && s.prod.pc.PIdle? && Synced(s)
      ensures s.log == old(s.log) && s.statuses == old(s.statuses) && old(s.cons.view.status) <= s.cons.view.status
      ensures r.Popped? && s.popped == old(s.popped) + [r.x]
    {
      assert ReadyOk(s, |s.popped|);
      Step(MoveOut);
      var x := s.cons.pc.x;
      Step(Destroy);
      Step(StoreTail);
      return Popped(x);
    }
  }
}
