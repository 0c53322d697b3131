/**
 The thread-cached pool with its operations taken apart: `release` and `flush` destroy the objects
 they give back one by one, outside the lock, before their section; only the section, and what the
 thread does to its own cache after it, is one step.  Other threads' steps fall in between.
 */
module CachedSteps {
  import opened Helpers
  import opened CachedPool

  /** `s` is the pool as of the last section; `pend[t]` the operation thread `t` is in, `gone[t]`
      how many objects it has already destroyed of those it is about to give back. */
  datatype Fine = Fine(s: State, pend: seq<Option<Action>>, gone: seq<nat>)

  datatype Step = Begin(a: Action) | Destroy(t: nat) | Commit(t: nat)

  function FineInit(n: nat, threads: nat): Fine {
    Fine(Init(n, threads), seq(threads, _ => None), seq(threads, _ => 0))
  }

  /** The nodes an operation gives back, in the order in which it destroys their objects. */
  function GivesBack(p: Params, s: State, a: Action): seq<nat>
    requires Enabled(s, a)
  {
    OutcomeOf(p, s, a).wrecked
  }

  predicate Pending(f: Fine, t: nat) {
    t < |f.pend| == |f.gone| && f.pend[t].Some? && f.pend[t].value.t == t && Enabled(f.s, f.pend[t].value)
  }

  /** Only an object that is out and that nobody else is releasing may be released. */
  predicate CanStep(p: Params, f: Fine, st: Step) {
    match st
    case Begin(a) =>
      && Enabled(f.s, a) && a.t < |f.pend| == |f.gone| && f.pend[a.t].None?
      && (a.Release? ==> forall u :: 0 <= u < |f.pend| ==> !Releasing(f, u, a.obj))
    case Destroy(t) => Pending(f, t) && f.gone[t] < |GivesBack(p, f.s, f.pend[t].value)|
    case Commit(t) => Pending(f, t) && f.gone[t] == |GivesBack(p, f.s, f.pend[t].value)|
  }

  predicate Releasing(f: Fine, u: nat, obj: nat)
    requires u < |f.pend|
  {
    f.pend[u].Some? && f.pend[u].value.Release? && f.pend[u].value.obj == obj
  }

  function Take(p: Params, f: Fine, st: Step): Fine
    requires CanStep(p, f, st)
  {
    match st
    case Begin(a) => f.(pend := f.pend[a.t := Some(a)], gone := f.gone[a.t := 0])
    case Destroy(t) => f.(gone := f.gone[t := f.gone[t] + 1])
    case Commit(t) => Fine(Do(p, f.s, f.pend[t].value), f.pend[t := None], f.gone[t := 0])
  }

  predicate FineRun(p: Params, f: Fine, sts: seq<Step>)
    decreases |sts|
  {
    sts == [] || (CanStep(p, f, sts[0]) && FineRun(p, Take(p, f, sts[0]), sts[1..]))
  }

  function FineEnd(p: Params, f: Fine, sts: seq<Step>): Fine
    requires FineRun(p, f, sts)
    decreases |sts|
  {
    if sts == [] then f else FineEnd(p, Take(p, f, sts[0]), sts[1..])
  }

  // ----- the invariant -------------------------------------------------------------------

  ghost predicate ThreadOk(p: Params, f: Fine, t: nat)
    requires t < |f.pend| == |f.gone|
  {
    f.pend[t].Some? ==> Pending(f, t) && f.gone[t] <= |GivesBack(p, f.s, f.pend[t].value)|
  }

  ghost predicate FineInv(p: Params, n: nat, f: Fine) {
    && Conserved(n, f.s) && LiveOk(n, f.s)
    && |f.pend| == |f.gone| == |f.s.caches| == |f.s.ops| == |f.s.locks| == |f.s.since|
    && (forall t :: 0 <= t < |f.pend| ==> ThreadOk(p, f, t))
    && (forall t, u, obj :: 0 <= t < u < |f.pend| ==> !(Releasing(f, t, obj) && Releasing(f, u, obj)))
  }

  /** What a thread is about to give back depends on its own cache only. */
  lemma GivesBackKept(p: Params, s: State, a: Action, b: Action)
    requires Enabled(s, a) && Enabled(s, b) && a.t != b.t
    requires a.Release? && b.Release? ==> a.obj != b.obj
    ensures Enabled(Do(p, s, a), b) && GivesBack(p, Do(p, s, a), b) == GivesBack(p, s, b)
  {
  }

  lemma CommitInv(p: Params, n: nat, f: Fine, t: nat)
    requires FineInv(p, n, f) && CanStep(p, f, Commit(t))
    ensures FineInv(p, n, Take(p, f, Commit(t)))
  {
    var a, f' := f.pend[t].value, Take(p, f, Commit(t));
    ConservedStep(p, n, f.s, a);
    LiveStep(p, n, f.s, a);
    forall u | 0 <= u < |f.pend| ensures ThreadOk(p, f', u) {
      if u != t && f.pend[u].Some? {
        assert ThreadOk(p, f, u);
        var b := f.pend[u].value;
        if a.Release? && b.Release? {
          assert Releasing(f, t, a.obj) && Releasing(f, u, b.obj);
        }
        GivesBackKept(p, f.s, a, b);
      }
    }
    forall v, u, obj | 0 <= v < u < |f.pend| ensures !(Releasing(f', v, obj) && Releasing(f', u, obj)) {
      assert !(Releasing(f, v, obj) && Releasing(f, u, obj));
    }
  }

  lemma BeginInv(p: Params, n: nat, f: Fine, a: Action)
    requires FineInv(p, n, f) && CanStep(p, f, Begin(a))
    ensures FineInv(p, n, Take(p, f, Begin(a)))
  {
    var f' := Take(p, f, Begin(a));
    forall u | 0 <= u < |f.pend| ensures ThreadOk(p, f', u) {
      assert ThreadOk(p, f, u);
    }
    forall v, u, obj | 0 <= v < u < |f.pend| ensures !(Releasing(f', v, obj) && Releasing(f', u, obj)) {
      assert !(Releasing(f, v, obj) && Releasing(f, u, obj));
      if a.Release? {
        assert !Releasing(f, v, a.obj) && !Releasing(f, u, a.obj);
      }
    }
  }

  lemma DestroyInv(p: Params, n: nat, f: Fine, t: nat)
    requires FineInv(p, n, f) && CanStep(p, f, Destroy(t))
    ensures FineInv(p, n, Take(p, f, Destroy(t)))
  {
    var f' := Take(p, f, Destroy(t));
    forall u | 0 <= u < |f.pend| ensures ThreadOk(p, f', u) {
      assert ThreadOk(p, f, u);
    }
    forall v, u, obj | 0 <= v < u < |f.pend| ensures !(Releasing(f', v, obj) && Releasing(f', u, obj)) {
      assert !(Releasing(f, v, obj) && Releasing(f, u, obj));
    }
  }

  lemma {:induction false} FineRunInv(p: Params, n: nat, f: Fine, sts: seq<Step>)
    requires FineInv(p, n, f) && FineRun(p, f, sts)
    ensures FineInv(p, n, FineEnd(p, f, sts))
    decreases |sts|
  {
    if sts != [] {
      match sts[0] {
        case Begin(a) => BeginInv(p, n, f, a);
        case Destroy(t) => DestroyInv(p, n, f, t);
        case Commit(t) => CommitInv(p, n, f, t);
      }
      FineRunInv(p, n, Take(p, f, sts[0]), sts[1..]);
    }
  }

  // ----- lifetimes in between ------------------------------------------------------------

  /** Nodes whose objects thread `t` has destroyed and not yet given back. */
  function Gone(p: Params, f: Fine, t: nat): seq<nat>
    requires Pending(f, t) && f.gone[t] <= |GivesBack(p, f.s, f.pend[t].value)|
  {
    GivesBack(p, f.s, f.pend[t].value)[..f.gone[t]]
  }

  /** Thread `t` has destroyed the object in node `x` and not yet given the node back. */
  ghost predicate InTransit(p: Params, f: Fine, t: nat, x: nat) {
    Pending(f, t) && f.gone[t] <= |GivesBack(p, f.s, f.pend[t].value)| && x in Gone(p, f, t)
  }

  /** Node `x` holds an object at this moment. */
  ghost predicate Holding(p: Params, f: Fine, x: nat) {
    x in f.s.live && forall t :: 0 <= t < |f.pend| ==> !InTransit(p, f, t, x)
  }

  /** A node is in at most one cache. */
  lemma OneCache(n: nat, s: State, t: nat, u: nat, x: nat)
    requires Conserved(n, s) && t < |s.caches| && u < |s.caches| && t != u
    requires x in s.caches[t]
    ensures x !in s.caches[u]
  {
    NodesOnce(n, x);
    CachedUpdate(s.caches, t, []);
    CachedUpdate(s.caches[t := []], u, []);
    assert Cached(s.caches[t := []]) + multiset(s.caches[t]) == Cached(s.caches);
    assert Cached(s.caches[t := []][u := []]) + multiset(s.caches[u]) == Cached(s.caches[t := []]);
    assert (multiset(s.free) + Cached(s.caches) + multiset(s.out))[x] <= 1;
  }

  /** A node in transit is still listed in its thread's cache, so it is neither free, nor out, nor
      in another cache. */
  lemma TransitIsCached(p: Params, n: nat, f: Fine, t: nat, x: nat)
    requires FineInv(p, n, f) && InTransit(p, f, t, x)
    ensures x in f.s.caches[t] && x in f.s.live && x !in f.s.free && x !in f.s.out
    ensures forall u :: 0 <= u < |f.s.caches| && u != t ==> x !in f.s.caches[u]
  {
    WreckedWasCached(p, f.s, f.pend[t].value);
    CacheIsLive(n, f.s, t);
    assert x in f.s.caches[t];
    OnePlace(n, f.s, t, x);
    forall u | 0 <= u < |f.s.caches| && u != t ensures x !in f.s.caches[u] {
      OneCache(n, f.s, t, u, x);
    }
  }

  lemma NotBefore(xs: seq<nat>, i: nat)
    requires Distinct(xs) && i < |xs|
    ensures xs[i] !in xs[..i]
  {
    forall j | 0 <= j < i ensures xs[..i][j] != xs[i] {
      assert xs[..i][j] == xs[j];
    }
  }

  /** The object a thread destroys next is there: nobody has destroyed it yet. */
  lemma DestroyLawful(p: Params, n: nat, f: Fine, t: nat)
    requires FineInv(p, n, f) && CanStep(p, f, Destroy(t))
    ensures var x := GivesBack(p, f.s, f.pend[t].value)[f.gone[t]];
            && Holding(p, f, x) && x !in f.s.free && !Holding(p, Take(p, f, Destroy(t)), x)
  {
    var xs := GivesBack(p, f.s, f.pend[t].value);
    var x := xs[f.gone[t]];
    LawfulStep(p, n, f.s, f.pend[t].value);
    WreckedWasCached(p, f.s, f.pend[t].value);
    assert x in xs && x in f.s.caches[t];
    NotBefore(xs, f.gone[t]);
    forall u | 0 <= u < |f.pend| ensures !InTransit(p, f, u, x) {
      if u != t && InTransit(p, f, u, x) {
        TransitIsCached(p, n, f, u, x);
      }
    }
    var f' := Take(p, f, Destroy(t));
    assert xs[..f'.gone[t]][f.gone[t]] == x;
    assert InTransit(p, f', t, x);
  }

  /** The nodes a refill constructs in are raw, and no thread is working on them. */
  lemma CommitLawful(p: Params, n: nat, f: Fine, t: nat, x: nat)
    requires FineInv(p, n, f) && CanStep(p, f, Commit(t)) && x in OutcomeOf(p, f.s, f.pend[t].value).built
    ensures !Holding(p, f, x) && forall u :: 0 <= u < |f.pend| ==> !InTransit(p, f, u, x)
  {
    var a := f.pend[t].value;
    LawfulStep(p, n, f.s, a);
    forall u | 0 <= u < |f.pend| ensures !InTransit(p, f, u, x) {
      if InTransit(p, f, u, x) {
        TransitIsCached(p, n, f, u, x);
      }
    }
  }

  /** In every run of any number of threads, with the destructions of one falling between the steps
      of the others: each destruction finds the object, each construction finds raw storage nobody
      is working on, and a node with no object is free or on its way there. */
  lemma FineLifetimes(p: Params, n: nat, threads: nat, sts: seq<Step>)
    requires FineRun(p, FineInit(n, threads), sts)
    ensures var f := FineEnd(p, FineInit(n, threads), sts);
            && Conserved(n, f.s)
            && (forall t: nat :: CanStep(p, f, Destroy(t)) ==>
                  Holding(p, f, GivesBack(p, f.s, f.pend[t].value)[f.gone[t]]))
            && (forall t: nat, x :: CanStep(p, f, Commit(t)) && x in OutcomeOf(p, f.s, f.pend[t].value).built ==>
                  !Holding(p, f, x) && forall u :: 0 <= u < |f.pend| ==> !InTransit(p, f, u, x))
            && (forall x: nat :: x < n && !Holding(p, f, x) ==>
                  x in f.s.free || exists t: nat :: InTransit(p, f, t, x))
  {
    InitConserved(n, threads);
    var f0 := FineInit(n, threads);
    FineRunInv(p, n, f0, sts);
    var f := FineEnd(p, f0, sts);
    forall t: nat | CanStep(p, f, Destroy(t)) ensures Holding(p, f, GivesBack(p, f.s, f.pend[t].value)[f.gone[t]]) {
      DestroyLawful(p, n, f, t);
    }
    forall t: nat, x | CanStep(p, f, Commit(t)) && x in OutcomeOf(p, f.s, f.pend[t].value).built
      ensures !Holding(p, f, x) && forall u :: 0 <= u < |f.pend| ==> !InTransit(p, f, u, x)
    {
      CommitLawful(p, n, f, t, x);
    }
  }

  /** The sections of such a run, in their order, are a run of `CachedPool`, so all that is proved
      of those runs holds of these. */
  function Sections(p: Params, f: Fine, sts: seq<Step>): seq<Action>
    requires FineRun(p, f, sts)
    decreases |sts|
  {
    if sts == [] then []
    else (if sts[0].Commit? then [f.pend[sts[0].t].value] else []) + Sections(p, Take(p, f, sts[0]), sts[1..])
  }

  lemma {:induction false} FineIsCoarse(p: Params, f: Fine, sts: seq<Step>)
    requires FineRun(p, f, sts)
    ensures ValidRun(p, f.s, Sections(p, f, sts))
    ensures Run(p, f.s, Sections(p, f, sts)) == FineEnd(p, f, sts).s
    decreases |sts|
  {
    if sts != [] {
      var rest := Sections(p, Take(p, f, sts[0]), sts[1..]);
      FineIsCoarse(p, Take(p, f, sts[0]), sts[1..]);
      if sts[0].Commit? {
        RunCons(p, f.s, f.pend[sts[0].t].value, rest);
      } else {
        assert [] + rest == rest;
      }
    }
  }
}
