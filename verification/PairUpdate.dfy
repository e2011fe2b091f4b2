/** Step 2 of ProcessAccSumPairUpdate as a whole: the dependencies added between summaries of two threads. */
module PairUpdate {
  import opened Clocks
  import opened Summaries
  import opened Predecessors
  import opened CriticalSections

  // Every summary the timelines name is known.
  predicate Known(tls: Timelines, table: Table) {
    forall t | t in tls :: forall k | 0 <= k < |tls[t]| ::
                             Stored(table, Ref(t, tls[t][k].first)) && Stored(table, Ref(t, tls[t][k].last))
  }

  // The summary that ended last in entry p, and the one that started first in entry c.
  function DependencyOf(tls: Timelines, c: Place, p: Place): Dependency
    requires Exists(tls, c) && Exists(tls, p)
  {
    Dependency(Ref(p.thread, tls[p.thread][p.index].last), Ref(c.thread, tls[c.thread][c.index].first))
  }

  predicate Allowed(table: Table, d: Dependency)
    requires Stored(table, d.src) && Stored(table, d.dst)
  {
    Compatible(SumAt(table, d.src), SumAt(table, d.dst))
  }

  // Entry c depends on its immediate predecessor p.
  ghost predicate Depends(tls: Timelines, table: Table, c: Place, p: Place, d: Dependency)
    requires Known(tls, table)
  {
    Exists(tls, c) && Immediate(tls, c, p) && d == DependencyOf(tls, c, p) && Allowed(table, d)
  }

  // The dependencies of one entry, added to those already present.
  method AddDependencies(tls: Timelines, table: Table, c: Place, deps: set<Dependency>)
    returns (deps': set<Dependency>)
    requires Ordered(tls) && Known(tls, table) && Exists(tls, c)
    ensures forall d :: d in deps' <==> d in deps || exists p :: Depends(tls, table, c, p, d)
  {
    deps' := deps;
    var preds := FindPredecessors(tls, c);
    for i := 0 to |preds|
      invariant forall d :: d in deps' <==> d in deps || exists k | 0 <= k < i :: Depends(tls, table, c, preds[k], d)
    {
      assert Immediate(tls, c, preds[i]);
      var d := DependencyOf(tls, c, preds[i]);
      if CheckConflict(SumAt(table, d.src).kind, SumAt(table, d.dst).kind) && d !in deps' {
        var ok := CheckMutexExclution(SumAt(table, d.src).fls, SumAt(table, d.dst).fls);
        if ok {
          assert Depends(tls, table, c, preds[i], d);
          deps' := deps' + {d};
        }
      }
    }
    forall d, p | Depends(tls, table, c, p, d) ensures d in deps' {
      assert p in preds;
    }
  }

  ghost predicate Added(tls: Timelines, table: Table, d: Dependency, t: Tid)
    requires Known(tls, table)
  {
    exists k, p :: Depends(tls, table, Place(t, k), p, d)
  }

  method AddThread(tls: Timelines, table: Table, t: Tid, deps: set<Dependency>)
    returns (deps': set<Dependency>)
    requires Ordered(tls) && Known(tls, table) && t in tls
    ensures forall d :: d in deps' <==> d in deps || Added(tls, table, d, t)
  {
    deps' := deps;
    for i := 0 to |tls[t]|
      invariant forall d :: d in deps' <==>
                            d in deps || exists k, p | 0 <= k < i :: Depends(tls, table, Place(t, k), p, d)
    {
      deps' := AddDependencies(tls, table, Place(t, i), deps');
    }
  }

  // Some entry depends on an immediate predecessor of another thread in this way.
  ghost predicate Required(tls: Timelines, table: Table, d: Dependency)
    requires Known(tls, table)
  {
    exists c, p :: Depends(tls, table, c, p, d)
  }

  ghost predicate AddedByOne(tls: Timelines, table: Table, d: Dependency, threads: seq<Tid>, n: nat)
    requires Known(tls, table) && n <= |threads|
  {
    exists k | 0 <= k < n :: Added(tls, table, d, threads[k])
  }

  method AddThreads(tls: Timelines, table: Table, threads: seq<Tid>, deps: set<Dependency>)
    returns (deps': set<Dependency>)
    requires Ordered(tls) && Known(tls, table) && forall i | 0 <= i < |threads| :: threads[i] in tls
    ensures forall d :: d in deps' <==> d in deps || AddedByOne(tls, table, d, threads, |threads|)
  {
    deps' := deps;
    for i := 0 to |threads|
      invariant forall d :: d in deps' <==> d in deps || AddedByOne(tls, table, d, threads, i)
    {
      deps' := AddThread(tls, table, threads[i], deps');
    }
  }

  // With fewer than two threads there is nothing to add; otherwise a dependency is added exactly when it
  // leads from an immediate predecessor to an entry, its kinds conflict and the mutex check accepts it.
  method Update(tls: Timelines, table: Table, deps: set<Dependency>) returns (deps': set<Dependency>)
    requires Ordered(tls) && Known(tls, table)
    ensures forall d :: d in deps' <==> d in deps || Required(tls, table, d)
  {
    if |tls| < 2 {
      forall d ensures !Required(tls, table, d) {
        NoneRequired(tls, table, d);
      }
      return deps;
    }
    deps' := AddThreads(tls, table, Ascending(tls.Keys), deps);
    forall d ensures AddedByOne(tls, table, d, Ascending(tls.Keys), |tls|) <==> Required(tls, table, d) {
      AnyThread(tls, table, d);
    }
  }

  lemma NoneRequired(tls: Timelines, table: Table, d: Dependency)
    requires |tls| < 2 && Known(tls, table)
    ensures !Required(tls, table, d)
  {
    if c, p :| Depends(tls, table, c, p, d) {
      OneThreadHasNone(tls, c, p);
    }
  }

  lemma OneThreadHasNone(tls: Timelines, c: Place, p: Place)
    requires |tls| < 2 && Exists(tls, c)
    ensures !IsEarlier(tls, c, p)
  {
    if p.thread in tls && p.thread != c.thread {
      assert {p.thread, c.thread} <= tls.Keys;
      SubsetSize({p.thread, c.thread}, tls.Keys);
    }
  }

  lemma SubsetSize(s: set<Tid>, t: set<Tid>)
    requires s <= t
    ensures |s| <= |t|
  {
    assert s + (t - s) == t;
  }

  lemma AnyThread(tls: Timelines, table: Table, d: Dependency)
    requires Known(tls, table)
    ensures AddedByOne(tls, table, d, Ascending(tls.Keys), |tls|) <==> Required(tls, table, d)
  {
    var threads := Ascending(tls.Keys);
    if c, p :| Depends(tls, table, c, p, d) {
      var i := Rank(tls.Keys, c.thread);
      assert Depends(tls, table, Place(threads[i], c.index), p, d);
      assert Added(tls, table, d, threads[i]);
    }
  }
}
