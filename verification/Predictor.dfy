/** The predictor for one location: completing accesses, the full search, and the free of the location. */
module Predictor {
  import opened Clocks
  import opened Program
  import opened ClockHistories
  import opened FlaggedLocks
  import opened CriticalSections
  import opened Summaries
  import opened ClockMerge
  import opened Predecessors
  import opened PairUpdate
  import opened AccessHistory
  import opened FedAccesses

  // ---------- the full search on values ----------

  function FoundOne(table: Table, atomic: set<Inst>, src: Ref, dst: Ref, rmt: Ref, vc: VC): set<Dependency>
    requires Stored(table, src) && Stored(table, dst) && Stored(table, rmt)
  {
    if Passes(atomic, SumAt(table, src), SumAt(table, dst)) && Sees(SumAt(table, rmt), vc)
    then {Dependency(src, dst)} else {}
  }

  // Both directions between the current summary and a remote one.
  function FoundBoth(table: Table, atomic: set<Inst>, cur: Ref, vc: VC, rmt: Ref): set<Dependency>
    requires Stored(table, cur) && Stored(table, rmt)
  {
    FoundOne(table, atomic, rmt, cur, rmt, vc) + FoundOne(table, atomic, cur, rmt, rmt, vc)
  }

  // The first n summaries of thread u.
  function FoundIn(table: Table, atomic: set<Inst>, cur: Ref, vc: VC, u: Tid, n: nat): set<Dependency>
    requires Stored(table, cur) && u in table && n <= |table[u]|
  {
    if n == 0 then {} else
    FoundIn(table, atomic, cur, vc, u, n - 1) + FoundBoth(table, atomic, cur, vc, Ref(u, n - 1))
  }

  // The first n threads, the current one skipped.
  function FoundUpTo(table: Table, atomic: set<Inst>, cur: Ref, vc: VC, threads: seq<Tid>, n: nat): set<Dependency>
    requires Stored(table, cur) && n <= |threads| && forall i | 0 <= i < |threads| :: threads[i] in table
  {
    if n == 0 then {} else
    var u := threads[n - 1];
    FoundUpTo(table, atomic, cur, vc, threads, n - 1)
    + if u == cur.thread then {} else FoundIn(table, atomic, cur, vc, u, |table[u]|)
  }

  predicate FoundWith(table: Table, atomic: set<Inst>, cur: Ref, vc: VC, d: Dependency, rmt: Ref)
    requires Stored(table, cur)
  {
    Stored(table, rmt) && d in FoundBoth(table, atomic, cur, vc, rmt)
  }

  predicate FoundThread(table: Table, atomic: set<Inst>, cur: Ref, vc: VC, d: Dependency, u: Tid)
    requires Stored(table, cur)
  {
    u in table && u != cur.thread && d in FoundIn(table, atomic, cur, vc, u, |table[u]|)
  }

  lemma {:induction false} FoundInHas(
    table: Table, atomic: set<Inst>, cur: Ref, vc: VC, u: Tid, n: nat, d: Dependency, k: nat)
    requires Stored(table, cur) && u in table && k < n <= |table[u]|
    requires FoundWith(table, atomic, cur, vc, d, Ref(u, k))
    ensures d in FoundIn(table, atomic, cur, vc, u, n)
  {
    if k < n - 1 {
      FoundInHas(table, atomic, cur, vc, u, n - 1, d, k);
    }
  }

  lemma {:induction false} FoundInFrom(
    table: Table, atomic: set<Inst>, cur: Ref, vc: VC, u: Tid, n: nat, d: Dependency) returns (k: nat)
    requires Stored(table, cur) && u in table && n <= |table[u]| && d in FoundIn(table, atomic, cur, vc, u, n)
    ensures k < n && FoundWith(table, atomic, cur, vc, d, Ref(u, k))
  {
    k := n - 1;
    if d !in FoundBoth(table, atomic, cur, vc, Ref(u, k)) {
      k := FoundInFrom(table, atomic, cur, vc, u, n - 1, d);
    }
  }

  lemma {:induction false} FoundUpToIs(
    table: Table, atomic: set<Inst>, cur: Ref, vc: VC, threads: seq<Tid>, n: nat, d: Dependency)
    requires Stored(table, cur) && n <= |threads| && forall i | 0 <= i < |threads| :: threads[i] in table
    ensures d in FoundUpTo(table, atomic, cur, vc, threads, n) <==>
            exists i | 0 <= i < n :: FoundThread(table, atomic, cur, vc, d, threads[i])
  {
    if n > 0 {
      FoundUpToIs(table, atomic, cur, vc, threads, n - 1, d);
    }
  }

  // The other end of a dependency of the current summary.
  function Remote(cur: Ref, d: Dependency): Ref {
    if d.src == cur then d.dst else d.src
  }

  lemma FoundWithIs(table: Table, atomic: set<Inst>, cur: Ref, vc: VC, d: Dependency, rmt: Ref)
    requires Stored(table, cur) && rmt.thread != cur.thread
    ensures FoundWith(table, atomic, cur, vc, d, rmt) <==> Found(table, atomic, cur, vc, d) && rmt == Remote(cur, d)
  {
  }

  lemma FoundThreadIs(table: Table, atomic: set<Inst>, cur: Ref, vc: VC, d: Dependency, u: Tid)
    requires Stored(table, cur)
    ensures FoundThread(table, atomic, cur, vc, d, u) <==>
            Found(table, atomic, cur, vc, d) && u == Remote(cur, d).thread
  {
    if FoundThread(table, atomic, cur, vc, d, u) {
      var k := FoundInFrom(table, atomic, cur, vc, u, |table[u]|, d);
      FoundWithIs(table, atomic, cur, vc, d, Ref(u, k));
    }
    var rmt := Remote(cur, d);
    if Found(table, atomic, cur, vc, d) && u == rmt.thread {
      FoundWithIs(table, atomic, cur, vc, d, rmt);
      FoundInHas(table, atomic, cur, vc, u, |table[u]|, d, rmt.index);
    }
  }

  // The loops find what the search is specified to find.
  lemma SearchFinds(table: Table, atomic: set<Inst>, cur: Ref, vc: VC, d: Dependency)
    requires Stored(table, cur)
    ensures d in FoundUpTo(table, atomic, cur, vc, Ascending(table.Keys), |table|) <==>
            Found(table, atomic, cur, vc, d)
  {
    var threads, rmt := Ascending(table.Keys), Remote(cur, d);
    FoundUpToIs(table, atomic, cur, vc, threads, |threads|, d);
    forall i | 0 <= i < |threads|
      ensures FoundThread(table, atomic, cur, vc, d, threads[i]) <==>
              Found(table, atomic, cur, vc, d) && threads[i] == rmt.thread
    {
      FoundThreadIs(table, atomic, cur, vc, d, threads[i]);
    }
    if Found(table, atomic, cur, vc, d) {
      assert FoundThread(table, atomic, cur, vc, d, threads[Rank(table.Keys, rmt.thread)]);
    }
  }

  // ---------- the access history of one location ----------

  class AccHisto {
    const atomic: set<Inst>
    var table: Table
    var last: map<Tid, Pending>
    var deps: set<Dependency>
    ghost var log: seq<Recording>
    ghost var fed: map<Tid, seq<Fed>>

    // The table holds the completed accesses, the dependencies are exactly the concurrent pairs, and the
    // pending accesses come after the completed ones of their threads.
    ghost predicate Consistent()
      reads this
    {
      AreConsistent(log, table, atomic, deps, last)
    }

    // Of the accesses fed, all but the last one of each thread are recorded, and that one is pending.
    ghost predicate Valid()
      reads this
    {
      Consistent() && AllTracked(log, last, fed)
    }

    constructor (atomic: set<Inst>)
      ensures Valid() && this.atomic == atomic && deps == {} && fed == map[]
    {
      this.atomic := atomic;
      table, last, deps, log, fed := map[], map[], {}, [], map[];
    }

    // Finds the summary of a completed access among those of its thread.
    static method MatchAccSum(sums: seq<Summary>, r: Recording) returns (i: nat)
      ensures i == FirstMatch(sums, r, 0)
    {
      i := 0;
      while i < |sums|
        invariant i <= |sums| && FirstMatch(sums, r, i) == FirstMatch(sums, r, 0)
      {
        var sameFlags := MatchFlags(sums[i].fls, r.fls);
        if sums[i].kind == r.kind && sums[i].inst == r.inst && sameFlags {
          return;
        }
        i := i + 1;
      }
    }

    // Adds one dependency if it is new and passes every test.
    method CheckPair(src: Ref, dst: Ref, rmt: Ref, vc: VC)
      requires Stored(table, src) && Stored(table, dst) && Stored(table, rmt)
      requires Increasing(SumAt(table, rmt).tinfo)
      modifies this`deps
      ensures deps == old(deps) + FoundOne(table, atomic, src, dst, rmt, vc)
    {
      var s, s' := SumAt(table, src), SumAt(table, dst);
      if CheckConflict(s.kind, s'.kind) && Dependency(src, dst) !in deps {
        var allowed := CheckMutexExclution(s.fls, s'.fls);
        if allowed {
          var concurrent := CheckConcurrent(vc, SumAt(table, rmt).tinfo);
          if concurrent && CheckAtomic(atomic, s, s') {
            deps := deps + {Dependency(src, dst)};
          }
        }
      }
    }

    method SearchThread(cur: Ref, vc: VC, u: Tid)
      requires Stored(table, cur) && u in table
      requires forall k | 0 <= k < |table[u]| :: Increasing(table[u][k].tinfo)
      modifies this`deps
      ensures deps == old(deps) + FoundIn(table, atomic, cur, vc, u, |table[u]|)
    {
      for k := 0 to |table[u]|
        invariant deps == old(deps) + FoundIn(table, atomic, cur, vc, u, k)
      {
        CheckPair(Ref(u, k), cur, Ref(u, k), vc);
        CheckPair(cur, Ref(u, k), Ref(u, k), vc);
      }
    }

    method SearchThreads(cur: Ref, vc: VC, threads: seq<Tid>)
      requires Stored(table, cur) && forall i | 0 <= i < |threads| :: threads[i] in table
      requires AllIncreasing(table)
      modifies this`deps
      ensures deps == old(deps) + FoundUpTo(table, atomic, cur, vc, threads, |threads|)
    {
      for i := 0 to |threads|
        invariant deps == old(deps) + FoundUpTo(table, atomic, cur, vc, threads, i)
      {
        if threads[i] != cur.thread {
          assert forall k | 0 <= k < |table[threads[i]]| :: Increasing(table[threads[i]][k].tinfo);
          SearchThread(cur, vc, threads[i]);
        }
      }
    }

    // The full search: every summary of every other thread, in both directions.
    method Search(cur: Ref, vc: VC)
      requires Stored(table, cur) && AllIncreasing(table)
      modifies this`deps
      ensures SearchAdds(table, atomic, cur, vc, old(deps), deps)
    {
      SearchThreads(cur, vc, Ascending(table.Keys));
      SearchFindsAll(table, atomic, cur, vc, old(deps));
    }

    // Finds or creates the summary, and says whether its last clock value is the current one.
    method Record(r: Recording) returns (cur: Ref, hit: bool)
      requires NonEmpty(table)
      modifies this`table
      ensures table == Recorded(old(table), r) && cur == Target(old(table), r) && (hit <==> Hit(old(table), r))
    {
      var sums := SumsOf(table, r.thread);
      var i := MatchAccSum(sums, r);
      cur, hit := Ref(r.thread, i), false;
      if i == |sums| {
        table := table[r.thread := sums + [Summary(r.kind, r.inst, r.fls, [TimeInfo(r.vc, r.clk, r.clk)])]];
      } else {
        var h := sums[i].tinfo;
        hit := h[|h| - 1].vc == r.vc;
        if hit {
          h := h[|h| - 1 := h[|h| - 1].(end := r.clk)];
        } else {
          h := h + [TimeInfo(r.vc, r.clk, r.clk)];
        }
        table := table[r.thread := sums[i := sums[i].(tinfo := h)]];
      }
    }

    // A clock value the summary has just seen needs no search.
    method RecordAndSearch(r: Recording)
      requires NonEmpty(table)
      requires Stored(Recorded(table, r), Target(table, r)) && AllIncreasing(Recorded(table, r))
      modifies this`table, this`deps
      ensures table == Recorded(old(table), r)
      ensures Searched(old(table), atomic, old(deps), r, deps)
    {
      var cur, hit := Record(r);
      if !hit {
        Search(cur, r.vc);
      }
    }

    // Records a completed access.
    method ProcessAccSumUpdate(r: Recording)
      requires Consistent() && InOrder(log + [r])
      requires r.thread in last && Precedes(r, last[r.thread])
      modifies this`table, this`deps, this`log
      ensures Consistent() && log == old(log) + [r] && table == Recorded(old(table), r)
    {
      ghost var table0, deps0 := table, deps;
      ReadyToSearch(log, table, atomic, deps, last, r);
      RecordAndSearch(r);
      UpdateKeeps(log, table0, atomic, deps0, last, r, deps);
      log := log + [r];
    }

    // Completes the pending access of the thread with the lockset of the next one, or at the free.
    method CompleteLast(t: Tid, next: Option<Versions>)
      requires Consistent() && t in last
      modifies this`table, this`deps, this`log
      ensures Consistent()
      ensures log == old(log) + [Completed(t, last[t], next)]
    {
      var fls := DynAcc.UpdateLastFlag(last[t].fls, last[t].ls, next);
      var r := Recording(t, last[t].kind, last[t].inst, fls, last[t].vc, last[t].clk);
      StillInOrder(log, last[t], r);
      SelfPrecedes(r, last[t]);
      ProcessAccSumUpdate(r);
    }

    // One access to the location: completes the previous access of the thread and opens its own.
    method ProcessiRootEvent(t: Tid, clk: nat, kind: EventType, inst: Inst, vc: VC, ls: Versions)
      requires Valid()
      requires t in last ==> Leq(last[t].vc, vc) && last[t].clk <= clk
      modifies this
      ensures Valid()
      ensures fed == old(fed)[t := (if t in old(fed) then old(fed)[t] else []) + [Fed(kind, inst, vc, clk, ls)]]
    {
      ghost var a := Fed(kind, inst, vc, clk, ls);
      ghost var more := if t in last then [Completed(t, last[t], Some(ls))] else [];
      var prev := map[];
      if t in last {
        prev := last[t].ls;
        CompleteLast(t, Some(ls));
      }
      var fls := DynAcc.UpdateFirstFlag(map[], prev, ls);
      var p := Pending(kind, inst, vc, clk, ls, fls);
      assert log == old(log) + more;
      NextTracked(old(log), last, fed, t, a, more, p);
      NextPrecedes(log, last, t, p);
      last := last[t := p];
      fed := fed[t := FedTo(fed, t) + [a]];
    }

    // The free of the location completes every pending access, in thread order.
    method CompleteAll()
      requires Consistent()
      modifies this`table, this`deps, this`log
      ensures Consistent() && log == Flushed(old(log), last, Ascending(last.Keys), |last|)
    {
      var threads := Ascending(last.Keys);
      for i := 0 to |threads|
        invariant Consistent() && log == Flushed(old(log), last, threads, i)
      {
        CompleteLast(threads[i], None);
      }
    }

    // Step 1: the timelines of all threads.
    method BuildTimelines() returns (tls: Timelines)
      requires Consistent()
      ensures TimelinesOf(table, tls) && Ordered(tls) && Known(tls, table)
    {
      tls := map[];
      var threads := Ascending(table.Keys);
      for i := 0 to |threads|
        invariant forall t :: t in tls <==> t in threads[..i]
        invariant forall t | t in tls :: t in table && IsTimeline(table[t], tls[t])
      {
        var t := threads[i];
        SummariesOfOneThread(log, table, t);
        var out := Timeline(table[t]);
        tls := tls[t := out];
        assert threads[..i + 1] == threads[..i] + [t];
      }
      AllThreadsVisited(table, tls, threads);
      TimelinesKnown(table, tls);
    }

    // Both steps: the dependencies on immediate predecessors are added.
    method ProcessAccSumPairUpdate() returns (tls: Timelines)
      requires Consistent()
      modifies this`deps
      ensures |table| < 2 ==> deps == old(deps)
      ensures |table| >= 2 ==>
                && TimelinesOf(table, tls) && Known(tls, table)
                && forall d :: d in deps <==> d in old(deps) || Required(tls, table, d)
    {
      if |table| < 2 {
        return map[];
      }
      tls := BuildTimelines();
      deps := Update(tls, table, deps);
    }

    // The free of the location: the concurrent pairs of all its accesses, and the pairs of immediate
    // predecessors on the merged timelines.
    method ProcessFree() returns (tls: Timelines)
      requires Valid()
      modifies this`table, this`deps, this`log
      ensures forall t :: AllRecorded(log, fed, t)
      ensures InOrder(log) && Holds(log, table) && AllSpans(log, table)
      ensures |table| < 2 ==> Exact(table, atomic, deps)
      ensures |table| >= 2 ==>
                && TimelinesOf(table, tls) && Known(tls, table)
                && forall d :: d in deps <==> IsPair(table, atomic, d) || Required(tls, table, d)
    {
      CompleteAll();
      AllComplete(old(log), last, fed);
      tls := ProcessAccSumPairUpdate();
    }
  }

  ghost predicate AreConsistent(
    log: seq<Recording>, table: Table, atomic: set<Inst>, deps: set<Dependency>, last: map<Tid, Pending>)
  {
    && InOrder(log) && Holds(log, table) && AllSpans(log, table)
    && Exact(table, atomic, deps) && AllPrecede(log, last)
  }

  // The dependencies are exactly the concurrent pairs.
  ghost predicate Exact(table: Table, atomic: set<Inst>, deps: set<Dependency>) {
    forall d :: d in deps <==> IsPair(table, atomic, d)
  }

  ghost predicate SearchAdds(
    table: Table, atomic: set<Inst>, cur: Ref, vc: VC, deps: set<Dependency>, deps': set<Dependency>) {
    forall d :: d in deps' <==> d in deps || Found(table, atomic, cur, vc, d)
  }

  // What recording r makes of the dependencies.
  ghost predicate Searched(
    table: Table, atomic: set<Inst>, deps: set<Dependency>, r: Recording, deps': set<Dependency>)
    requires NonEmpty(table)
  {
    if Hit(table, r) then deps' == deps
    else SearchAdds(Recorded(table, r), atomic, Target(table, r), r.vc, deps, deps')
  }

  lemma SearchFindsAll(table: Table, atomic: set<Inst>, cur: Ref, vc: VC, deps: set<Dependency>)
    requires Stored(table, cur)
    ensures SearchAdds(table, atomic, cur, vc, deps,
                       deps + FoundUpTo(table, atomic, cur, vc, Ascending(table.Keys), |table|))
  {
    forall d
      ensures d in FoundUpTo(table, atomic, cur, vc, Ascending(table.Keys), |table|) <==>
              Found(table, atomic, cur, vc, d)
    {
      SearchFinds(table, atomic, cur, vc, d);
    }
  }

  lemma ExactNext(table: Table, atomic: set<Inst>, deps: set<Dependency>, r: Recording, deps': set<Dependency>)
    requires NonEmpty(table) && Exact(table, atomic, deps)
    requires Searched(table, atomic, deps, r, deps')
    ensures Exact(Recorded(table, r), atomic, deps')
  {
    forall d ensures d in deps' <==> IsPair(Recorded(table, r), atomic, d) {
      PairsNext(table, atomic, r, d);
    }
  }

  // ---------- keeping the order ----------

  ghost predicate AllPrecede(log: seq<Recording>, last: map<Tid, Pending>) {
    forall l | 0 <= l < |log| :: log[l].thread in last && Precedes(log[l], last[log[l].thread])
  }

  ghost predicate Precedes(r: Recording, p: Pending) {
    Leq(r.vc, p.vc) && r.clk <= p.clk
  }

  lemma ReadyToSearch(
    log: seq<Recording>, table: Table, atomic: set<Inst>, deps: set<Dependency>, last: map<Tid, Pending>, r: Recording)
    requires AreConsistent(log, table, atomic, deps, last) && InOrder(log + [r])
    ensures NonEmpty(table)
    ensures Stored(Recorded(table, r), Target(table, r)) && AllIncreasing(Recorded(table, r))
  {
    TargetIs(table, r);
    RecordedHolds(log, table, r);
    HoldsIncreasing(log + [r], Recorded(table, r));
  }

  lemma UpdateKeeps(
    log: seq<Recording>, table: Table, atomic: set<Inst>, deps: set<Dependency>, last: map<Tid, Pending>,
    r: Recording, deps': set<Dependency>)
    requires AreConsistent(log, table, atomic, deps, last) && InOrder(log + [r]) && NonEmpty(table)
    requires r.thread in last && Precedes(r, last[r.thread])
    requires Searched(table, atomic, deps, r, deps')
    ensures AreConsistent(log + [r], Recorded(table, r), atomic, deps', last)
  {
    RecordedHolds(log, table, r);
    RecordedSpans(log, table, r);
    ExactNext(table, atomic, deps, r, deps');
    PrecedeNext(log, last, r);
  }

  lemma PrecedeNext(log: seq<Recording>, last: map<Tid, Pending>, r: Recording)
    requires AllPrecede(log, last) && r.thread in last && Precedes(r, last[r.thread])
    ensures AllPrecede(log + [r], last)
  {
  }

  lemma SelfPrecedes(r: Recording, p: Pending)
    requires r.vc == p.vc && r.clk == p.clk
    ensures Precedes(r, p)
  {
    LeqIsPartialOrder(r.vc, r.vc, r.vc);
  }

  lemma StillInOrder(log: seq<Recording>, p: Pending, r: Recording)
    requires InOrder(log) && forall l | 0 <= l < |log| && log[l].thread == r.thread :: Precedes(log[l], p)
    requires r.vc == p.vc && r.clk == p.clk
    ensures InOrder(log + [r])
  {
  }

  lemma PrecedesNext(r: Recording, p: Pending, p': Pending)
    requires Precedes(r, p) && Leq(p.vc, p'.vc) && p.clk <= p'.clk
    ensures Precedes(r, p')
  {
    LeqIsPartialOrder(r.vc, p.vc, p'.vc);
  }

  // Threads with a pending access, each once.
  ghost predicate Enumerates(threads: seq<Tid>, last: map<Tid, Pending>) {
    && (forall i | 0 <= i < |threads| :: threads[i] in last)
    && (forall i, j | 0 <= i < j < |threads| :: threads[i] != threads[j])
  }

  // The recordings after the first n threads have completed their pending accesses.
  ghost function Flushed(log: seq<Recording>, last: map<Tid, Pending>, threads: seq<Tid>, n: nat): seq<Recording>
    requires n <= |threads| && Enumerates(threads, last)
  {
    if n == 0 then log else
    Flushed(log, last, threads, n - 1) + [Completed(threads[n - 1], last[threads[n - 1]], None)]
  }

  ghost predicate AllIncreasing(table: Table) {
    forall t | t in table :: forall k | 0 <= k < |table[t]| :: Increasing(table[t][k].tinfo)
  }

  lemma HoldsIncreasing(log: seq<Recording>, table: Table)
    requires Holds(log, table)
    ensures AllIncreasing(table)
  {
    forall t, k | t in table && 0 <= k < |table[t]| ensures Increasing(table[t][k].tinfo) {
      SumsFrom(log, table, t, k);
    }
  }

  // ---------- keeping the tracks ----------

  lemma NextPrecedes(log: seq<Recording>, last: map<Tid, Pending>, t: Tid, p: Pending)
    requires AllPrecede(log, last) && (t in last ==> Leq(last[t].vc, p.vc) && last[t].clk <= p.clk)
    ensures AllPrecede(log, last[t := p])
  {
    forall l | 0 <= l < |log| && log[l].thread == t ensures Precedes(log[l], p) {
      PrecedesNext(log[l], last[t], p);
    }
  }

  lemma NextTracked(
    log: seq<Recording>, last: map<Tid, Pending>, fed: map<Tid, seq<Fed>>, t: Tid, a: Fed,
    more: seq<Recording>, p: Pending)
    requires AllTracked(log, last, fed)
    requires more == if t in last then [Completed(t, last[t], Some(a.ls))] else []
    requires var prev := if t in last then last[t].ls else map[];
             p == Pending(a.kind, a.inst, a.vc, a.clk, a.ls, FirstFlags(map[], prev, a.ls))
    ensures AllTracked(log + more, last[t := p], fed[t := FedTo(fed, t) + [a]])
  {
    var log', last', fed' := log + more, last[t := p], fed[t := FedTo(fed, t) + [a]];
    forall u ensures Tracks(log', last', fed', u) {
      assert Tracks(log, last, fed, u);
      if u == t {
        NextTracksOwn(log, last, fed, t, a, more, p);
      } else {
        TracksOther(log, last, fed, u, more, t, p, FedTo(fed, t) + [a]);
      }
    }
  }

  lemma NextTracksOwn(
    log: seq<Recording>, last: map<Tid, Pending>, fed: map<Tid, seq<Fed>>, t: Tid, a: Fed,
    more: seq<Recording>, p: Pending)
    requires Tracks(log, last, fed, t)
    requires more == if t in last then [Completed(t, last[t], Some(a.ls))] else []
    requires var prev := if t in last then last[t].ls else map[];
             p == Pending(a.kind, a.inst, a.vc, a.clk, a.ls, FirstFlags(map[], prev, a.ls))
    ensures Tracks(log + more, last[t := p], fed[t := FedTo(fed, t) + [a]], t)
  {
    var accs := FedTo(fed, t);
    OpensRight(accs, a);
    if t in last {
      ClosesRight(last[t].fls, accs, a);
      TracksNext(log, last, fed, t, a, more[0], p);
    } else {
      assert log + more == log && accs + [a] == [a];
      TracksFirst(log, last, fed, t, a, p);
    }
  }

  // The recording a free makes of thread t, if it is among the given ones.
  ghost function FreedOf(last: map<Tid, Pending>, among: seq<Tid>, t: Tid): seq<Recording>
    requires t in among ==> t in last
  {
    if t in among then [Completed(t, last[t], None)] else []
  }

  lemma {:induction false} FlushedOf(log: seq<Recording>, last: map<Tid, Pending>, threads: seq<Tid>, n: nat, t: Tid)
    requires n <= |threads| && Enumerates(threads, last)
    ensures Of(Flushed(log, last, threads, n), t) == Of(log, t) + FreedOf(last, threads[..n], t)
  {
    if n == 0 {
      NothingFlushed(log, last, threads, t);
    } else {
      FlushedOf(log, last, threads, n - 1, t);
      FlushedNext(log, last, threads, n - 1, t);
    }
  }

  lemma NothingFlushed(log: seq<Recording>, last: map<Tid, Pending>, threads: seq<Tid>, t: Tid)
    requires Enumerates(threads, last)
    ensures Of(Flushed(log, last, threads, 0), t) == Of(log, t) + FreedOf(last, threads[..0], t)
  {
    assert threads[..0] == [];
    assert Flushed(log, last, threads, 0) == log;
  }

  lemma FlushedNext(log: seq<Recording>, last: map<Tid, Pending>, threads: seq<Tid>, n: nat, t: Tid)
    requires n < |threads| && Enumerates(threads, last)
    requires Of(Flushed(log, last, threads, n), t) == Of(log, t) + FreedOf(last, threads[..n], t)
    ensures Of(Flushed(log, last, threads, n + 1), t) == Of(log, t) + FreedOf(last, threads[..n + 1], t)
  {
    var u := threads[n];
    FreedOfNext(last, threads, n, t);
    OneMore(Flushed(log, last, threads, n), Completed(u, last[u], None), t,
            Of(log, t), FreedOf(last, threads[..n], t));
  }

  lemma OneMore(log: seq<Recording>, r: Recording, t: Tid, q: seq<Recording>, first: seq<Recording>)
    requires Of(log, t) == q + first
    ensures Of(log + [r], t) == q + (first + if r.thread == t then [r] else [])
  {
    OfNext(log, r, t);
    var second := if r.thread == t then [r] else [];
    assert q + first + second == q + (first + second);
  }

  lemma FreedOfNext(last: map<Tid, Pending>, threads: seq<Tid>, n: nat, t: Tid)
    requires n < |threads| && Enumerates(threads, last)
    ensures FreedOf(last, threads[..n + 1], t) ==
            FreedOf(last, threads[..n], t) + if threads[n] == t then [Completed(t, last[t], None)] else []
  {
    assert threads[..n + 1] == threads[..n] + [threads[n]];
  }

  lemma AllComplete(log: seq<Recording>, last: map<Tid, Pending>, fed: map<Tid, seq<Fed>>)
    requires AllTracked(log, last, fed)
    ensures forall t :: AllRecorded(Flushed(log, last, Ascending(last.Keys), |last|), fed, t)
  {
    var threads := Ascending(last.Keys);
    forall t ensures AllRecorded(Flushed(log, last, threads, |last|), fed, t) {
      assert Tracks(log, last, fed, t);
      FlushedOf(log, last, threads, |last|, t);
      VisitsAll(last.Keys, t);
      CompleteAtFree(log, last, fed, t, Flushed(log, last, threads, |last|));
    }
  }

  // ---------- timelines of a table ----------

  ghost predicate TimelinesOf(table: Table, tls: Timelines) {
    tls.Keys == table.Keys && forall t | t in tls :: IsTimeline(table[t], tls[t])
  }

  lemma AllThreadsVisited(table: Table, tls: Timelines, threads: seq<Tid>)
    requires threads == Ascending(table.Keys)
    requires forall t :: t in tls <==> t in threads[..|threads|]
    ensures tls.Keys == table.Keys
  {
    assert threads[..|threads|] == threads;
    forall t ensures t in tls <==> t in table {
      VisitsAll(table.Keys, t);
    }
  }

  lemma TimelinesKnown(table: Table, tls: Timelines)
    requires TimelinesOf(table, tls)
    ensures Ordered(tls) && Known(tls, table)
  {
  }
}
