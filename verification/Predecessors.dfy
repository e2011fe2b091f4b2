/** Step 2 of ProcessAccSumPairUpdate: the immediate predecessors of a clock value in other timelines. */
module Predecessors {
  import opened Clocks
  import opened ClockHistories
  import opened ClockMerge

  // One timeline per thread.
  type Timelines = map<Tid, seq<TimedEntry>>

  datatype Place = Place(thread: Tid, index: nat)

  predicate Exists(tls: Timelines, p: Place) {
    p.thread in tls && p.index < |tls[p.thread]|
  }

  function At(tls: Timelines, p: Place): VC
    requires Exists(tls, p)
  {
    tls[p.thread][p.index].vc
  }

  ghost predicate Ordered(tls: Timelines) {
    forall t | t in tls :: StrictlyIncreasing(tls[t])
  }

  // p is an entry of another thread that happens before c.
  predicate IsEarlier(tls: Timelines, c: Place, p: Place)
    requires Exists(tls, c)
  {
    Exists(tls, p) && p.thread != c.thread && Leq(At(tls, p), At(tls, c))
  }

  // p happens before c, not before the entry preceding c, and before no other such entry.
  ghost predicate Immediate(tls: Timelines, c: Place, p: Place)
    requires Exists(tls, c)
  {
    && IsEarlier(tls, c, p)
    && (c.index > 0 ==> !Leq(At(tls, p), At(tls, Place(c.thread, c.index - 1))))
    && (forall q | IsEarlier(tls, c, q) && q != p :: !Leq(At(tls, p), At(tls, q)))
  }

  // The number of leading entries that happen before vc.
  method CountBefore(tl: seq<TimedEntry>, vc: VC) returns (n: nat)
    requires StrictlyIncreasing(tl)
    ensures n <= |tl| && forall k | 0 <= k < |tl| :: Leq(tl[k].vc, vc) <==> k < n
  {
    n := 0;
    while n < |tl| && Leq(tl[n].vc, vc)
      invariant 0 <= n <= |tl|
      invariant forall k | 0 <= k < n :: Leq(tl[k].vc, vc)
    {
      n := n + 1;
    }
    forall k | n <= k < |tl| ensures !Leq(tl[k].vc, vc) {
      if n < k {
        assert Before(tl[n].vc, tl[k].vc);
        LeqIsPartialOrder(tl[n].vc, tl[k].vc, vc);
      }
    }
  }

  // p is the last entry of its thread that happens before c.
  ghost predicate IsLatest(tls: Timelines, c: Place, p: Place)
    requires Exists(tls, c)
  {
    IsEarlier(tls, c, p) && forall k | p.index < k < |tls[p.thread]| :: !IsEarlier(tls, c, Place(p.thread, k))
  }

  ghost predicate Candidates(tls: Timelines, c: Place, threads: seq<Tid>, n: nat, cands: seq<Place>)
    requires Exists(tls, c) && n <= |threads|
  {
    && (forall i | 0 <= i < |cands| :: IsLatest(tls, c, cands[i]))
    && (forall i, j | 0 <= i < j < |cands| :: cands[i].thread != cands[j].thread)
    && (forall i | 0 <= i < |cands| :: cands[i].thread in threads[..n])
    && (forall p | IsLatest(tls, c, p) && p.thread in threads[..n] :: p in cands)
  }

  // The latest earlier entry of every other thread.
  method FindCandidates(tls: Timelines, c: Place) returns (cands: seq<Place>)
    requires Ordered(tls) && Exists(tls, c)
    ensures Candidates(tls, c, Ascending(tls.Keys), |tls|, cands)
  {
    cands := VisitThreads(tls, c, Ascending(tls.Keys));
  }

  method VisitThreads(tls: Timelines, c: Place, threads: seq<Tid>) returns (cands: seq<Place>)
    requires Ordered(tls) && Exists(tls, c)
    requires forall i | 0 <= i < |threads| :: threads[i] in tls
    requires forall i, j | 0 <= i < j < |threads| :: threads[i] != threads[j]
    ensures Candidates(tls, c, threads, |threads|, cands)
  {
    cands := [];
    for i := 0 to |threads|
      invariant Candidates(tls, c, threads, i, cands)
    {
      var u := threads[i];
      assert threads[..i + 1] == threads[..i] + [u];
      assert u !in threads[..i];
      if u != c.thread {
        var n := CountBefore(tls[u], At(tls, c));
        if n > 0 {
          cands := cands + [Place(u, n - 1)];
        }
      }
    }
  }

  // No other candidate comes after candidate i.
  method IsMaximal(tls: Timelines, cands: seq<Place>, i: nat) returns (maximal: bool)
    requires i < |cands| && forall k | 0 <= k < |cands| :: Exists(tls, cands[k])
    ensures maximal <==> forall j | 0 <= j < |cands| && j != i :: !Leq(At(tls, cands[i]), At(tls, cands[j]))
  {
    for j := 0 to |cands|
      invariant forall k | 0 <= k < j && k != i :: !Leq(At(tls, cands[i]), At(tls, cands[k]))
    {
      if j != i && Leq(At(tls, cands[i]), At(tls, cands[j])) {
        return false;
      }
    }
    return true;
  }

  lemma LatestIsCandidate(tls: Timelines, c: Place, cands: seq<Place>, q: Place) returns (i: nat)
    requires Exists(tls, c) && IsLatest(tls, c, q)
    requires Candidates(tls, c, Ascending(tls.Keys), |tls|, cands)
    ensures i < |cands| && cands[i] == q
  {
    var threads := Ascending(tls.Keys);
    AscendingMembers(tls.Keys);
    assert threads[..|tls|] == threads && q.thread in Members(threads);
    assert q in cands;
    i :| 0 <= i < |cands| && cands[i] == q;
  }

  // Every earlier entry lies below the candidate of its thread.
  lemma BelowItsCandidate(tls: Timelines, c: Place, cands: seq<Place>, q: Place) returns (i: nat)
    requires Ordered(tls) && Exists(tls, c) && IsEarlier(tls, c, q)
    requires Candidates(tls, c, Ascending(tls.Keys), |tls|, cands)
    ensures i < |cands| && cands[i].thread == q.thread && Leq(At(tls, q), At(tls, cands[i]))
    decreases |tls[q.thread]| - q.index
  {
    if IsLatest(tls, c, q) {
      i := LatestIsCandidate(tls, c, cands, q);
      LeqIsPartialOrder(At(tls, q), At(tls, q), At(tls, q));
    } else {
      var k :| q.index < k < |tls[q.thread]| && IsEarlier(tls, c, Place(q.thread, k));
      i := BelowItsCandidate(tls, c, cands, Place(q.thread, k));
      assert Before(tls[q.thread][q.index].vc, tls[q.thread][k].vc);
      LeqIsPartialOrder(At(tls, q), At(tls, Place(q.thread, k)), At(tls, cands[i]));
    }
  }

  // Comparing candidates only decides for all earlier entries of all threads.
  lemma CandidatesDecide(tls: Timelines, c: Place, cands: seq<Place>, i: nat)
    requires Ordered(tls) && Exists(tls, c) && i < |cands|
    requires Candidates(tls, c, Ascending(tls.Keys), |tls|, cands)
    ensures (forall q | IsEarlier(tls, c, q) && q != cands[i] :: !Leq(At(tls, cands[i]), At(tls, q))) <==>
            (forall j | 0 <= j < |cands| && j != i :: !Leq(At(tls, cands[i]), At(tls, cands[j])))
  {
    var p := cands[i];
    if forall j | 0 <= j < |cands| && j != i :: !Leq(At(tls, p), At(tls, cands[j])) {
      forall q | IsEarlier(tls, c, q) && q != p ensures !Leq(At(tls, p), At(tls, q)) {
        var j := BelowItsCandidate(tls, c, cands, q);
        LeqIsPartialOrder(At(tls, p), At(tls, q), At(tls, cands[j]));
        if j == i {
          assert q.index < p.index;
          assert Before(At(tls, q), At(tls, p));
          LeqIsPartialOrder(At(tls, q), At(tls, p), At(tls, p));
        }
      }
    }
  }

  lemma ImmediateIsCandidate(tls: Timelines, c: Place, cands: seq<Place>, p: Place)
    requires Ordered(tls) && Exists(tls, c) && Immediate(tls, c, p)
    requires Candidates(tls, c, Ascending(tls.Keys), |tls|, cands)
    ensures p in cands
  {
    var i := BelowItsCandidate(tls, c, cands, p);
    assert IsEarlier(tls, c, cands[i]);
  }

  // The predecessors the predictor pairs with entry c: exactly the immediate ones.
  method FindPredecessors(tls: Timelines, c: Place) returns (preds: seq<Place>)
    requires Ordered(tls) && Exists(tls, c)
    ensures forall p :: p in preds <==> Immediate(tls, c, p)
  {
    preds := [];
    var cands := FindCandidates(tls, c);
    for i := 0 to |cands|
      invariant forall p :: p in preds <==> p in cands[..i] && Immediate(tls, c, p)
    {
      assert cands[..i + 1] == cands[..i] + [cands[i]];
      var maximal := IsMaximal(tls, cands, i);
      CandidatesDecide(tls, c, cands, i);
      if maximal && !(c.index > 0 && Leq(At(tls, cands[i]), At(tls, Place(c.thread, c.index - 1)))) {
        preds := preds + [cands[i]];
      }
    }
    assert cands[..|cands|] == cands;
    forall p | Immediate(tls, c, p) ensures p in cands {
      ImmediateIsCandidate(tls, c, cands, p);
    }
  }
}
