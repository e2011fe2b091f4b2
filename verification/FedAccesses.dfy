/** The accesses of each thread to a location as they are fed to the predictor, and what is recorded of them. */
module FedAccesses {
  import opened Clocks
  import opened Program
  import opened FlaggedLocks
  import opened CriticalSections
  import opened Summaries
  import opened AccessHistory

  // One access as the callbacks see it.
  datatype Fed = Fed(kind: EventType, inst: Inst, vc: VC, clk: nat, ls: Versions)

  // The last access of a thread, whose last flags are still open.
  datatype Pending = Pending(kind: EventType, inst: Inst, vc: VC, clk: nat, ls: Versions, fls: FlagTable)

  // The recordings of one thread, in order.
  ghost function Of(log: seq<Recording>, t: Tid): seq<Recording> {
    if log == [] then [] else
    var r := log[|log| - 1];
    Of(log[..|log| - 1], t) + if r.thread == t then [r] else []
  }

  ghost function FedTo(fed: map<Tid, seq<Fed>>, t: Tid): seq<Fed> {
    if t in fed then fed[t] else []
  }

  predicate SameVersion(ls: Versions, ls': Versions, m: Addr) {
    m in ls && m in ls' && ls[m] == ls'[m]
  }

  // The table of access i: exactly its locks; first unless the previous access held the lock in the same
  // version, last unless the next one does.
  ghost predicate FlagsRight(fls: FlagTable, accs: seq<Fed>, i: nat)
    requires i < |accs|
  {
    forall m ::
      && (m in fls <==> m in accs[i].ls)
      && (m in fls ==>
            && (fls[m].first <==> i == 0 || !SameVersion(accs[i - 1].ls, accs[i].ls, m))
            && (fls[m].last <==> i + 1 == |accs| || !SameVersion(accs[i].ls, accs[i + 1].ls, m)))
  }

  // Recording r is of access i of thread t.
  ghost predicate Stands(r: Recording, t: Tid, accs: seq<Fed>, i: nat)
    requires i < |accs|
  {
    && r.thread == t && r.kind == accs[i].kind && r.inst == accs[i].inst
    && r.vc == accs[i].vc && r.clk == accs[i].clk
    && FlagsRight(r.fls, accs, i)
  }

  // The open table of the last access: its first flags are right and no last flag is set.
  ghost predicate OpenRight(fls: FlagTable, accs: seq<Fed>)
    requires accs != []
  {
    var i := |accs| - 1;
    forall m ::
      && (m in fls <==> m in accs[i].ls)
      && (m in fls ==> (fls[m].first <==> i == 0 || !SameVersion(accs[i - 1].ls, accs[i].ls, m)) && !fls[m].last)
  }

  ghost predicate Pends(p: Pending, accs: seq<Fed>)
    requires accs != []
  {
    var a := accs[|accs| - 1];
    p.kind == a.kind && p.inst == a.inst && p.vc == a.vc && p.clk == a.clk && p.ls == a.ls && OpenRight(p.fls, accs)
  }

  // All accesses of t but the last one are recorded, and the last one is pending.
  ghost predicate Tracks(log: seq<Recording>, last: map<Tid, Pending>, fed: map<Tid, seq<Fed>>, t: Tid) {
    var accs, recs := FedTo(fed, t), Of(log, t);
    && (t in last <==> accs != [])
    && (if t in last then |recs| == |accs| - 1 && Pends(last[t], accs) else recs == [])
    && (forall i | 0 <= i < |recs| && i < |accs| :: Stands(recs[i], t, accs, i))
  }

  ghost predicate AllTracked(log: seq<Recording>, last: map<Tid, Pending>, fed: map<Tid, seq<Fed>>) {
    forall t :: Tracks(log, last, fed, t)
  }

  // All accesses of t are recorded.
  ghost predicate AllRecorded(log: seq<Recording>, fed: map<Tid, seq<Fed>>, t: Tid) {
    var accs, recs := FedTo(fed, t), Of(log, t);
    |recs| == |accs| && forall i | 0 <= i < |accs| :: Stands(recs[i], t, accs, i)
  }

  // ---------- the flags are right ----------

  // What an access opens with, given the locks of the previous access of its thread.
  lemma OpensRight(accs: seq<Fed>, a: Fed)
    ensures OpenRight(FirstFlags(map[], if accs == [] then map[] else accs[|accs| - 1].ls, a.ls), accs + [a])
  {
    var prev := if accs == [] then map[] else accs[|accs| - 1].ls;
    forall m {
      FirstFlagsAt(map[], prev, a.ls, m);
    }
  }

  // The next access completes the table.
  lemma ClosesRight(fls: FlagTable, accs: seq<Fed>, a: Fed)
    requires accs != [] && OpenRight(fls, accs)
    ensures FlagsRight(LastFlags(fls, accs[|accs| - 1].ls, Some(a.ls)), accs + [a], |accs| - 1)
  {
    forall m {
      LastFlagsAt(fls, accs[|accs| - 1].ls, Some(a.ls), m);
    }
  }

  // So does the free of the location.
  lemma FreeClosesRight(fls: FlagTable, accs: seq<Fed>)
    requires accs != [] && OpenRight(fls, accs)
    ensures FlagsRight(LastFlags(fls, accs[|accs| - 1].ls, None), accs, |accs| - 1)
  {
    forall m {
      LastFlagsAt(fls, accs[|accs| - 1].ls, None, m);
    }
  }

  // ---------- one access keeps the tracks ----------

  lemma OfNext(log: seq<Recording>, r: Recording, t: Tid)
    ensures Of(log + [r], t) == Of(log, t) + if r.thread == t then [r] else []
  {
    assert (log + [r])[..|log|] == log;
  }

  lemma StandsNext(r: Recording, t: Tid, accs: seq<Fed>, a: Fed, i: nat)
    requires i + 1 < |accs| && Stands(r, t, accs, i)
    ensures Stands(r, t, accs + [a], i)
  {
    var accs' := accs + [a];
    assert accs'[i] == accs[i] && accs'[i + 1] == accs[i + 1] && (i > 0 ==> accs'[i - 1] == accs[i - 1]);
  }

  // The first access of a thread is only pending.
  lemma TracksFirst(
    log: seq<Recording>, last: map<Tid, Pending>, fed: map<Tid, seq<Fed>>, t: Tid, a: Fed, p: Pending)
    requires Tracks(log, last, fed, t) && t !in last && Pends(p, [a])
    ensures Tracks(log, last[t := p], fed[t := FedTo(fed, t) + [a]], t)
  {
    assert FedTo(fed, t) + [a] == [a];
  }

  // A later one records the pending access and is pending itself.
  lemma TracksNext(
    log: seq<Recording>, last: map<Tid, Pending>, fed: map<Tid, seq<Fed>>, t: Tid, a: Fed, r: Recording, p: Pending)
    requires Tracks(log, last, fed, t) && t in last
    requires var accs := FedTo(fed, t) + [a]; Stands(r, t, accs, |accs| - 2) && Pends(p, accs)
    ensures Tracks(log + [r], last[t := p], fed[t := FedTo(fed, t) + [a]], t)
  {
    var accs, recs := FedTo(fed, t), Of(log, t);
    OfNext(log, r, t);
    forall i | 0 <= i < |recs| ensures Stands((recs + [r])[i], t, accs + [a], i) {
      StandsNext(recs[i], t, accs, a, i);
    }
  }

  lemma TracksOther(
    log: seq<Recording>, last: map<Tid, Pending>, fed: map<Tid, seq<Fed>>, u: Tid,
    more: seq<Recording>, t: Tid, p: Pending, q: seq<Fed>)
    requires Tracks(log, last, fed, u) && u != t && (more == [] || (|more| == 1 && more[0].thread == t))
    ensures Tracks(log + more, last[t := p], fed[t := q], u)
  {
    if more == [] {
      assert log + more == log;
    } else {
      assert more == [more[0]];
      OfNext(log, more[0], u);
    }
  }

  // ---------- the free completes them ----------

  lemma CompleteAtFree(
    log: seq<Recording>, last: map<Tid, Pending>, fed: map<Tid, seq<Fed>>, t: Tid, log': seq<Recording>)
    requires Tracks(log, last, fed, t)
    requires Of(log', t) == Of(log, t) + if t in last then [Completed(t, last[t], None)] else []
    ensures AllRecorded(log', fed, t)
  {
    var accs := FedTo(fed, t);
    if t in last {
      FreeClosesRight(last[t].fls, accs);
      assert Stands(Completed(t, last[t], None), t, accs, |accs| - 1);
    }
  }

  // The recording of a pending access, completed by the lockset of the next one or by a free.
  function Completed(t: Tid, p: Pending, next: Option<Versions>): Recording {
    Recording(t, p.kind, p.inst, LastFlags(p.fls, p.ls, next), p.vc, p.clk)
  }

  // ---------- the flags of an observed trace ----------

  // The accesses fed are those at positions acc of the operations thread t performs in the trace, each
  // with the lockset it is analysed with.
  ghost predicate Feeds(tr: Trace, t: Tid, acc: seq<nat>, accs: seq<Fed>) {
    var q, vers := OpsOf(tr, |tr|, t), VersionsOf(tr, |tr|, t);
    && Positions(q, acc) && |accs| == |acc|
    && forall i | 0 <= i < |acc| :: accs[i].ls == LocksOf(q, vers, acc[i])
  }

  // Right flags are the flags of the observed trace.
  lemma RightIsObserved(tr: Trace, t: Tid, acc: seq<nat>, accs: seq<Fed>, i: nat, fls: FlagTable)
    requires Feeds(tr, t, acc, accs) && i < |acc| && FlagsRight(fls, accs, i)
    ensures fls == ObservedFlags(tr, t, acc, i)
  {
    var q, vers := OpsOf(tr, |tr|, t), VersionsOf(tr, |tr|, t);
    var fls' := ObservedFlags(tr, t, acc, i);
    forall m ensures (m in fls <==> m in fls') && (m in fls ==> fls[m] == fls'[m]) {
      FlagsAre(q, vers, acc, i, m);
    }
  }

  // Every recording of a completed thread carries the access it stands for, with its observed flags.
  lemma RecordingsAreObserved(
    log: seq<Recording>, fed: map<Tid, seq<Fed>>, tr: Trace, t: Tid, acc: seq<nat>, i: nat)
    requires AllRecorded(log, fed, t) && Feeds(tr, t, acc, FedTo(fed, t)) && i < |acc|
    ensures i < |Of(log, t)|
    ensures var r, a := Of(log, t)[i], FedTo(fed, t)[i];
            && r.thread == t && r.kind == a.kind && r.inst == a.inst && r.vc == a.vc && r.clk == a.clk
            && r.fls == ObservedFlags(tr, t, acc, i)
  {
    var accs := FedTo(fed, t);
    assert Stands(Of(log, t)[i], t, accs, i);
    RightIsObserved(tr, t, acc, accs, i, Of(log, t)[i].fls);
  }
}
