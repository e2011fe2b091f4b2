/** Which pairs of accesses the predictor connects, stated on the observed trace alone. */
module PredictedPairs {
  import opened Clocks
  import opened Program
  import opened ClockHistories
  import opened CriticalSections
  import opened Summaries
  import opened AccessHistory
  import opened FedAccesses

  // ---------- recordings of one thread and positions in the log ----------

  lemma {:induction false} PositionInLog(log: seq<Recording>, t: Tid, i: nat) returns (l: nat)
    requires i < |Of(log, t)|
    ensures l < |log| && log[l] == Of(log, t)[i] && log[l].thread == t
  {
    var n := |log| - 1;
    if i < |Of(log[..n], t)| {
      l := PositionInLog(log[..n], t, i);
    } else {
      l := n;
    }
  }

  lemma {:induction false} PositionInThread(log: seq<Recording>, l: nat) returns (i: nat)
    requires l < |log|
    ensures i < |Of(log, log[l].thread)| && Of(log, log[l].thread)[i] == log[l]
  {
    var n := |log| - 1;
    if l < n {
      i := PositionInThread(log[..n], l);
    } else {
      i := |Of(log[..n], log[l].thread)|;
    }
  }

  // ---------- pairs on the trace ----------

  // The accesses of one thread: the trace, the positions of the accesses, and what was fed for them.
  datatype Observed = Observed(t: Tid, acc: seq<nat>, accs: seq<Fed>)

  // The thread's accesses were all recorded, and fed as observed.
  ghost predicate Seen(log: seq<Recording>, fed: map<Tid, seq<Fed>>, tr: Trace, o: Observed) {
    AllRecorded(log, fed, o.t) && o.accs == FedTo(fed, o.t) && Feeds(tr, o.t, o.acc, o.accs)
  }

  // Accesses k and i are by the same instruction, of the same kind, and alike in their critical sections.
  ghost predicate Alike(tr: Trace, o: Observed, k: nat, i: nat)
    requires Feeds(tr, o.t, o.acc, o.accs) && k < |o.acc| && i < |o.acc|
  {
    && o.accs[k].kind == o.accs[i].kind && o.accs[k].inst == o.accs[i].inst
    && ObservedFlags(tr, o.t, o.acc, k) == ObservedFlags(tr, o.t, o.acc, i)
  }

  // Accesses like i and j were made in concurrent clock values.
  ghost predicate SomeConcurrent(tr: Trace, o: Observed, i: nat, o': Observed, j: nat)
    requires Feeds(tr, o.t, o.acc, o.accs) && i < |o.acc|
    requires Feeds(tr, o'.t, o'.acc, o'.accs) && j < |o'.acc|
  {
    exists k, l | 0 <= k < |o.acc| && 0 <= l < |o'.acc| ::
      Alike(tr, o, k, i) && Alike(tr, o', l, j) && Concurrent(o.accs[k].vc, o'.accs[l].vc)
  }

  // One memory access writes, or a mutex is unlocked and then locked; the read of an atomic instruction
  // leads nowhere, and nothing leads to its write.
  predicate KindsAllow(atomic: set<Inst>, a: Fed, b: Fed) {
    && (|| (IsMemory(a.kind) && IsMemory(b.kind) && (a.kind.MemWrite? || b.kind.MemWrite?))
        || (a.kind.MutexUnlock? && b.kind.MutexLock?))
    && !(a.inst in atomic && a.kind.MemRead?) && !(b.inst in atomic && b.kind.MemWrite?)
  }

  // The recording of access i.
  lemma RecordingOf(log: seq<Recording>, fed: map<Tid, seq<Fed>>, tr: Trace, o: Observed, i: nat) returns (l: nat)
    requires Seen(log, fed, tr, o) && i < |o.acc|
    ensures l < |log| && log[l].thread == o.t && log[l].kind == o.accs[i].kind && log[l].inst == o.accs[i].inst
    ensures log[l].vc == o.accs[i].vc && log[l].fls == ObservedFlags(tr, o.t, o.acc, i)
  {
    RecordingsAreObserved(log, fed, tr, o.t, o.acc, i);
    l := PositionInLog(log, o.t, i);
  }

  // The access of a recording.
  lemma AccessOf(log: seq<Recording>, fed: map<Tid, seq<Fed>>, tr: Trace, o: Observed, l: nat) returns (i: nat)
    requires Seen(log, fed, tr, o) && l < |log| && log[l].thread == o.t
    ensures i < |o.acc| && log[l].kind == o.accs[i].kind && log[l].inst == o.accs[i].inst
    ensures log[l].vc == o.accs[i].vc && log[l].fls == ObservedFlags(tr, o.t, o.acc, i)
  {
    i := PositionInThread(log, l);
    RecordingsAreObserved(log, fed, tr, o.t, o.acc, i);
  }

  lemma ConcurrentOnTrace(
    log: seq<Recording>, fed: map<Tid, seq<Fed>>, tr: Trace, o: Observed, i: nat, o': Observed, j: nat, l: nat, l': nat)
    requires Seen(log, fed, tr, o) && i < |o.acc| && Seen(log, fed, tr, o') && j < |o'.acc|
    requires l < |log| && log[l].thread == o.t && log[l].kind == o.accs[i].kind && log[l].inst == o.accs[i].inst
    requires log[l].fls == ObservedFlags(tr, o.t, o.acc, i)
    requires l' < |log| && log[l'].thread == o'.t && log[l'].kind == o'.accs[j].kind && log[l'].inst == o'.accs[j].inst
    requires log[l'].fls == ObservedFlags(tr, o'.t, o'.acc, j)
    ensures ConcurrentAccesses(log, l, l') <==> SomeConcurrent(tr, o, i, o', j)
  {
    if k: nat, k': nat :| SameAccess(log, k, l) && SameAccess(log, k', l') && Concurrent(log[k].vc, log[k'].vc) {
      var n := AccessOf(log, fed, tr, o, k);
      var n' := AccessOf(log, fed, tr, o', k');
      assert Alike(tr, o, n, i) && Alike(tr, o', n', j);
    }
    if n, n' :| 0 <= n < |o.acc| && 0 <= n' < |o'.acc| && Alike(tr, o, n, i) && Alike(tr, o', n', j)
                && Concurrent(o.accs[n].vc, o'.accs[n'].vc) {
      var k := RecordingOf(log, fed, tr, o, n);
      var k' := RecordingOf(log, fed, tr, o', n');
      assert SameAccess(log, k, l) && SameAccess(log, k', l');
    }
  }

  // After all accesses are recorded, access i of one thread is connected to access j of another exactly
  // when their kinds allow it, the critical sections they were observed in allow it, and somewhere in the
  // trace accesses like them were made in concurrent clock values.
  lemma PairsOnTrace(
    log: seq<Recording>, table: Table, atomic: set<Inst>, fed: map<Tid, seq<Fed>>, tr: Trace,
    o: Observed, i: nat, o': Observed, j: nat) returns (p: Ref, q: Ref)
    requires Holds(log, table) && o.t != o'.t
    requires Seen(log, fed, tr, o) && i < |o.acc| && Seen(log, fed, tr, o') && j < |o'.acc|
    ensures Stored(table, p) && p.thread == o.t && SumAt(table, p).kind == o.accs[i].kind
            && SumAt(table, p).inst == o.accs[i].inst && SumAt(table, p).fls == ObservedFlags(tr, o.t, o.acc, i)
    ensures Stored(table, q) && q.thread == o'.t && SumAt(table, q).kind == o'.accs[j].kind
            && SumAt(table, q).inst == o'.accs[j].inst && SumAt(table, q).fls == ObservedFlags(tr, o'.t, o'.acc, j)
    ensures IsPair(table, atomic, Dependency(p, q)) <==>
            && KindsAllow(atomic, o.accs[i], o'.accs[j]) && SectionsAllow(tr, o.t, o.acc, i, o'.t, o'.acc, j)
            && SomeConcurrent(tr, o, i, o', j)
  {
    var l := RecordingOf(log, fed, tr, o, i);
    var l' := RecordingOf(log, fed, tr, o', j);
    p := SummaryOf(log, table, l);
    q := SummaryOf(log, table, l');
    PairsAreConcurrentAccesses(log, table, atomic, p, q, l, l');
    ConcurrentOnTrace(log, fed, tr, o, i, o', j, l, l');
    MutexCheckExact(tr, o.t, o.acc, i, o'.t, o'.acc, j);
    PassIs(atomic, o.accs[i], o'.accs[j], log[l], log[l']);
  }

  lemma SummaryOf(log: seq<Recording>, table: Table, l: nat) returns (p: Ref)
    requires Holds(log, table) && l < |log|
    ensures KeptIn(table, log[l], p)
  {
    assert IsKept(table, log[l]);
    p :| KeptIn(table, log[l], p);
  }

  lemma PassIs(atomic: set<Inst>, a: Fed, b: Fed, src: Recording, dst: Recording)
    requires src.kind == a.kind && src.inst == a.inst && dst.kind == b.kind && dst.inst == b.inst
    ensures AccessesPass(atomic, src, dst) <==> KindsAllow(atomic, a, b) && MutexAllows(src.fls, dst.fls)
  {
  }
}
