/** The hybrid detectors against full happens-before: what survives when lock edges become locksets. */
module Hybrid {
  import opened Clocks
  import opened Program
  import opened Protocol
  import opened Causality
  import opened Origins
  import opened ClockTheorem
  import opened Accesses
  import opened Epochs
  import A = AccuLock
  import D = Djit
  import opened Locksets
  import opened MultiLock
  import opened MultiLockExact

  // ---------- the same events under another detector's clocks ----------

  ghost function ProgAt(parties: Parties, tr: Trace, n: nat): Prog
    requires n <= |tr|
  {
    if n == 0 then START_PROG else Do(parties, ProgAt(parties, tr, n - 1), tr[n - 1])
  }

  ghost function SyncAt(mode: Mode, tr: Trace, n: nat): Sync
    requires n <= |tr|
  {
    if n == 0 then START_SYNC else Step(mode, SyncAt(mode, tr, n - 1), tr[n - 1])
  }

  ghost predicate CanRun(parties: Parties, tr: Trace) {
    forall j | 0 <= j < |tr| :: CanDo(parties, ProgAt(parties, tr, j), tr[j])
  }

  // The run of one detector over given events.
  ghost function Replay(mode: Mode, parties: Parties, tr: Trace): (x: Exec)
    ensures x.mode == mode && x.parties == parties && x.trace == tr && Shaped(x)
    ensures forall n | 0 <= n <= |tr| :: x.progs[n] == ProgAt(parties, tr, n) && x.syncs[n] == SyncAt(mode, tr, n)
  {
    Exec(mode, parties, tr,
         seq(|tr| + 1, n requires 0 <= n <= |tr| => ProgAt(parties, tr, n)),
         seq(|tr| + 1, n requires 0 <= n <= |tr| => SyncAt(mode, tr, n)))
  }

  lemma ReplayTakes(mode: Mode, parties: Parties, tr: Trace, j: nat)
    requires j < |tr| && CanDo(parties, ProgAt(parties, tr, j), tr[j])
    ensures Taken(Replay(mode, parties, tr), j)
  {
    var x := Replay(mode, parties, tr);
    assert x.progs[j] == ProgAt(parties, tr, j) && x.syncs[j] == SyncAt(mode, tr, j);
    assert x.progs[j + 1] == ProgAt(parties, tr, j + 1) && x.syncs[j + 1] == SyncAt(mode, tr, j + 1);
  }

  // Every possible trace has a run under each detector.
  lemma ReplayIsARun(mode: Mode, parties: Parties, tr: Trace)
    requires CanRun(parties, tr)
    ensures Legal(Replay(mode, parties, tr))
  {
    forall j | 0 <= j < |tr| ensures Taken(Replay(mode, parties, tr), j) {
      ReplayTakes(mode, parties, tr, j);
    }
  }

  lemma {:induction false} ProgsReplay(x: Run, n: nat)
    requires n <= |x.trace|
    ensures x.progs[n] == ProgAt(x.parties, x.trace, n)
  {
    if n > 0 {
      ProgsReplay(x, n - 1);
      assert Taken(x, n - 1);
    }
  }

  // A trace that one detector can follow every other can.
  lemma RunsCanRun(x: Run)
    ensures CanRun(x.parties, x.trace)
  {
    forall j | 0 <= j < |x.trace| ensures CanDo(x.parties, ProgAt(x.parties, x.trace, j), x.trace[j]) {
      ProgsReplay(x, j);
      assert Taken(x, j);
    }
  }

  ghost function Under(mode: Mode, x: Run): (y: Run)
    ensures y.mode == mode && y.parties == x.parties && y.trace == x.trace
  {
    RunsCanRun(x);
    ReplayIsARun(mode, x.parties, x.trace);
    Replay(mode, x.parties, x.trace)
  }

  // ---------- mutual exclusion ----------

  // If the holder changes, the first one has unlocked and the second one has locked afterwards.
  lemma {:induction false} HandedOver(x: Run, i: nat, n: nat, m: Addr, u: Tid, t: Tid) returns (k: nat, l: nat)
    requires i < n <= |x.trace| && HeldBy(x, i, m, u) && HeldBy(x, n, m, t) && u != t
    ensures i <= k < l < n && x.trace[k] == Event(u, Unlock(m)) && x.trace[l] == Event(t, Lock(m))
    decreases n
  {
    if HeldBy(x, n - 1, m, t) {
      k, l := HandedOver(x, i, n - 1, m, u, t);
    } else {
      assert Taken(x, n - 1);
      HeldAfter(x.parties, x.progs[n - 1], x.trace[n - 1]);
      l := n - 1;
      k := ReleasedSince(x, i, l, m, u);
    }
  }

  // Two accesses under the same mutex are ordered, unless the mutex was freed in between.
  lemma SharedLockOrders(x: Run, i: nat, j: nat, m: Addr)
    requires i < j < |x.trace| && m in Held(x.trace, i) && m in Held(x.trace, j) && NoFree(x.trace, i, j, m)
    ensures HB(FullHB, x.trace, i, j)
  {
    var tr, u, t := x.trace, x.trace[i].tid, x.trace[j].tid;
    ProgramOrder(FullHB, tr, i, j);
    LocksAreHeld(x, i, u, m);
    LocksAreHeld(x, j, t, m);
    if u != t {
      var k, l := HandedOver(x, i, j, m, u, t);
      assert Edge(FullHB, tr, k, l);
      assert HB(FullHB, tr, k, l);
      if i < k {
        ProgramOrder(FullHB, tr, i, k);
        HBTransitive(FullHB, tr, i, k, l);
      }
      ProgramOrder(FullHB, tr, l, j);
      HBTransitive(FullHB, tr, i, l, j);
    }
  }

  // ---------- unordered pairs survive ----------

  // The condition under which AccuLock and MultiLock compare two accesses and report a race.
  ghost predicate HybridCondition(y: Run, i: nat, j: nat)
    requires i < j < |y.trace|
  {
    var u := y.trace[i].tid;
    && u != y.trace[j].tid
    && !EpochBefore(Epoch(u, Get(Stamp(y, i), u)), Stamp(y, j))
    && Held(y.trace, i) !! Held(y.trace, j)
  }

  // A mutex address held at both events, freed and reused in between.
  ghost predicate Recycled(tr: Trace, i: nat, j: nat, m: Addr)
    requires i < j < |tr|
  {
    m in Held(tr, i) && m in Held(tr, j) && !NoFree(tr, i, j, m)
  }

  // Two events of different threads that the full clocks leave unordered meet the hybrid report
  // condition exactly when no mutex held at both has been freed and reused in between.
  lemma UnorderedPairsSurvive(x: Run, mode: Mode, i: nat, j: nat)
    requires x.mode.FullHB? && i < j < |x.trace| && x.trace[i].tid != x.trace[j].tid
    requires !HB(FullHB, x.trace, i, j)
    ensures !HB(mode, x.trace, i, j)
    ensures HybridCondition(Under(mode, x), i, j) <==> forall m :: !Recycled(x.trace, i, j, m)
  {
    var y := Under(mode, x);
    LocksOnlyAddOrder(mode, x.trace, i, j);
    ClocksAreHappensBefore(y, i, j);
    forall m | m in Held(x.trace, i) && m in Held(x.trace, j) ensures Recycled(x.trace, i, j, m) {
      if NoFree(x.trace, i, j, m) {
        SharedLockOrders(x, i, j, m);
      }
    }
    if HybridCondition(y, i, j) {
      forall m ensures !Recycled(x.trace, i, j, m) {
      }
    }
  }

  // Every pair Djit reports on the full clocks comes from two accesses that meet the hybrid condition,
  // unless a mutex they share by address was freed and reused in between.
  lemma DjitPairsSurvive(x: Run, mode: Mode, gate: bool, j: nat, r: Report) returns (i: nat)
    requires x.mode.FullHB? && j < |x.trace| && r in D.ReportsAt(x, gate, j)
    ensures i < j && Touches(x.trace[j], r.addr) && NoFree(x.trace, i, j, r.addr)
    ensures SeenAccess(gate, x.trace, i, r.t0, r.addr, r.k0) && SeenAccess(gate, x.trace, j, r.t1, r.addr, r.k1)
    ensures !HB(mode, x.trace, i, j)
    ensures HybridCondition(Under(mode, x), i, j) <==> forall m :: !Recycled(x.trace, i, j, m)
  {
    D.DjitExact(x, gate, j, x.trace[j].op.a, r);
    i :| i < j && D.Races(x, gate, i, j, r.t0, r.addr, r.k0);
    UnorderedPairsSurvive(x, mode, i, j);
  }

  // MultiLock finds every write-write race of Djit: if the full clocks leave write i unordered with
  // write j and no mutex held at both was freed and reused in between, a write-write race between the
  // two threads on the cell has been reported by the time Djit reports it.
  lemma MultiLockFindsDjitWrites(x: Run, gate: bool, i: nat, j: nat, r: Report) returns (l: nat)
    requires x.mode.FullHB? && j < |x.trace| && r in D.ReportsAt(x, gate, j)
    requires r.k0.RaceWrite? && r.k1.RaceWrite?
    requires i < j && D.Races(x, gate, i, j, r.t0, r.addr, r.k0) && forall m :: !Recycled(x.trace, i, j, m)
    ensures l <= j && NoFree(x.trace, l, j, r.addr)
    ensures WWReportedAt(Under(MultiLockHB, x), gate, l, r.addr, r.t0, r.t1)
  {
    var y := Under(MultiLockHB, x);
    D.DjitExact(x, gate, j, x.trace[j].op.a, r);
    UnorderedPairsSurvive(x, MultiLockHB, i, j);
    l := WriteWriteComplete(y, gate, i, j, r.addr);
  }

  // The same for every pair Djit reports, when MultiLock skips neither access as a redundant read.
  lemma MultiLockFindsDjitRaces(x: Run, gate: bool, i: nat, j: nat, r: Report) returns (l: nat)
    requires x.mode.FullHB? && j < |x.trace| && r in D.ReportsAt(x, gate, j)
    requires i < j && D.Races(x, gate, i, j, r.t0, r.addr, r.k0) && forall m :: !Recycled(x.trace, i, j, m)
    requires var y := Under(MultiLockHB, x); Kept(y, gate, i, r.addr) && Kept(y, gate, j, r.addr)
    ensures l <= j && NoFree(x.trace, l, j, r.addr)
    ensures ReportedAt(Under(MultiLockHB, x), gate, l, r.addr, r.t0, r.t1)
  {
    var y := Under(MultiLockHB, x);
    D.DjitExact(x, gate, j, x.trace[j].op.a, r);
    UnorderedPairsSurvive(x, MultiLockHB, i, j);
    l := KeptPairsComplete(y, gate, i, j, r.addr);
  }

  // ---------- the two hybrid detectors ----------

  // Without lock edges the order does not depend on the detector.
  lemma {:induction false} WeakOrdersAgree(mode: Mode, mode': Mode, tr: Trace, i: nat, j: nat)
    requires i < j < |tr| && !mode.FullHB? && !mode'.FullHB?
    ensures HB(mode, tr, i, j) ==> HB(mode', tr, i, j)
    decreases j
  {
    if HB(mode, tr, i, j) && !Edge(mode, tr, i, j) {
      var p :| i < p < j && HB(mode, tr, i, p) && Edge(mode, tr, p, j);
      WeakOrdersAgree(mode, mode', tr, i, p);
      assert Edge(mode', tr, p, j);
    }
  }

  // What AccuLock reports on its own clocks is a hybrid race on MultiLock's.
  lemma AccuLockReportIsHybridRace(x: Run, gate: bool, j: nat, r: Report) returns (i: nat)
    requires x.mode.AccuLockHB? && j < |x.trace| && r in A.ReportsAt(x, gate, j)
    ensures i < j && i == A.Origin(x, gate, j, r.addr, r.t0, r.k0)
    ensures x.trace[i].tid == r.t0 && x.trace[j].tid == r.t1 && Conflict(r.k0, r.k1)
    ensures SeenAccess(gate, x.trace, j, r.t1, r.addr, r.k1) && KindOf(x.trace[i]) == r.k0
    ensures HybridRace(Under(MultiLockHB, x), gate, i, j, r.addr, r.k0)
  {
    A.AccuLockExact(x, gate, j, x.trace[j].op.a, r);
    i := A.Origin(x, gate, j, r.addr, r.t0, r.k0);
    WeakOrdersAgree(MultiLockHB, AccuLockHB, x.trace, i, j);
  }

  // Every write-write race AccuLock reports has been reported by MultiLock on the same events by then.
  lemma MultiLockFindsAccuLockWrites(x: Run, gate: bool, j: nat, r: Report) returns (l: nat)
    requires x.mode.AccuLockHB? && j < |x.trace| && r in A.ReportsAt(x, gate, j)
    requires r.k0.RaceWrite? && r.k1.RaceWrite?
    ensures l <= j && NoFree(x.trace, l, j, r.addr)
    ensures WWReportedAt(Under(MultiLockHB, x), gate, l, r.addr, r.t0, r.t1)
  {
    var i := AccuLockReportIsHybridRace(x, gate, j, r);
    l := WriteWriteComplete(Under(MultiLockHB, x), gate, i, j, r.addr);
  }

  // The same for every race AccuLock reports, when MultiLock skips neither access as a redundant read.
  lemma MultiLockFindsAccuLockRaces(x: Run, gate: bool, i: nat, j: nat, r: Report) returns (l: nat)
    requires x.mode.AccuLockHB? && i < j < |x.trace| && r in A.ReportsAt(x, gate, j)
    requires i == A.Origin(x, gate, j, r.addr, r.t0, r.k0)
    requires var y := Under(MultiLockHB, x); Kept(y, gate, i, r.addr) && Kept(y, gate, j, r.addr)
    ensures l <= j && NoFree(x.trace, l, j, r.addr)
    ensures ReportedAt(Under(MultiLockHB, x), gate, l, r.addr, r.t0, r.t1)
  {
    var o := AccuLockReportIsHybridRace(x, gate, j, r);
    l := KeptPairsComplete(Under(MultiLockHB, x), gate, i, j, r.addr);
  }
}
