/** MultiLock's reports are exact up to the reads its negated containment test skips. */
module MultiLockExact {
  import opened Clocks
  import opened Program
  import opened Protocol
  import opened Causality
  import opened ClockTheorem
  import opened Accesses
  import opened Locksets
  import opened MultiLock
  import D = Djit

  // Access i is a write, or a read that was not skipped as redundant.
  ghost predicate Kept(x: Run, gate: bool, i: nat, a: Addr)
    requires i < |x.trace|
  {
    x.trace[i].op.Write? || !RedundantAt(x, gate, i, a)
  }

  // ---------- every kept access is covered by an entry ----------

  lemma KeptReadStarts(x: Run, gate: bool, i: nat, a: Addr) returns (e: ELP)
    requires i < |x.trace| && SeenAccess(gate, x.trace, i, x.trace[i].tid, a, RaceRead) && Kept(x, gate, i, a)
    ensures e in Entries(HistoriesAt(x, gate, i + 1, a), x.trace[i].tid, RaceRead) && Covers(x, i, e)
  {
    HistoriesNext(x, gate, i, a);
    e := Current(D.AccessAt(x, i), Held(x.trace, i));
  }

  // An erased reader entry is replaced by the one of the erasing read or write.
  lemma ReadCoverStays(x: Run, gate: bool, i: nat, n: nat, a: Addr, e: ELP) returns (k': Kind, e': ELP)
    requires i < n < |x.trace| && !FreedAt(x.trace, n, a)
    requires e in Entries(HistoriesAt(x, gate, n, a), x.trace[i].tid, RaceRead) && Covers(x, i, e)
    ensures e' in Entries(HistoriesAt(x, gate, n + 1, a), x.trace[i].tid, k') && Covers(x, i, e')
  {
    var u := x.trace[i].tid;
    HistoriesNext(x, gate, n, a);
    if e in Entries(HistoriesAt(x, gate, n + 1, a), u, RaceRead) {
      k', e' := RaceRead, e;
    } else {
      k', e' := KindOf(x.trace[n]), Current(D.AccessAt(x, n), Held(x.trace, n));
    }
  }

  // Despite all erasing, a kept access of a thread is covered by a reader or writer entry of its epoch
  // with at most its locks; a write by a writer entry.
  lemma {:induction false} KeptCovered(x: Run, gate: bool, i: nat, n: nat, a: Addr) returns (k: Kind, e: ELP)
    requires i < n <= |x.trace| && NoFree(x.trace, i, n, a) && Kept(x, gate, i, a)
    requires SeenAccess(gate, x.trace, i, x.trace[i].tid, a, KindOf(x.trace[i]))
    ensures e in Entries(HistoriesAt(x, gate, n, a), x.trace[i].tid, k) && Covers(x, i, e)
    ensures x.trace[i].op.Write? ==> k.RaceWrite?
    decreases n
  {
    if x.trace[i].op.Write? {
      k := RaceWrite;
      e := WriteCovered(x, gate, i, n, a);
    } else if n == i + 1 {
      k := RaceRead;
      e := KeptReadStarts(x, gate, i, a);
    } else {
      assert !FreedAt(x.trace, n - 1, a);
      assert NoFree(x.trace, i, n - 1, a);
      k, e := KeptCovered(x, gate, i, n - 1, a);
      if k.RaceWrite? {
        e := CoverStays(x, gate, i, n - 1, a, e);
      } else {
        k, e := ReadCoverStays(x, gate, i, n - 1, a, e);
      }
    }
  }

  // ---------- what is reported at one access ----------

  // Access i of a kept kind is reported at a later access that is not redundant.
  lemma KeptIsReported(x: Run, gate: bool, i: nat, j: nat, a: Addr) returns (k: Kind)
    requires i < j < |x.trace| && Touches(x.trace[j], a) && Processed(gate, x.trace, j)
    requires HybridRace(x, gate, i, j, a, KindOf(x.trace[i])) && Kept(x, gate, i, a) && !RedundantAt(x, gate, j, a)
    requires Conflict(KindOf(x.trace[i]), KindOf(x.trace[j]))
    ensures Pair(a, x.trace[i].tid, k, x.trace[j].tid, KindOf(x.trace[j])) in PairsAt(x, gate, j)
    ensures x.trace[i].op.Write? ==> k.RaceWrite?
  {
    var u, h, cur, ls := x.trace[i].tid, HistoriesAt(x, gate, j, a), D.AccessAt(x, j), Held(x.trace, j);
    var e;
    k, e := KeptCovered(x, gate, i, j, a);
    ClocksAreHappensBefore(x, i, j);
    var m := if k.RaceWrite? then h.writers else h.readers;
    assert u in m && e in m[u] && Hits(e, cur, ls);
    assert PairOf(a, e, k, cur) in HitPairs(a, m, k, cur, ls);
  }

  // Thread u has a kept access of a kind that races with event j.
  ghost predicate KeptRace(x: Run, gate: bool, j: nat, a: Addr, u: Tid, i: nat)
    requires j < |x.trace|
  {
    && i < j && x.trace[i].tid == u && Kept(x, gate, i, a)
    && HybridRace(x, gate, i, j, a, KindOf(x.trace[i]))
  }

  // At every processed access, a pair with an earlier write of thread u is reported exactly when the
  // access is not redundant and some earlier write of u is unordered with it and shares no lock.
  lemma AfterWriteExact(x: Run, gate: bool, j: nat, a: Addr, u: Tid)
    requires j < |x.trace| && Touches(x.trace[j], a) && Processed(gate, x.trace, j)
    ensures Pair(a, u, RaceWrite, x.trace[j].tid, KindOf(x.trace[j])) in PairsAt(x, gate, j) <==>
            !RedundantAt(x, gate, j, a)
            && exists i | 0 <= i < j :: x.trace[i].tid == u && HybridRace(x, gate, i, j, a, RaceWrite)
  {
    var r := Pair(a, u, RaceWrite, x.trace[j].tid, KindOf(x.trace[j]));
    if r in PairsAt(x, gate, j) {
      ReportedPairIsHybridRace(x, gate, j, a, r);
    }
    if !RedundantAt(x, gate, j, a) {
      forall i: nat | i < j && x.trace[i].tid == u && HybridRace(x, gate, i, j, a, RaceWrite)
        ensures r in PairsAt(x, gate, j)
      {
        var k := KeptIsReported(x, gate, i, j, a);
      }
    }
  }

  // At every processed write, thread u is reported for a read or a write exactly when the write is not
  // redundant and some earlier kept access of u is unordered with it and shares no lock.
  lemma AtWriteExact(x: Run, gate: bool, j: nat, a: Addr, u: Tid)
    requires j < |x.trace| && x.trace[j].op.Write? && Touches(x.trace[j], a) && Processed(gate, x.trace, j)
    ensures (exists k :: Pair(a, u, k, x.trace[j].tid, RaceWrite) in PairsAt(x, gate, j)) <==>
            !RedundantAt(x, gate, j, a) && exists i :: KeptRace(x, gate, j, a, u, i)
  {
    forall k | Pair(a, u, k, x.trace[j].tid, RaceWrite) in PairsAt(x, gate, j)
      ensures !RedundantAt(x, gate, j, a) && exists i :: KeptRace(x, gate, j, a, u, i)
    {
      ReportedPairIsHybridRace(x, gate, j, a, Pair(a, u, k, x.trace[j].tid, RaceWrite));
      var i: nat :| && i < j && x.trace[i].tid == u
                    && HybridRace(x, gate, i, j, a, k) && !RedundantAt(x, gate, i, a);
      assert KeptRace(x, gate, j, a, u, i);
    }
    if !RedundantAt(x, gate, j, a) {
      forall i | KeptRace(x, gate, j, a, u, i)
        ensures exists k :: Pair(a, u, k, x.trace[j].tid, RaceWrite) in PairsAt(x, gate, j)
      {
        var k := KeptIsReported(x, gate, i, j, a);
      }
    }
  }

  // With no race against a recorded access, nothing is reported.
  lemma NoRaceNoReport(x: Run, gate: bool, j: nat, a: Addr)
    requires j < |x.trace| && (x.trace[j].op.Read? || x.trace[j].op.Write? ==> Touches(x.trace[j], a))
    requires forall i, k | 0 <= i < j && HybridRace(x, gate, i, j, a, k) :: RedundantAt(x, gate, i, a)
    ensures PairsAt(x, gate, j) == {}
  {
    if r :| r in PairsAt(x, gate, j) {
      ReportedPairIsHybridRace(x, gate, j, a, r);
    }
  }

  // ---------- completeness over the run ----------

  // A race between threads t and u on cell a was reported at event l.
  ghost predicate ReportedAt(x: Run, gate: bool, l: nat, a: Addr, t: Tid, u: Tid)
    requires l < |x.trace|
  {
    exists k0, k1 :: Pair(a, t, k0, u, k1) in PairsAt(x, gate, l) || Pair(a, u, k0, t, k1) in PairsAt(x, gate, l)
  }

  // If two threads make conflicting accesses to a cell, unordered and without a common lock, and
  // neither is a read skipped as redundant, then a race between them on that cell has been reported by
  // the time the second access is processed.
  lemma {:induction false} KeptPairsComplete(x: Run, gate: bool, i: nat, j: nat, a: Addr) returns (l: nat)
    requires i < j < |x.trace| && HybridRace(x, gate, i, j, a, KindOf(x.trace[i]))
    requires SeenAccess(gate, x.trace, j, x.trace[j].tid, a, KindOf(x.trace[j]))
    requires Conflict(KindOf(x.trace[i]), KindOf(x.trace[j])) && Kept(x, gate, i, a) && Kept(x, gate, j, a)
    ensures l <= j && NoFree(x.trace, l, j, a) && ReportedAt(x, gate, l, a, x.trace[i].tid, x.trace[j].tid)
    decreases j
  {
    if !RedundantAt(x, gate, j, a) {
      var k := KeptIsReported(x, gate, i, j, a);
      l := j;
    } else {
      var j' := RedundantRepeats(x, gate, j, a);
      ProgramOrder(x.mode, x.trace, j', j);
      if i < j' {
        if HB(x.mode, x.trace, i, j') {
          HBTransitive(x.mode, x.trace, i, j', j);
        }
        assert NoFree(x.trace, i, j', a);
        l := KeptPairsComplete(x, gate, i, j', a);
      } else {
        LaterEventsUnknown(x, i, j);
        ClocksAreHappensBefore(x, j', i);
        assert NoFree(x.trace, j', i, a);
        l := KeptPairsComplete(x, gate, j', i, a);
      }
      assert NoFree(x.trace, l, j, a);
    }
  }
}
