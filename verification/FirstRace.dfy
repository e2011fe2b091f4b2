/** FastTrack against Djit: every FastTrack report is a Djit report, and while same-epoch skips fire
    only on the accessing thread's own epoch both detectors first report at the same access. */
module FirstRace {
  import opened Clocks
  import opened Program
  import opened Protocol
  import opened Causality
  import opened ClockTheorem
  import opened Accesses
  import D = Djit
  import opened Epochs
  import opened FastTrack

  // ---------- refinement ----------

  // A recorded access that the epoch test finds unordered is a race in Djit's sense.
  lemma EpochRaceIsRace(x: Run, gate: bool, o: int, j: nat, a: Addr, k: Kind)
    requires j < |x.trace| && o < j && Touches(x.trace[j], a)
    requires o >= 0 ==> SeenOn(x, gate, o, a, k) && NoFree(x.trace, o, j, a)
    requires !EpochBefore(EpochOf(x, o), Stamp(x, j))
    ensures o >= 0 && x.trace[o].tid != x.trace[j].tid
    ensures D.HasRace(x, gate, j, x.trace[o].tid, a, k)
  {
    ClocksAreHappensBefore(x, o, j);
    ProgramOrder(x.mode, x.trace, o, j);
    assert D.Races(x, gate, o, j, x.trace[o].tid, a, k);
  }

  lemma ReaderClockRaceIsRace(x: Run, gate: bool, j: nat, a: Addr, u: Tid)
    requires j < |x.trace| && Touches(x.trace[j], a)
    requires Racing(MetaAt(x, gate, j, a).readerClock, D.AccessAt(x, j), u)
    ensures D.HasRace(x, gate, j, u, a, RaceRead)
  {
    CellOriginHolds(x, gate, j, a, u);
    var o := LastReadBy(x, gate, j, a, u);
    ClocksAreHappensBefore(x, o, j);
    assert D.Races(x, gate, o, j, u, a, RaceRead);
  }

  // Whatever FastTrack reports at an access, Djit reports there for the same threads and kinds.
  lemma FastTrackRefinesDjit(x: Run, gate: bool, j: nat, a: Addr, r: Report)
    requires j < |x.trace| && Touches(x.trace[j], a)
    requires r in ReportsAt(x, gate, j)
    ensures exists inst :: r.(i0 := inst) in D.ReportsAt(x, gate, j)
  {
    var m, cur := MetaAt(x, gate, j, a), D.AccessAt(x, j);
    CellOriginHolds(x, gate, j, a, 0);
    if r in EpochReports(a, m.writer, m.writerInst, RaceWrite, cur) {
      EpochRaceIsRace(x, gate, LastRecorded(x, gate, j, a, RaceWrite), j, a, RaceWrite);
    } else if m.readShared {
      ScanExact(a, m.readerClock, m.readerInst, RaceRead, cur, r);
      ReaderClockRaceIsRace(x, gate, j, a, r.t0);
    } else {
      EpochRaceIsRace(x, gate, LastRecorded(x, gate, j, a, RaceRead), j, a, RaceRead);
    }
    var inst := InstOf(D.SeenInst(D.MetaAt(x, gate, j, a), r.k0), r.t0);
    D.DjitExact(x, gate, j, a, r.(i0 := inst));
  }

  // ---------- skips on the thread's own epoch ----------

  // If access i is skipped, the epoch that matched is the accessing thread's.
  ghost predicate OwnSkip(x: Run, gate: bool, i: nat, a: Addr)
    requires i < |x.trace|
  {
    var m, e := MetaAt(x, gate, i, a), x.trace[i];
    && (e.op.Read? && Skipped(x, gate, i, a) ==> m.reader.tid == e.tid)
    && (e.op.Write? && Skipped(x, gate, i, a) ==> m.writer.tid == e.tid)
  }

  // i and j are processed accesses to the same incarnation of a.
  ghost predicate Together(x: Run, gate: bool, i: nat, j: nat, n: nat, a: Addr)
    requires i < j <= n <= |x.trace| && j < |x.trace|
  {
    && Touches(x.trace[i], a) && Processed(gate, x.trace, i) && NoFree(x.trace, i, n, a)
    && Touches(x.trace[j], a) && Processed(gate, x.trace, j)
  }

  // No conflicting pair among the processed accesses to a is unordered.
  ghost predicate Quiet(x: Run, gate: bool, n: nat, a: Addr)
    requires n <= |x.trace|
  {
    forall i, j | 0 <= i < j < n && Together(x, gate, i, j, n, a) && Conflict(KindOf(x.trace[i]), KindOf(x.trace[j])) ::
      HB(x.mode, x.trace, i, j)
  }

  // Whatever is ordered after o is ordered after i as well.
  ghost predicate StandsFor(x: Run, o: int, i: nat)
    requires i < |x.trace|
  {
    && 0 <= o < |x.trace|
    && (o == i
        || (i < o && HB(x.mode, x.trace, i, o))
        || (o < i && x.trace[o].tid == x.trace[i].tid
            && Get(Stamp(x, o), x.trace[o].tid) == Get(Stamp(x, i), x.trace[o].tid)))
  }

  lemma StandsForOrder(x: Run, o: nat, i: nat, j: nat)
    requires i < j && o < j < |x.trace| && StandsFor(x, o, i)
    ensures HB(x.mode, x.trace, o, j) ==> HB(x.mode, x.trace, i, j)
  {
    if HB(x.mode, x.trace, o, j) {
      if i < o {
        HBTransitive(x.mode, x.trace, i, o, j);
      } else if o < i {
        ClocksAreHappensBefore(x, o, j);
        ClocksAreHappensBefore(x, i, j);
      }
    }
  }

  // In a skipped access on its own epoch, the matched recorded access has the same clock.
  lemma SkipStandsFor(x: Run, gate: bool, i: nat, a: Addr)
    requires i < |x.trace| && Touches(x.trace[i], a) && Processed(gate, x.trace, i)
    requires Skipped(x, gate, i, a) && OwnSkip(x, gate, i, a)
    ensures var o := LastRecorded(x, gate, i, a, KindOf(x.trace[i]));
            && 0 <= o < i && x.trace[o].tid == x.trace[i].tid
            && Get(Stamp(x, o), x.trace[o].tid) == Get(Stamp(x, i), x.trace[o].tid)
            && Touches(x.trace[o], a) && KindOf(x.trace[o]) == KindOf(x.trace[i])
            && NoFree(x.trace, o, i, a) && Processed(gate, x.trace, o)
  {
    CellOriginHolds(x, gate, i, a, 0);
  }

  // While all is quiet, the last recorded write stands for every processed write that was not skipped
  // on a foreign epoch.
  lemma WriteCovers(x: Run, gate: bool, n: nat, a: Addr, i: nat)
    requires i < n <= |x.trace| && Quiet(x, gate, n, a) && OwnSkip(x, gate, i, a)
    requires SeenOn(x, gate, i, a, RaceWrite) && NoFree(x.trace, i, n, a)
    ensures StandsFor(x, LastRecorded(x, gate, n, a, RaceWrite), i)
  {
    var w := LastRecorded(x, gate, n, a, RaceWrite);
    if w < i {
      NoneRecordedSince(x, gate, n, a, RaceWrite, i);
      SkipStandsFor(x, gate, i, a);
    } else if i < w {
      assert Together(x, gate, i, w, n, a);
    }
  }

  // The last recorded read of each thread stands for all its processed reads that were not skipped on
  // a foreign epoch.
  lemma ReadByCovers(x: Run, gate: bool, n: nat, a: Addr, i: nat)
    requires i < n <= |x.trace| && OwnSkip(x, gate, i, a)
    requires SeenOn(x, gate, i, a, RaceRead) && NoFree(x.trace, i, n, a)
    ensures var o := LastReadBy(x, gate, n, a, x.trace[i].tid);
            StandsFor(x, o, i) && x.trace[o].tid == x.trace[i].tid
  {
    var u := x.trace[i].tid;
    var o := LastReadBy(x, gate, n, a, u);
    if o < i {
      NoReadBySince(x, gate, n, a, u, i);
      SkipStandsFor(x, gate, i, a);
      OwnReadIsLast(x, gate, i, a, LastRecorded(x, gate, i, a, RaceRead));
    } else if i < o {
      assert Edge(x.mode, x.trace, i, o);
    }
  }

  lemma OwnReadIsLast(x: Run, gate: bool, i: nat, a: Addr, r: nat)
    requires i <= |x.trace| && r < i && r == LastRecorded(x, gate, i, a, RaceRead)
    ensures LastReadBy(x, gate, i, a, x.trace[r].tid) == r
  {
    var u := x.trace[r].tid;
    var o := LastReadBy(x, gate, i, a, u);
    if o < r {
      NoReadBySince(x, gate, i, a, u, r);
    } else if r < o {
      NoneRecordedSince(x, gate, i, a, RaceRead, o);
    }
  }

  // ---------- the read epoch stands for all reads until reads become shared ----------

  ghost predicate ReadsCovered(x: Run, gate: bool, n: nat, a: Addr)
    requires n <= |x.trace|
  {
    !MetaAt(x, gate, n, a).readShared ==>
      forall i | 0 <= i < n && SeenOn(x, gate, i, a, RaceRead) && NoFree(x.trace, i, n, a) && OwnSkip(x, gate, i, a) ::
        StandsFor(x, LastRecorded(x, gate, n, a, RaceRead), i)
  }

  lemma QuietBefore(x: Run, gate: bool, n: nat, a: Addr)
    requires n < |x.trace| && Quiet(x, gate, n + 1, a) && !FreedAt(x.trace, n, a)
    ensures Quiet(x, gate, n, a)
  {
    forall i, j | 0 <= i < j < n && Together(x, gate, i, j, n, a) && Conflict(KindOf(x.trace[i]), KindOf(x.trace[j]))
      ensures HB(x.mode, x.trace, i, j)
    {
      assert Together(x, gate, i, j, n + 1, a);
    }
  }

  // A quiet write never resets the shared mark.
  lemma SharedStays(x: Run, gate: bool, n: nat, a: Addr)
    requires n < |x.trace| && Quiet(x, gate, n + 1, a)
    requires SeenOn(x, gate, n, a, RaceWrite)
    ensures MetaAt(x, gate, n, a).readShared ==> Leq(MetaAt(x, gate, n, a).readerClock, Stamp(x, n))
  {
    var m := MetaAt(x, gate, n, a);
    forall u | u in m.readerClock ensures u in Stamp(x, n) && m.readerClock[u] <= Stamp(x, n)[u] {
      CellOriginHolds(x, gate, n, a, u);
      var o := LastReadBy(x, gate, n, a, u);
      assert Together(x, gate, o, n, n + 1, a);
      ClocksAreHappensBefore(x, o, n);
      OwnStampPositive(x, o);
      assert Get(Stamp(x, o), u) <= Get(Stamp(x, n), u);
    }
  }

  lemma ReadsCoveredRead(x: Run, gate: bool, n: nat, a: Addr)
    requires n < |x.trace| && SeenOn(x, gate, n, a, RaceRead) && ReadsCovered(x, gate, n, a)
    ensures ReadsCovered(x, gate, n + 1, a)
  {
    MetaNext(x, gate, n, a);
    CellOriginHolds(x, gate, n, a, 0);
    assert NoFree(x.trace, n, n + 1, a);
    var r, r' := LastRecorded(x, gate, n, a, RaceRead), LastRecorded(x, gate, n + 1, a, RaceRead);
    if Skipped(x, gate, n, a) && OwnSkip(x, gate, n, a) {
      SkipStandsFor(x, gate, n, a);
    }
    forall i | 0 <= i < n + 1 && SeenOn(x, gate, i, a, RaceRead) && NoFree(x.trace, i, n + 1, a)
               && OwnSkip(x, gate, i, a) && !MetaAt(x, gate, n + 1, a).readShared
      ensures StandsFor(x, r', i)
    {
      if i < n {
        assert NoFree(x.trace, i, n, a);
        assert StandsFor(x, r, i);
        if r' == n {
          ClocksAreHappensBefore(x, r, n);
          StandsForOrder(x, r, i, n);
        }
      }
    }
  }

  lemma ReadsCoveredOther(x: Run, gate: bool, n: nat, a: Addr)
    requires n < |x.trace| && Quiet(x, gate, n + 1, a)
    requires !SeenOn(x, gate, n, a, RaceRead) && ReadsCovered(x, gate, n, a)
    ensures ReadsCovered(x, gate, n + 1, a)
  {
    MetaNext(x, gate, n, a);
    if SeenOn(x, gate, n, a, RaceWrite) {
      SharedStays(x, gate, n, a);
    }
    forall i | 0 <= i < n + 1 && SeenOn(x, gate, i, a, RaceRead) && NoFree(x.trace, i, n + 1, a)
               && OwnSkip(x, gate, i, a) && !MetaAt(x, gate, n + 1, a).readShared
      ensures StandsFor(x, LastRecorded(x, gate, n + 1, a, RaceRead), i)
    {
      assert !FreedAt(x.trace, n, a);
      assert NoFree(x.trace, i, n, a);
    }
  }

  lemma ReadsCoveredFreed(x: Run, gate: bool, n: nat, a: Addr)
    requires n < |x.trace| && FreedAt(x.trace, n, a)
    ensures ReadsCovered(x, gate, n + 1, a)
  {
    var n' := n + 1;
    assert forall i | 0 <= i < n :: !NoFree(x.trace, i, n', a);
  }

  lemma {:induction false} ReadsCoveredHolds(x: Run, gate: bool, n: nat, a: Addr)
    requires n <= |x.trace| && Quiet(x, gate, n, a)
    ensures ReadsCovered(x, gate, n, a)
  {
    if n > 0 {
      var l := n - 1;
      if FreedAt(x.trace, l, a) {
        ReadsCoveredFreed(x, gate, l, a);
      } else {
        QuietBefore(x, gate, l, a);
        ReadsCoveredHolds(x, gate, l, a);
        if SeenOn(x, gate, l, a, RaceRead) {
          ReadsCoveredRead(x, gate, l, a);
        } else {
          ReadsCoveredOther(x, gate, l, a);
        }
      }
    }
  }

  // ---------- detection ----------

  lemma QuietUntilDjitReports(x: Run, gate: bool, n: nat, a: Addr)
    requires n <= |x.trace|
    requires !D.SinceFree(x.trace, D.Reporting(x, gate, a), n, a)
    ensures Quiet(x, gate, n, a)
  {
    forall i, j | 0 <= i < j < n && Together(x, gate, i, j, n, a) && Conflict(KindOf(x.trace[i]), KindOf(x.trace[j]))
      ensures HB(x.mode, x.trace, i, j)
    {
      ProgramOrder(x.mode, x.trace, i, j);
      assert NoFree(x.trace, i, j, a) && NoFree(x.trace, j, n, a);
      assert j !in D.Reporting(x, gate, a);
      if !HB(x.mode, x.trace, i, j) {
        DjitReportsRace(x, gate, i, j, a);
      }
    }
  }

  lemma DjitReportsRace(x: Run, gate: bool, i: nat, j: nat, a: Addr)
    requires i < j < |x.trace| && Together(x, gate, i, j, j, a)
    requires Conflict(KindOf(x.trace[i]), KindOf(x.trace[j])) && !HB(x.mode, x.trace, i, j)
    requires x.trace[i].tid != x.trace[j].tid
    ensures D.ReportsOn(x, gate, j, a)
  {
    var u, k := x.trace[i].tid, KindOf(x.trace[i]);
    assert D.Races(x, gate, i, j, u, a, k);
    var r := ReportOf(a, D.SeenInst(D.MetaAt(x, gate, j, a), k), k, D.AccessAt(x, j), u);
    D.DjitExact(x, gate, j, a, r);
  }

  // Another thread's access cannot come after an access of t's current epoch in the order.
  lemma OwnEpochUnknown(x: Run, o: nat, i: nat, j: nat)
    requires o < i < j < |x.trace|
    requires x.trace[o].tid == x.trace[j].tid != x.trace[i].tid
    requires Get(Stamp(x, o), x.trace[j].tid) == Get(Stamp(x, j), x.trace[j].tid)
    ensures !HB(x.mode, x.trace, o, i)
  {
    LaterEventsUnknown(x, i, j);
    ClocksAreHappensBefore(x, o, i);
  }

  lemma SkippedIsOrdered(x: Run, gate: bool, i: nat, j: nat, a: Addr)
    requires i < j < |x.trace| && Quiet(x, gate, j, a) && OwnSkip(x, gate, j, a) && Skipped(x, gate, j, a)
    requires Together(x, gate, i, j, j, a) && Conflict(KindOf(x.trace[i]), KindOf(x.trace[j]))
    requires x.trace[i].tid != x.trace[j].tid
    ensures HB(x.mode, x.trace, i, j)
  {
    SkipStandsFor(x, gate, j, a);
    var o := LastRecorded(x, gate, j, a, KindOf(x.trace[j]));
    if i < o {
      assert Together(x, gate, i, o, j, a);
      assert Edge(x.mode, x.trace, o, j);
      HBTransitive(x.mode, x.trace, i, o, j);
    } else {
      OwnEpochUnknown(x, o, i, j);
      assert Together(x, gate, o, i, j, a);
    }
  }

  // An epoch whose access is not ordered before j is reported.
  lemma EpochReported(x: Run, gate: bool, o: nat, j: nat, a: Addr, inst: Inst, k: Kind)
    requires o < j < |x.trace| && Touches(x.trace[j], a) && !HB(x.mode, x.trace, o, j)
    ensures EpochReports(a, EpochOf(x, o), inst, k, D.AccessAt(x, j)) != []
  {
    ClocksAreHappensBefore(x, o, j);
    ProgramOrder(x.mode, x.trace, o, j);
  }

  // Accesses i and j of two threads conflict and are unordered, and neither was skipped on the epoch
  // of another thread.
  ghost predicate Noticed(x: Run, gate: bool, i: nat, j: nat, a: Addr)
    requires i < j < |x.trace|
  {
    && Together(x, gate, i, j, j, a) && Conflict(KindOf(x.trace[i]), KindOf(x.trace[j]))
    && x.trace[i].tid != x.trace[j].tid && !HB(x.mode, x.trace, i, j)
    && OwnSkip(x, gate, i, a) && OwnSkip(x, gate, j, a)
  }

  // On a cell that is quiet so far, a noticed race is reported.
  lemma FastTrackDetects(x: Run, gate: bool, i: nat, j: nat, a: Addr)
    requires i < j < |x.trace| && Quiet(x, gate, j, a) && Noticed(x, gate, i, j, a)
    ensures ReportsAt(x, gate, j) != []
  {
    var m, cur := MetaAt(x, gate, j, a), D.AccessAt(x, j);
    if Skipped(x, gate, j, a) {
      SkippedIsOrdered(x, gate, i, j, a);
    }
    CellOriginHolds(x, gate, j, a, x.trace[i].tid);
    if x.trace[i].op.Write? {
      var w := LastRecorded(x, gate, j, a, RaceWrite);
      WriteCovers(x, gate, j, a, i);
      StandsForOrder(x, w, i, j);
      EpochReported(x, gate, w, j, a, m.writerInst, RaceWrite);
    } else if m.readShared {
      ReadByCovers(x, gate, j, a, i);
      var u := x.trace[i].tid;
      var o := LastReadBy(x, gate, j, a, u);
      StandsForOrder(x, o, i, j);
      ClocksAreHappensBefore(x, o, j);
      ScanExact(a, m.readerClock, m.readerInst, RaceRead, cur, ReportOf(a, m.readerInst, RaceRead, cur, u));
    } else {
      var r := LastRecorded(x, gate, j, a, RaceRead);
      ReadsCoveredHolds(x, gate, j, a);
      assert SeenOn(x, gate, i, a, RaceRead);
      StandsForOrder(x, r, i, j);
      EpochReported(x, gate, r, j, a, InstOf(m.readerInst, m.reader.tid), RaceRead);
    }
  }

  // Every report is about an access that was recorded, so it and the current one are a noticed race.
  lemma ReportIsNoticed(x: Run, gate: bool, j: nat, a: Addr, r: Report) returns (i: nat)
    requires j < |x.trace| && Touches(x.trace[j], a) && r in ReportsAt(x, gate, j)
    ensures i < j && Noticed(x, gate, i, j, a) && Recorded(x, gate, i, a, KindOf(x.trace[i]))
  {
    var m, cur := MetaAt(x, gate, j, a), D.AccessAt(x, j);
    CellOriginHolds(x, gate, j, a, r.t0);
    if r in EpochReports(a, m.writer, m.writerInst, RaceWrite, cur) {
      i := UnorderedRecord(x, gate, LastRecorded(x, gate, j, a, RaceWrite), j, a, RaceWrite);
    } else if m.readShared {
      ScanExact(a, m.readerClock, m.readerInst, RaceRead, cur, r);
      i := UnorderedRecord(x, gate, LastReadBy(x, gate, j, a, r.t0), j, a, RaceRead);
    } else {
      i := UnorderedRecord(x, gate, LastRecorded(x, gate, j, a, RaceRead), j, a, RaceRead);
    }
  }

  lemma UnorderedRecord(x: Run, gate: bool, o: int, j: nat, a: Addr, k: Kind) returns (i: nat)
    requires o < j < |x.trace| && Touches(x.trace[j], a) && Processed(gate, x.trace, j) && !Skipped(x, gate, j, a)
    requires o >= 0 ==> Recorded(x, gate, o, a, k) && NoFree(x.trace, o, j, a)
    requires Conflict(k, KindOf(x.trace[j])) && !EpochBefore(EpochOf(x, o), Stamp(x, j))
    ensures i == o && i < j && Noticed(x, gate, i, j, a) && Recorded(x, gate, i, a, KindOf(x.trace[i]))
  {
    i := o;
    ClocksAreHappensBefore(x, o, j);
    ProgramOrder(x.mode, x.trace, o, j);
  }

  // ---------- first races ----------

  ghost predicate ReportsOn(x: Run, gate: bool, j: nat, a: Addr)
    requires j < |x.trace|
  {
    Touches(x.trace[j], a) && ReportsAt(x, gate, j) != []
  }

  ghost function Reporting(x: Run, gate: bool, a: Addr): iset<nat> {
    iset j: nat | j < |x.trace| && ReportsOn(x, gate, j, a)
  }

  lemma ReportingRefines(x: Run, gate: bool, a: Addr)
    ensures Reporting(x, gate, a) <= D.Reporting(x, gate, a)
  {
    forall j | j in Reporting(x, gate, a) ensures j in D.Reporting(x, gate, a) {
      var r := ReportsAt(x, gate, j)[0];
      assert r in ReportsAt(x, gate, j);
      FastTrackRefinesDjit(x, gate, j, a, r);
    }
  }

  // Djit reports at j for the first time since a was last freed.
  ghost predicate DjitFirst(x: Run, gate: bool, j: nat, a: Addr)
    requires j < |x.trace|
  {
    j in D.Reporting(x, gate, a) && !D.SinceFree(x.trace, D.Reporting(x, gate, a), j, a)
  }

  ghost predicate SomeNoticed(x: Run, gate: bool, j: nat, a: Addr)
    requires j < |x.trace|
  {
    exists i | 0 <= i < j :: Noticed(x, gate, i, j, a)
  }

  // Where Djit reports for the first time, FastTrack reports exactly when some race at that access is
  // between two accesses that were not skipped on a foreign epoch.
  lemma FirstReportExact(x: Run, gate: bool, j: nat, a: Addr)
    requires j < |x.trace| && DjitFirst(x, gate, j, a)
    ensures j in Reporting(x, gate, a) <==> SomeNoticed(x, gate, j, a)
  {
    QuietUntilDjitReports(x, gate, j, a);
    if i: nat :| i < j && Noticed(x, gate, i, j, a) {
      FastTrackDetects(x, gate, i, j, a);
    }
    if j in Reporting(x, gate, a) {
      var r := ReportsAt(x, gate, j)[0];
      assert r in ReportsAt(x, gate, j);
      var i := ReportIsNoticed(x, gate, j, a, r);
    }
  }

  // Since a was last freed, both detectors have reported a race on it or neither has.
  ghost predicate Agree(x: Run, gate: bool, n: nat, a: Addr)
    requires n <= |x.trace|
  {
    D.SinceFree(x.trace, Reporting(x, gate, a), n, a) <==> D.SinceFree(x.trace, D.Reporting(x, gate, a), n, a)
  }

  // If Djit reports at j for the first time, some race at j is noticed.
  ghost predicate FirstNoticed(x: Run, gate: bool, j: nat, a: Addr)
    requires j < |x.trace|
  {
    DjitFirst(x, gate, j, a) ==> SomeNoticed(x, gate, j, a)
  }

  lemma NothingYet(x: Run, gate: bool, a: Addr)
    ensures Agree(x, gate, 0, a)
  {
  }

  lemma AgreeNext(x: Run, gate: bool, n: nat, a: Addr)
    requires n < |x.trace| && Agree(x, gate, n, a)
    ensures Agree(x, gate, n + 1, a) <==> FirstNoticed(x, gate, n, a)
  {
    ReportingRefines(x, gate, a);
    D.SinceFreeNext(x.trace, Reporting(x, gate, a), n, a);
    D.SinceFreeNext(x.trace, D.Reporting(x, gate, a), n, a);
    if DjitFirst(x, gate, n, a) {
      FirstReportExact(x, gate, n, a);
    }
  }

  // At every point up to n the detectors agree.
  ghost predicate AlwaysAgree(x: Run, gate: bool, n: nat, a: Addr)
    requires n <= |x.trace|
  {
    forall k | 0 <= k <= n :: Agree(x, gate, k, a)
  }

  // Every first report of Djit before n has a noticed race.
  ghost predicate AlwaysNoticed(x: Run, gate: bool, n: nat, a: Addr)
    requires n <= |x.trace|
  {
    forall j | 0 <= j < n :: FirstNoticed(x, gate, j, a)
  }

  lemma {:induction false} NoticedAgree(x: Run, gate: bool, n: nat, a: Addr)
    requires n <= |x.trace| && AlwaysNoticed(x, gate, n, a)
    ensures Agree(x, gate, n, a)
  {
    if n == 0 {
      NothingYet(x, gate, a);
    } else {
      NoticedAgree(x, gate, n - 1, a);
      AgreeNext(x, gate, n - 1, a);
    }
  }

  lemma AgreeingNoticed(x: Run, gate: bool, n: nat, a: Addr, j: nat)
    requires j < n <= |x.trace| && AlwaysAgree(x, gate, n, a)
    ensures FirstNoticed(x, gate, j, a)
  {
    AgreeNext(x, gate, j, a);
  }

  // FastTrack first reports on the cell exactly where Djit first does, up to any point of the run and
  // in every incarnation of the cell, if and only if each first report of Djit has a noticed race.
  lemma FirstRaceExact(x: Run, gate: bool, n: nat, a: Addr)
    requires n <= |x.trace|
    ensures AlwaysAgree(x, gate, n, a) <==> AlwaysNoticed(x, gate, n, a)
  {
    if AlwaysNoticed(x, gate, n, a) {
      forall k | 0 <= k <= n ensures Agree(x, gate, k, a) {
        NoticedAgree(x, gate, k, a);
      }
    }
    if AlwaysAgree(x, gate, n, a) {
      forall j | 0 <= j < n ensures FirstNoticed(x, gate, j, a) {
        AgreeingNoticed(x, gate, n, a, j);
      }
    }
  }

  // ---------- runs without foreign skips ----------

  // No access to the cell was skipped on a foreign epoch since it was last freed.
  ghost predicate OwnSkips(x: Run, gate: bool, n: nat, a: Addr)
    requires n <= |x.trace|
  {
    forall i | 0 <= i < n && NoFree(x.trace, i, n, a) && Touches(x.trace[i], a) && Processed(gate, x.trace, i) ::
      OwnSkip(x, gate, i, a)
  }

  lemma OwnSkipsBefore(x: Run, gate: bool, n: nat, a: Addr)
    requires n < |x.trace| && OwnSkips(x, gate, n + 1, a) && !FreedAt(x.trace, n, a)
    ensures OwnSkips(x, gate, n, a)
  {
    forall i | 0 <= i < n && NoFree(x.trace, i, n, a) && Touches(x.trace[i], a) && Processed(gate, x.trace, i)
      ensures OwnSkip(x, gate, i, a)
    {
      assert NoFree(x.trace, i, n + 1, a);
    }
  }

  lemma DjitFirstIsNoticed(x: Run, gate: bool, j: nat, a: Addr)
    requires j < |x.trace| && OwnSkips(x, gate, j + 1, a) && DjitFirst(x, gate, j, a)
    ensures SomeNoticed(x, gate, j, a)
  {
    var r := D.ReportsAt(x, gate, j)[0];
    assert r in D.ReportsAt(x, gate, j);
    D.DjitExact(x, gate, j, a, r);
    var i: nat :| i < j && D.Races(x, gate, i, j, r.t0, a, r.k0);
    RaceIsNoticed(x, gate, i, j, a, r.t0, r.k0);
  }

  lemma RaceIsNoticed(x: Run, gate: bool, i: nat, j: nat, a: Addr, u: Tid, k: Kind)
    requires i < j < |x.trace| && OwnSkips(x, gate, j + 1, a) && D.Races(x, gate, i, j, u, a, k)
    requires Touches(x.trace[j], a) && Processed(gate, x.trace, j) && Conflict(k, KindOf(x.trace[j]))
    ensures Noticed(x, gate, i, j, a)
  {
    assert NoFree(x.trace, i, j + 1, a) && NoFree(x.trace, j, j + 1, a);
  }

  // While same-epoch skips fire only on the thread's own epoch, the detectors agree.
  lemma {:induction false} OwnSkipsAgree(x: Run, gate: bool, n: nat, a: Addr)
    requires n <= |x.trace| && OwnSkips(x, gate, n, a)
    ensures Agree(x, gate, n, a)
  {
    if n > 0 {
      var l := n - 1;
      if FreedAt(x.trace, l, a) {
        D.SinceFreeNext(x.trace, Reporting(x, gate, a), l, a);
        D.SinceFreeNext(x.trace, D.Reporting(x, gate, a), l, a);
      } else {
        OwnSkipsBefore(x, gate, l, a);
        OwnSkipsAgree(x, gate, l, a);
        AgreeNext(x, gate, l, a);
        if DjitFirst(x, gate, l, a) {
          DjitFirstIsNoticed(x, gate, l, a);
        }
      }
    }
  }
}
