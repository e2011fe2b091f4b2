/** FastTrack's reported instructions and racy marks, along every run. */
module FastTrackMarks {
  import opened Clocks
  import opened Program
  import opened Protocol
  import opened Causality
  import opened ClockTheorem
  import opened Accesses
  import D = Djit
  import opened Epochs
  import opened FastTrack
  import opened FirstRace

  // ---------- the recorded instructions ----------

  ghost predicate WriterInstIs(x: Run, gate: bool, n: nat, a: Addr)
    requires n <= |x.trace|
  {
    var w := LastRecorded(x, gate, n, a, RaceWrite);
    w >= 0 ==> MetaAt(x, gate, n, a).writerInst == D.AccessAt(x, w).inst
  }

  ghost predicate ReaderInstIs(x: Run, gate: bool, n: nat, a: Addr, u: Tid)
    requires n <= |x.trace|
  {
    var m, o := MetaAt(x, gate, n, a), LastReadBy(x, gate, n, a, u);
    o >= 0 ==> u in m.readerInst && m.readerInst[u] == D.AccessAt(x, o).inst
  }

  lemma WriterInstNext(x: Run, gate: bool, n: nat, a: Addr)
    requires n < |x.trace| && WriterInstIs(x, gate, n, a)
    ensures WriterInstIs(x, gate, n + 1, a)
  {
    MetaNext(x, gate, n, a);
  }

  lemma ReaderInstNext(x: Run, gate: bool, n: nat, a: Addr, u: Tid)
    requires n < |x.trace| && ReaderInstIs(x, gate, n, a, u)
    ensures ReaderInstIs(x, gate, n + 1, a, u)
  {
    MetaNext(x, gate, n, a);
  }

  lemma {:induction false} WriterInstHolds(x: Run, gate: bool, n: nat, a: Addr)
    requires n <= |x.trace|
    ensures WriterInstIs(x, gate, n, a)
  {
    if n > 0 {
      WriterInstHolds(x, gate, n - 1, a);
      WriterInstNext(x, gate, n - 1, a);
    }
  }

  lemma {:induction false} ReaderInstHolds(x: Run, gate: bool, n: nat, a: Addr, u: Tid)
    requires n <= |x.trace|
    ensures ReaderInstIs(x, gate, n, a, u)
  {
    if n > 0 {
      ReaderInstHolds(x, gate, n - 1, a, u);
      ReaderInstNext(x, gate, n - 1, a, u);
    }
  }

  // The last recorded read of all is the last one of its thread.
  lemma {:induction false} LastReadIsItsThreads(x: Run, gate: bool, n: nat, a: Addr)
    requires n <= |x.trace|
    ensures var r := LastRecorded(x, gate, n, a, RaceRead);
            r >= 0 ==> LastReadBy(x, gate, n, a, x.trace[r].tid) == r
  {
    if n > 0 && !FreedAt(x.trace, n - 1, a) && !Recorded(x, gate, n - 1, a, RaceRead) {
      LastReadIsItsThreads(x, gate, n - 1, a);
    }
  }

  // Access i is what the report names, and it races with access j.
  ghost predicate Names(x: Run, gate: bool, i: int, j: nat, a: Addr, r: Report)
    requires j < |x.trace|
  {
    && 0 <= i < j && D.Races(x, gate, i, j, r.t0, a, r.k0) && D.AccessAt(x, i).inst == r.i0
    && r == Report(a, r.t0, r.i0, r.k0, x.trace[j].tid, D.AccessAt(x, j).inst, D.AccessAt(x, j).kind)
  }

  lemma EpochNames(x: Run, gate: bool, o: int, j: nat, a: Addr, k: Kind, inst: Inst, r: Report)
    requires j < |x.trace| && o < j && Touches(x.trace[j], a)
    requires o >= 0 ==> SeenOn(x, gate, o, a, k) && NoFree(x.trace, o, j, a) && inst == D.AccessAt(x, o).inst
    requires r in EpochReports(a, EpochOf(x, o), inst, k, D.AccessAt(x, j))
    ensures Names(x, gate, o, j, a, r)
  {
    EpochRaceIsRace(x, gate, o, j, a, k);
    ClocksAreHappensBefore(x, o, j);
  }

  lemma ScanNames(x: Run, gate: bool, j: nat, a: Addr, r: Report)
    requires j < |x.trace| && Touches(x.trace[j], a)
    requires var m := MetaAt(x, gate, j, a);
             r in ScanReports(a, m.readerClock, m.readerInst, RaceRead, D.AccessAt(x, j))
    ensures Names(x, gate, LastReadBy(x, gate, j, a, r.t0), j, a, r)
  {
    var m, o := MetaAt(x, gate, j, a), LastReadBy(x, gate, j, a, r.t0);
    ScanExact(a, m.readerClock, m.readerInst, RaceRead, D.AccessAt(x, j), r);
    CellOriginHolds(x, gate, j, a, r.t0);
    ReaderInstHolds(x, gate, j, a, r.t0);
    ClocksAreHappensBefore(x, o, j);
  }

  // Every report names an access that races with the current one, with the instruction that made it.
  lemma ReportNamesARace(x: Run, gate: bool, j: nat, a: Addr, r: Report)
    requires j < |x.trace| && Touches(x.trace[j], a) && r in ReportsAt(x, gate, j)
    ensures exists i :: Names(x, gate, i, j, a, r)
  {
    var m, cur := MetaAt(x, gate, j, a), D.AccessAt(x, j);
    var w, o := LastRecorded(x, gate, j, a, RaceWrite), LastRecorded(x, gate, j, a, RaceRead);
    CellOriginHolds(x, gate, j, a, 0);
    WriterInstHolds(x, gate, j, a);
    if r in EpochReports(a, m.writer, m.writerInst, RaceWrite, cur) {
      EpochNames(x, gate, w, j, a, RaceWrite, m.writerInst, r);
    } else if m.readShared {
      ScanNames(x, gate, j, a, r);
    } else {
      if o >= 0 {
        LastReadIsItsThreads(x, gate, j, a);
        ReaderInstHolds(x, gate, j, a, x.trace[o].tid);
      }
      EpochNames(x, gate, o, j, a, RaceRead, InstOf(m.readerInst, m.reader.tid), r);
    }
  }

  // ---------- the racy mark ----------

  // An unordered shared-read clock holds an entry that is reported.
  lemma UnorderedReadersReported(x: Run, gate: bool, j: nat, a: Addr)
    requires j < |x.trace| && Touches(x.trace[j], a)
    ensures var m, cur := MetaAt(x, gate, j, a), D.AccessAt(x, j);
            !Leq(m.readerClock, cur.clock) ==> ScanReports(a, m.readerClock, m.readerInst, RaceRead, cur) != []
  {
    var m, cur := MetaAt(x, gate, j, a), D.AccessAt(x, j);
    if u :| u in m.readerClock && (u !in cur.clock || m.readerClock[u] > cur.clock[u]) {
      CellOriginHolds(x, gate, j, a, u);
      var o := LastReadBy(x, gate, j, a, u);
      OwnStampPositive(x, o);
      if u == cur.t {
        OwnClockBelowStamp(x, o, j);
      }
      assert Get(cur.clock, u) < m.readerClock[u];
      ScanExact(a, m.readerClock, m.readerInst, RaceRead, cur, ReportOf(a, m.readerInst, RaceRead, cur, u));
    }
  }

  // An unordered epoch is another thread's, so it is reported.
  lemma UnorderedEpochReported(x: Run, gate: bool, j: nat, a: Addr, k: Kind, inst: Inst)
    requires j < |x.trace| && Touches(x.trace[j], a)
    ensures var e := EpochOf(x, LastRecorded(x, gate, j, a, k));
            EpochReports(a, e, inst, k, D.AccessAt(x, j)) != [] <==> !EpochBefore(e, D.AccessAt(x, j).clock)
  {
    var o := LastRecorded(x, gate, j, a, k);
    if o >= 0 {
      ClocksAreHappensBefore(x, o, j);
      ProgramOrder(x.mode, x.trace, o, j);
    }
  }

  // What the handlers test to set the mark is what makes them report.
  lemma UnorderedIsReported(x: Run, gate: bool, j: nat, a: Addr)
    requires j < |x.trace| && Touches(x.trace[j], a)
    ensures var m, cur := MetaAt(x, gate, j, a), D.AccessAt(x, j);
            && (!EpochBefore(m.writer, cur.clock) <==> EpochReports(a, m.writer, m.writerInst, RaceWrite, cur) != [])
            && (ReadersUnordered(m, cur) <==> ReaderReports(a, m, cur) != [])
  {
    var m := MetaAt(x, gate, j, a);
    CellOriginHolds(x, gate, j, a, 0);
    UnorderedEpochReported(x, gate, j, a, RaceWrite, m.writerInst);
    UnorderedEpochReported(x, gate, j, a, RaceRead, InstOf(m.readerInst, m.reader.tid));
    UnorderedReadersReported(x, gate, j, a);
  }

  lemma MarkedWhenReported(x: Run, gate: bool, j: nat, a: Addr)
    requires j < |x.trace| && Processed(gate, x.trace, j) && Touches(x.trace[j], a)
    ensures MetaAt(x, gate, j + 1, a).racy <==> MetaAt(x, gate, j, a).racy || ReportsOn(x, gate, j, a)
  {
    MetaNext(x, gate, j, a);
    UnorderedIsReported(x, gate, j, a);
  }

  lemma RacyNext(x: Run, gate: bool, n: nat, a: Addr)
    requires n < |x.trace|
    requires MetaAt(x, gate, n, a).racy <==> D.SinceFree(x.trace, Reporting(x, gate, a), n, a)
    ensures MetaAt(x, gate, n + 1, a).racy <==> D.SinceFree(x.trace, Reporting(x, gate, a), n + 1, a)
  {
    MetaNext(x, gate, n, a);
    D.SinceFreeNext(x.trace, Reporting(x, gate, a), n, a);
    if Processed(gate, x.trace, n) && Touches(x.trace[n], a) {
      MarkedWhenReported(x, gate, n, a);
    }
  }

  // A cell is marked racy exactly when FastTrack reported a race on it since it was last freed.
  lemma {:induction false} RacyExact(x: Run, gate: bool, n: nat, a: Addr)
    requires n <= |x.trace|
    ensures MetaAt(x, gate, n, a).racy <==> D.SinceFree(x.trace, Reporting(x, gate, a), n, a)
  {
    if n == 0 {
      assert !D.SinceFree(x.trace, Reporting(x, gate, a), 0, a);
    } else {
      var l := n - 1;
      RacyExact(x, gate, l, a);
      RacyNext(x, gate, l, a);
    }
  }

  // FastTrack and Djit mark the cell at the same points of the run if and only if each first report of
  // Djit has a noticed race.
  lemma SameMarks(x: Run, gate: bool, n: nat, a: Addr)
    requires n <= |x.trace|
    ensures (forall k | 0 <= k <= n :: MetaAt(x, gate, k, a).racy == D.MetaAt(x, gate, k, a).racy) <==>
            AlwaysNoticed(x, gate, n, a)
  {
    forall k | 0 <= k <= n
      ensures Agree(x, gate, k, a) <==> MetaAt(x, gate, k, a).racy == D.MetaAt(x, gate, k, a).racy
    {
      RacyExact(x, gate, k, a);
      D.RacyExact(x, gate, k, a);
    }
    FirstRaceExact(x, gate, n, a);
  }

  // While skips fire on the thread's own epoch, both detectors have marked the cell or neither has.
  lemma OwnSkipsSameMark(x: Run, gate: bool, n: nat, a: Addr)
    requires n <= |x.trace| && OwnSkips(x, gate, n, a)
    ensures MetaAt(x, gate, n, a).racy <==> D.MetaAt(x, gate, n, a).racy
  {
    RacyExact(x, gate, n, a);
    D.RacyExact(x, gate, n, a);
    OwnSkipsAgree(x, gate, n, a);
  }
}
