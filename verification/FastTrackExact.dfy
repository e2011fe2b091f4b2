/** FastTrack exactly, on the events alone: which accesses it skips, when reads are shared, what it reports. */
module FastTrackExact {
  import opened Clocks
  import opened Program
  import opened Protocol
  import opened Causality
  import opened ClockTheorem
  import opened Accesses
  import D = Djit
  import opened Epochs
  import opened FastTrack
  import opened FirstRace
  import opened FastTrackMarks

  // ---------- which accesses are skipped ----------

  // An access is skipped exactly when the last recorded access of its kind is of the epoch that the
  // access knows of that thread, whichever thread it is.
  lemma SkipExact(x: Run, gate: bool, i: nat, a: Addr)
    requires i < |x.trace| && Touches(x.trace[i], a)
    ensures Skipped(x, gate, i, a) <==> SameEpoch(x, LastRecorded(x, gate, i, a, KindOf(x.trace[i])), i)
  {
    EpochsHold(x, gate, i, a);
    var o := LastRecorded(x, gate, i, a, KindOf(x.trace[i]));
    if o >= 0 {
      OwnStampPositive(x, o);
    }
  }

  // A skip is foreign exactly when that last recorded access is another thread's.
  lemma ForeignSkipExact(x: Run, gate: bool, i: nat, a: Addr)
    requires i < |x.trace| && Touches(x.trace[i], a)
    ensures !OwnSkip(x, gate, i, a) <==>
            var o := LastRecorded(x, gate, i, a, KindOf(x.trace[i]));
            SameEpoch(x, o, i) && x.trace[o].tid != x.trace[i].tid
  {
    SkipExact(x, gate, i, a);
    EpochsHold(x, gate, i, a);
  }

  // ---------- when the reads are shared ----------

  // The last recorded read of every thread is ordered before event n.
  ghost predicate ReadsOrdered(x: Run, gate: bool, n: nat, a: Addr)
    requires n < |x.trace|
  {
    forall u: Tid :: LastReadBy(x, gate, n, a, u) >= 0 ==> HB(x.mode, x.trace, LastReadBy(x, gate, n, a, u), n)
  }

  // A recorded read that is not ordered after the last one makes the reads shared; a recorded write that
  // is not ordered after all of them makes them unshared.
  ghost predicate SharedAt(x: Run, gate: bool, n: nat, a: Addr)
    requires n <= |x.trace|
  {
    if n == 0 || FreedAt(x.trace, n - 1, a) then false
    else if Recorded(x, gate, n - 1, a, RaceRead) then
      var o := LastRecorded(x, gate, n - 1, a, RaceRead);
      SharedAt(x, gate, n - 1, a) || (o >= 0 && !HB(x.mode, x.trace, o, n - 1))
    else if Recorded(x, gate, n - 1, a, RaceWrite) then
      SharedAt(x, gate, n - 1, a) && ReadsOrdered(x, gate, n - 1, a)
    else SharedAt(x, gate, n - 1, a)
  }

  lemma EpochIsOrdered(x: Run, o: int, n: nat)
    requires o < n < |x.trace| && (x.trace[n].op.Read? || x.trace[n].op.Write?)
    ensures EpochBefore(EpochOf(x, o), D.AccessAt(x, n).clock) <==> o < 0 || HB(x.mode, x.trace, o, n)
  {
    if o >= 0 {
      ClocksAreHappensBefore(x, o, n);
    }
  }

  lemma ReaderIsOrdered(x: Run, gate: bool, n: nat, a: Addr, u: Tid)
    requires n < |x.trace| && Touches(x.trace[n], a)
    ensures var seen, vc := MetaAt(x, gate, n, a).readerClock, D.AccessAt(x, n).clock;
            (u in seen ==> u in vc && seen[u] <= vc[u]) <==>
            (LastReadBy(x, gate, n, a, u) >= 0 ==> HB(x.mode, x.trace, LastReadBy(x, gate, n, a, u), n))
  {
    ReaderHolds(x, gate, n, a, u);
    var o := LastReadBy(x, gate, n, a, u);
    if o >= 0 {
      OwnStampPositive(x, o);
      ClocksAreHappensBefore(x, o, n);
    }
  }

  lemma ReadersAreOrdered(x: Run, gate: bool, n: nat, a: Addr)
    requires n < |x.trace| && Touches(x.trace[n], a)
    ensures Leq(MetaAt(x, gate, n, a).readerClock, D.AccessAt(x, n).clock) <==> ReadsOrdered(x, gate, n, a)
  {
    forall u: Tid ensures
        var seen, vc := MetaAt(x, gate, n, a).readerClock, D.AccessAt(x, n).clock;
        (u in seen ==> u in vc && seen[u] <= vc[u]) <==>
        (LastReadBy(x, gate, n, a, u) >= 0 ==> HB(x.mode, x.trace, LastReadBy(x, gate, n, a, u), n))
    {
      ReaderIsOrdered(x, gate, n, a, u);
    }
  }

  lemma SharedNext(x: Run, gate: bool, n: nat, a: Addr)
    requires n < |x.trace| && (MetaAt(x, gate, n, a).readShared <==> SharedAt(x, gate, n, a))
    ensures MetaAt(x, gate, n + 1, a).readShared <==> SharedAt(x, gate, n + 1, a)
  {
    MetaNext(x, gate, n, a);
    if Recorded(x, gate, n, a, RaceRead) {
      EpochsHold(x, gate, n, a);
      EpochIsOrdered(x, LastRecorded(x, gate, n, a, RaceRead), n);
    } else if Recorded(x, gate, n, a, RaceWrite) {
      ReadersAreOrdered(x, gate, n, a);
    }
  }

  lemma {:induction false} SharedHolds(x: Run, gate: bool, n: nat, a: Addr)
    requires n <= |x.trace|
    ensures MetaAt(x, gate, n, a).readShared <==> SharedAt(x, gate, n, a)
  {
    if n > 0 {
      SharedHolds(x, gate, n - 1, a);
      SharedNext(x, gate, n - 1, a);
    }
  }

  // ---------- what is reported ----------

  // The recorded access that a report of thread u and kind k is about, or -1.
  ghost function Origin(x: Run, gate: bool, j: nat, a: Addr, u: Tid, k: Kind): (o: int)
    requires j < |x.trace|
    ensures -1 <= o < j
  {
    if k.RaceRead? && SharedAt(x, gate, j, a) then LastReadBy(x, gate, j, a, u) else LastRecorded(x, gate, j, a, k)
  }

  ghost predicate OriginRaces(x: Run, gate: bool, j: nat, a: Addr, r: Report)
    requires j < |x.trace|
  {
    var o := Origin(x, gate, j, a, r.t0, r.k0);
    && o >= 0 && x.trace[o].tid == r.t0 && r.t0 != x.trace[j].tid && r.i0 == x.trace[o].op.inst
    && !HB(x.mode, x.trace, o, j)
  }

  lemma EpochReportExact(x: Run, gate: bool, o: int, j: nat, a: Addr, k: Kind, inst: Inst, r: Report)
    requires j < |x.trace| && o < j && Touches(x.trace[j], a)
    requires o >= 0 ==> SeenOn(x, gate, o, a, k) && inst == x.trace[o].op.inst
    ensures r in EpochReports(a, EpochOf(x, o), inst, k, D.AccessAt(x, j)) <==>
            && o >= 0 && x.trace[o].tid == r.t0 && r.t0 != x.trace[j].tid && r.i0 == x.trace[o].op.inst
            && !HB(x.mode, x.trace, o, j) && r.k0 == k
            && r == Report(a, r.t0, r.i0, r.k0, x.trace[j].tid, x.trace[j].op.inst, KindOf(x.trace[j]))
  {
    if o >= 0 {
      ClocksAreHappensBefore(x, o, j);
    }
  }

  lemma SharedReportExact(x: Run, gate: bool, j: nat, a: Addr, r: Report)
    requires j < |x.trace| && Touches(x.trace[j], a)
    ensures var m, o := MetaAt(x, gate, j, a), LastReadBy(x, gate, j, a, r.t0);
            r in ScanReports(a, m.readerClock, m.readerInst, RaceRead, D.AccessAt(x, j)) <==>
                 && o >= 0 && r.t0 != x.trace[j].tid && r.i0 == x.trace[o].op.inst && !HB(x.mode, x.trace, o, j)
                 && r == Report(a, r.t0, r.i0, RaceRead, x.trace[j].tid, x.trace[j].op.inst, KindOf(x.trace[j]))
  {
    var m, o := MetaAt(x, gate, j, a), LastReadBy(x, gate, j, a, r.t0);
    ScanExact(a, m.readerClock, m.readerInst, RaceRead, D.AccessAt(x, j), r);
    ReaderHolds(x, gate, j, a, r.t0);
    ReaderInstHolds(x, gate, j, a, r.t0);
    if o >= 0 {
      ClocksAreHappensBefore(x, o, j);
    }
  }

  lemma ReaderReportExact(x: Run, gate: bool, j: nat, a: Addr, r: Report)
    requires j < |x.trace| && Touches(x.trace[j], a)
    ensures r in ReaderReports(a, MetaAt(x, gate, j, a), D.AccessAt(x, j)) <==>
            && r == Report(a, r.t0, r.i0, RaceRead, x.trace[j].tid, x.trace[j].op.inst, KindOf(x.trace[j]))
            && OriginRaces(x, gate, j, a, r)
  {
    var m, o := MetaAt(x, gate, j, a), LastRecorded(x, gate, j, a, RaceRead);
    SharedHolds(x, gate, j, a);
    if m.readShared {
      SharedReportExact(x, gate, j, a, r);
    } else {
      EpochsHold(x, gate, j, a);
      if o >= 0 {
        LastReadIsItsThreads(x, gate, j, a);
        ReaderInstHolds(x, gate, j, a, x.trace[o].tid);
      }
      EpochReportExact(x, gate, o, j, a, RaceRead, InstOf(m.readerInst, m.reader.tid), r);
    }
  }

  lemma WriterReportExact(x: Run, gate: bool, j: nat, a: Addr, r: Report)
    requires j < |x.trace| && Touches(x.trace[j], a)
    ensures var m := MetaAt(x, gate, j, a);
            r in EpochReports(a, m.writer, m.writerInst, RaceWrite, D.AccessAt(x, j)) <==>
                 && r == Report(a, r.t0, r.i0, RaceWrite, x.trace[j].tid, x.trace[j].op.inst, KindOf(x.trace[j]))
                 && OriginRaces(x, gate, j, a, r)
  {
    EpochsHold(x, gate, j, a);
    WriterInstHolds(x, gate, j, a);
    var o := LastRecorded(x, gate, j, a, RaceWrite);
    EpochReportExact(x, gate, o, j, a, RaceWrite, MetaAt(x, gate, j, a).writerInst, r);
  }

  // At every processed access, first race or not: a thread is reported for a write exactly when the access
  // is not skipped and the last recorded write is that thread's and unordered with it; for a read exactly
  // when that holds of the last recorded read, or, while reads are shared, of that thread's last one.
  lemma FastTrackExact(x: Run, gate: bool, j: nat, a: Addr, r: Report)
    requires j < |x.trace| && Touches(x.trace[j], a) && Processed(gate, x.trace, j)
    ensures r in ReportsAt(x, gate, j) <==>
            && !SameEpoch(x, LastRecorded(x, gate, j, a, KindOf(x.trace[j])), j)
            && r == Report(a, r.t0, r.i0, r.k0, x.trace[j].tid, x.trace[j].op.inst, KindOf(x.trace[j]))
            && Conflict(r.k0, r.k1) && OriginRaces(x, gate, j, a, r)
  {
    SkipExact(x, gate, j, a);
    WriterReportExact(x, gate, j, a, r);
    if x.trace[j].op.Write? {
      ReaderReportExact(x, gate, j, a, r);
    }
  }

  // No report is made twice.
  lemma ReportedOnce(x: Run, gate: bool, j: nat, i: nat, l: nat)
    requires j < |x.trace| && i < l < |ReportsAt(x, gate, j)|
    ensures ReportsAt(x, gate, j)[i] != ReportsAt(x, gate, j)[l]
  {
    var a := x.trace[j].op.a;
    var m, cur := MetaAt(x, gate, j, a), D.AccessAt(x, j);
    var first, second := EpochReports(a, m.writer, m.writerInst, RaceWrite, cur), ReaderReports(a, m, cur);
    if i < |first| {
      ReaderReportExact(x, gate, j, a, second[l - |first|]);
    } else {
      ScanDistinct(a, m.readerClock, m.readerInst, RaceRead, cur, i - |first|, l - |first|);
    }
  }
}
