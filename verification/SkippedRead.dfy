/** A run on which MultiLock's negated containment test skips the one read that races. */
module SkippedRead {
  import opened Clocks
  import opened Program
  import opened Protocol
  import opened Causality
  import opened Origins
  import opened Accesses
  import opened Epochs
  import opened Locksets
  import D = Djit
  import opened MultiLock
  import opened MultiLockExact
  import opened Hybrid

  // Thread 1 reads cell 7 under mutex 9 and again without it; thread 0 writes the cell under the mutex.
  // The second read is skipped because the first one holds a lock that it does not.
  const STORY: Trace := [
    Event(0, Begin(None)),
    Event(1, Begin(Some(0))),
    Event(1, Lock(9)),
    Event(1, Read(7, 100)),
    Event(1, Unlock(9)),
    Event(1, Read(7, 101)),
    Event(0, Lock(9)),
    Event(0, Write(7, 102))
  ]

  const P2 := START_PROG.(started := {0, 1})
  const P3 := P2.(held := map[9 := 1])

  lemma ProgStory()
    ensures ProgAt(map[], STORY, 1) == START_PROG.(started := {0})
    ensures ProgAt(map[], STORY, 2) == ProgAt(map[], STORY, 5) == ProgAt(map[], STORY, 6) == P2
    ensures ProgAt(map[], STORY, 3) == ProgAt(map[], STORY, 4) == P3
    ensures ProgAt(map[], STORY, 7) == P2.(held := map[9 := 0])
  {
    assert ProgAt(map[], STORY, 2) == P2;
    assert ProgAt(map[], STORY, 4) == P3;
    assert ProgAt(map[], STORY, 6) == P2;
  }

  lemma StoryCanRun()
    ensures CanRun(map[], STORY)
  {
    ProgStory();
    forall j | 0 <= j < |STORY| ensures CanDo(map[], ProgAt(map[], STORY, j), STORY[j]) {
    }
  }

  ghost function Told(mode: Mode): (x: Run)
    ensures x.mode == mode && x.parties == map[] && x.trace == STORY
  {
    StoryCanRun();
    ReplayIsARun(mode, map[], STORY);
    Replay(mode, map[], STORY)
  }

  lemma GateIsOpen()
    ensures Processed(true, STORY, 3) && Processed(true, STORY, 5) && Processed(true, STORY, 7)
  {
    assert Starts(STORY, 3) == 2 && Joins(STORY, 3) == 0;
    assert Starts(STORY, 5) == 2 && Joins(STORY, 5) == 0;
    assert Starts(STORY, 7) == 2 && Joins(STORY, 7) == 0;
  }

  lemma LocksOfAccesses()
    ensures Held(STORY, 3) == Held(STORY, 7) == {9} && Held(STORY, 5) == {}
  {
    assert LocksAt(STORY, 3, 1) == {9};
    assert LocksAt(STORY, 5, 1) == {};
    assert LocksAt(STORY, 7, 0) == {9};
  }

  lemma SecondReadIsUnordered(mode: Mode)
    ensures !HB(mode, STORY, 5, 7)
  {
    assert !HB(mode, STORY, 5, 6);
  }

  // ---------- the second read is skipped ----------

  // Reading and, in MultiLock, unlocking do not tick: both reads are in one epoch.
  lemma NoTick(y: Run, n: nat)
    requires n < |y.trace| && y.mode.MultiLockHB? && (y.trace[n].op.Read? || y.trace[n].op.Unlock?)
    ensures ClockAt(y, n + 1, y.trace[n].tid) == ClockAt(y, n, y.trace[n].tid)
  {
    ClockNext(y, n, y.trace[n].tid);
  }

  lemma FirstReadIsRecorded()
    ensures var y := Told(MultiLockHB);
            ELP(Epoch(1, Get(ClockAt(y, 3, 1), 1)), {9}) in SetOf(HistoriesAt(y, true, 5, 7).readers, 1)
  {
    var y := Told(MultiLockHB);
    GateIsOpen();
    LocksOfAccesses();
    HistoriesNext(y, true, 0, 7);
    HistoriesNext(y, true, 1, 7);
    HistoriesNext(y, true, 2, 7);
    HistoriesNext(y, true, 3, 7);
    HistoriesNext(y, true, 4, 7);
  }

  lemma NotContainedIsRedundant(x: Run, gate: bool, i: nat, a: Addr, e: ELP)
    requires i < |x.trace| && x.trace[i].op.Read?
    requires e in SetOf(HistoriesAt(x, gate, i, a).readers, x.trace[i].tid)
    requires NotContained(e, ClockAt(x, i, x.trace[i].tid), Held(x.trace, i))
    ensures RedundantAt(x, gate, i, a)
  {
  }

  lemma LockMissing(e: ELP, vc: VC)
    requires e.locks == {9} && e.epoch == Epoch(1, Get(vc, 1))
    ensures NotContained(e, vc, {})
  {
    assert 9 in e.locks;
  }

  lemma SecondReadIsSkipped()
    ensures RedundantAt(Told(MultiLockHB), true, 5, 7)
  {
    var y := Told(MultiLockHB);
    NoTick(y, 3);
    NoTick(y, 4);
    FirstReadIsRecorded();
    LocksOfAccesses();
    var e := ELP(Epoch(1, Get(ClockAt(y, 3, 1), 1)), {9});
    LockMissing(e, ClockAt(y, 5, 1));
    NotContainedIsRedundant(y, true, 5, 7, e);
  }

  // ---------- MultiLock reports nothing ----------

  lemma OnlySkippedRaces(y: Run, i: nat, j: nat, k: Kind)
    requires y.trace == STORY && i < j < |STORY| && HybridRace(y, true, i, j, 7, k) && Touches(STORY[j], 7)
    ensures i == 5
  {
    LocksOfAccesses();
    assert j == 7 ==> 9 in Held(STORY, j) && 9 in Held(STORY, 3);
    assert Touches(STORY[i], 7) && (j == 3 || j == 5 || j == 7);
  }

  lemma RacesAreSkipped(i: nat, j: nat, k: Kind)
    requires i < j < |STORY| && Touches(STORY[j], 7)
    ensures var y := Told(MultiLockHB); HybridRace(y, true, i, j, 7, k) ==> RedundantAt(y, true, i, 7)
  {
    SecondReadIsSkipped();
    if HybridRace(Told(MultiLockHB), true, i, j, 7, k) {
      OnlySkippedRaces(Told(MultiLockHB), i, j, k);
    }
  }

  lemma NothingReportedAt(j: nat)
    requires j < |STORY|
    ensures PairsAt(Told(MultiLockHB), true, j) == {}
  {
    if Touches(STORY[j], 7) {
      forall i: nat, k | i < j && HybridRace(Told(MultiLockHB), true, i, j, 7, k)
        ensures RedundantAt(Told(MultiLockHB), true, i, 7)
      {
        RacesAreSkipped(i, j, k);
      }
      NoRaceNoReport(Told(MultiLockHB), true, j, 7);
    }
  }

  // ---------- Djit reports the pair ----------

  lemma DjitReportsIt()
    ensures Report(7, 1, 101, RaceRead, 0, 102, RaceWrite) in D.ReportsAt(Told(FullHB), true, 7)
  {
    var x := Told(FullHB);
    GateIsOpen();
    SecondReadIsUnordered(FullHB);
    assert NoFree(STORY, 5, 7, 7);
    assert D.Races(x, true, 5, 7, 1, 7, RaceRead);
    D.ReportedInstruction(x, true, 7, 1, 7, RaceRead);
    D.DjitExact(x, true, 7, 7, Report(7, 1, 101, RaceRead, 0, 102, RaceWrite));
  }

  // The second read and the write are unordered and share no lock, and Djit reports them; MultiLock
  // skips the read and reports nothing anywhere in the run.
  lemma NegatedTestLosesARace()
    ensures HybridRace(Told(MultiLockHB), true, 5, 7, 7, RaceRead)
    ensures RedundantAt(Told(MultiLockHB), true, 5, 7)
    ensures Report(7, 1, 101, RaceRead, 0, 102, RaceWrite) in D.ReportsAt(Told(FullHB), true, 7)
    ensures forall j | 0 <= j < |STORY| :: PairsAt(Told(MultiLockHB), true, j) == {}
  {
    GateIsOpen();
    LocksOfAccesses();
    SecondReadIsUnordered(MultiLockHB);
    SecondReadIsSkipped();
    DjitReportsIt();
    forall j | 0 <= j < |STORY| ensures PairsAt(Told(MultiLockHB), true, j) == {} {
      NothingReportedAt(j);
    }
  }
}
