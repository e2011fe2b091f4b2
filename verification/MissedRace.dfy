/** A run on which the same-epoch test, blind to thread ids, makes FastTrack miss a race for good. */
module MissedRace {
  import opened Clocks
  import opened Program
  import opened Protocol
  import opened Causality
  import opened Accesses
  import D = Djit
  import opened Epochs
  import opened FastTrack
  import opened FirstRace

  // Thread 1 reads cell 7 and is joined by thread 0.  Thread 0 starts thread 2, then reads the cell
  // in a clock that equals the joined reader's epoch.  Thread 2 writes the cell.
  const STORY: Trace := [
    Event(0, Begin(None)),
    Event(1, Begin(Some(0))),
    Event(1, Read(7, 100)),
    Event(0, JoinThread(1)),
    Event(2, Begin(Some(0))),
    Event(0, Read(7, 101)),
    Event(2, Write(7, 102))
  ]

  const P1 := START_PROG.(started := {0})
  const P2 := START_PROG.(started := {0, 1})
  const P3 := P2.(joined := {1})
  const P4 := P3.(started := {0, 1, 2})

  const S1 := START_SYNC.(clocks := map[0 := map[0 := 1]])
  const S2 := START_SYNC.(clocks := map[0 := map[0 := 2], 1 := map[0 := 1, 1 := 1]])
  const S3 := START_SYNC.(clocks := map[0 := map[0 := 2, 1 := 1], 1 := map[0 := 1, 1 := 1]])
  const S4 := START_SYNC.(clocks := map[
                0 := map[0 := 3, 1 := 1], 1 := map[0 := 1, 1 := 1], 2 := map[0 := 2, 1 := 1, 2 := 1]])

  const TOLD := Exec(FullHB, map[], STORY,
                     [START_PROG, P1, P2, P2, P3, P4, P4, P4],
                     [START_SYNC, S1, S2, S2, S3, S4, S4, S4])

  lemma ProgStep(j: nat)
    requires j < 7
    ensures TOLD.progs[j + 1] == Do(map[], TOLD.progs[j], STORY[j])
  {
  }

  lemma ProgSteps()
    ensures forall j | 0 <= j < 7 :: CanDo(map[], TOLD.progs[j], STORY[j])
    ensures forall j | 0 <= j < 7 :: TOLD.progs[j + 1] == Do(map[], TOLD.progs[j], STORY[j])
  {
    forall j | 0 <= j < 7 ensures CanDo(map[], TOLD.progs[j], STORY[j]) {
    }
    forall j | 0 <= j < 7 ensures TOLD.progs[j + 1] == Do(map[], TOLD.progs[j], STORY[j]) {
      ProgStep(j);
    }
  }

  lemma FirstFork()
    ensures Step(FullHB, S1, STORY[1]) == S2
  {
    assert Join(map[1 := 1], map[0 := 1]) == map[0 := 1, 1 := 1];
    assert Inc(map[0 := 1], 0) == map[0 := 2];
  }

  lemma SecondFork()
    ensures Step(FullHB, S3, STORY[4]) == S4
  {
    assert Join(map[2 := 1], map[0 := 2, 1 := 1]) == map[0 := 2, 1 := 1, 2 := 1];
    assert Inc(map[0 := 2, 1 := 1], 0) == map[0 := 3, 1 := 1];
  }

  lemma JoinStep()
    ensures Step(FullHB, S2, STORY[3]) == S3
  {
    assert Join(map[0 := 2], map[0 := 1, 1 := 1]) == map[0 := 2, 1 := 1];
  }

  lemma FirstStep()
    ensures Step(FullHB, START_SYNC, STORY[0]) == S1
  {
  }

  lemma FirstReadStep()
    ensures Step(FullHB, S2, STORY[2]) == S2
  {
  }

  lemma LastSteps(j: nat)
    requires j == 5 || j == 6
    ensures Step(FullHB, S4, STORY[j]) == S4
  {
  }

  lemma SyncStep(j: nat)
    requires j < 7
    ensures TOLD.syncs[j + 1] == Step(FullHB, TOLD.syncs[j], STORY[j])
  {
    if j == 0 {
      FirstStep();
    } else if j == 1 {
      FirstFork();
    } else if j == 4 {
      SecondFork();
    } else if j == 2 {
      FirstReadStep();
    } else if j == 3 {
      JoinStep();
    } else {
      LastSteps(j);
    }
  }

  lemma ToldIsARun()
    ensures Legal(TOLD)
  {
    forall j | 0 <= j < 7 ensures Taken(TOLD, j) {
      ProgSteps();
      SyncStep(j);
    }
  }

  // ---------- Djit reports the write ----------

  lemma GateIsOpen()
    ensures Processed(true, STORY, 2) && Processed(true, STORY, 5) && Processed(true, STORY, 6)
  {
    assert Starts(STORY, 2) == 2 && Joins(STORY, 2) == 0;
    assert Starts(STORY, 5) == 3 && Joins(STORY, 5) == 1;
    assert Starts(STORY, 6) == 3 && Joins(STORY, 6) == 1;
  }

  lemma DjitReportsIt()
    ensures Legal(TOLD) && D.ReportsOn(TOLD, true, 6, 7)
  {
    ToldIsARun();
    GateIsOpen();
    assert Together(TOLD, true, 5, 6, 6, 7);
    assert !HB(FullHB, STORY, 5, 6);
    DjitReportsRace(TOLD, true, 5, 6, 7);
  }

  // ---------- FastTrack reports nothing ----------

  const CELL_AFTER_READ := FRESH_META.(
                           reader := Epoch(1, 1), readerClock := map[1 := 1], readerInst := map[1 := 100])

  lemma CellStory()
    ensures Legal(TOLD)
    ensures MetaAt(TOLD, true, 2, 7) == FRESH_META
    ensures MetaAt(TOLD, true, 3, 7) == CELL_AFTER_READ
    ensures MetaAt(TOLD, true, 5, 7) == CELL_AFTER_READ
    ensures MetaAt(TOLD, true, 6, 7) == CELL_AFTER_READ
    ensures Skipped(TOLD, true, 5, 7)
  {
    ToldIsARun();
    GateIsOpen();
    MetaNext(TOLD, true, 0, 7);
    MetaNext(TOLD, true, 1, 7);
    MetaNext(TOLD, true, 2, 7);
    MetaNext(TOLD, true, 3, 7);
    MetaNext(TOLD, true, 4, 7);
    MetaNext(TOLD, true, 5, 7);
  }

  lemma NoAccessNoReport(x: Run, gate: bool, j: nat)
    requires j < |x.trace| && !x.trace[j].op.Read? && !x.trace[j].op.Write?
    ensures ReportsAt(x, gate, j) == []
  {
  }

  lemma SilentAccess(j: nat)
    requires j == 2 || j == 5 || j == 6
    ensures Legal(TOLD) && ReportsAt(TOLD, true, j) == []
  {
    CellStory();
    assert Touches(STORY[j], 7);
    if j == 6 {
      assert TOLD.syncs[6] == S4;
    }
  }

  lemma NothingReportedAt(j: nat)
    requires j < |STORY|
    ensures Legal(TOLD)
    ensures ReportsAt(TOLD, true, j) == []
  {
    ToldIsARun();
    if j == 2 || j == 5 || j == 6 {
      SilentAccess(j);
    } else {
      NoAccessNoReport(TOLD, true, j);
    }
  }

  // Djit reports the race between the second read and the write; FastTrack has skipped that read
  // and reports nothing anywhere in the run.
  lemma FastTrackMissesARace()
    ensures Legal(TOLD)
    ensures D.ReportsOn(TOLD, true, 6, 7)
    ensures forall j | 0 <= j < |STORY| :: ReportsAt(TOLD, true, j) == []
    ensures Skipped(TOLD, true, 5, 7) && !OwnSkip(TOLD, true, 5, 7)
  {
    DjitReportsIt();
    CellStory();
    forall j | 0 <= j < |STORY| ensures ReportsAt(TOLD, true, j) == [] {
      NothingReportedAt(j);
    }
  }
}
