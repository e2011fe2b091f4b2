/** A run on which a mutex is freed and its address reused: Djit reports a race that locksets hide. */
module RecycledLock {
  import opened Program
  import opened Protocol
  import opened Causality
  import opened Accesses
  import D = Djit
  import opened MultiLock
  import opened MultiLockExact
  import opened Locksets
  import opened Hybrid

  // Thread 1 writes cell 7 under mutex 9; thread 0 frees the mutex, locks a new one at the same
  // address and writes the cell.
  const STORY: Trace := [
    Event(0, Begin(None)),
    Event(1, Begin(Some(0))),
    Event(1, Lock(9)),
    Event(1, Write(7, 100)),
    Event(1, Unlock(9)),
    Event(0, Free({9})),
    Event(0, Lock(9)),
    Event(0, Write(7, 101))
  ]

  const P2 := START_PROG.(started := {0, 1})
  const P3 := P2.(held := map[9 := 1])

  lemma ProgStory()
    ensures ProgAt(map[], STORY, 1) == START_PROG.(started := {0})
    ensures ProgAt(map[], STORY, 2) == ProgAt(map[], STORY, 5) == ProgAt(map[], STORY, 6) == P2
    ensures ProgAt(map[], STORY, 3) == ProgAt(map[], STORY, 4) == P3
    ensures ProgAt(map[], STORY, 7) == P2.(held := map[9 := 0])
  {
    assert ProgAt(map[], STORY, 2) == P2;
    assert ProgAt(map[], STORY, 4) == P3;
    assert ProgAt(map[], STORY, 6) == P2;
  }

  lemma StoryCanRun()
    ensures CanRun(map[], STORY)
  {
    ProgStory();
    forall j | 0 <= j < |STORY| ensures CanDo(map[], ProgAt(map[], STORY, j), STORY[j]) {
    }
  }

  ghost function Told(mode: Mode): (x: Run)
    ensures x.mode == mode && x.parties == map[] && x.trace == STORY
  {
    StoryCanRun();
    ReplayIsARun(mode, map[], STORY);
    Replay(mode, map[], STORY)
  }

  lemma WritesAreUnordered()
    ensures !HB(FullHB, STORY, 3, 7)
  {
    assert !HB(FullHB, STORY, 3, 5);
    assert FreedAt(STORY, 5, 9);
    assert !Edge(FullHB, STORY, 4, 6);
    assert !HB(FullHB, STORY, 3, 6);
  }

  lemma LocksCollide()
    ensures Recycled(STORY, 3, 7, 9)
  {
    assert LocksAt(STORY, 3, 1) == {9};
    assert LocksAt(STORY, 7, 0) == {9};
    assert FreedAt(STORY, 5, 9);
  }

  lemma GateIsOpen()
    ensures Processed(true, STORY, 3) && Processed(true, STORY, 7)
  {
    assert Starts(STORY, 3) == 2 && Joins(STORY, 3) == 0;
    assert Starts(STORY, 7) == 2 && Joins(STORY, 7) == 0;
  }

  lemma NoHybridRace(y: Run, i: nat, j: nat, k: Kind)
    requires y.trace == STORY && i < j < |STORY| && Touches(STORY[j], 7)
    ensures !HybridRace(y, true, i, j, 7, k)
  {
    LocksCollide();
    if i == 3 {
      assert j == 7;
    } else {
      assert i < 7 && !Touches(STORY[i], 7);
    }
  }

  lemma NothingReportedAt(j: nat)
    requires j < |STORY|
    ensures PairsAt(Told(MultiLockHB), true, j) == {}
  {
    var y := Told(MultiLockHB);
    if Touches(STORY[j], 7) {
      forall i, k | 0 <= i < j ensures !HybridRace(y, true, i, j, 7, k) {
        NoHybridRace(y, i, j, k);
      }
      NoRaceNoReport(y, true, j, 7);
    }
  }

  lemma WritesRace()
    ensures D.Races(Told(FullHB), true, 3, 7, 1, 7, RaceWrite)
    ensures LastSeen(true, STORY, 7, 1, 7, RaceWrite) == 3
  {
    GateIsOpen();
    WritesAreUnordered();
    assert NoFree(STORY, 3, 7, 7);
  }

  lemma DjitReportsIt()
    ensures Report(7, 1, 100, RaceWrite, 0, 101, RaceWrite) in D.ReportsAt(Told(FullHB), true, 7)
  {
    var x := Told(FullHB);
    GateIsOpen();
    WritesRace();
    D.ReportedInstruction(x, true, 7, 1, 7, RaceWrite);
    D.DjitExact(x, true, 7, 7, Report(7, 1, 100, RaceWrite, 0, 101, RaceWrite));
  }

  // Djit reports the two writes; MultiLock compares them and finds the reused address in both locksets.
  lemma MultiLockMissesARace()
    ensures Report(7, 1, 100, RaceWrite, 0, 101, RaceWrite) in D.ReportsAt(Told(FullHB), true, 7)
    ensures forall j | 0 <= j < |STORY| :: PairsAt(Told(MultiLockHB), true, j) == {}
    ensures Recycled(STORY, 3, 7, 9)
  {
    DjitReportsIt();
    LocksCollide();
    forall j | 0 <= j < |STORY| ensures PairsAt(Told(MultiLockHB), true, j) == {} {
      NothingReportedAt(j);
    }
  }
}
