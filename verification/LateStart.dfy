/** A run on which a thread's start callback comes after its parent was joined, and the gate hides a race. */
module LateStart {
  import opened Clocks
  import opened Program
  import opened Protocol
  import opened Causality
  import opened Accesses
  import opened Djit
  import opened Gate
  import opened Hybrid

  // Thread 1 creates thread 2, returns and is joined by thread 0 before thread 2's start callback.
  // Thread 0 writes cell 7 while it is the only live thread that is counted; then thread 2 writes it.
  const STORY: Trace := [
    Event(0, Begin(None)),
    Event(1, Begin(Some(0))),
    Event(0, JoinThread(1)),
    Event(0, Write(7, 100)),
    Event(2, Begin(Some(1))),
    Event(2, Write(7, 101))
  ]

  const P3 := START_PROG.(started := {0, 1}, joined := {1})

  lemma ProgStory()
    ensures ProgAt(map[], STORY, 1) == START_PROG.(started := {0})
    ensures ProgAt(map[], STORY, 2) == START_PROG.(started := {0, 1})
    ensures ProgAt(map[], STORY, 3) == ProgAt(map[], STORY, 4) == P3
    ensures ProgAt(map[], STORY, 5) == P3.(started := {0, 1, 2})
  {
    assert ProgAt(map[], STORY, 2) == START_PROG.(started := {0, 1});
    assert ProgAt(map[], STORY, 4) == P3;
  }

  lemma StoryCanRun()
    ensures CanRun(map[], STORY)
  {
    ProgStory();
    forall j | 0 <= j < |STORY| ensures CanDo(map[], ProgAt(map[], STORY, j), STORY[j]) {
    }
  }

  ghost function Told(mode: Mode): (x: Run)
    ensures x.mode == mode && x.parties == map[] && x.trace == STORY
  {
    StoryCanRun();
    ReplayIsARun(mode, map[], STORY);
    Replay(mode, map[], STORY)
  }

  lemma GateCloses()
    ensures !Processed(true, STORY, 3) && Processed(true, STORY, 5)
  {
    assert Starts(STORY, 3) == 2 && Joins(STORY, 3) == 1;
    assert Starts(STORY, 5) == 3 && Joins(STORY, 5) == 1;
  }

  lemma WritesAreUnordered(mode: Mode)
    ensures !HB(mode, STORY, 3, 5)
  {
    assert !Edge(mode, STORY, 3, 4);
    assert !HB(mode, STORY, 3, 4);
  }

  lemma UngatedReportsIt(mode: Mode)
    ensures Report(7, 0, 100, RaceWrite, 2, 101, RaceWrite) in ReportsAt(Told(mode), false, 5)
  {
    var x := Told(mode);
    WritesAreUnordered(mode);
    assert NoFree(STORY, 3, 5, 7);
    assert Races(x, false, 3, 5, 0, 7, RaceWrite);
    ReportedInstruction(x, false, 5, 0, 7, RaceWrite);
    DjitExact(x, false, 5, 7, Report(7, 0, 100, RaceWrite, 2, 101, RaceWrite));
  }

  lemma NoProcessedAccessBefore(i: nat, j: nat, u: Tid, a: Addr, k: Kind)
    requires i < j < |STORY|
    ensures !SeenAccess(true, STORY, i, u, a, k)
  {
    GateCloses();
  }

  lemma GatedReportsNothing(mode: Mode, j: nat)
    requires j < |STORY|
    ensures ReportsAt(Told(mode), true, j) == []
  {
    var x := Told(mode);
    if ReportsAt(x, true, j) != [] {
      var r := ReportsAt(x, true, j)[0];
      DjitExact(x, true, j, STORY[j].op.a, r);
      var i :| 0 <= i < j && Races(x, true, i, j, r.t0, r.addr, r.k0);
      NoProcessedAccessBefore(i, j, r.t0, r.addr, r.k0);
    }
  }

  // The write of thread 0 is skipped, and thread 2 is an orphan: without the gate Djit reports the two
  // writes, with the gate it reports nothing anywhere in the run.
  lemma GateHidesARace(mode: Mode)
    ensures Orphan(Told(mode), 3, 4) && !Processed(true, STORY, 3)
    ensures Report(7, 0, 100, RaceWrite, 2, 101, RaceWrite) in ReportsAt(Told(mode), false, 5)
    ensures forall j | 0 <= j < |STORY| :: ReportsAt(Told(mode), true, j) == []
  {
    var x := Told(mode);
    GateCloses();
    UngatedReportsIt(mode);
    forall j | 0 <= j < |STORY| ensures ReportsAt(x, true, j) == [] {
      GatedReportsNothing(mode, j);
    }
    MembersNext(x, 2);
  }
}
