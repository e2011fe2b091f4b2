/** A run on which AccuLock's single writer entry is overwritten before the access it races with. */
module OverwrittenEntry {
  import opened Clocks
  import opened Program
  import opened Protocol
  import opened Causality
  import opened ClockTheorem
  import opened Accesses
  import D = Djit
  import opened Locksets
  import opened AccuLock
  import M = MultiLock
  import opened Hybrid

  // Three threads write cell 7, the first under mutex 8, the second under both, the third under mutex 9.
  const STORY: Trace := [
    Event(0, Begin(None)),
    Event(1, Begin(Some(0))),
    Event(2, Begin(Some(0))),
    Event(1, Lock(8)),
    Event(1, Write(7, 100)),
    Event(1, Unlock(8)),
    Event(2, Lock(8)),
    Event(2, Lock(9)),
    Event(2, Write(7, 101)),
    Event(2, Unlock(9)),
    Event(2, Unlock(8)),
    Event(0, Lock(9)),
    Event(0, Write(7, 102))
  ]

  const P2 := START_PROG.(started := {0, 1})
  const P3 := START_PROG.(started := {0, 1, 2})

  lemma ProgStory()
    ensures ProgAt(map[], STORY, 1) == START_PROG.(started := {0})
    ensures ProgAt(map[], STORY, 2) == P2
    ensures ProgAt(map[], STORY, 3) == ProgAt(map[], STORY, 6) == ProgAt(map[], STORY, 11) == P3
    ensures ProgAt(map[], STORY, 4) == ProgAt(map[], STORY, 5) == P3.(held := map[8 := 1])
    ensures ProgAt(map[], STORY, 7) == ProgAt(map[], STORY, 10) == P3.(held := map[8 := 2])
    ensures ProgAt(map[], STORY, 8) == ProgAt(map[], STORY, 9) == P3.(held := map[8 := 2, 9 := 2])
    ensures ProgAt(map[], STORY, 12) == P3.(held := map[9 := 0])
  {
    assert ProgAt(map[], STORY, 2) == P2;
    assert ProgAt(map[], STORY, 3) == P3;
    assert ProgAt(map[], STORY, 6) == P3;
    assert ProgAt(map[], STORY, 7) == P3.(held := map[8 := 2]);
    assert ProgAt(map[], STORY, 9) == P3.(held := map[8 := 2, 9 := 2]);
    assert ProgAt(map[], STORY, 10) == P3.(held := map[8 := 2]);
    assert ProgAt(map[], STORY, 11) == P3;
  }

  lemma FirstHalfCanRun(j: nat)
    requires j < 7
    ensures CanDo(map[], ProgAt(map[], STORY, j), STORY[j])
  {
    ProgStory();
  }

  lemma SecondHalfCanRun(j: nat)
    requires 7 <= j < |STORY|
    ensures CanDo(map[], ProgAt(map[], STORY, j), STORY[j])
  {
    ProgStory();
  }

  lemma StoryCanRun()
    ensures CanRun(map[], STORY)
  {
    forall j | 0 <= j < |STORY| ensures CanDo(map[], ProgAt(map[], STORY, j), STORY[j]) {
      if j < 7 {
        FirstHalfCanRun(j);
      } else {
        SecondHalfCanRun(j);
      }
    }
  }

  ghost function Told(mode: Mode): (x: Run)
    ensures x.mode == mode && x.parties == map[] && x.trace == STORY
  {
    StoryCanRun();
    ReplayIsARun(mode, map[], STORY);
    Replay(mode, map[], STORY)
  }

  lemma GateIsOpen()
    ensures Processed(true, STORY, 4) && Processed(true, STORY, 8) && Processed(true, STORY, 12)
  {
    assert Starts(STORY, 4) == 3 && Joins(STORY, 4) == 0;
    assert Starts(STORY, 8) == 3 && Joins(STORY, 8) == 0;
    assert Starts(STORY, 12) == 3 && Joins(STORY, 12) == 0;
  }

  lemma LocksOfWrites()
    ensures Held(STORY, 4) == {8} && Held(STORY, 8) == {8, 9} && Held(STORY, 12) == {9}
  {
    assert LocksAt(STORY, 4, 1) == {8};
    assert LocksAt(STORY, 8, 2) == {8, 9};
    assert LocksAt(STORY, 12, 0) == {9};
  }

  // Once all threads run, nothing but their own program order relates them.
  lemma {:induction false} OnlyProgramOrder(mode: Mode, i: nat, j: nat)
    requires !mode.FullHB? && 3 <= i < j < |STORY| && HB(mode, STORY, i, j)
    ensures STORY[i].tid == STORY[j].tid
    decreases j
  {
    if !Edge(mode, STORY, i, j) {
      var p :| i < p < j && HB(mode, STORY, i, p) && Edge(mode, STORY, p, j);
      OnlyProgramOrder(mode, i, p);
    }
  }

  // ---------- the entry is overwritten ----------

  lemma AccessesOfStory(i: nat, u: Tid, a: Addr, k: Kind)
    requires i < |STORY| && IsAccess(STORY[i], u, a, k)
    ensures k.RaceWrite? && a == 7 && (i == 4 || i == 8 || i == 12)
  {
  }

  // An entry that equals the clock of a later access would be ordered before it.
  lemma EqualIsOrdered(x: Run, i: nat, j: nat)
    requires i < j < |x.trace| && (x.trace[j].op.Read? || x.trace[j].op.Write?)
    requires Get(Stamp(x, i), x.trace[i].tid) == Get(ClockAt(x, j, x.trace[j].tid), x.trace[i].tid)
    ensures HB(x.mode, x.trace, i, j)
  {
    ClocksAreHappensBefore(x, i, j);
  }

  // A write is skipped only on the epoch of an earlier recorded write that is ordered before it.
  lemma SkippedWriteIsOrdered(x: Run, j: nat, a: Addr) returns (o: nat)
    requires j < |x.trace| && x.trace[j].op.Write? && Skipped(x, true, j, a)
    ensures o < j && IsAccess(x.trace[o], x.trace[o].tid, a, RaceWrite) && HB(x.mode, x.trace, o, j)
  {
    WriterHolds(x, true, j, a);
    o := LastWrite(x, true, j, a);
    EqualIsOrdered(x, o, j);
  }

  lemma OtherWritesDoNotSkip(x: Run, j: nat)
    requires x.trace == STORY && !x.mode.FullHB? && 4 <= j < 12 && STORY[j].op == Write(7, 101)
    ensures !Skipped(x, true, j, 7)
  {
    if Skipped(x, true, j, 7) {
      var o := SkippedWriteIsOrdered(x, j, 7);
      AccessesOfStory(o, STORY[o].tid, 7, RaceWrite);
      OnlyProgramOrder(x.mode, o, j);
    }
  }

  lemma SecondWriteIsNotSkipped()
    ensures !Skipped(Told(AccuLockHB), true, 8, 7)
  {
    OtherWritesDoNotSkip(Told(AccuLockHB), 8);
  }

  lemma NoWriteNoChange(x: Run, n: nat, a: Addr)
    requires n < |x.trace| && !x.trace[n].op.Write? && !x.trace[n].op.Free?
    ensures LastWrite(x, true, n + 1, a) == LastWrite(x, true, n, a)
  {
  }

  lemma SecondWriteIsRecorded()
    ensures LastWrite(Told(AccuLockHB), true, 12, 7) == 8
  {
    var x := Told(AccuLockHB);
    GateIsOpen();
    SecondWriteIsNotSkipped();
    assert LastWrite(x, true, 9, 7) == 8;
    NoWriteNoChange(x, 9, 7);
    NoWriteNoChange(x, 10, 7);
    NoWriteNoChange(x, 11, 7);
  }

  // ---------- AccuLock compares neighbours only ----------

  // Neighbouring writes share a lock.
  lemma NeighboursShareALock(x: Run, o: nat, j: nat, k: Kind)
    requires x.trace == STORY && ((o == 4 && j == 8) || (o == 8 && j == 12))
    ensures !HybridRace(x, true, o, j, 7, k)
  {
    LocksOfWrites();
    assert 8 in Held(STORY, 4) && 8 in Held(STORY, 8);
    assert 9 in Held(STORY, 8) && 9 in Held(STORY, 12);
  }

  lemma NoOriginRaces(j: nat, a: Addr, r: Report)
    requires j < |STORY| && Touches(STORY[j], a)
    ensures !OriginRaces(Told(AccuLockHB), true, j, a, r)
  {
    var x := Told(AccuLockHB);
    AccessesOfStory(j, STORY[j].tid, a, KindOf(STORY[j]));
    var o := Origin(x, true, j, a, r.t0, r.k0);
    if o >= 0 {
      AccessesOfStory(o, STORY[o].tid, a, r.k0);
      SecondWriteIsRecorded();
      NeighboursShareALock(x, o, j, r.k0);
    }
  }

  lemma NothingReportedAt(j: nat)
    requires j < |STORY|
    ensures ReportsAt(Told(AccuLockHB), true, j) == {}
  {
    var x := Told(AccuLockHB);
    if r :| r in ReportsAt(x, true, j) {
      NoOriginRaces(j, STORY[j].op.a, r);
      AccuLockExact(x, true, j, STORY[j].op.a, r);
    }
  }

  // The first and the third write are unordered and share no lock.  MultiLock has reported them by the
  // third one; AccuLock has overwritten the first entry and reports nothing anywhere in the run.
  lemma AccuLockMissesARace() returns (l: nat)
    ensures HybridRace(Told(AccuLockHB), true, 4, 12, 7, RaceWrite)
    ensures l <= 12 && M.WWReportedAt(Told(MultiLockHB), true, l, 7, 1, 0)
    ensures forall j | 0 <= j < |STORY| :: ReportsAt(Told(AccuLockHB), true, j) == {}
  {
    GateIsOpen();
    LocksOfWrites();
    forall mode | mode == AccuLockHB || mode == MultiLockHB ensures !HB(mode, STORY, 4, 12) {
      if HB(mode, STORY, 4, 12) {
        OnlyProgramOrder(mode, 4, 12);
      }
    }
    assert NoFree(STORY, 4, 12, 7);
    l := M.WriteWriteComplete(Told(MultiLockHB), true, 4, 12, 7);
    forall j | 0 <= j < |STORY| ensures ReportsAt(Told(AccuLockHB), true, j) == {} {
      NothingReportedAt(j);
    }
  }
}
