/** A run that leaves nested reader entries in one epoch, which MultiLock's pruning is meant to prevent. */
module NestedReaders {
  import opened Program
  import opened Protocol
  import opened Origins
  import opened Accesses
  import opened Locksets
  import opened MultiLock
  import opened MultiLockEntries
  import opened Hybrid

  // Thread 1 reads cell 7 without a lock and then, in the same epoch, under mutex 9.
  const STORY: Trace := [
    Event(0, Begin(None)),
    Event(1, Begin(Some(0))),
    Event(1, Read(7, 100)),
    Event(1, Lock(9)),
    Event(1, Read(7, 101))
  ]

  const P2 := START_PROG.(started := {0, 1})

  lemma StoryCanRun()
    ensures CanRun(map[], STORY)
  {
    assert ProgAt(map[], STORY, 1) == START_PROG.(started := {0});
    assert ProgAt(map[], STORY, 2) == P2;
    assert ProgAt(map[], STORY, 3) == P2;
    assert ProgAt(map[], STORY, 4) == P2.(held := map[9 := 1]);
    forall j | 0 <= j < |STORY| ensures CanDo(map[], ProgAt(map[], STORY, j), STORY[j]) {
    }
  }

  ghost function Told(): (x: Run)
    ensures x.mode == MultiLockHB && x.parties == map[] && x.trace == STORY
  {
    StoryCanRun();
    ReplayIsARun(MultiLockHB, map[], STORY);
    Replay(MultiLockHB, map[], STORY)
  }

  lemma GateIsOpen()
    ensures Processed(true, STORY, 2) && Processed(true, STORY, 4)
  {
    assert Starts(STORY, 2) == 2 && Joins(STORY, 2) == 0;
    assert Starts(STORY, 4) == 2 && Joins(STORY, 4) == 0;
  }

  lemma LocksOfReads()
    ensures Held(STORY, 2) == {} && Held(STORY, 4) == {9}
  {
    assert LocksAt(STORY, 2, 1) == {};
    assert LocksAt(STORY, 4, 1) == {9};
  }

  lemma NothingErased(e: nat, o: nat)
    requires o == 2 && o < e < |STORY|
    ensures !Erases(Told(), true, e, o, 7)
  {
    LocksOfReads();
    assert 9 in Held(STORY, 4);
  }

  lemma OnlyEarlierRead(x: Run, o: nat, i: nat)
    requires x.trace == STORY && (i == 2 || i == 4) && o < i && Touches(STORY[o], 7)
    ensures o == 2 && i == 4
  {
  }

  lemma NothingRedundant(x: Run, i: nat)
    requires x.trace == STORY && (i == 2 || i == 4)
    ensures !Redundant(x, true, i, 7)
  {
    LocksOfReads();
    forall o: nat | o < i && Standing(x, true, o, i, 7) ensures Held(x.trace, o) <= Held(x.trace, i) {
      OnlyEarlierRead(x, o, i);
    }
  }

  lemma BothStand(n: nat)
    requires n == |STORY|
    ensures Standing(Told(), true, 2, n, 7) && Standing(Told(), true, 4, n, 7)
  {
    GateIsOpen();
    NothingRedundant(Told(), 2);
    NothingRedundant(Told(), 4);
    forall e | 2 < e < n ensures !Erases(Told(), true, e, 2, 7) {
      NothingErased(e, 2);
    }
  }

  // Neither reading nor locking ticks.
  lemma NoTick(x: Run, n: nat)
    requires n < |x.trace| && x.mode.MultiLockHB? && (x.trace[n].op.Read? || x.trace[n].op.Lock?)
    ensures ClockAt(x, n + 1, x.trace[n].tid) == ClockAt(x, n, x.trace[n].tid)
  {
    ClockNext(x, n, x.trace[n].tid);
  }

  lemma SameClock(x: Run)
    requires x.trace == STORY && x.mode.MultiLockHB?
    ensures EntryAt(x, 2).epoch == EntryAt(x, 4).epoch
  {
    NoTick(x, 2);
    NoTick(x, 3);
  }

  // Both reads keep their entries: the locksets {} and {9} are nested.
  lemma ReadersNest()
    ensures var s := Entries(HistoriesAt(Told(), true, 5, 7), 1, RaceRead);
            var e, e' := EntryAt(Told(), 2), EntryAt(Told(), 4);
            e in s && e' in s && e.epoch == e'.epoch && e.locks == {} && e'.locks == {9}
  {
    var x := Told();
    BothStand(5);
    SameClock(x);
    LocksOfReads();
    assert StandsAs(x, true, 2, 5, 7, 1, RaceRead, EntryAt(x, 2));
    assert StandsAs(x, true, 4, 5, 7, 1, RaceRead, EntryAt(x, 4));
    EntriesExact(x, true, 5, 7, 1, RaceRead, EntryAt(x, 2));
    EntriesExact(x, true, 5, 7, 1, RaceRead, EntryAt(x, 4));
  }
}
