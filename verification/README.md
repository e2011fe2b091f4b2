# Happens-before race detection: a verified model

This project models the race detectors of the repository and the clock protocol they share, together
with the predictive and bookkeeping analyses that sit on the same clocks, and proves what they promise
over every run.

An analysis callback runs under the analyzer's internal lock, so each one is an atomic step. A run is a
legal sequence of callbacks (`Protocol.Run`): the program state decides which callbacks can happen, the
detector state follows by one pure step per callback. Happens-before (`Causality.HB`) is defined on the
trace alone, without any clock, so the theorems compare two independent things: what the detectors
compute and what the order of the events is. Objects that the source updates in place are classes whose
methods are proved to compute the pure step functions; the theorems are about those functions.

| layer | modules |
|---|---|
| clocks and sets | `Clocks`, `Epochs`, `Locksets` |
| programs, protocol, happens-before | `Program`, `Protocol`, `MonitoringUnits`, `DetectorState`, `Causality`, `Reachable`, `MetaTables` |
| clock theorem | `Origins`, `Barriers`, `ClockTheorem`, `Ticks` |
| detectors | `Accesses`, `Djit`, `Gate`, `LateStart`, `FastTrack`, `FirstRace`, `FastTrackMarks`, `FastTrackExact`, `MissedRace`, `MultiLock`, `MultiLockExact`, `MultiLockEntries`, `NestedReaders`, `SkippedRead`, `AccuLock`, `OverwrittenEntry`, `Hybrid`, `RecycledLock`, `RacyInstructions` |
| predictors | `ClockHistories`, `FlaggedLocks`, `CriticalSections`, `Summaries`, `ClockMerge`, `Predecessors`, `PairUpdate`, `AccessHistory`, `FedAccesses`, `Predictor`, `PredictedPairs`, `TimelineDependencies`, `Compression` |
| bookkeeping | `Sharing`, `RaceStore` |

Main results:

- The clocks characterise happens-before on every run, for the lock-joining protocol and for the two
  hybrid ones (`ClockTheorem.ClocksAreHappensBefore`). A thread's own component counts exactly the events
  that tick it (`Ticks.OwnClockCounts`). The barrier rounds never mix (`Barriers.DepartureJoinsItsRound`).
- Djit reports a thread exactly when it has an unordered conflicting access (`Djit.DjitExact`).
- Detector1's live-thread gate can hide a race: a creator may finish and be joined before the start
  callback of the thread it created, and `LateStart.GateHidesARace` is such a run. It is the only way. An
  access skipped by the gate is ordered before everything other threads do later if and only if no
  thread starts later whose parent had been joined before the access (`Gate.OrderedIffNoOrphan`), and the
  gate hides only races with such accesses (`Gate.HiddenRace`, `Gate.GateIsLossless`).
- FastTrack reports only what Djit reports (`FirstRace.FastTrackRefinesDjit`). It reports its first race
  on a cell at the same access as Djit if and only if some race at Djit's first report is between two
  accesses that were not skipped on the epoch of another thread (`FirstRace.FirstRaceExact`). The
  same-epoch test does not compare thread ids, so such skips happen:
  `MissedRace.FastTrackMissesARace` is a seven-event run on which FastTrack stays silent. Beyond the first
  race, which accesses it skips and what it reports at each access is exact on the events alone
  (`FastTrackExact.SkipExact`, `FastTrackExact.FastTrackExact`).
- MultiLock reports only unordered accesses without a common lock, and misses no such pair of writes
  (`MultiLock.WriteWriteComplete`). On the read side it loses exactly what its redundancy test skips
  (`MultiLockExact.AtWriteExact`, `MultiLockExact.AfterWriteExact`, `MultiLockExact.KeptPairsComplete`);
  the test is negated, and `SkippedRead.NegatedTestLosesARace` is a run where it skips the one read that
  races.
- The entries MultiLock keeps, the accesses it calls redundant and all its reports are exact on the events
  alone (`MultiLockEntries.EntriesExact`, `MultiLockEntries.RedundantExact`,
  `MultiLockEntries.PairsExact`). Writer entries of one epoch never nest
  (`MultiLockEntries.WritersAreAntichain`); reader entries, because of the negated test, always do
  (`MultiLockEntries.ReadersAreChain`, with a run in `NestedReaders`).
- The accesses AccuLock skips and its reports are exact on the events (`AccuLock.SkipExact`,
  `AccuLock.AccuLockExact`); an overwritten entry can hide a race that MultiLock reports
  (`OverwrittenEntry.AccuLockMissesARace`).
- Two accesses left unordered by the lock-joining clocks meet the report condition of the hybrid
  detectors if and only if no mutex held at both was freed and reused in between
  (`Hybrid.UnorderedPairsSurvive`): freeing drops the mutex clock, but locksets compare addresses only.
  So MultiLock finds every write-write race of Djit on such a pair (`Hybrid.MultiLockFindsDjitWrites`);
  `RecycledLock.MultiLockMissesARace` is a run with the exception.
- The instructions a detector marks as racy are exactly those with a recorded access to a freed
  incarnation of a cell on which a race was reported, in all four detectors
  (`RacyInstructions.DjitMarksExactly` and its three companions).
- A dependency that the predictor's mutual exclusion check rejects happens in no interleaving
  (`CriticalSections.RejectedPairIsInfeasible`), for memory accesses and for mutexes.
- What the predictor records of an access is the access with the flags it was observed with
  (`FedAccesses.RecordingsAreObserved`). Although it searches only when a summary meets a new clock value,
  it connects two accesses exactly when their kinds, their critical sections and concurrent clock values
  allow it, stated on the observed trace (`PredictedPairs.PairsOnTrace`).
- The dependencies added when a location is freed lead from the last access of a thread in one clock value
  to the first access of another thread in a clock value immediately after it
  (`TimelineDependencies.RequiredEnds`, `TimelineDependencies.EndsAreRequired`).

Modelling assumptions: thread ids are fresh; a thread is started by a started thread, which may have
been joined by the time of the start callback; only the holder unlocks a mutex and mutexes are not
recursive; a thread is joined at most once, by a running thread, when it is not waiting or inside a
barrier; each barrier address has one fixed set of participants; memory holding a held mutex, a condition
variable with waiters or a barrier with threads inside is not freed (`Barriers.LateDeparture` says what a
departure after such a free would see). Clocks are unbounded naturals. The unit size is a power of two,
so masking an address rounds it to a multiple of the unit. A condition wait is the callback pair unlock,
pre-wait before it and post-wait, lock after it.

## Model

| member | source | states |
|---|---|---|
| Clocks.LeqIsPointwise | src/core/vector_clock.cc:31-59 | the order the scan decides implies the pointwise order of `GetClock`, and equals it when stored clocks are positive |
| Clocks.LeqIsPartialOrder | src/core/vector_clock.cc:31-59 | the order is reflexive, transitive, and antisymmetric with `Equal` as its equality |
| Clocks.JoinIsLeastUpperBound | src/core/vector_clock.cc:91-101 | a join is above both clocks and below every clock that is above both |
| Clocks.RaisedIsJoin | src/core/vector_clock.cc:91-101 | raising one component per entry of the other clock, in table order, ends in the join |
| Clocks.JoinAllGet | src/race/detector.cc:425-428 | after joining a whole table each component is the maximum over the own clock and the table, attained by one of them |
| Clocks.VectorClock.HappensBefore | src/core/vector_clock.cc:31-59 | the single-pass two-iterator scan returns true iff every stored entry is matched by one at least as large |
| Clocks.VectorClock.HappensAfter | src/core/vector_clock.cc:61-89 | the mirrored scan decides the converse relation |
| Clocks.VectorClock.Equal | src/core/vector_clock.cc:124-137 | true iff the two clocks store the same entries |
| Clocks.VectorClock.JoinWith | src/core/vector_clock.cc:91-101 | the in-place loop leaves the least upper bound of the two old clocks |
| DetectorState.Detector.ThreadStart | src/race/detector.cc:80-97 | the clock map moves by the protocol step of a thread start; the start counter and the atomic mark follow |
| DetectorState.Detector.AfterPthreadJoin | src/pintool/detector1.cpp:150-159 | the protocol step of a join, with MultiLock's extra tick; the join counter follows |
| DetectorState.Detector.BeforeMemAccess | src/pintool/detector1.cpp:84-103 | which cells of an access reach the race check and get a meta: in ascending order exactly the covered units, none if filtered, atomic, or gated |
| MonitoringUnits.CoveredAre | src/core/basictypes.h:49-52 | the aligned loop bounds visit exactly the units that overlap the accessed or freed range |
| DetectorState.Detector.ProcessLock | src/race/detector.cc:407-412 | the protocol step of a lock; only the full protocol joins |
| DetectorState.Detector.ProcessUnlock | src/race/detector.cc:414-419 | the protocol step of an unlock; MultiLock does not tick |
| DetectorState.Detector.ProcessNotify | src/race/detector.cc:421-435 | both loops together: all waiters' clocks are joined and every waiter is signalled with the joined clock |
| DetectorState.Detector.ProcessPreWait | src/race/detector.cc:437-442 | the protocol step of entering a wait |
| DetectorState.Detector.ProcessPostWait | src/race/detector.cc:444-458 | the protocol step of leaving a wait, with or without a signal |
| DetectorState.Detector.BeforePthreadCondWait | src/race/detector.cc:204-219 | the callback is the unlock step followed by the pre-wait step |
| DetectorState.Detector.AfterPthreadCondWait | src/race/detector.cc:221-236 | the callback is the post-wait step followed by the lock step |
| DetectorState.Detector.ProcessPreBarrier | src/race/detector.cc:460-470 | the protocol step of arriving at a barrier |
| DetectorState.Detector.ProcessPostBarrier | src/race/detector.cc:472-510 | the flagging, joining and table-switching loop is the protocol step of leaving a barrier |
| DetectorState.Detector.VisitSlots | src/race/detector.cc:483-501 | one pass flags the own slot, joins every slot and decides whether all or none of the others are flagged |
| DetectorState.Detector.FreeAddrRegion | src/race/detector.cc:331-365 | the unit loops drop exactly the covered units from the cell, mutex, condition and barrier tables; freeing the null address does nothing |
| DetectorState.AssertionsHold | src/race/detector.cc:444-491 | on every run the callbacks' debug assertions hold: clocks exist, a finished wait was registered, nobody leaves a barrier round twice |
| Causality.HBTransitive | src/race/detector.cc:407-510 | happens-before, generated by program order, fork, join, unlock to lock, wait to notify, notify to wake-up, arrivals to departures, is transitive |
| Causality.LocksOnlyAddOrder | src/pintool/acculock.cpp:18-30 | dropping lock edges only removes orderings |
| Origins.MutexCovers | src/race/detector.cc:407-419 | the overwritten mutex clock still covers every unlock since the mutex was last freed |
| Origins.MutexOriginHolds | src/race/detector.cc:407-419 | a mutex clock is always the stamp of the last unlock since the last free |
| Origins.CondOriginHolds | src/race/detector.cc:421-458 | wait and signal tables hold exactly the pending waits and their last notifies, with the stamps of those events |
| Origins.OwnStampsBelow | src/race/detector.cc:80-97 | a thread's clock covers the stamps of all its earlier events |
| Origins.ThreadOriginHolds | src/race/detector.cc:80-97 | what a thread knows of the others is exactly what the stamp of its last event knew |
| Reachable.AlwaysSane | src/race/detector.cc:460-510 | in every reachable state barrier arrivals and leavers are disjoint participants and agree with who is inside |
| Barriers.ShapeHolds | src/race/detector.cc:460-510 | in every reachable state the selectors, tables and flags of a barrier are determined by its arrivals and leavers, so no table mixes rounds |
| Barriers.DepartureJoinsItsRound | src/race/detector.cc:472-510 | every departure finds exactly the participants' slots, each with the clock of its arrival in the departing thread's own round, its own slot unflagged |
| Barriers.ArrivalStartsItsSlot | src/race/detector.cc:460-470 | no arrival overwrites a slot, and it joins a table whose slots all belong to its own round |
| Barriers.IdleBarrierIsReset | src/race/detector.cc:502-510 | when nobody is inside, both tables are empty and the two selectors agree |
| Barriers.LateDeparture | src/race/detector.cc:472-510 | a departure after the barrier was freed finds an empty table: the thread learns nothing, only ticks, and both selectors switch |
| Barriers.MirrorBehavesTheSame | src/race/detector.cc:460-510 | a barrier with tables and selectors exchanged answers every arrival and departure alike, so selectors left switched change nothing later |
| MetaTables.MutexesKnown | src/race/detector.cc:331-412 | a mutex has a meta iff it was locked or unlocked since its memory was last freed |
| MetaTables.CondsKnown | src/race/detector.cc:331-458 | the same for condition variables |
| MetaTables.BarriersKnown | src/race/detector.cc:331-510 | the same for barriers |
| ClockTheorem.ClocksAreHappensBefore | src/race/detector.cc:80-97 | on every run and for every protocol, event i happens before event j iff the stamp of j has reached the clock thread(i) had at i |
| ClockTheorem.StampIsSourced | src/race/detector.cc:407-510 | every component of a stamp comes unchanged along one happens-before edge, so clocks never claim an order that is not there |
| ClockTheorem.OwnComponentInvariant | src/race/detector.cc:407-510 | no stored clock of a thread, mutex, wait, signal or barrier slot exceeds a thread's own component, and all are strictly below it while the thread runs |
| ClockTheorem.LaterEventsUnknown | src/race/detector.cc:414-435 | what an event knows of another thread, or of its own thread past a release, is strictly below the stamps of all that thread's later events |
| Ticks.OwnClockCounts | src/race/detector.cc:80-510 | a started thread's own component is one more than the number of its ticks: notifies, wait entries, barrier exits, thread starts, unlocks except in MultiLock, joins in MultiLock |
| Ticks.EpochsAreTickless | src/pintool/multilock.cpp:19-26 | two accesses of a thread have equal own components iff none of these events lies between them |
| Accesses.ScanExact | src/race/djit.cc:79-93 | the report loop reports exactly the racing threads, each with its recorded instruction |
| Accesses.ScanDistinct | src/race/djit.cc:79-93 | the scan reports each thread at most once |
| Accesses.RacingMeansUnordered | src/race/djit.cc:75-93 | although only the last access is kept, an entry races iff some access since the last free is unordered |
| Djit.Detector.ProcessRead | src/race/djit.cc:62-97 | the in-place handler computes the new meta and appends the reports of the read step |
| Djit.Detector.ProcessWrite | src/race/djit.cc:99-156 | the in-place handler computes the new meta and appends the reports of the write step |
| Djit.DjitExact | src/race/djit.cc:62-156 | at every processed access, a report for thread u and a kind is made iff some earlier conflicting access of u since the last free does not happen before it |
| Djit.CellOriginHolds | src/race/djit.cc:95-150 | the entries of a cell are always the stamp and instruction of each thread's last processed read and write since the last free |
| Djit.ReportedInstruction | src/pintool/djit.cpp:18-121 | the instruction reported for a thread is that of its last such access, so the table lookup never fails |
| Djit.ReportedOnce | src/race/djit.cc:75-150 | no report is made twice at an access |
| Djit.RacyExact | src/race/djit.cc:72-120 | a cell is marked racy iff at least one race was reported on it since it was last freed |
| Gate.SkippedNeverRaces | src/pintool/detector1.cpp:91-112 | two accesses of different threads of which one was skipped because at most one thread is live are ordered, unless the first was skipped and a thread with an already joined parent starts in between |
| Gate.CountedHolds | src/pintool/detector1.cpp:81-158 | the two counters are the numbers of started and joined threads |
| Gate.EarlierOrdered | src/pintool/detector1.cpp:91-112 | at an event with at most one live thread, every earlier event of another thread happens before it |
| Gate.LaterOrdered | src/pintool/detector1.cpp:91-112 | an event with at most one live thread happens before a later event of another thread, if no thread with an already joined parent starts up to it |
| Gate.OrphanUnordered | src/core/execution_control.cpp:462-468 | a thread started after its parent was joined is not ordered after anything that follows the join |
| Gate.OrderedIffNoOrphan | src/pintool/detector1.cpp:91-112 | up to any position, a skipped access happens before all later events of other threads iff no thread with an already joined parent starts there |
| Gate.HiddenRace | src/pintool/detector1.cpp:84-126 | behind the gate a race with a thread is found iff one of its racing accesses was processed; every racing access that was skipped is followed by the start of a thread with an already joined parent |
| Gate.GateIsLossless | src/pintool/detector1.cpp:84-126 | gated and ungated Djit make the same reports about a thread, if none of its skipped accesses to the cell is followed by the start of a thread with an already joined parent |
| LateStart.GateHidesARace | src/pintool/detector1.cpp:91-112 | a legal run where a creator is joined before its child's start callback: ungated Djit reports a race, gated Djit reports nothing anywhere |
| FastTrack.Cell.ProcessRead | src/pintool/fasttrack.cpp:18-63 | the in-place handler computes the new epochs, adaptive flag and reports of the read step |
| FastTrack.Cell.ProcessWrite | src/pintool/fasttrack.cpp:65-147 | the in-place handler computes the new epochs, adaptive flag and reports of the write step |
| FastTrack.CellOriginHolds | src/pintool/fasttrack.cpp:18-147 | epochs and reader clock are always the stamps of the last recorded write, last recorded read, and each thread's last recorded read |
| FirstRace.FastTrackRefinesDjit | src/pintool/fasttrack.cpp:33-138 | with no hypothesis: whatever thread pair and kinds FastTrack reports at an access, Djit reports there |
| FirstRace.FastTrackDetects | src/pintool/fasttrack.cpp:18-147 | on a cell without an unordered conflicting pair so far, FastTrack reports at an access that has a noticed race: two conflicting unordered accesses of different threads, neither skipped on a foreign epoch |
| FirstRace.ReportIsNoticed | src/pintool/fasttrack.cpp:33-138 | conversely, behind every report there is a noticed race |
| FirstRace.FirstReportExact | src/pintool/fasttrack.cpp:18-147 | with no hypothesis on skips: where Djit first reports, FastTrack reports iff some race at that access is noticed |
| FirstRace.FirstRaceExact | src/pintool/fasttrack.cpp:18-147 | FastTrack first reports on the cell exactly where Djit first does, at every point of the run and in every incarnation, iff each first report of Djit has a noticed race |
| FirstRace.OwnSkipsAgree | src/pintool/fasttrack.cpp:18-147 | in particular both have reported or neither has, as long as skips since the last free fire only on the thread's own epoch |
| FastTrackMarks.ReportNamesARace | src/pintool/fasttrack.cpp:33-138 | every report names an access that races with the current one, with the instruction that made it |
| FastTrackExact.SkipExact | src/pintool/fasttrack.cpp:28-80 | an access is skipped iff the last recorded access of its kind since the free, by whichever thread, is of the epoch the access knows of that thread |
| FastTrackExact.ForeignSkipExact | src/pintool/epoch.cpp:9-11 | the skip is on a foreign epoch iff that access is another thread's |
| FastTrackExact.SharedHolds | src/pintool/fasttrack.cpp:52-137 | the shared flag is set by a recorded read unordered with the last one and cleared by a recorded write unordered with some thread's last read |
| FastTrackExact.FastTrackExact | src/pintool/fasttrack.cpp:18-147 | at every access, first race or not, a report is made iff the access is not skipped and the last recorded write, the last recorded read or, while shared, the thread's last recorded read is unordered with it; with that access's instruction |
| FastTrackExact.ReportedOnce | src/pintool/fasttrack.cpp:75-137 | no report is made twice at an access |
| FastTrackMarks.RacyExact | src/pintool/fasttrack.cpp:38-123 | a cell is marked racy iff FastTrack reported a race on it since it was last freed |
| FastTrackMarks.SameMarks | src/pintool/fasttrack.cpp:18-147 | FastTrack and Djit mark the cell at the same points of the run iff each first report of Djit has a noticed race |
| MissedRace.FastTrackMissesARace | src/pintool/epoch.cpp:9-11 | a legal run with a skip on another thread's epoch, on which Djit reports a race and FastTrack reports nothing anywhere |
| Locksets.LockTable.IsSubsetOf | src/pintool/lockset.cpp:19-27 | the size test and early-exit loop decide inclusion |
| Locksets.LockTable.IsSupersetOf | src/pintool/lockset.cpp:29-38 | the size test and early-exit loop decide the converse inclusion |
| Locksets.LockTable.IsMatch | src/pintool/lockset.cpp:40-48 | equal size and one inclusion decide equality |
| Locksets.LockTable.IsDisjoint | src/pintool/lockset.cpp:50-56 | the early-exit loop decides disjointness |
| Locksets.LocksAreHeld | src/pintool/multilock.cpp:28-34 | the detector's lockset of a thread is exactly the set of mutexes the thread holds |
| MultiLock.Cell.UpdateOnWrite | src/pintool/multilock.cpp:80-124 | the search and erase loops decide redundancy and leave the pruned histories with the new pair |
| MultiLock.Cell.UpdateOnRead | src/pintool/multilock.cpp:36-78 | the same on the read side, with its negated containment test |
| MultiLock.Cell.ProcessWrite | src/pintool/multilock.cpp:175-250 | the nested loops report exactly the entries of other threads that are unordered and share no lock, and mark the cell racy exactly for those |
| MultiLock.Cell.ProcessRead | src/pintool/multilock.cpp:126-173 | the same against the writers |
| MultiLock.EntriesAreAccesses | src/pintool/multilock.cpp:36-124 | every entry of a history is the epoch and lockset of a processed access since the last free |
| MultiLock.WriteCovered | src/pintool/multilock.cpp:80-124 | despite skipping and erasing, every processed write is covered by an entry of its epoch with at most its locks |
| MultiLock.ReportedPairIsHybridRace | src/pintool/multilock.cpp:126-250 | every reported pair comes from two accesses unordered by weak happens-before, made under no common lock, neither of them redundant |
| MultiLock.WriteWriteComplete | src/pintool/multilock.cpp:80-218 | if two threads write a cell unordered and without a common lock, a write-write race between them on the cell has been reported by the time the second write is processed |
| MultiLock.RacyExact | src/pintool/multilock.cpp:126-250 | a cell is marked racy iff MultiLock reported a race on it since it was last freed |
| MultiLockExact.KeptCovered | src/pintool/multilock.cpp:36-124 | despite all erasing, a read that was not redundant stays covered by a reader or writer entry of its epoch with at most its locks |
| MultiLockExact.AfterWriteExact | src/pintool/multilock.cpp:126-218 | at every processed read or write, a pair with an earlier write of a thread is reported iff the access is not redundant and some earlier write of that thread is unordered and shares no lock |
| MultiLockExact.AtWriteExact | src/pintool/multilock.cpp:175-250 | at every processed write, a thread is reported iff the write is not redundant and some earlier write or non-redundant read of that thread is unordered and shares no lock |
| MultiLockExact.KeptPairsComplete | src/pintool/multilock.cpp:36-250 | for all conflicting kinds: an unordered pair without a common lock, neither access a read skipped as redundant, has its thread pair reported by the time the second access is processed |
| SkippedRead.NegatedTestLosesARace | src/pintool/multilock.cpp:47-56 | a legal run where the negated containment test skips the one read that races: Djit reports it, MultiLock reports nothing anywhere |
| MultiLockEntries.EntriesExact | src/pintool/multilock.cpp:36-124 | the entries of a thread are those of its accesses that were not redundant and were not erased by a later irredundant access of the same epoch with at most their locks, a read erasing reads only |
| MultiLockEntries.RedundantExact | src/pintool/multilock.cpp:42-96 | a write is redundant iff a standing write of its epoch held a subset of its locks; a read iff a standing access of its epoch held a lock it does not hold |
| MultiLockEntries.PairsExact | src/pintool/multilock.cpp:126-250 | a pair is reported iff the access is not redundant and a standing conflicting access of that thread and kind is unordered with it and shares no lock |
| MultiLockEntries.WritersAreAntichain | src/pintool/multilock.cpp:88-118 | no two writer entries of one epoch have nested locksets |
| MultiLockEntries.ReadersAreChain | src/pintool/multilock.cpp:47-78 | of two reader entries of one epoch the later always holds strictly more locks |
| MultiLockEntries.NoReaderAboveWrite | src/pintool/multilock.cpp:98-106 | an irredundant write leaves no reader entry of its epoch holding all its locks |
| NestedReaders.ReadersNest | src/pintool/multilock.cpp:47-56 | a legal run that leaves two nested reader entries of one epoch |
| AccuLock.Cell.ProcessRead | src/pintool/acculock.cpp:32-77 | the in-place handler computes the new entries and reports of the read step, including the entry its lookup creates |
| AccuLock.Cell.ProcessWrite | src/pintool/acculock.cpp:79-150 | the in-place handler computes the new entries, cleared readers and reports of the write step |
| AccuLock.SkipExact | src/pintool/acculock.cpp:44-93 | an access is skipped iff the last recorded write, or for a read its own thread's last recorded read since then, is of the epoch the access knows of that thread |
| AccuLock.AccuLockExact | src/pintool/acculock.cpp:32-150 | at every processed access, thread u is reported iff the access is not skipped and the last recorded write, or u's last recorded read since it, is u's, unordered with the access, and shares no lock |
| AccuLock.RacyExact | src/pintool/acculock.cpp:50-125 | a cell is marked racy iff AccuLock reported a race on it since it was last freed |
| AccuLock.LocksGrowInEpoch | src/pintool/acculock.cpp:23-30 | because unlocking ticks, a thread only gains locks within one epoch |
| AccuLock.OwnSkipLosesNothing | src/pintool/acculock.cpp:44-94 | an access, read or write, skipped because of its thread's own entry of the epoch repeats a recorded access that races wherever the skipped one does |
| OverwrittenEntry.AccuLockMissesARace | src/pintool/acculock.cpp:79-150 | a legal run where the entry of a write is overwritten before the write it races with: MultiLock reports the two, AccuLock reports nothing anywhere |
| Hybrid.RunsCanRun | src/pintool/detector1.cpp:63-82 | a trace one detector can follow every other can, so the same events can be compared under different clocks |
| Hybrid.SharedLockOrders | src/pintool/detector1.cpp:439-451 | two events under the same mutex are ordered, unless the mutex was freed in between |
| Hybrid.UnorderedPairsSurvive | src/pintool/acculock.cpp:50-51 | two events unordered by the lock-joining clocks stay unordered without lock edges, and meet the hybrid report condition iff no mutex held at both was freed and reused in between |
| Hybrid.DjitPairsSurvive | src/pintool/djit.cpp:31-113 | every pair Djit reports comes from two accesses meeting the hybrid condition, with that exact exception |
| Hybrid.MultiLockFindsDjitWrites | src/pintool/multilock.cpp:175-218 | if Djit reports write j against a write i, and no mutex held at both was freed and reused in between, MultiLock has reported the thread pair on the same events by then |
| Hybrid.MultiLockFindsDjitRaces | src/pintool/multilock.cpp:126-250 | the same for reads and writes, when MultiLock skips neither access as a redundant read |
| Hybrid.WeakOrdersAgree | src/pintool/acculock.cpp:18-30 | the weak order does not depend on which hybrid detector runs |
| Hybrid.MultiLockFindsAccuLockWrites | src/pintool/acculock.cpp:95-117 | every write-write race AccuLock reports has been reported by MultiLock on the same events by then |
| Hybrid.MultiLockFindsAccuLockRaces | src/pintool/acculock.cpp:50-125 | the same for reads and writes, when MultiLock skips neither access as a redundant read |
| RecycledLock.MultiLockMissesARace | src/race/detector.cc:343-349 | a legal run with a freed and reused mutex address on which Djit reports a race and MultiLock reports nothing anywhere |
| RacyInstructions.CollectedExact | src/race/djit.cc:93-97 | a cell has collected an instruction iff it made a noted access since the cell was last freed |
| RacyInstructions.DjitCollects | src/race/djit.cc:93-154 | replaying Djit's handlers, a cell's set holds exactly the instructions of the processed accesses since its last free, nothing without tracking |
| RacyInstructions.DjitMarksExactly | src/race/djit.cc:158-170 | replaying Djit's frees, an instruction is marked iff some freed incarnation of some cell had a reported race and an access by it, in either order |
| RacyInstructions.FastTrackCollects | src/pintool/fasttrack.cpp:58-147 | the same for FastTrack's cells and the accesses it did not skip |
| RacyInstructions.FastTrackMarksExactly | src/pintool/fasttrack.cpp:58-161 | what the frees of a FastTrack cell mark |
| RacyInstructions.AccuLockCollects | src/pintool/acculock.cpp:70-150 | the same for AccuLock's cells |
| RacyInstructions.AccuLockMarksExactly | src/pintool/acculock.cpp:70-165 | what the frees of an AccuLock cell mark |
| RacyInstructions.MultiLockCollects | src/pintool/multilock.cpp:165-250 | the same for MultiLock's cells and the accesses that were not redundant |
| RacyInstructions.MultiLockMarksExactly | src/pintool/multilock.cpp:165-265 | what the frees of a MultiLock cell mark |
| ClockHistories.ExtendedIncreasing | src/idiom/predictor_new.cc:966-985 | recording a thread's accesses in order keeps the history strictly increasing, and comparing the last entry decides whether the clock is new |
| ClockHistories.CheckConcurrent | src/idiom/predictor_new.cc:783-795 | the backward early-exit search is true iff some history entry is incomparable with the clock |
| ClockHistories.CheckCompoundTimes | src/idiom/predictor_new.cc:1305-1340 | steps 1 to 3 succeed iff some pair of entries meets the clock and time conditions |
| ClockHistories.CheckCompound2Times | src/idiom/predictor_new.cc:1376-1409 | the same for the reversed time condition |
| ClockMerge.Timeline | src/idiom/predictor_new.cc:1080-1175 | the merge terminates and yields, strictly increasing, exactly the clocks of the summaries, each with a summary of smallest start and one of largest end, preferring reads and writes on ties |
| ClockMerge.FindEarliest | src/idiom/predictor_new.cc:1104-1117 | the first pass finds a clock under a cursor that is below all others under cursors |
| ClockMerge.Consume | src/idiom/predictor_new.cc:1119-1166 | the second pass picks the best start and end at that clock, moves exactly the cursors standing there and keeps the finished count |
| ClockMerge.TurnKeepsMerged | src/idiom/predictor_new.cc:1099-1173 | one turn of the merge keeps the timeline increasing, complete for what is consumed, and strictly before what is left |
| Predecessors.FindPredecessors | src/idiom/predictor_new.cc:1177-1239 | the entries paired with a clock value are exactly its immediate predecessors in the other threads that the preceding entry has not already seen |
| PairUpdate.Update | src/idiom/predictor_new.cc:1177-1239 | the dependencies added are exactly those from an immediate predecessor to an entry whose kinds conflict and whose flags the mutex check accepts; none with fewer than two threads |
| Predecessors.CandidatesDecide | src/idiom/predictor_new.cc:1205-1215 | comparing the latest entry of each thread decides for all earlier entries |
| AccessHistory.RecordedHolds | src/idiom/predictor_new.cc:960-1002 | after any recordings in thread order each summary's history is increasing, shows exactly the clocks of its accesses, and no two summaries of a thread are alike |
| AccessHistory.RecordedSpans | src/idiom/predictor_new.cc:966-1002 | every history entry runs from the first to the last local time of exactly the accesses recorded in it |
| AccessHistory.PairsNext | src/idiom/predictor_new.cc:1004-1043 | the full search adds exactly the compatible pairs the new clock value makes concurrent, and a clock value the summary has just seen makes none |
| AccessHistory.PairsAreConcurrentAccesses | src/idiom/predictor_new.cc:960-1047 | in terms of the accesses alone: two summaries are such a pair iff they are of different threads, conflict, pass the mutex and atomic tests, and two of their accesses were made in concurrent clock values |
| AccessHistory.SummariesOfOneThread | src/idiom/predictor_new.cc:1080-1117 | recording in thread order makes all clocks of a thread's summaries comparable, which the merge relies on |
| Predictor.AccHisto.MatchAccSum | src/idiom/predictor_new.cc:742-762 | the summary found is the first of the thread with the same kind, instruction and flags |
| Predictor.AccHisto.Search | src/idiom/predictor_new.cc:1004-1043 | the nested loops add exactly the dependencies, in both directions, that pass every test against some remote summary |
| Predictor.AccHisto.ProcessAccSumUpdate | src/idiom/predictor_new.cc:960-1047 | records the access and keeps the dependencies exactly the concurrent pairs |
| FedAccesses.RecordingsAreObserved | src/idiom/predictor_new.cc:1727-1792 | the recording of access i of a thread carries its kind, instruction, clock and time, and the flags of that access in the observed trace |
| Predictor.AccHisto.ProcessiRootEvent | src/idiom/predictor_new.cc:1727-1767 | from the accesses fed so far: all but the last of each thread are recorded with right flags, the last is pending with right first flags |
| PredictedPairs.PairsOnTrace | src/idiom/predictor_new.cc:960-1047 | on the observed trace: access i is connected to access j iff the kinds conflict and are not cut by an atomic instruction, in every common mutex i is last and j first of its critical section, and accesses like them had concurrent clocks |
| Predictor.AccHisto.ProcessAccSumPairUpdate | src/idiom/predictor_new.cc:1049-1239 | both steps: the timelines of all threads are merged from the table and the dependencies on immediate predecessors are added |
| Predictor.AccHisto.ProcessFree | src/idiom/predictor_new.cc:1769-1792 | all accesses fed are recorded, and the dependencies are exactly the concurrent pairs and those of the timelines |
| TimelineDependencies.LastIsLast | src/idiom/predictor_new.cc:1147-1158 | the summary a timeline entry names as last holds the last access of the thread in that clock value |
| TimelineDependencies.FirstIsFirst | src/idiom/predictor_new.cc:1131-1145 | the one it names as first holds the first access |
| TimelineDependencies.ImmediateExact | src/idiom/predictor_new.cc:1196-1225 | entries are immediate predecessors iff the recorded accesses there are |
| TimelineDependencies.RequiredEnds | src/idiom/predictor_new.cc:1177-1239 | every dependency added leads from the last access of a thread in a clock value to the first access of another in a clock value immediately after it, and passes the tests |
| TimelineDependencies.EndsAreRequired | src/idiom/predictor_new.cc:1177-1239 | conversely, two such accesses give a dependency unless an access of another summary ties with one of them |
| FlaggedLocks.MatchFlags | src/idiom/predictor_new.cc:641-657 | equal size and one-sided lookups decide equality of the flag tables |
| FlaggedLocks.LockSet.Add | src/core/lock_set.h:36-36 | a lock is added under the next value of the version counter |
| FlaggedLocks.LockSet.Match | src/core/lock_set.cc:34-45 | equal size and one-sided lookups decide equality of the lock addresses |
| FlaggedLocks.LockSet.Disjoint | src/core/lock_set.cc:47-54 | true iff no lock address is common |
| FlaggedLocks.LockSet.DisjointFromSection | src/core/lock_set.cc:56-67 | true iff no lock of this set is held in one and the same critical section by both others |
| FlaggedLocks.DynAcc.UpdateFirstFlag | src/idiom/predictor_new.cc:671-687 | the loop over the locks computes the table of first flags |
| FlaggedLocks.DynAcc.UpdateLastFlag | src/idiom/predictor_new.cc:689-704 | the loop over the locks computes the table of last flags |
| FlaggedLocks.FirstFlagsAt | src/idiom/predictor_new.cc:671-687 | in that table exactly the current locks get a flag, first iff the previous access did not hold the lock in the same version; the others are unchanged |
| FlaggedLocks.LastFlagsAt | src/idiom/predictor_new.cc:689-704 | in that table exactly the previous locks get a flag, last iff the next access does not hold the lock in the same version; the others are unchanged |
| FlaggedLocks.DynAcc.Access | src/idiom/predictor_new.cc:1742-1766 | a new access completes the flags of the previous one and opens its own |
| CriticalSections.VersionIsSection | src/core/lock_set.h:36-37 | a lockset entry exists iff the thread is in a critical section of the lock, and its version names the Lock that opened it |
| CriticalSections.VersionsAreFresh | src/core/lock_set.h:36-57 | with the versions drawn from the global counter, no Lock takes a version an earlier one of its thread has taken |
| CriticalSections.FlagsExact | src/idiom/predictor_new.cc:671-704 | in every observed trace the flags hold exactly when the access is its thread's first, or last, to the location in that critical section, although only neighbouring accesses are compared; an unlock has already left its section |
| CriticalSections.SectionIsInterval | src/core/lock_set.h:36-37 | a critical section is an interval of the thread's operations, which makes comparing neighbours enough |
| CriticalSections.CheckMutexExclution | src/idiom/predictor_new.cc:764-781 | true iff for every common lock the source is last and the target first |
| CriticalSections.MutexCheckExact | src/idiom/predictor_new.cc:764-781 | for observed accesses the check accepts iff in every mutex both hold the source is the last access of its critical section and the target the first of its own |
| CriticalSections.CheckCompound | src/idiom/predictor_new.cc:1272-1355 | the whole check: some pair of entries fits, and on two locations no lock held across the local pair is in either remote table |
| CriticalSections.RejectedPairIsInfeasible | src/idiom/predictor_new.cc:764-781 | if the check rejects two observed accesses, to memory or of a mutex, no run in which both threads perform their operations in order puts the second directly after the first on the location |
| Compression.History.Compress | src/idiom/predictor.cc:1559-1595 | the backward nested loops compute the compressed vector |
| Compression.KeepsLastOccurrences | src/idiom/predictor.cc:1559-1595 | the result is the subsequence at exactly the positions that are the last of their type, instruction and lock set |
| Compression.CompressEarly | src/idiom/predictor.cc:1468-1485 | compressing a prefix first gives the same final result, so the moment of compression does not matter |
| Compression.Idempotent | src/idiom/predictor.cc:1559-1595 | compressing twice is compressing once |
| Compression.KeepsTheLast | src/idiom/predictor.cc:1446-1458 | compression keeps the last access |
| Compression.CompressedSize | src/idiom/predictor.cc:1559-1595 | one more access lengthens the compressed vector by one iff its class is new |
| Compression.History.UpdateMemAccess | src/idiom/predictor.cc:1395-1428 | the vectors stand for all accesses made, grouped by clock in order; the new one is found last; the open vector is less than 70 longer than its compressed form |
| Compression.History.FindLastAccess | src/idiom/predictor.cc:1446-1458 | returns the last access of the uncompressed history |
| Compression.History.CheckCompress | src/idiom/predictor.cc:1468-1485 | the open vector is compressed exactly when it has grown by 70 since its last compression |
| Sharing.Analyzer.BeforeMemRead | src/sinst/analyzer.cc:84-126 | a filtered access changes nothing; otherwise the loop over the aligned units applies the read automaton to each unit in turn |
| Sharing.Analyzer.BeforeMemWrite | src/sinst/analyzer.cc:128-167 | a filtered access changes nothing; otherwise the loop over the aligned units applies the write automaton to each unit in turn |
| Sharing.CellHolds | src/sinst/analyzer.cc:84-167 | the per-cell fields always say whether the current incarnation is mixed, was written, was touched by several threads, and by which instructions |
| Sharing.MarkedExactlyShared | src/sinst/analyzer.cc:84-225 | after any trace with frees an instruction is shared iff it accessed some incarnation that two threads touched with at least one write, also before it became shared |
| Sharing.ReadUnitsExtend | src/sinst/analyzer.cc:84-126 | a read of several units leaves the analyzer as after the trace extended by the unit reads |
| Sharing.WriteUnitsExtend | src/sinst/analyzer.cc:128-167 | the same for a write |
| Sharing.UnitReadsCover | src/sinst/analyzer.cc:91-93 | the unit reads are exactly those of the covered units |
| Sharing.UnitWritesCover | src/sinst/analyzer.cc:135-137 | the same for writes |
| RaceStore.Find | src/race/race.cc:231-250 | the bucket scan finds an item iff the table stores it |
| RaceStore.Intern | src/race/race.cc:263-272 | no two ids get equal contents, the index keeps agreeing with the table, and stored items keep their ids |
| RaceStore.RaceDB.CreateRace | src/race/race.cc:62-86 | the new race resolves to the two given static events and their static race, nothing else is added, and everything stored keeps its meaning |
| RaceStore.RaceDB.Save | src/race/race.cc:164-214 | the record lists every event, race, dynamic race and racy instruction exactly once |
| RaceStore.RaceDB.Load | src/race/race.cc:100-162 | the four loops compute the loaded store |
| RaceStore.TableRoundTrip | src/race/race.cc:100-132 | loading a listed table in any order gives back its items and last id, and an index consistent for the new hashes |
| RaceStore.RoundTrip | src/race/race.cc:100-214 | loading what was saved into a fresh database, with other hashes, restores events, races, racy instructions and next ids in a sound store; the execution id is one past the largest saved |
| RaceStore.LoadKeeps | src/race/race.cc:100-162 | loading into a database in use keeps its races and racy instructions, adds the saved ones, and takes an execution id above all of them |

## Left out

- MultiLock.Cell.UpdateOnWrite: the instruction tables, ordered by the size and a code of the lockset, are not modelled; erasing while iterating is modelled as removing all matching entries.
- MultiLock.Cell.UpdateOnRead: as for UpdateOnWrite.
- MultiLock.Cell.ProcessWrite: the reported instructions are not modelled.
- MultiLock.Cell.ProcessRead: as for ProcessWrite.
- Compression.History.UpdateMemAccess: the garbage collection that follows the opening of a vector is not modelled.
- Sharing between clock objects: clocks are values in tables, so aliasing of the heap-allocated clocks is not modelled.
- Thread ids wrapping, 64-bit clock overflow, `pthread_mutex_trylock`, recursive mutexes, barriers whose participants change.
- The skip counters and timers, and the logging of the detectors.
- The address filter and image loading: whether an address is filtered, and the size of a freed region, are parameters.
- The predictor's own clock protocol for condition variables, its recent-access lists, atomicity table, deadlock check and garbage collection.
- Hash buckets of access summaries: an access summary is found by its contents among those of its thread and location.
- The set of atomic instructions, which the predictor learns while it runs, is fixed; asynchronous events and the prediction of whole patterns from the dependencies are not modelled.
- Departures from a freed barrier that fall between arrivals of a new barrier at the same address.
- Static information, protobuf encoding and files: instruction ids are opaque and the saved record is a datatype.
- HistLock, HistLock+, Eraser, Observer, Memo, the schedulers and the profilers: no comparable theorem, or only easy ones.
