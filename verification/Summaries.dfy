/** Access summaries of one location, the dependencies between them, and the tests a dependency passes. */
module Summaries {
  import opened Clocks
  import opened Program
  import opened ClockHistories
  import opened FlaggedLocks
  import opened CriticalSections

  datatype EventType = MemRead | MemWrite | MutexLock | MutexUnlock

  // All accesses of a thread with the same kind, instruction and flags: the clocks they were made in.
  datatype Summary = Summary(kind: EventType, inst: Inst, fls: FlagTable, tinfo: seq<TimeInfo>)

  // The summaries of each thread, in order of creation.
  type Table = map<Tid, seq<Summary>>

  // A summary: its thread and its position among the thread's summaries.
  datatype Ref = Ref(thread: Tid, index: nat)

  datatype Dependency = Dependency(src: Ref, dst: Ref)

  predicate Stored(table: Table, r: Ref) {
    r.thread in table && r.index < |table[r.thread]|
  }

  function SumAt(table: Table, r: Ref): Summary
    requires Stored(table, r)
  {
    table[r.thread][r.index]
  }

  // The conflict table.
  predicate CheckConflict(src: EventType, dst: EventType) {
    || (src.MemRead? && dst.MemWrite?)
    || (src.MemWrite? && (dst.MemRead? || dst.MemWrite?))
    || (src.MutexUnlock? && dst.MutexLock?)
  }

  // The read and the write of an atomic instruction cannot be separated.
  predicate CheckAtomic(atomic: set<Inst>, src: Summary, dst: Summary) {
    && (src.inst in atomic ==> !src.kind.MemRead?)
    && (dst.inst in atomic ==> !dst.kind.MemWrite?)
  }

  predicate Compatible(src: Summary, dst: Summary) {
    CheckConflict(src.kind, dst.kind) && MutexAllows(src.fls, dst.fls)
  }
}
