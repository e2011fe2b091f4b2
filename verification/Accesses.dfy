/** Memory accesses of a run, race reports, and the live-thread gate of Detector1. */
module Accesses {
  import opened Clocks
  import opened Program
  import opened Protocol
  import opened Causality
  import opened ClockTheorem

  datatype Kind = RaceRead | RaceWrite

  datatype Report = Report(addr: Addr, t0: Tid, i0: Inst, k0: Kind, t1: Tid, i1: Inst, k1: Kind)

  predicate Conflict(k0: Kind, k1: Kind) {
    k0.RaceWrite? || k1.RaceWrite?
  }

  // Event j is an access of the given kind to cell a by thread u.
  predicate IsAccess(e: Event, u: Tid, a: Addr, k: Kind) {
    && e.tid == u
    && match k
       case RaceRead => e.op.Read? && e.op.a == a
       case RaceWrite => e.op.Write? && e.op.a == a
  }

  function KindOf(e: Event): Kind {
    if e.op.Write? then RaceWrite else RaceRead
  }

  predicate Touches(e: Event, a: Addr) {
    (e.op.Read? || e.op.Write?) && e.op.a == a
  }

  // ---------- the live-thread gate ----------

  // thread_start_c_ and thread_join_c_ after n events.
  ghost function Starts(tr: Trace, n: nat): nat
    requires n <= |tr|
  {
    if n == 0 then 0 else Starts(tr, n - 1) + if tr[n - 1].op.Begin? then 1 else 0
  }

  ghost function Joins(tr: Trace, n: nat): nat
    requires n <= |tr|
  {
    if n == 0 then 0 else Joins(tr, n - 1) + if tr[n - 1].op.JoinThread? then 1 else 0
  }

  // Whether the access at event j reaches ProcessRead/ProcessWrite.  race::Detector has no gate.
  ghost predicate Processed(gate: bool, tr: Trace, j: nat)
    requires j <= |tr|
  {
    gate ==> Starts(tr, j) > 1 && Starts(tr, j) - Joins(tr, j) > 1
  }

  // ---------- the last access a detector has seen ----------

  ghost predicate SeenAccess(gate: bool, tr: Trace, j: nat, u: Tid, a: Addr, k: Kind)
    requires j < |tr|
  {
    IsAccess(tr[j], u, a, k) && Processed(gate, tr, j)
  }

  // The last processed access of kind k by u to cell a since a was last freed, or -1.
  ghost function LastSeen(gate: bool, tr: Trace, n: nat, u: Tid, a: Addr, k: Kind): (j: int)
    requires n <= |tr|
    ensures -1 <= j < n
    ensures j >= 0 ==> SeenAccess(gate, tr, j, u, a, k) && NoFree(tr, j, n, a)
    ensures forall i | j < i < n && NoFree(tr, i, n, a) :: !SeenAccess(gate, tr, i, u, a, k)
  {
    if n == 0 then -1
    else if FreedAt(tr, n - 1, a) then -1
    else if SeenAccess(gate, tr, n - 1, u, a, k) then n - 1
    else
      var j := LastSeen(gate, tr, n - 1, u, a, k);
      assert forall i | 0 <= i < n - 1 && NoFree(tr, i, n, a) :: NoFree(tr, i, n - 1, a);
      j
  }

  // ---------- scanning a clock of earlier accesses against the current access ----------

  // The access being processed: thread, instruction, kind, and the thread's clock.
  datatype Access = Access(t: Tid, inst: Inst, kind: Kind, clock: VC)

  // The instructions a free marks as racy.
  function MarkedOnFree(track: bool, racy: bool, insts: set<Inst>): set<Inst> {
    if track && racy then insts else {}
  }

  function InstOf(insts: map<Tid, Inst>, u: Tid): Inst {
    if u in insts then insts[u] else 0
  }

  // Thread u's recorded access is not covered by the current thread's clock.
  predicate Racing(seen: VC, cur: Access, u: Tid) {
    u in seen && cur.t != u && seen[u] > Get(cur.clock, u)
  }

  function ReportOf(a: Addr, insts: map<Tid, Inst>, k: Kind, cur: Access, u: Tid): Report {
    Report(a, u, InstOf(insts, u), k, cur.t, cur.inst, cur.kind)
  }

  // The reports of the loop over the first n entries of seen.
  function ReportsUpTo(a: Addr, seen: VC, insts: map<Tid, Inst>, k: Kind, cur: Access, n: nat): seq<Report>
    requires n <= |seen|
  {
    if n == 0 then [] else
    var u := Ascending(seen.Keys)[n - 1];
    ReportsUpTo(a, seen, insts, k, cur, n - 1) +
    if Racing(seen, cur, u) then [ReportOf(a, insts, k, cur, u)] else []
  }

  function ScanReports(a: Addr, seen: VC, insts: map<Tid, Inst>, k: Kind, cur: Access): seq<Report> {
    if Leq(seen, cur.clock) then [] else ReportsUpTo(a, seen, insts, k, cur, |seen|)
  }

  lemma {:induction false} ReportsUpToSound(
    a: Addr, seen: VC, insts: map<Tid, Inst>, k: Kind, cur: Access, n: nat, i: nat)
    requires n <= |seen| && i < |ReportsUpTo(a, seen, insts, k, cur, n)|
    ensures var r := ReportsUpTo(a, seen, insts, k, cur, n)[i];
            Racing(seen, cur, r.t0) && r == ReportOf(a, insts, k, cur, r.t0)
  {
    if i < |ReportsUpTo(a, seen, insts, k, cur, n - 1)| {
      ReportsUpToSound(a, seen, insts, k, cur, n - 1, i);
    }
  }

  lemma {:induction false} ReportsUpToComplete(
    a: Addr, seen: VC, insts: map<Tid, Inst>, k: Kind, cur: Access, n: nat, p: nat)
    requires p < n <= |seen| && Racing(seen, cur, Ascending(seen.Keys)[p])
    ensures ReportOf(a, insts, k, cur, Ascending(seen.Keys)[p]) in ReportsUpTo(a, seen, insts, k, cur, n)
  {
    if p < n - 1 {
      ReportsUpToComplete(a, seen, insts, k, cur, n - 1, p);
    }
  }

  // The scan reports no thread twice.
  lemma {:induction false} ReportsUpToDistinct(
    a: Addr, seen: VC, insts: map<Tid, Inst>, k: Kind, cur: Access, n: nat, i: nat, l: nat)
    requires n <= |seen| && i < l < |ReportsUpTo(a, seen, insts, k, cur, n)|
    ensures var q := ReportsUpTo(a, seen, insts, k, cur, n); q[i].t0 < q[l].t0 <= Ascending(seen.Keys)[n - 1]
  {
    var q := ReportsUpTo(a, seen, insts, k, cur, n - 1);
    if l < |q| {
      ReportsUpToDistinct(a, seen, insts, k, cur, n - 1, i, l);
    } else {
      ReportsUpToBelow(a, seen, insts, k, cur, n - 1, i);
    }
  }

  lemma {:induction false} ReportsUpToBelow(
    a: Addr, seen: VC, insts: map<Tid, Inst>, k: Kind, cur: Access, n: nat, i: nat)
    requires n <= |seen| && i < |ReportsUpTo(a, seen, insts, k, cur, n)|
    ensures n > 0 && ReportsUpTo(a, seen, insts, k, cur, n)[i].t0 <= Ascending(seen.Keys)[n - 1]
  {
    if i < |ReportsUpTo(a, seen, insts, k, cur, n - 1)| {
      ReportsUpToBelow(a, seen, insts, k, cur, n - 1, i);
    }
  }

  lemma ScanDistinct(a: Addr, seen: VC, insts: map<Tid, Inst>, k: Kind, cur: Access, i: nat, l: nat)
    requires i < l < |ScanReports(a, seen, insts, k, cur)|
    ensures var q := ScanReports(a, seen, insts, k, cur); q[i].t0 < q[l].t0 && q[i].k0 == q[l].k0 == k
  {
    ReportsUpToDistinct(a, seen, insts, k, cur, |seen|, i, l);
    ReportsUpToSound(a, seen, insts, k, cur, |seen|, i);
    ReportsUpToSound(a, seen, insts, k, cur, |seen|, l);
  }

  // Nor do a scan of the writers and one of the readers together.
  lemma TwoScansDistinct(
    a: Addr, writer: VC, writerInst: map<Tid, Inst>, reader: VC, readerInst: map<Tid, Inst>, cur: Access,
    i: nat, l: nat)
    requires var first := ScanReports(a, writer, writerInst, RaceWrite, cur);
             i < l < |first| + |ScanReports(a, reader, readerInst, RaceRead, cur)|
    ensures var q := ScanReports(a, writer, writerInst, RaceWrite, cur)
                     + ScanReports(a, reader, readerInst, RaceRead, cur);
            q[i] != q[l]
  {
    var n := |ScanReports(a, writer, writerInst, RaceWrite, cur)|;
    if l < n {
      ScanDistinct(a, writer, writerInst, RaceWrite, cur, i, l);
    } else if i < n {
      ReportsUpToSound(a, writer, writerInst, RaceWrite, cur, |writer|, i);
      ReportsUpToSound(a, reader, readerInst, RaceRead, cur, |reader|, l - n);
    } else {
      ScanDistinct(a, reader, readerInst, RaceRead, cur, i - n, l - n);
    }
  }

  // The scan reports exactly the racing threads, each with its recorded instruction.
  lemma ScanExact(a: Addr, seen: VC, insts: map<Tid, Inst>, k: Kind, cur: Access, r: Report)
    ensures r in ScanReports(a, seen, insts, k, cur) <==>
            Racing(seen, cur, r.t0) && r == ReportOf(a, insts, k, cur, r.t0)
  {
    var q := ScanReports(a, seen, insts, k, cur);
    if r in q {
      var i :| 0 <= i < |q| && q[i] == r;
      ReportsUpToSound(a, seen, insts, k, cur, |seen|, i);
    }
    if Racing(seen, cur, r.t0) {
      assert !Leq(seen, cur.clock);
      ReportsUpToComplete(a, seen, insts, k, cur, |seen|, Rank(seen.Keys, r.t0));
    }
  }

  // ---------- recorded clocks and happens-before ----------

  // The clock of o's thread has not moved in what event i knows of it.
  ghost predicate SameEpoch(x: Run, o: int, i: nat)
    requires o < |x.trace| && i < |x.trace|
  {
    o >= 0 && Get(Stamp(x, o), x.trace[o].tid) == Get(Stamp(x, i), x.trace[o].tid)
  }

  // Access i by u to the cell, since its last free, is not ordered before event j.
  ghost predicate UnorderedAccess(x: Run, gate: bool, i: nat, j: nat, u: Tid, a: Addr, k: Kind)
    requires i < j < |x.trace|
  {
    SeenAccess(gate, x.trace, i, u, a, k) && NoFree(x.trace, i, j, a) && !HB(x.mode, x.trace, i, j)
  }

  // When entry u of a recorded clock is the stamp of u's last seen access, racing with it is the
  // same as some seen access of u being unordered with the current event.
  lemma RacingMeansUnordered(x: Run, gate: bool, j: nat, seen: VC, u: Tid, a: Addr, k: Kind, cur: Access)
    requires j < |x.trace| && cur.t == x.trace[j].tid && cur.clock == Stamp(x, j)
    requires var o := LastSeen(gate, x.trace, j, u, a, k);
             (u in seen <==> o >= 0) && (o >= 0 ==> seen[u] == Get(Stamp(x, o), u))
    ensures Racing(seen, cur, u) ==> u != cur.t && !HB(x.mode, x.trace, LastSeen(gate, x.trace, j, u, a, k), j)
    ensures Racing(seen, cur, u) <==> u != cur.t && exists i | 0 <= i < j :: UnorderedAccess(x, gate, i, j, u, a, k)
  {
    var o := LastSeen(gate, x.trace, j, u, a, k);
    if o >= 0 {
      ClocksAreHappensBefore(x, o, j);
      assert !HB(x.mode, x.trace, o, j) ==> UnorderedAccess(x, gate, o, j, u, a, k);
    }
    if i: nat :| i < j && UnorderedAccess(x, gate, i, j, u, a, k) {
      assert o >= i;
      ClocksAreHappensBefore(x, i, j);
      if i < o {
        OwnClockBelowStamp(x, i, o);
        assert Get(Stamp(x, i), u) <= Get(Stamp(x, o), u);
      }
    }
  }
}
