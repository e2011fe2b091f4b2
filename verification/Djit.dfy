/** Djit: full per-thread clocks for the last write and read of every cell. */
module Djit {
  import opened Clocks
  import opened Program
  import opened Protocol
  import opened Causality
  import opened ClockTheorem
  import opened Accesses

  datatype DjitMeta = DjitMeta(
    racy: bool,
    writer: VC, writerInst: map<Tid, Inst>,
    reader: VC, readerInst: map<Tid, Inst>)

  type DjitTable = map<Addr, DjitMeta>

  // GetMeta creates a fresh meta for an unknown cell.
  function MetaOf(table: DjitTable, a: Addr): DjitMeta {
    if a in table then table[a] else DjitMeta(false, map[], map[], map[], map[])
  }

  function OnRead(m: DjitMeta, cur: Access): DjitMeta {
    var racy := m.racy || !Leq(m.writer, cur.clock);
    var clk := Get(cur.clock, cur.t);
    m.(racy := racy, reader := m.reader[cur.t := clk], readerInst := m.readerInst[cur.t := cur.inst])
  }

  function OnWrite(m: DjitMeta, cur: Access): DjitMeta {
    var racy := m.racy || !Leq(m.writer, cur.clock) || !Leq(m.reader, cur.clock);
    var clk := Get(cur.clock, cur.t);
    m.(racy := racy, writer := m.writer[cur.t := clk], writerInst := m.writerInst[cur.t := cur.inst])
  }

  function ReadReports(a: Addr, m: DjitMeta, cur: Access): seq<Report> {
    ScanReports(a, m.writer, m.writerInst, RaceWrite, cur)
  }

  function WriteReports(a: Addr, m: DjitMeta, cur: Access): seq<Report> {
    ScanReports(a, m.writer, m.writerInst, RaceWrite, cur) + ScanReports(a, m.reader, m.readerInst, RaceRead, cur)
  }

  lemma Appended(before: seq<Report>, first: seq<Report>, second: seq<Report>)
    ensures before + first + second == before + (first + second)
  {
  }

  // ---------- the detector object ----------

  class Detector {
    const track: bool
    var metas: DjitTable
    var insts: map<Addr, set<Inst>>
    var races: seq<Report>
    var marked: set<Inst>

    constructor (track: bool)
      ensures this.track == track && metas == map[] && insts == map[] && races == [] && marked == {}
    {
      this.track, metas, insts, races, marked := track, map[], map[], [], {};
    }

    // Reports every racing entry of a recorded clock, in table order.
    method ReportAll(a: Addr, seen: VC, insts: map<Tid, Inst>, k: Kind, cur: Access)
      requires !Leq(seen, cur.clock)
      modifies this`races
      ensures races == old(races) + ScanReports(a, seen, insts, k, cur)
    {
      var threads := Ascending(seen.Keys);
      var i := 0;
      while i < |threads|
        invariant 0 <= i <= |threads|
        invariant races == old(races) + ReportsUpTo(a, seen, insts, k, cur, i)
      {
        var u := threads[i];
        if cur.t != u && seen[u] > Get(cur.clock, u) {
          races := races + [ReportOf(a, insts, k, cur, u)];
        }
        i := i + 1;
      }
    }

    // Checks a recorded clock against the current one.
    method CheckSeen(a: Addr, seen: VC, insts: map<Tid, Inst>, k: Kind, cur: Access) returns (racy: bool)
      modifies this`races
      ensures racy <==> !Leq(seen, cur.clock)
      ensures races == old(races) + ScanReports(a, seen, insts, k, cur)
    {
      racy := !Leq(seen, cur.clock);
      if racy {
        ReportAll(a, seen, insts, k, cur);
      }
    }

    method ProcessRead(a: Addr, cur: Access)
      requires cur.kind.RaceRead?
      modifies this`metas, this`insts, this`races
      ensures metas == old(metas)[a := OnRead(MetaOf(old(metas), a), cur)]
      ensures races == old(races) + ReadReports(a, MetaOf(old(metas), a), cur)
      ensures insts == Collect(old(insts), a, track, cur.inst)
    {
      var m := MetaOf(metas, a);
      var racy := CheckSeen(a, m.writer, m.writerInst, RaceWrite, cur);
      if racy {
        m := m.(racy := true);
      }
      m := m.(reader := m.reader[cur.t := Get(cur.clock, cur.t)], readerInst := m.readerInst[cur.t := cur.inst]);
      metas := metas[a := m];
      insts := insts[a := InstsOf(insts, a) + (if track then {cur.inst} else {})];
    }

    method ProcessWrite(a: Addr, cur: Access)
      requires cur.kind.RaceWrite?
      modifies this`metas, this`insts, this`races
      ensures metas == old(metas)[a := OnWrite(MetaOf(old(metas), a), cur)]
      ensures races == old(races) + WriteReports(a, MetaOf(old(metas), a), cur)
      ensures insts == Collect(old(insts), a, track, cur.inst)
    {
      var m := MetaOf(metas, a);
      var writersRace := CheckSeen(a, m.writer, m.writerInst, RaceWrite, cur);
      var readersRace := CheckSeen(a, m.reader, m.readerInst, RaceRead, cur);
      Appended(old(races),
               ScanReports(a, m.writer, m.writerInst, RaceWrite, cur),
               ScanReports(a, m.reader, m.readerInst, RaceRead, cur));
      m := DjitMeta(m.racy || writersRace || readersRace,
                    m.writer[cur.t := Get(cur.clock, cur.t)], m.writerInst[cur.t := cur.inst], m.reader, m.readerInst);
      metas := metas[a := m];
      insts := insts[a := InstsOf(insts, a) + (if track then {cur.inst} else {})];
    }

    // Freeing a cell marks the instructions it has collected if it is racy.
    method FreeRegion(region: set<Addr>)
      modifies this`metas, this`insts, this`marked
      ensures metas == old(metas) - region && insts == old(insts) - region
      ensures marked == old(marked) + if track then RacyInsts(old(metas), old(insts), region) else {}
    {
      if track {
        MarkRegion(region);
      }
      metas := metas - region;
      insts := insts - region;
    }

    method MarkRegion(region: set<Addr>)
      modifies this`marked
      ensures marked == old(marked) + RacyInsts(metas, insts, region)
    {
      AscendingMembers(region);
      MarkRacy(Ascending(region));
    }

    method MarkRacy(cells: seq<Addr>)
      modifies this`marked
      ensures marked == old(marked) + RacyInsts(metas, insts, Members(cells))
    {
      for i := 0 to |cells|
        invariant marked == old(marked) + RacyInsts(metas, insts, Members(cells[..i]))
      {
        PrefixMembers(cells, i);
        RacyInstsOneMore(metas, insts, Members(cells[..i]), cells[i]);
        if MetaOf(metas, cells[i]).racy {
          marked := marked + InstsOf(insts, cells[i]);
        }
      }
      assert cells[..|cells|] == cells;
    }
  }

  function InstsOf(insts: map<Addr, set<Inst>>, a: Addr): set<Inst> {
    if a in insts then insts[a] else {}
  }

  // A processed access adds its instruction to the cell's set.
  function Collect(insts: map<Addr, set<Inst>>, a: Addr, track: bool, inst: Inst): map<Addr, set<Inst>> {
    insts[a := InstsOf(insts, a) + if track then {inst} else {}]
  }

  function RacyInsts(metas: DjitTable, insts: map<Addr, set<Inst>>, region: set<Addr>): set<Inst> {
    set a, i | a in region && MetaOf(metas, a).racy && i in InstsOf(insts, a) :: i
  }

  lemma RacyInstsOneMore(metas: DjitTable, insts: map<Addr, set<Inst>>, region: set<Addr>, a: Addr)
    ensures RacyInsts(metas, insts, region + {a}) ==
            RacyInsts(metas, insts, region) + if MetaOf(metas, a).racy then InstsOf(insts, a) else {}
  {
  }

  // ---------- the detector along a run ----------

  // The access of event j as the handlers see it.
  ghost function AccessAt(x: Run, j: nat): Access
    requires j < |x.trace|
  {
    var e := x.trace[j];
    match e.op
    case Read(_, i) => Access(e.tid, i, RaceRead, ClockAt(x, j, e.tid))
    case Write(_, i) => Access(e.tid, i, RaceWrite, ClockAt(x, j, e.tid))
    case _ => Access(e.tid, 0, RaceRead, ClockAt(x, j, e.tid))
  }

  ghost function TableAt(x: Run, gate: bool, n: nat): DjitTable
    requires n <= |x.trace|
  {
    if n == 0 then map[] else
    var table := TableAt(x, gate, n - 1);
    match x.trace[n - 1].op
    case Read(a, _) =>
      if Processed(gate, x.trace, n - 1) then table[a := OnRead(MetaOf(table, a), AccessAt(x, n - 1))] else table
    case Write(a, _) =>
      if Processed(gate, x.trace, n - 1) then table[a := OnWrite(MetaOf(table, a), AccessAt(x, n - 1))] else table
    case Free(region) => table - region
    case _ => table
  }

  // The races reported at event j.
  ghost function ReportsAt(x: Run, gate: bool, j: nat): seq<Report>
    requires j < |x.trace|
  {
    if !Processed(gate, x.trace, j) then [] else
    var table := TableAt(x, gate, j);
    match x.trace[j].op
    case Read(a, _) => ReadReports(a, MetaOf(table, a), AccessAt(x, j))
    case Write(a, _) => WriteReports(a, MetaOf(table, a), AccessAt(x, j))
    case _ => []
  }

  ghost function MetaAt(x: Run, gate: bool, n: nat, a: Addr): DjitMeta
    requires n <= |x.trace|
  {
    MetaOf(TableAt(x, gate, n), a)
  }

  lemma MetaNext(x: Run, gate: bool, n: nat, a: Addr)
    requires n < |x.trace|
    ensures var op, m := x.trace[n].op, MetaAt(x, gate, n, a);
            MetaAt(x, gate, n + 1, a) ==
            if op.Read? && op.a == a && Processed(gate, x.trace, n) then OnRead(m, AccessAt(x, n))
            else if op.Write? && op.a == a && Processed(gate, x.trace, n) then OnWrite(m, AccessAt(x, n))
            else if FreedAt(x.trace, n, a) then MetaOf(map[], a)
            else m
  {
  }

  ghost predicate EntryIs(x: Run, seen: VC, insts: map<Tid, Inst>, u: Tid, o: int)
    requires o < |x.trace|
  {
    && (u in seen <==> o >= 0)
    && (o >= 0 ==> seen[u] == Get(Stamp(x, o), u) && u in insts && insts[u] == AccessAt(x, o).inst)
  }

  // Entry u of a cell's clocks is the stamp, and its table the instruction, of u's last seen access.
  ghost predicate CellOrigin(x: Run, gate: bool, n: nat, u: Tid, a: Addr)
    requires n <= |x.trace|
  {
    var m := MetaAt(x, gate, n, a);
    && EntryIs(x, m.writer, m.writerInst, u, LastSeen(gate, x.trace, n, u, a, RaceWrite))
    && EntryIs(x, m.reader, m.readerInst, u, LastSeen(gate, x.trace, n, u, a, RaceRead))
  }

  lemma LastSeenNext(x: Run, gate: bool, n: nat, u: Tid, a: Addr, k: Kind)
    requires n < |x.trace|
    ensures LastSeen(gate, x.trace, n + 1, u, a, k) ==
            if FreedAt(x.trace, n, a) then -1
            else if SeenAccess(gate, x.trace, n, u, a, k) then n
            else LastSeen(gate, x.trace, n, u, a, k)
  {
  }

  lemma CellOriginNext(x: Run, gate: bool, n: nat, u: Tid, a: Addr)
    requires n < |x.trace| && CellOrigin(x, gate, n, u, a)
    ensures CellOrigin(x, gate, n + 1, u, a)
  {
    MetaNext(x, gate, n, a);
    LastSeenNext(x, gate, n, u, a, RaceRead);
    LastSeenNext(x, gate, n, u, a, RaceWrite);
  }

  lemma {:induction false} CellOriginHolds(x: Run, gate: bool, n: nat, u: Tid, a: Addr)
    requires n <= |x.trace|
    ensures CellOrigin(x, gate, n, u, a)
  {
    if n > 0 {
      CellOriginHolds(x, gate, n - 1, u, a);
      CellOriginNext(x, gate, n - 1, u, a);
    }
  }

  // ---------- exactness ----------

  // Access i by u to the cell of event j conflicts with j and is not ordered before it.
  ghost predicate Races(x: Run, gate: bool, i: nat, j: nat, u: Tid, a: Addr, k: Kind)
    requires i < j < |x.trace|
  {
    u != x.trace[j].tid && UnorderedAccess(x, gate, i, j, u, a, k)
  }

  ghost predicate HasRace(x: Run, gate: bool, j: nat, u: Tid, a: Addr, k: Kind)
    requires j < |x.trace|
  {
    exists i | 0 <= i < j :: Races(x, gate, i, j, u, a, k)
  }

  // The recorded kinds an access of kind k is checked against.
  function Seen(m: DjitMeta, k: Kind): VC {
    if k.RaceWrite? then m.writer else m.reader
  }

  function SeenInst(m: DjitMeta, k: Kind): map<Tid, Inst> {
    if k.RaceWrite? then m.writerInst else m.readerInst
  }

  lemma RacingIsRace(x: Run, gate: bool, j: nat, u: Tid, a: Addr, k: Kind)
    requires j < |x.trace| && (x.trace[j].op.Read? || x.trace[j].op.Write?)
    ensures Racing(Seen(MetaAt(x, gate, j, a), k), AccessAt(x, j), u) <==> HasRace(x, gate, j, u, a, k)
  {
    CellOriginHolds(x, gate, j, u, a);
    var seen, cur := Seen(MetaAt(x, gate, j, a), k), AccessAt(x, j);
    RacingMeansUnordered(x, gate, j, seen, u, a, k, cur);
    if Racing(seen, cur, u) {
      var i :| 0 <= i < j && UnorderedAccess(x, gate, i, j, u, a, k);
      assert Races(x, gate, i, j, u, a, k);
    }
    if i: nat :| i < j && Races(x, gate, i, j, u, a, k) {
      assert UnorderedAccess(x, gate, i, j, u, a, k);
    }
  }

  // At every processed access, thread u is reported for an access of kind k exactly when some
  // earlier conflicting access of u to the cell since its last free does not happen before it.
  // The instruction reported for u is that of u's last such access.
  lemma DjitExact(x: Run, gate: bool, j: nat, a: Addr, r: Report)
    requires j < |x.trace| && Processed(gate, x.trace, j)
    requires x.trace[j].op.Read? || x.trace[j].op.Write?
    requires a == x.trace[j].op.a
    ensures r in ReportsAt(x, gate, j) <==>
            && r.addr == a && r.t1 == x.trace[j].tid && r.i1 == x.trace[j].op.inst
            && r.k1 == AccessAt(x, j).kind && Conflict(r.k0, r.k1)
            && HasRace(x, gate, j, r.t0, a, r.k0)
            && r.i0 == InstOf(SeenInst(MetaAt(x, gate, j, a), r.k0), r.t0)
  {
    var m, cur := MetaAt(x, gate, j, a), AccessAt(x, j);
    ScanExact(a, m.writer, m.writerInst, RaceWrite, cur, r);
    ScanExact(a, m.reader, m.readerInst, RaceRead, cur, r);
    RacingIsRace(x, gate, j, r.t0, a, r.k0);
  }

  // No report is made twice: the writers are scanned once, then the readers.
  lemma ReportedOnce(x: Run, gate: bool, j: nat, i: nat, l: nat)
    requires j < |x.trace| && i < l < |ReportsAt(x, gate, j)|
    ensures ReportsAt(x, gate, j)[i] != ReportsAt(x, gate, j)[l]
  {
    var a := x.trace[j].op.a;
    var m, cur := MetaAt(x, gate, j, a), AccessAt(x, j);
    if x.trace[j].op.Write? {
      TwoScansDistinct(a, m.writer, m.writerInst, m.reader, m.readerInst, cur, i, l);
    } else {
      ScanDistinct(a, m.writer, m.writerInst, RaceWrite, cur, i, l);
    }
  }

  lemma ReportedInstruction(x: Run, gate: bool, j: nat, u: Tid, a: Addr, k: Kind)
    requires j < |x.trace| && HasRace(x, gate, j, u, a, k)
    ensures var o := LastSeen(gate, x.trace, j, u, a, k);
            && o >= 0 && u in SeenInst(MetaAt(x, gate, j, a), k)
            && SeenInst(MetaAt(x, gate, j, a), k)[u] == x.trace[o].op.inst
  {
    CellOriginHolds(x, gate, j, u, a);
    var i :| 0 <= i < j && Races(x, gate, i, j, u, a, k);
    assert LastSeen(gate, x.trace, j, u, a, k) >= i;
  }

  // ---------- the racy mark ----------

  // A recorded clock that does not happen before the current one holds a racing entry.
  lemma UnorderedClockRaces(x: Run, gate: bool, j: nat, a: Addr, k: Kind)
    requires j < |x.trace| && (x.trace[j].op.Read? || x.trace[j].op.Write?)
    requires !Leq(Seen(MetaAt(x, gate, j, a), k), AccessAt(x, j).clock)
    ensures exists u :: Racing(Seen(MetaAt(x, gate, j, a), k), AccessAt(x, j), u)
  {
    var seen, cur := Seen(MetaAt(x, gate, j, a), k), AccessAt(x, j);
    var u :| u in seen && (u !in cur.clock || seen[u] > cur.clock[u]);
    CellOriginHolds(x, gate, j, u, a);
    var o := LastSeen(gate, x.trace, j, u, a, k);
    OwnStampPositive(x, o);
    if u == cur.t {
      OwnClockBelowStamp(x, o, j);
    }
    assert Get(cur.clock, u) < seen[u];
    assert Racing(seen, cur, u);
  }

  // Event j reports a race on cell a.
  ghost predicate ReportsOn(x: Run, gate: bool, j: nat, a: Addr)
    requires j < |x.trace|
  {
    && (x.trace[j].op.Read? || x.trace[j].op.Write?) && x.trace[j].op.a == a
    && ReportsAt(x, gate, j) != []
  }

  lemma MarkedWhenReported(x: Run, gate: bool, j: nat, a: Addr)
    requires j < |x.trace| && Processed(gate, x.trace, j)
    requires (x.trace[j].op.Read? || x.trace[j].op.Write?) && x.trace[j].op.a == a
    ensures MetaAt(x, gate, j + 1, a).racy <==> MetaAt(x, gate, j, a).racy || ReportsOn(x, gate, j, a)
  {
    var m, cur := MetaAt(x, gate, j, a), AccessAt(x, j);
    MetaNext(x, gate, j, a);
    forall k: Kind | !Leq(Seen(m, k), cur.clock) ensures ScanReports(a, Seen(m, k), SeenInst(m, k), k, cur) != [] {
      UnorderedClockRaces(x, gate, j, a, k);
      var u :| Racing(Seen(m, k), cur, u);
      ScanExact(a, Seen(m, k), SeenInst(m, k), k, cur, ReportOf(a, SeenInst(m, k), k, cur, u));
    }
    assert Seen(m, RaceWrite) == m.writer && Seen(m, RaceRead) == m.reader;
  }

  // The events of the run that report a race on cell a.
  ghost function Reporting(x: Run, gate: bool, a: Addr): iset<nat> {
    iset j: nat | j < |x.trace| && ReportsOn(x, gate, j, a)
  }

  // One of the given events happened since a was last freed.
  ghost predicate SinceFree(tr: Trace, events: iset<nat>, n: nat, a: Addr)
    requires n <= |tr|
  {
    exists j: nat | j < n :: j in events && NoFree(tr, j, n, a)
  }

  lemma SinceFreeNext(tr: Trace, events: iset<nat>, n: nat, a: Addr)
    requires n < |tr|
    ensures SinceFree(tr, events, n + 1, a) <==> n in events || (SinceFree(tr, events, n, a) && !FreedAt(tr, n, a))
  {
    if SinceFree(tr, events, n, a) && !FreedAt(tr, n, a) {
      var j: nat :| j < n && j in events && NoFree(tr, j, n, a);
      assert NoFree(tr, j, n + 1, a);
    }
    if n in events {
      assert NoFree(tr, n, n + 1, a);
    }
    if SinceFree(tr, events, n + 1, a) {
      var j: nat :| j < n + 1 && j in events && NoFree(tr, j, n + 1, a);
      if j < n {
        assert !FreedAt(tr, n, a);
        assert NoFree(tr, j, n, a);
      }
    }
  }

  lemma RacyNext(x: Run, gate: bool, n: nat, a: Addr)
    requires n < |x.trace|
    requires MetaAt(x, gate, n, a).racy <==> SinceFree(x.trace, Reporting(x, gate, a), n, a)
    ensures MetaAt(x, gate, n + 1, a).racy <==> SinceFree(x.trace, Reporting(x, gate, a), n + 1, a)
  {
    MetaNext(x, gate, n, a);
    SinceFreeNext(x.trace, Reporting(x, gate, a), n, a);
    if Processed(gate, x.trace, n) && (x.trace[n].op.Read? || x.trace[n].op.Write?) && x.trace[n].op.a == a {
      MarkedWhenReported(x, gate, n, a);
    }
  }

  // A cell is marked racy exactly when a race was reported on it since it was last freed.
  lemma {:induction false} RacyExact(x: Run, gate: bool, n: nat, a: Addr)
    requires n <= |x.trace|
    ensures MetaAt(x, gate, n, a).racy <==> SinceFree(x.trace, Reporting(x, gate, a), n, a)
  {
    if n == 0 {
      assert !SinceFree(x.trace, Reporting(x, gate, a), 0, a);
    } else {
      var l := n - 1;
      RacyExact(x, gate, l, a);
      RacyNext(x, gate, l, a);
    }
  }
}
