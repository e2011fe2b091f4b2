/** FastTrack: epochs instead of full clocks, with an adaptive clock for shared reads. */
module FastTrack {
  import opened Clocks
  import opened Program
  import opened Protocol
  import opened Causality
  import opened Accesses
  import opened Epochs
  import D = Djit

  // ---------- the handlers on values ----------

  datatype FTMeta = FTMeta(
    racy: bool, readShared: bool,
    writer: Epoch, reader: Epoch, readerClock: VC,
    writerInst: Inst, readerInst: map<Tid, Inst>)

  const FRESH_META := FTMeta(false, false, INITIAL_EPOCH, INITIAL_EPOCH, map[], 0, map[])

  type FTTable = map<Addr, FTMeta>

  function MetaOf(table: FTTable, a: Addr): FTMeta {
    if a in table then table[a] else FRESH_META
  }

  function EpochReports(a: Addr, e: Epoch, inst: Inst, k: Kind, cur: Access): seq<Report> {
    if !EpochBefore(e, cur.clock) && cur.t != e.tid && e.clk > Get(cur.clock, e.tid)
    then [Report(a, e.tid, inst, k, cur.t, cur.inst, cur.kind)] else []
  }

  predicate SkipsRead(m: FTMeta, cur: Access) {
    EqualTo(m.reader, cur.clock)
  }

  predicate SkipsWrite(m: FTMeta, cur: Access) {
    m.writer != INITIAL_EPOCH && EqualTo(m.writer, cur.clock)
  }

  function OnRead(m: FTMeta, cur: Access): FTMeta {
    if SkipsRead(m, cur) then m else
    var own := Get(cur.clock, cur.t);
    var racy := m.racy || !EpochBefore(m.writer, cur.clock);
    var shared := m.readShared || !EpochBefore(m.reader, cur.clock);
    var clock, insts := m.readerClock[cur.t := own], m.readerInst[cur.t := cur.inst];
    FTMeta(racy, shared, m.writer, Epoch(cur.t, own), clock, m.writerInst, insts)
  }

  function ReadReports(a: Addr, m: FTMeta, cur: Access): seq<Report> {
    if SkipsRead(m, cur) then [] else EpochReports(a, m.writer, m.writerInst, RaceWrite, cur)
  }

  // Whether the write finds an unordered read, by the epoch or by the shared-read clock.
  predicate ReadersUnordered(m: FTMeta, cur: Access) {
    if m.readShared then !Leq(m.readerClock, cur.clock) else !EpochBefore(m.reader, cur.clock)
  }

  function OnWrite(m: FTMeta, cur: Access): FTMeta {
    if SkipsWrite(m, cur) then m else
    var racy := m.racy || !EpochBefore(m.writer, cur.clock) || ReadersUnordered(m, cur);
    var shared := m.readShared && Leq(m.readerClock, cur.clock);
    m.(racy := racy, readShared := shared, writer := Epoch(cur.t, Get(cur.clock, cur.t)), writerInst := cur.inst)
  }

  function ReaderReports(a: Addr, m: FTMeta, cur: Access): seq<Report> {
    if m.readShared then ScanReports(a, m.readerClock, m.readerInst, RaceRead, cur)
    else EpochReports(a, m.reader, InstOf(m.readerInst, m.reader.tid), RaceRead, cur)
  }

  function WriteReports(a: Addr, m: FTMeta, cur: Access): seq<Report> {
    if SkipsWrite(m, cur) then [] else
    EpochReports(a, m.writer, m.writerInst, RaceWrite, cur) + ReaderReports(a, m, cur)
  }

  // The instructions collected: those of the accesses that are not skipped.
  function ReadInsts(insts: set<Inst>, m: FTMeta, cur: Access, track: bool): set<Inst> {
    insts + if track && !SkipsRead(m, cur) then {cur.inst} else {}
  }

  function WriteInsts(insts: set<Inst>, m: FTMeta, cur: Access, track: bool): set<Inst> {
    insts + if track && !SkipsWrite(m, cur) then {cur.inst} else {}
  }

  // ---------- the cell object, updated in place ----------

  class Cell {
    const addr: Addr
    const track: bool
    var racy: bool
    var insts: set<Inst>
    var readShared: bool
    var writer: Epoch
    var reader: Epoch
    var readerClock: VC
    var writerInst: Inst
    var readerInst: map<Tid, Inst>

    constructor (a: Addr, track: bool)
      ensures addr == a && this.track == track && Value() == FRESH_META && insts == {}
    {
      addr, this.track, insts := a, track, {};
      racy, readShared := false, false;
      writer, reader, readerClock := INITIAL_EPOCH, INITIAL_EPOCH, map[];
      writerInst, readerInst := 0, map[];
    }

    function Value(): FTMeta
      reads this
    {
      FTMeta(racy, readShared, writer, reader, readerClock, writerInst, readerInst)
    }

    // Checks one epoch; an epoch that is not ordered before the access marks the cell racy.
    method CheckEpoch(e: Epoch, inst: Inst, k: Kind, cur: Access) returns (races: seq<Report>)
      modifies this`racy
      ensures racy <==> old(racy) || !EpochBefore(e, cur.clock)
      ensures races == EpochReports(addr, e, inst, k, cur)
    {
      races := [];
      if !EpochBefore(e, cur.clock) {
        racy := true;
        if cur.t != e.tid && e.clk > Get(cur.clock, e.tid) {
          races := [Report(addr, e.tid, inst, k, cur.t, cur.inst, cur.kind)];
        }
      }
    }

    method ProcessRead(cur: Access) returns (races: seq<Report>)
      requires cur.kind.RaceRead?
      modifies this
      ensures Value() == OnRead(old(Value()), cur)
      ensures races == ReadReports(addr, old(Value()), cur)
      ensures insts == ReadInsts(old(insts), old(Value()), cur, track)
    {
      if EqualTo(reader, cur.clock) {
        return [];
      }
      races := CheckEpoch(writer, writerInst, RaceWrite, cur);
      if !EpochBefore(reader, cur.clock) {
        readShared := true;
      }
      reader := Epoch(cur.t, Get(cur.clock, cur.t));
      readerClock := readerClock[cur.t := Get(cur.clock, cur.t)];
      readerInst := readerInst[cur.t := cur.inst];
      NoteInst(cur);
    }

    method ProcessWrite(cur: Access) returns (races: seq<Report>)
      requires cur.kind.RaceWrite?
      modifies this
      ensures Value() == OnWrite(old(Value()), cur)
      ensures races == WriteReports(addr, old(Value()), cur)
      ensures insts == WriteInsts(old(insts), old(Value()), cur, track)
    {
      if writer != INITIAL_EPOCH && EqualTo(writer, cur.clock) {
        return [];
      }
      NoteInst(cur);
      races := CheckAndReplace(cur);
    }

    method NoteInst(cur: Access)
      modifies this`insts
      ensures insts == old(insts) + if track then {cur.inst} else {}
    {
      if track {
        insts := insts + {cur.inst};
      }
    }

    // Checks the recorded epochs and makes the write the last one.
    method CheckAndReplace(cur: Access) returns (races: seq<Report>)
      requires cur.kind.RaceWrite? && !SkipsWrite(Value(), cur)
      modifies this`racy, this`readShared, this`writer, this`writerInst
      ensures Value() == OnWrite(old(Value()), cur)
      ensures races == WriteReports(addr, old(Value()), cur)
    {
      races := CheckEpoch(writer, writerInst, RaceWrite, cur);
      var more := CheckReaders(cur);
      races := races + more;
      writer := Epoch(cur.t, Get(cur.clock, cur.t));
      writerInst := cur.inst;
    }

    // The instructions to be marked as racy when the cell is freed.
    method ProcessFree() returns (marked: set<Inst>)
      ensures marked == MarkedOnFree(track, racy, insts)
    {
      marked := if track && racy then insts else {};
    }

    method CheckReaders(cur: Access) returns (races: seq<Report>)
      requires cur.kind.RaceWrite?
      modifies this`racy, this`readShared
      ensures racy <==> old(racy) || ReadersUnordered(old(Value()), cur)
      ensures readShared <==> old(readShared) && Leq(readerClock, cur.clock)
      ensures races == ReaderReports(addr, old(Value()), cur)
    {
      races := [];
      if !readShared && !EpochBefore(reader, cur.clock) {
        races := CheckEpoch(reader, InstOf(readerInst, reader.tid), RaceRead, cur);
      } else if readShared && !Leq(readerClock, cur.clock) {
        racy := true;
        races := ReportReaders(cur);
        readShared := false;
      }
    }

    method ReportReaders(cur: Access) returns (races: seq<Report>)
      requires cur.kind.RaceWrite? && !Leq(readerClock, cur.clock)
      ensures races == ScanReports(addr, readerClock, readerInst, RaceRead, cur)
    {
      races := [];
      var threads := Ascending(readerClock.Keys);
      var i := 0;
      while i < |threads|
        invariant 0 <= i <= |threads|
        invariant races == ReportsUpTo(addr, readerClock, readerInst, RaceRead, cur, i)
      {
        var u := threads[i];
        if cur.t != u && readerClock[u] > Get(cur.clock, u) {
          races := races + [ReportOf(addr, readerInst, RaceRead, cur, u)];
        }
        i := i + 1;
      }
    }
  }

  // ---------- the detector along a run ----------

  ghost function TableAt(x: Run, gate: bool, n: nat): FTTable
    requires n <= |x.trace|
  {
    if n == 0 then map[] else
    var table := TableAt(x, gate, n - 1);
    match x.trace[n - 1].op
    case Read(a, _) =>
      if Processed(gate, x.trace, n - 1) then table[a := OnRead(MetaOf(table, a), D.AccessAt(x, n - 1))] else table
    case Write(a, _) =>
      if Processed(gate, x.trace, n - 1) then table[a := OnWrite(MetaOf(table, a), D.AccessAt(x, n - 1))] else table
    case Free(region) => table - region
    case _ => table
  }

  ghost function MetaAt(x: Run, gate: bool, n: nat, a: Addr): FTMeta
    requires n <= |x.trace|
  {
    MetaOf(TableAt(x, gate, n), a)
  }

  ghost function ReportsAt(x: Run, gate: bool, j: nat): seq<Report>
    requires j < |x.trace|
  {
    if !Processed(gate, x.trace, j) then [] else
    match x.trace[j].op
    case Read(a, _) => ReadReports(a, MetaAt(x, gate, j, a), D.AccessAt(x, j))
    case Write(a, _) => WriteReports(a, MetaAt(x, gate, j, a), D.AccessAt(x, j))
    case _ => []
  }

  lemma MetaNext(x: Run, gate: bool, n: nat, a: Addr)
    requires n < |x.trace|
    ensures var op, m := x.trace[n].op, MetaAt(x, gate, n, a);
            MetaAt(x, gate, n + 1, a) ==
            if op.Read? && op.a == a && Processed(gate, x.trace, n) then OnRead(m, D.AccessAt(x, n))
            else if op.Write? && op.a == a && Processed(gate, x.trace, n) then OnWrite(m, D.AccessAt(x, n))
            else if FreedAt(x.trace, n, a) then FRESH_META
            else m
  {
  }

  // ---------- the accesses the epochs stand for ----------

  // Access i to cell a was skipped by the same-epoch test.
  ghost predicate Skipped(x: Run, gate: bool, i: nat, a: Addr)
    requires i < |x.trace|
  {
    var m, cur := MetaAt(x, gate, i, a), D.AccessAt(x, i);
    if cur.kind.RaceRead? then SkipsRead(m, cur) else SkipsWrite(m, cur)
  }

  ghost predicate SeenOn(x: Run, gate: bool, i: nat, a: Addr, k: Kind)
    requires i < |x.trace|
  {
    SeenAccess(gate, x.trace, i, x.trace[i].tid, a, k)
  }

  ghost predicate Recorded(x: Run, gate: bool, i: nat, a: Addr, k: Kind)
    requires i < |x.trace|
  {
    SeenOn(x, gate, i, a, k) && !Skipped(x, gate, i, a)
  }

  // The last recorded access of kind k to a since a was freed, or -1.
  ghost function LastRecorded(x: Run, gate: bool, n: nat, a: Addr, k: Kind): (j: int)
    requires n <= |x.trace|
    ensures -1 <= j < n
    ensures j >= 0 ==> Recorded(x, gate, j, a, k) && NoFree(x.trace, j, n, a)
  {
    if n == 0 || FreedAt(x.trace, n - 1, a) then -1
    else if Recorded(x, gate, n - 1, a, k) then n - 1
    else LastRecorded(x, gate, n - 1, a, k)
  }

  // The last recorded read of a by u since a was freed, or -1.
  ghost function LastReadBy(x: Run, gate: bool, n: nat, a: Addr, u: Tid): (j: int)
    requires n <= |x.trace|
    ensures -1 <= j < n
    ensures j >= 0 ==> Recorded(x, gate, j, a, RaceRead) && x.trace[j].tid == u && NoFree(x.trace, j, n, a)
  {
    if n == 0 || FreedAt(x.trace, n - 1, a) then -1
    else if Recorded(x, gate, n - 1, a, RaceRead) && x.trace[n - 1].tid == u then n - 1
    else LastReadBy(x, gate, n - 1, a, u)
  }

  // No recorded access of the kind lies between the last one and n.
  lemma {:induction false} NoneRecordedSince(x: Run, gate: bool, n: nat, a: Addr, k: Kind, i: nat)
    requires i < n <= |x.trace| && NoFree(x.trace, i, n, a) && Touches(x.trace[i], a)
    requires LastRecorded(x, gate, n, a, k) < i
    ensures !Recorded(x, gate, i, a, k) && LastRecorded(x, gate, i, a, k) == LastRecorded(x, gate, n, a, k)
    decreases n
  {
    assert i < n - 1 ==> !FreedAt(x.trace, n - 1, a);
    if i < n - 1 {
      assert NoFree(x.trace, i, n - 1, a);
      NoneRecordedSince(x, gate, n - 1, a, k, i);
    }
  }

  lemma {:induction false} NoReadBySince(x: Run, gate: bool, n: nat, a: Addr, u: Tid, i: nat)
    requires i < n <= |x.trace| && NoFree(x.trace, i, n, a) && Touches(x.trace[i], a)
    requires LastReadBy(x, gate, n, a, u) < i
    ensures Recorded(x, gate, i, a, RaceRead) ==> x.trace[i].tid != u
    ensures LastReadBy(x, gate, i, a, u) == LastReadBy(x, gate, n, a, u)
    decreases n
  {
    assert i < n - 1 ==> !FreedAt(x.trace, n - 1, a);
    if i < n - 1 {
      assert NoFree(x.trace, i, n - 1, a);
      NoReadBySince(x, gate, n - 1, a, u, i);
    }
  }

  ghost function EpochOf(x: Run, o: int): Epoch
    requires o < |x.trace|
  {
    if o < 0 then INITIAL_EPOCH else Epoch(x.trace[o].tid, Get(Stamp(x, o), x.trace[o].tid))
  }

  // The epochs are those of the last recorded write and read.
  ghost predicate EpochsAre(x: Run, gate: bool, n: nat, a: Addr)
    requires n <= |x.trace|
  {
    var m := MetaAt(x, gate, n, a);
    && m.writer == EpochOf(x, LastRecorded(x, gate, n, a, RaceWrite))
    && m.reader == EpochOf(x, LastRecorded(x, gate, n, a, RaceRead))
  }

  // Entry u of the reader clock is that of u's last recorded read.
  ghost predicate ReaderIs(x: Run, gate: bool, n: nat, a: Addr, u: Tid)
    requires n <= |x.trace|
  {
    var m, o := MetaAt(x, gate, n, a), LastReadBy(x, gate, n, a, u);
    && (u in m.readerClock <==> o >= 0)
    && (o >= 0 ==> m.readerClock[u] == Get(Stamp(x, o), u))
  }

  lemma EpochsStart(x: Run, gate: bool, a: Addr)
    ensures EpochsAre(x, gate, 0, a)
  {
  }

  lemma EpochsNext(x: Run, gate: bool, n: nat, a: Addr)
    requires n < |x.trace| && EpochsAre(x, gate, n, a)
    ensures EpochsAre(x, gate, n + 1, a)
  {
    MetaNext(x, gate, n, a);
  }

  lemma ReaderNext(x: Run, gate: bool, n: nat, a: Addr, u: Tid)
    requires n < |x.trace| && ReaderIs(x, gate, n, a, u)
    ensures ReaderIs(x, gate, n + 1, a, u)
  {
    MetaNext(x, gate, n, a);
  }

  lemma {:induction false} EpochsHold(x: Run, gate: bool, n: nat, a: Addr)
    requires n <= |x.trace|
    ensures EpochsAre(x, gate, n, a)
  {
    if n == 0 {
      EpochsStart(x, gate, a);
    } else {
      EpochsHold(x, gate, n - 1, a);
      EpochsNext(x, gate, n - 1, a);
    }
  }

  lemma {:induction false} ReaderHolds(x: Run, gate: bool, n: nat, a: Addr, u: Tid)
    requires n <= |x.trace|
    ensures ReaderIs(x, gate, n, a, u)
  {
    if n > 0 {
      ReaderHolds(x, gate, n - 1, a, u);
      ReaderNext(x, gate, n - 1, a, u);
    }
  }

  // Everything a cell keeps is the stamp of a recorded access.
  lemma CellOriginHolds(x: Run, gate: bool, n: nat, a: Addr, u: Tid)
    requires n <= |x.trace|
    ensures EpochsAre(x, gate, n, a) && ReaderIs(x, gate, n, a, u)
  {
    EpochsHold(x, gate, n, a);
    ReaderHolds(x, gate, n, a, u);
  }
}
