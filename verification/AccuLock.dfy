/** AccuLock: one lockset-tagged epoch for the last write and for each thread's last read. */
module AccuLock {
  import opened Clocks
  import opened Program
  import opened Protocol
  import opened Causality
  import opened ClockTheorem
  import opened Accesses
  import opened Epochs
  import D = Djit
  import opened Locksets

  // ---------- the handlers on values ----------

  const NO_ELP := ELP(INITIAL_EPOCH, {})

  datatype AccuMeta = AccuMeta(
    racy: bool, writer: ELP, readers: map<Tid, ELP>, writerInst: Inst, readerInst: map<Tid, Inst>)

  const FRESH_META := AccuMeta(false, NO_ELP, map[], 0, map[])

  type AccuTable = map<Addr, AccuMeta>

  function MetaOf(table: AccuTable, a: Addr): AccuMeta {
    if a in table then table[a] else FRESH_META
  }

  function ReaderOf(m: AccuMeta, t: Tid): ELP {
    if t in m.readers then m.readers[t] else NO_ELP
  }

  predicate SkipsRead(m: AccuMeta, cur: Access) {
    EqualTo(ReaderOf(m, cur.t).epoch, cur.clock) || EqualTo(m.writer.epoch, cur.clock)
  }

  predicate SkipsWrite(m: AccuMeta, cur: Access) {
    EqualTo(m.writer.epoch, cur.clock)
  }

  function EntryReport(a: Addr, e: ELP, inst: Inst, k: Kind, cur: Access, ls: Lockset): set<Report> {
    if Hits(e, cur, ls) then {Report(a, e.epoch.tid, inst, k, cur.t, cur.inst, cur.kind)} else {}
  }

  // The lookup of the reader's entry creates it, also when the access is skipped.
  function OnRead(m: AccuMeta, cur: Access, ls: Lockset): AccuMeta {
    if SkipsRead(m, cur) then m.(readers := m.readers[cur.t := ReaderOf(m, cur.t)]) else
    var racy := m.racy || Unordered(m.writer, cur, ls);
    var readers := m.readers[cur.t := Current(cur, ls)];
    m.(racy := racy, readers := readers, readerInst := m.readerInst[cur.t := cur.inst])
  }

  function ReadReports(a: Addr, m: AccuMeta, cur: Access, ls: Lockset): set<Report> {
    if SkipsRead(m, cur) then {} else EntryReport(a, m.writer, m.writerInst, RaceWrite, cur, ls)
  }

  predicate SomeUnordered(readers: map<Tid, ELP>, cur: Access, ls: Lockset) {
    exists u | u in readers :: Unordered(readers[u], cur, ls)
  }

  function OnWrite(m: AccuMeta, cur: Access, ls: Lockset): AccuMeta {
    if SkipsWrite(m, cur) then m else
    var racy := m.racy || Unordered(m.writer, cur, ls) || SomeUnordered(m.readers, cur, ls);
    m.(racy := racy, writer := Current(cur, ls), readers := map[], writerInst := cur.inst)
  }

  // What the loop over the first n readers finds and reports.
  ghost predicate UnorderedUpTo(readers: map<Tid, ELP>, cur: Access, ls: Lockset, n: nat)
    requires n <= |readers|
  {
    n > 0 && (UnorderedUpTo(readers, cur, ls, n - 1) || Unordered(readers[Ascending(readers.Keys)[n - 1]], cur, ls))
  }

  lemma {:induction false} UnorderedUpToAt(readers: map<Tid, ELP>, cur: Access, ls: Lockset, n: nat)
    requires n <= |readers|
    ensures UnorderedUpTo(readers, cur, ls, n) <==>
            exists i | 0 <= i < n :: Unordered(readers[Ascending(readers.Keys)[i]], cur, ls)
  {
    if n > 0 {
      UnorderedUpToAt(readers, cur, ls, n - 1);
    }
  }

  lemma AllReaders(readers: map<Tid, ELP>, cur: Access, ls: Lockset)
    ensures UnorderedUpTo(readers, cur, ls, |readers|) <==> SomeUnordered(readers, cur, ls)
  {
    var threads := Ascending(readers.Keys);
    UnorderedUpToAt(readers, cur, ls, |readers|);
    if u :| u in readers && Unordered(readers[u], cur, ls) {
      assert Unordered(readers[threads[Rank(readers.Keys, u)]], cur, ls);
    }
  }

  function ReaderReports(a: Addr, readers: map<Tid, ELP>, insts: map<Tid, Inst>, cur: Access, ls: Lockset, n: nat)
    : set<Report>
    requires n <= |readers|
  {
    if n == 0 then {} else
    var e := readers[Ascending(readers.Keys)[n - 1]];
    ReaderReports(a, readers, insts, cur, ls, n - 1) + EntryReport(a, e, InstOf(insts, e.epoch.tid), RaceRead, cur, ls)
  }

  function WriteReports(a: Addr, m: AccuMeta, cur: Access, ls: Lockset): set<Report> {
    if SkipsWrite(m, cur) then {} else
    EntryReport(a, m.writer, m.writerInst, RaceWrite, cur, ls)
    + ReaderReports(a, m.readers, m.readerInst, cur, ls, |m.readers|)
  }

  // The instructions collected: those of the accesses that are not skipped.
  function ReadInsts(insts: set<Inst>, m: AccuMeta, cur: Access, track: bool): set<Inst> {
    insts + if track && !SkipsRead(m, cur) then {cur.inst} else {}
  }

  function WriteInsts(insts: set<Inst>, m: AccuMeta, cur: Access, track: bool): set<Inst> {
    insts + if track && !SkipsWrite(m, cur) then {cur.inst} else {}
  }

  // ---------- the cell object, updated in place ----------

  class Cell {
    const addr: Addr
    const track: bool
    var racy: bool
    var insts: set<Inst>
    var writer: ELP
    var readers: map<Tid, ELP>
    var writerInst: Inst
    var readerInst: map<Tid, Inst>

    constructor (a: Addr, track: bool)
      ensures addr == a && this.track == track && Value() == FRESH_META && insts == {}
    {
      addr, this.track, insts := a, track, {};
      racy, writer, readers, writerInst, readerInst := false, NO_ELP, map[], 0, map[];
    }

    function Value(): AccuMeta
      reads this
    {
      AccuMeta(racy, writer, readers, writerInst, readerInst)
    }

    method CheckEntry(e: ELP, inst: Inst, k: Kind, cur: Access, ls: Lockset) returns (races: set<Report>)
      modifies this`racy
      ensures racy <==> old(racy) || Unordered(e, cur, ls)
      ensures races == EntryReport(addr, e, inst, k, cur, ls)
    {
      races := {};
      if !EpochBefore(e.epoch, cur.clock) && e.locks !! ls {
        racy := true;
        if cur.t != e.epoch.tid && e.epoch.clk > Get(cur.clock, e.epoch.tid) {
          races := {Report(addr, e.epoch.tid, inst, k, cur.t, cur.inst, cur.kind)};
        }
      }
    }

    method ProcessRead(cur: Access, ls: Lockset) returns (races: set<Report>)
      modifies this
      ensures Value() == OnRead(old(Value()), cur, ls)
      ensures races == ReadReports(addr, old(Value()), cur, ls)
      ensures insts == ReadInsts(old(insts), old(Value()), cur, track)
    {
      ghost var before := Value();
      if cur.t !in readers {
        readers := readers[cur.t := NO_ELP];
      }
      assert readers == before.readers[cur.t := ReaderOf(before, cur.t)];
      if EqualTo(readers[cur.t].epoch, cur.clock) || EqualTo(writer.epoch, cur.clock) {
        return {};
      }
      races := CheckEntry(writer, writerInst, RaceWrite, cur, ls);
      readers := readers[cur.t := Current(cur, ls)];
      readerInst := readerInst[cur.t := cur.inst];
      NoteInst(cur);
    }

    method ProcessWrite(cur: Access, ls: Lockset) returns (races: set<Report>)
      modifies this
      ensures Value() == OnWrite(old(Value()), cur, ls)
      ensures races == WriteReports(addr, old(Value()), cur, ls)
      ensures insts == WriteInsts(old(insts), old(Value()), cur, track)
    {
      if EqualTo(writer.epoch, cur.clock) {
        return {};
      }
      NoteInst(cur);
      races := CheckAndReplace(cur, ls);
    }

    method NoteInst(cur: Access)
      modifies this`insts
      ensures insts == old(insts) + if track then {cur.inst} else {}
    {
      if track {
        insts := insts + {cur.inst};
      }
    }

    // Checks the recorded entries and makes the write the only one.
    method CheckAndReplace(cur: Access, ls: Lockset) returns (races: set<Report>)
      requires !SkipsWrite(Value(), cur)
      modifies this`racy, this`writer, this`readers, this`writerInst
      ensures Value() == OnWrite(old(Value()), cur, ls)
      ensures races == WriteReports(addr, old(Value()), cur, ls)
    {
      races := CheckWriterAndReaders(cur, ls);
      readers := map[];
      writer := Current(cur, ls);
      writerInst := cur.inst;
    }

    // The instructions to be marked as racy when the cell is freed.
    method ProcessFree() returns (marked: set<Inst>)
      ensures marked == MarkedOnFree(track, racy, insts)
    {
      marked := if track && racy then insts else {};
    }

    method CheckWriterAndReaders(cur: Access, ls: Lockset) returns (races: set<Report>)
      modifies this`racy
      ensures racy <==> old(racy) || Unordered(writer, cur, ls) || SomeUnordered(readers, cur, ls)
      ensures races == EntryReport(addr, writer, writerInst, RaceWrite, cur, ls)
                       + ReaderReports(addr, readers, readerInst, cur, ls, |readers|)
    {
      races := CheckEntry(writer, writerInst, RaceWrite, cur, ls);
      var more := CheckReaders(cur, ls);
      races := races + more;
    }

    method CheckReaders(cur: Access, ls: Lockset) returns (races: set<Report>)
      modifies this`racy
      ensures racy <==> old(racy) || SomeUnordered(readers, cur, ls)
      ensures races == ReaderReports(addr, readers, readerInst, cur, ls, |readers|)
    {
      races := {};
      var threads := Ascending(readers.Keys);
      for i := 0 to |threads|
        invariant racy <==> old(racy) || UnorderedUpTo(readers, cur, ls, i)
        invariant races == ReaderReports(addr, readers, readerInst, cur, ls, i)
      {
        var e := readers[threads[i]];
        var more := CheckEntry(e, InstOf(readerInst, e.epoch.tid), RaceRead, cur, ls);
        races := races + more;
      }
      AllReaders(readers, cur, ls);
    }
  }

  // ---------- the detector along a run ----------

  ghost function TableAt(x: Run, gate: bool, n: nat): AccuTable
    requires n <= |x.trace|
  {
    if n == 0 then map[] else
    var table := TableAt(x, gate, n - 1);
    var ls := Held(x.trace, n - 1);
    match x.trace[n - 1].op
    case Read(a, _) =>
      if Processed(gate, x.trace, n - 1) then table[a := OnRead(MetaOf(table, a), D.AccessAt(x, n - 1), ls)] else table
    case Write(a, _) =>
      if Processed(gate, x.trace, n - 1) then table[a := OnWrite(MetaOf(table, a), D.AccessAt(x, n - 1), ls)] else table
    case Free(region) => table - region
    case _ => table
  }

  ghost function MetaAt(x: Run, gate: bool, n: nat, a: Addr): AccuMeta
    requires n <= |x.trace|
  {
    MetaOf(TableAt(x, gate, n), a)
  }

  ghost function ReportsAt(x: Run, gate: bool, j: nat): set<Report>
    requires j < |x.trace|
  {
    if !Processed(gate, x.trace, j) then {} else
    match x.trace[j].op
    case Read(a, _) => ReadReports(a, MetaAt(x, gate, j, a), D.AccessAt(x, j), Held(x.trace, j))
    case Write(a, _) => WriteReports(a, MetaAt(x, gate, j, a), D.AccessAt(x, j), Held(x.trace, j))
    case _ => {}
  }

  lemma MetaNext(x: Run, gate: bool, n: nat, a: Addr)
    requires n < |x.trace|
    ensures var op, m := x.trace[n].op, MetaAt(x, gate, n, a);
            MetaAt(x, gate, n + 1, a) ==
            if op.Read? && op.a == a && Processed(gate, x.trace, n) then OnRead(m, D.AccessAt(x, n), Held(x.trace, n))
            else if op.Write? && op.a == a && Processed(gate, x.trace, n)
            then OnWrite(m, D.AccessAt(x, n), Held(x.trace, n))
            else if FreedAt(x.trace, n, a) then FRESH_META
              else m
  {
  }

  // ---------- the accesses the entries stand for ----------

  ghost predicate Skipped(x: Run, gate: bool, i: nat, a: Addr)
    requires i < |x.trace|
  {
    var m, cur := MetaAt(x, gate, i, a), D.AccessAt(x, i);
    if cur.kind.RaceRead? then SkipsRead(m, cur) else SkipsWrite(m, cur)
  }

  // Access i of kind k to a by u was processed and not skipped.
  ghost predicate Recorded(x: Run, gate: bool, i: nat, u: Tid, a: Addr, k: Kind)
    requires i < |x.trace|
  {
    SeenAccess(gate, x.trace, i, u, a, k) && !Skipped(x, gate, i, a)
  }

  // The last recorded write to a since a was freed, or -1.
  ghost function LastWrite(x: Run, gate: bool, n: nat, a: Addr): (j: int)
    requires n <= |x.trace|
    ensures -1 <= j < n
    ensures j >= 0 ==> Recorded(x, gate, j, x.trace[j].tid, a, RaceWrite) && NoFree(x.trace, j, n, a)
  {
    if n == 0 || FreedAt(x.trace, n - 1, a) then -1
    else if Recorded(x, gate, n - 1, x.trace[n - 1].tid, a, RaceWrite) then n - 1
    else LastWrite(x, gate, n - 1, a)
  }

  // The last recorded read of a by u since a was freed or a write to it was recorded, or -1.
  ghost function LastRead(x: Run, gate: bool, n: nat, a: Addr, u: Tid): (j: int)
    requires n <= |x.trace|
    ensures -1 <= j < n
    ensures j >= 0 ==> Recorded(x, gate, j, u, a, RaceRead) && NoFree(x.trace, j, n, a)
    ensures j >= 0 ==> LastWrite(x, gate, n, a) < j
  {
    if n == 0 || FreedAt(x.trace, n - 1, a) then -1
    else if Recorded(x, gate, n - 1, x.trace[n - 1].tid, a, RaceWrite) then -1
    else if Recorded(x, gate, n - 1, u, a, RaceRead) then n - 1
    else LastRead(x, gate, n - 1, a, u)
  }

  ghost function EntryAt(x: Run, o: int): ELP
    requires o < |x.trace|
  {
    if o < 0 then NO_ELP else
    ELP(Epoch(x.trace[o].tid, Get(Stamp(x, o), x.trace[o].tid)), Held(x.trace, o))
  }

  ghost predicate WriterIs(x: Run, gate: bool, n: nat, a: Addr)
    requires n <= |x.trace|
  {
    var m, o := MetaAt(x, gate, n, a), LastWrite(x, gate, n, a);
    m.writer == EntryAt(x, o) && (o >= 0 ==> m.writerInst == D.AccessAt(x, o).inst)
  }

  ghost predicate ReaderIs(x: Run, gate: bool, n: nat, a: Addr, u: Tid)
    requires n <= |x.trace|
  {
    var m, o := MetaAt(x, gate, n, a), LastRead(x, gate, n, a, u);
    && ReaderOf(m, u) == EntryAt(x, o)
    && (o >= 0 ==> u in m.readers && u in m.readerInst && m.readerInst[u] == D.AccessAt(x, o).inst)
  }

  lemma NothingRecorded(x: Run, gate: bool, a: Addr, u: Tid)
    ensures WriterIs(x, gate, 0, a) && ReaderIs(x, gate, 0, a, u)
  {
  }

  lemma WriterNext(x: Run, gate: bool, n: nat, a: Addr)
    requires n < |x.trace| && WriterIs(x, gate, n, a)
    ensures WriterIs(x, gate, n + 1, a)
  {
    MetaNext(x, gate, n, a);
  }

  lemma {:induction false} WriterHolds(x: Run, gate: bool, n: nat, a: Addr)
    requires n <= |x.trace|
    ensures WriterIs(x, gate, n, a)
  {
    if n == 0 {
      NothingRecorded(x, gate, a, 0);
    } else {
      WriterHolds(x, gate, n - 1, a);
      WriterNext(x, gate, n - 1, a);
    }
  }

  lemma ReaderAfterOwnRead(x: Run, gate: bool, n: nat, a: Addr, u: Tid)
    requires n < |x.trace| && ReaderIs(x, gate, n, a, u) && x.trace[n].op.Read? && x.trace[n].tid == u
    ensures ReaderIs(x, gate, n + 1, a, u)
  {
    MetaNext(x, gate, n, a);
  }

  lemma ReaderAfterRead(x: Run, gate: bool, n: nat, a: Addr, u: Tid)
    requires n < |x.trace| && ReaderIs(x, gate, n, a, u) && x.trace[n].op.Read?
    ensures ReaderIs(x, gate, n + 1, a, u)
  {
    if x.trace[n].tid == u {
      ReaderAfterOwnRead(x, gate, n, a, u);
    } else {
      MetaNext(x, gate, n, a);
    }
  }

  lemma ReaderAfterOther(x: Run, gate: bool, n: nat, a: Addr, u: Tid)
    requires n < |x.trace| && ReaderIs(x, gate, n, a, u) && !x.trace[n].op.Read?
    ensures ReaderIs(x, gate, n + 1, a, u)
  {
    MetaNext(x, gate, n, a);
  }

  lemma ReaderNext(x: Run, gate: bool, n: nat, a: Addr, u: Tid)
    requires n < |x.trace| && ReaderIs(x, gate, n, a, u)
    ensures ReaderIs(x, gate, n + 1, a, u)
  {
    if x.trace[n].op.Read? {
      ReaderAfterRead(x, gate, n, a, u);
    } else {
      ReaderAfterOther(x, gate, n, a, u);
    }
  }

  lemma {:induction false} ReaderHolds(x: Run, gate: bool, n: nat, a: Addr, u: Tid)
    requires n <= |x.trace|
    ensures ReaderIs(x, gate, n, a, u)
  {
    if n == 0 {
      NothingRecorded(x, gate, a, u);
    } else {
      ReaderHolds(x, gate, n - 1, a, u);
      ReaderNext(x, gate, n - 1, a, u);
    }
  }

  // ---------- which accesses are skipped ----------

  // The last recorded write, or for a read also the last recorded read of its own thread since that write,
  // is of the epoch that the access knows of that thread.
  ghost predicate KnownEpoch(x: Run, gate: bool, i: nat, a: Addr)
    requires i < |x.trace|
  {
    || SameEpoch(x, LastWrite(x, gate, i, a), i)
    || (x.trace[i].op.Read? && SameEpoch(x, LastRead(x, gate, i, a, x.trace[i].tid), i))
  }

  // Exactly those accesses are skipped.
  lemma SkipExact(x: Run, gate: bool, i: nat, a: Addr)
    requires i < |x.trace| && Touches(x.trace[i], a)
    ensures Skipped(x, gate, i, a) <==> KnownEpoch(x, gate, i, a)
  {
    var t := x.trace[i].tid;
    WriterHolds(x, gate, i, a);
    ReaderHolds(x, gate, i, a, t);
    var w, o := LastWrite(x, gate, i, a), LastRead(x, gate, i, a, t);
    if w >= 0 {
      OwnStampPositive(x, w);
    }
    if o >= 0 {
      OwnStampPositive(x, o);
    }
  }

  // ---------- exactness ----------

  lemma {:induction false} ReportIsOfAnEntry(
    a: Addr, readers: map<Tid, ELP>, insts: map<Tid, Inst>, cur: Access, ls: Lockset, n: nat, r: Report)
    returns (p: nat)
    requires n <= |readers| && r in ReaderReports(a, readers, insts, cur, ls, n)
    ensures p < n
    ensures var e := readers[Ascending(readers.Keys)[p]];
            r in EntryReport(a, e, InstOf(insts, e.epoch.tid), RaceRead, cur, ls)
  {
    if r in ReaderReports(a, readers, insts, cur, ls, n - 1) {
      p := ReportIsOfAnEntry(a, readers, insts, cur, ls, n - 1, r);
    } else {
      p := n - 1;
    }
  }

  lemma {:induction false} EntryIsReported(
    a: Addr, readers: map<Tid, ELP>, insts: map<Tid, Inst>, cur: Access, ls: Lockset, n: nat, p: nat)
    requires p < n <= |readers|
    ensures var e := readers[Ascending(readers.Keys)[p]];
            EntryReport(a, e, InstOf(insts, e.epoch.tid), RaceRead, cur, ls)
            <= ReaderReports(a, readers, insts, cur, ls, n)
  {
    if p < n - 1 {
      EntryIsReported(a, readers, insts, cur, ls, n - 1, p);
    }
  }

  // The recorded access that a report of thread u and kind k is about, or -1.
  ghost function Origin(x: Run, gate: bool, j: nat, a: Addr, u: Tid, k: Kind): (o: int)
    requires j < |x.trace|
    ensures -1 <= o < j
  {
    if k.RaceWrite? then LastWrite(x, gate, j, a) else LastRead(x, gate, j, a, u)
  }

  ghost predicate OriginRaces(x: Run, gate: bool, j: nat, a: Addr, r: Report)
    requires j < |x.trace|
  {
    var o := Origin(x, gate, j, a, r.t0, r.k0);
    o >= 0 && x.trace[o].tid == r.t0 && r.i0 == x.trace[o].op.inst && HybridRace(x, gate, o, j, a, r.k0)
  }

  lemma EntryHits(x: Run, gate: bool, j: nat, a: Addr, k: Kind, o: int)
    requires j < |x.trace| && Touches(x.trace[j], a) && o < j
    requires o >= 0 ==> SeenAccess(gate, x.trace, o, x.trace[o].tid, a, k) && NoFree(x.trace, o, j, a)
    ensures Hits(EntryAt(x, o), D.AccessAt(x, j), Held(x.trace, j)) <==> o >= 0 && HybridRace(x, gate, o, j, a, k)
  {
    if o >= 0 {
      ClocksAreHappensBefore(x, o, j);
    }
  }

  // Every reader entry belongs to the thread it is filed under.
  lemma ReaderEntryExact(x: Run, gate: bool, j: nat, a: Addr, u: Tid, r: Report)
    requires j < |x.trace| && Touches(x.trace[j], a) && u in MetaAt(x, gate, j, a).readers
    ensures var m, cur, ls := MetaAt(x, gate, j, a), D.AccessAt(x, j), Held(x.trace, j);
            r in EntryReport(a, m.readers[u], InstOf(m.readerInst, m.readers[u].epoch.tid), RaceRead, cur, ls) <==>
                 && u == r.t0 && r == Report(a, r.t0, r.i0, RaceRead, cur.t, cur.inst, cur.kind)
                 && OriginRaces(x, gate, j, a, r)
  {
    ReaderHolds(x, gate, j, a, u);
    EntryHits(x, gate, j, a, RaceRead, LastRead(x, gate, j, a, u));
  }

  lemma ReaderReportsExact(x: Run, gate: bool, j: nat, a: Addr, r: Report)
    requires j < |x.trace| && Touches(x.trace[j], a) && x.trace[j].op.Write?
    ensures var m, cur, ls := MetaAt(x, gate, j, a), D.AccessAt(x, j), Held(x.trace, j);
            r in ReaderReports(a, m.readers, m.readerInst, cur, ls, |m.readers|) <==>
                 && r == Report(a, r.t0, r.i0, RaceRead, cur.t, cur.inst, cur.kind) && OriginRaces(x, gate, j, a, r)
  {
    var m, cur, ls := MetaAt(x, gate, j, a), D.AccessAt(x, j), Held(x.trace, j);
    var threads := Ascending(m.readers.Keys);
    if r in ReaderReports(a, m.readers, m.readerInst, cur, ls, |m.readers|) {
      var p := ReportIsOfAnEntry(a, m.readers, m.readerInst, cur, ls, |m.readers|, r);
      ReaderEntryExact(x, gate, j, a, threads[p], r);
    }
    ReaderHolds(x, gate, j, a, r.t0);
    if r.t0 in m.readers {
      ReaderEntryExact(x, gate, j, a, r.t0, r);
      EntryIsReported(a, m.readers, m.readerInst, cur, ls, |m.readers|, Rank(m.readers.Keys, r.t0));
    }
  }

  lemma WriterReportExact(x: Run, gate: bool, j: nat, a: Addr, r: Report)
    requires j < |x.trace| && Touches(x.trace[j], a)
    ensures var m, cur, ls := MetaAt(x, gate, j, a), D.AccessAt(x, j), Held(x.trace, j);
            r in EntryReport(a, m.writer, m.writerInst, RaceWrite, cur, ls) <==>
                 && r == Report(a, r.t0, r.i0, RaceWrite, cur.t, cur.inst, cur.kind) && OriginRaces(x, gate, j, a, r)
  {
    WriterHolds(x, gate, j, a);
    EntryHits(x, gate, j, a, RaceWrite, LastWrite(x, gate, j, a));
  }

  // At every processed access, thread u is reported for its write exactly when the access is not skipped
  // and the last recorded write is u's, is unordered with the access and shares no lock with it; and for
  // its read exactly when that holds of u's last recorded read since that write.
  lemma AccuLockExact(x: Run, gate: bool, j: nat, a: Addr, r: Report)
    requires j < |x.trace| && Touches(x.trace[j], a) && Processed(gate, x.trace, j)
    ensures r in ReportsAt(x, gate, j) <==>
            && !KnownEpoch(x, gate, j, a)
            && r.addr == a && r.t1 == x.trace[j].tid && r.i1 == x.trace[j].op.inst && r.k1 == D.AccessAt(x, j).kind
            && Conflict(r.k0, r.k1) && OriginRaces(x, gate, j, a, r)
  {
    SkipExact(x, gate, j, a);
    WriterReportExact(x, gate, j, a, r);
    if x.trace[j].op.Write? {
      ReaderReportsExact(x, gate, j, a, r);
    }
  }

  // ---------- the racy mark ----------

  // An unordered entry is another thread's, so it is reported.
  lemma UnorderedIsHit(x: Run, o: int, j: nat)
    requires o < j < |x.trace| && (x.trace[j].op.Read? || x.trace[j].op.Write?)
    ensures var e, cur, ls := EntryAt(x, o), D.AccessAt(x, j), Held(x.trace, j);
            Unordered(e, cur, ls) <==> Hits(e, cur, ls)
  {
    if o >= 0 && x.trace[o].tid == x.trace[j].tid {
      OwnClockBelowStamp(x, o, j);
      assert Get(Stamp(x, o), x.trace[o].tid) <= Get(Stamp(x, j), x.trace[o].tid);
    }
  }

  lemma ReportedReaderIsUnordered(a: Addr, m: AccuMeta, cur: Access, ls: Lockset, n: nat)
    requires n <= |m.readers|
    ensures ReaderReports(a, m.readers, m.readerInst, cur, ls, n) != {} ==> UnorderedUpTo(m.readers, cur, ls, n)
  {
    if n > 0 {
      ReportedReaderIsUnordered(a, m, cur, ls, n - 1);
    }
  }

  lemma UnorderedReadersReported(x: Run, gate: bool, j: nat, a: Addr)
    requires j < |x.trace| && x.trace[j].op.Write?
    ensures var m, cur, ls := MetaAt(x, gate, j, a), D.AccessAt(x, j), Held(x.trace, j);
            SomeUnordered(m.readers, cur, ls) <==> ReaderReports(a, m.readers, m.readerInst, cur, ls, |m.readers|) != {}
  {
    var m, cur, ls := MetaAt(x, gate, j, a), D.AccessAt(x, j), Held(x.trace, j);
    var threads := Ascending(m.readers.Keys);
    ReportedReaderIsUnordered(a, m, cur, ls, |m.readers|);
    AllReaders(m.readers, cur, ls);
    if u :| u in m.readers && Unordered(m.readers[u], cur, ls) {
      ReaderHolds(x, gate, j, a, u);
      UnorderedIsHit(x, LastRead(x, gate, j, a, u), j);
      var e, p := m.readers[u], Rank(m.readers.Keys, u);
      var r := Report(a, e.epoch.tid, InstOf(m.readerInst, e.epoch.tid), RaceRead, cur.t, cur.inst, cur.kind);
      assert e == EntryAt(x, LastRead(x, gate, j, a, u));
      assert r in EntryReport(a, m.readers[threads[p]], InstOf(m.readerInst, e.epoch.tid), RaceRead, cur, ls);
      EntryIsReported(a, m.readers, m.readerInst, cur, ls, |m.readers|, p);
    }
  }

  // Event j reports a race on cell a.
  ghost predicate ReportsOn(x: Run, gate: bool, j: nat, a: Addr)
    requires j < |x.trace|
  {
    Touches(x.trace[j], a) && ReportsAt(x, gate, j) != {}
  }

  ghost function Reporting(x: Run, gate: bool, a: Addr): iset<nat> {
    iset j: nat | j < |x.trace| && ReportsOn(x, gate, j, a)
  }

  lemma MarkedWhenReported(x: Run, gate: bool, j: nat, a: Addr)
    requires j < |x.trace| && Processed(gate, x.trace, j) && Touches(x.trace[j], a)
    ensures MetaAt(x, gate, j + 1, a).racy <==> MetaAt(x, gate, j, a).racy || ReportsOn(x, gate, j, a)
  {
    MetaNext(x, gate, j, a);
    WriterHolds(x, gate, j, a);
    UnorderedIsHit(x, LastWrite(x, gate, j, a), j);
    if x.trace[j].op.Write? {
      UnorderedReadersReported(x, gate, j, a);
    }
  }

  lemma RacyNext(x: Run, gate: bool, n: nat, a: Addr)
    requires n < |x.trace|
    requires MetaAt(x, gate, n, a).racy <==> D.SinceFree(x.trace, Reporting(x, gate, a), n, a)
    ensures MetaAt(x, gate, n + 1, a).racy <==> D.SinceFree(x.trace, Reporting(x, gate, a), n + 1, a)
  {
    MetaNext(x, gate, n, a);
    D.SinceFreeNext(x.trace, Reporting(x, gate, a), n, a);
    if Processed(gate, x.trace, n) && Touches(x.trace[n], a) {
      MarkedWhenReported(x, gate, n, a);
    }
  }

  // A cell is marked racy exactly when AccuLock reported a race on it since it was last freed.
  lemma {:induction false} RacyExact(x: Run, gate: bool, n: nat, a: Addr)
    requires n <= |x.trace|
    ensures MetaAt(x, gate, n, a).racy <==> D.SinceFree(x.trace, Reporting(x, gate, a), n, a)
  {
    if n == 0 {
      assert !D.SinceFree(x.trace, Reporting(x, gate, a), 0, a);
    } else {
      var l := n - 1;
      RacyExact(x, gate, l, a);
      RacyNext(x, gate, l, a);
    }
  }

  // ---------- skipping in the thread's own epoch ----------

  // Unlocking ticks, so within one epoch a thread only gains locks.
  lemma LocksGrowInEpoch(x: Run, i: nat, j: nat)
    requires x.mode.AccuLockHB? && i < j < |x.trace| && x.trace[i].tid == x.trace[j].tid
    requires !x.trace[i].op.Unlock?
    requires Get(Stamp(x, i), x.trace[i].tid) == Get(Stamp(x, j), x.trace[j].tid)
    ensures Held(x.trace, i) <= Held(x.trace, j)
  {
    var t := x.trace[i].tid;
    forall m | m in Held(x.trace, i) ensures m in Held(x.trace, j) {
      LocksAreHeld(x, i, t, m);
      LocksAreHeld(x, j, t, m);
      if !HeldBy(x, j, m, t) {
        var k := ReleasedSince(x, i, j, m, t);
        OwnClockBelowStamp(x, i, k);
        LaterEventsUnknown(x, k, j);
      }
    }
  }

  // Access i is skipped because of a recorded access of its own thread.
  ghost predicate OwnSkip(x: Run, gate: bool, i: nat, a: Addr)
    requires i < |x.trace|
  {
    var w, t := LastWrite(x, gate, i, a), x.trace[i].tid;
    || (SameEpoch(x, w, i) && x.trace[w].tid == t)
    || (x.trace[i].op.Read? && SameEpoch(x, LastRead(x, gate, i, a, t), i))
  }

  // That recorded access.
  ghost function SkippedBy(x: Run, gate: bool, i: nat, a: Addr): int
    requires i < |x.trace|
  {
    var w, t := LastWrite(x, gate, i, a), x.trace[i].tid;
    if SameEpoch(x, w, i) && x.trace[w].tid == t then w else LastRead(x, gate, i, a, t)
  }

  lemma SkippedByOwn(x: Run, gate: bool, i: nat, a: Addr)
    requires i < |x.trace| && Touches(x.trace[i], a) && OwnSkip(x, gate, i, a)
    ensures var o, t := SkippedBy(x, gate, i, a), x.trace[i].tid;
            && 0 <= o < i && x.trace[o].tid == t && NoFree(x.trace, o, i, a)
            && Recorded(x, gate, o, t, a, KindOf(x.trace[o])) && (x.trace[i].op.Write? ==> x.trace[o].op.Write?)
            && Get(Stamp(x, o), t) == Get(Stamp(x, i), t)
  {
    WriterHolds(x, gate, i, a);
    ReaderHolds(x, gate, i, a, x.trace[i].tid);
  }

  // An access skipped because of the thread's own entry of this epoch repeats a recorded access, a
  // write if it is a write itself, that is ordered no later and holds no more locks: whatever races
  // with the skipped access races with it.
  lemma OwnSkipLosesNothing(x: Run, gate: bool, i: nat, j: nat, a: Addr) returns (o: nat)
    requires x.mode.AccuLockHB? && i < j < |x.trace| && HybridRace(x, gate, i, j, a, KindOf(x.trace[i]))
    requires OwnSkip(x, gate, i, a)
    ensures o < i && x.trace[o].tid == x.trace[i].tid && (x.trace[i].op.Write? ==> x.trace[o].op.Write?)
    ensures Recorded(x, gate, o, x.trace[o].tid, a, KindOf(x.trace[o]))
    ensures HybridRace(x, gate, o, j, a, KindOf(x.trace[o]))
  {
    SkippedByOwn(x, gate, i, a);
    o := SkippedBy(x, gate, i, a);
    LocksGrowInEpoch(x, o, i);
    ClocksAreHappensBefore(x, o, j);
    ClocksAreHappensBefore(x, i, j);
    assert !FreedAt(x.trace, i, a);
    assert NoFree(x.trace, o, j, a);
  }
}
