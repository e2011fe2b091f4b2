/** MultiLock: per thread and cell a set of (epoch, lockset) pairs, pruned of redundant pairs. */
module MultiLock {
  import opened Clocks
  import opened Program
  import opened Protocol
  import opened Causality
  import opened ClockTheorem
  import opened Accesses
  import opened Epochs
  import opened Locksets
  import D = Djit

  type ELSMap = map<Tid, set<ELP>>

  // The histories of one cell.  Reported instructions are not modelled.
  datatype Histories = Histories(writers: ELSMap, readers: ELSMap)

  const NO_HISTORY := Histories(map[], map[])

  // A reported pair: thread t0 made the earlier access of kind k0, t1 the current one.
  datatype Pair = Pair(addr: Addr, t0: Tid, k0: Kind, t1: Tid, k1: Kind)

  function SetOf(m: ELSMap, t: Tid): set<ELP> {
    if t in m then m[t] else {}
  }

  // ---------- redundancy ----------

  // A pair of the current epoch whose lockset is contained in the current one.
  predicate Stronger(e: ELP, vc: VC, ls: Lockset) {
    EqualTo(e.epoch, vc) && e.locks <= ls
  }

  // The read side tests the negation of containment.
  predicate NotContained(e: ELP, vc: VC, ls: Lockset) {
    EqualTo(e.epoch, vc) && !(e.locks <= ls)
  }

  predicate Weaker(e: ELP, vc: VC, ls: Lockset) {
    EqualTo(e.epoch, vc) && e.locks >= ls
  }

  function Pruned(s: set<ELP>, vc: VC, ls: Lockset): set<ELP> {
    set e | e in s && !Weaker(e, vc, ls)
  }

  predicate RedundantWrite(h: Histories, cur: Access, ls: Lockset) {
    exists e | e in SetOf(h.writers, cur.t) :: Stronger(e, cur.clock, ls)
  }

  predicate RedundantRead(h: Histories, cur: Access, ls: Lockset) {
    || (exists e | e in SetOf(h.readers, cur.t) :: NotContained(e, cur.clock, ls))
    || (exists e | e in SetOf(h.writers, cur.t) :: NotContained(e, cur.clock, ls))
  }

  function OnWrite(h: Histories, cur: Access, ls: Lockset): Histories {
    if RedundantWrite(h, cur, ls) then h else
    Histories(
      h.writers[cur.t := Pruned(SetOf(h.writers, cur.t), cur.clock, ls) + {Current(cur, ls)}],
      h.readers[cur.t := Pruned(SetOf(h.readers, cur.t), cur.clock, ls)])
  }

  function OnRead(h: Histories, cur: Access, ls: Lockset): Histories {
    if RedundantRead(h, cur, ls) then h else
    h.(readers := h.readers[cur.t := Pruned(SetOf(h.readers, cur.t), cur.clock, ls) + {Current(cur, ls)}])
  }

  // ---------- reports ----------

  function PairOf(a: Addr, e: ELP, k: Kind, cur: Access): Pair {
    Pair(a, e.epoch.tid, k, cur.t, cur.kind)
  }

  // The pairs reported against the entries of all other threads.
  function HitPairs(a: Addr, m: ELSMap, k: Kind, cur: Access, ls: Lockset): set<Pair> {
    set u, e | u in m && u != cur.t && e in m[u] && Hits(e, cur, ls) :: PairOf(a, e, k, cur)
  }

  function WritePairs(a: Addr, h: Histories, cur: Access, ls: Lockset): set<Pair> {
    if RedundantWrite(h, cur, ls) then {} else
    HitPairs(a, h.writers, RaceWrite, cur, ls) + HitPairs(a, h.readers, RaceRead, cur, ls)
  }

  function ReadPairs(a: Addr, h: Histories, cur: Access, ls: Lockset): set<Pair> {
    if RedundantRead(h, cur, ls) then {} else HitPairs(a, h.writers, RaceWrite, cur, ls)
  }

  // The instructions collected: those of the accesses that are not skipped.
  function ReadInsts(insts: set<Inst>, m: Histories, cur: Access, ls: Lockset, track: bool): set<Inst> {
    insts + if track && !RedundantRead(m, cur, ls) then {cur.inst} else {}
  }

  function WriteInsts(insts: set<Inst>, m: Histories, cur: Access, ls: Lockset, track: bool): set<Inst> {
    insts + if track && !RedundantWrite(m, cur, ls) then {cur.inst} else {}
  }

  // ---------- the cell object, updated in place ----------

  function HitsIn(a: Addr, s: set<ELP>, k: Kind, cur: Access, ls: Lockset): set<Pair> {
    set e | e in s && Hits(e, cur, ls) :: PairOf(a, e, k, cur)
  }

  // The reports of the outer loop over the first n threads of a history map.
  ghost function HitsUpTo(a: Addr, m: ELSMap, k: Kind, cur: Access, ls: Lockset, threads: seq<Tid>, n: nat): set<Pair>
    requires n <= |threads| && forall i | 0 <= i < |threads| :: threads[i] in m
  {
    if n == 0 then {} else
    var u := threads[n - 1];
    HitsUpTo(a, m, k, cur, ls, threads, n - 1) + if u == cur.t then {} else HitsIn(a, m[u], k, cur, ls)
  }

  lemma {:induction false} ScanFinds(
    a: Addr, m: ELSMap, k: Kind, cur: Access, ls: Lockset, threads: seq<Tid>, n: nat, p: nat, e: ELP)
    requires p < n <= |threads| && forall i | 0 <= i < |threads| :: threads[i] in m
    requires threads[p] != cur.t && e in m[threads[p]] && Hits(e, cur, ls)
    ensures PairOf(a, e, k, cur) in HitsUpTo(a, m, k, cur, ls, threads, n)
  {
    if p == n - 1 {
      assert PairOf(a, e, k, cur) in HitsIn(a, m[threads[p]], k, cur, ls);
    } else {
      ScanFinds(a, m, k, cur, ls, threads, n - 1, p, e);
    }
  }

  lemma {:induction false} ScanFindsOnly(
    a: Addr, m: ELSMap, k: Kind, cur: Access, ls: Lockset, threads: seq<Tid>, n: nat, r: Pair)
    requires n <= |threads| && forall i | 0 <= i < |threads| :: threads[i] in m
    requires r in HitsUpTo(a, m, k, cur, ls, threads, n)
    ensures r in HitPairs(a, m, k, cur, ls)
  {
    var u := threads[n - 1];
    if r in HitsUpTo(a, m, k, cur, ls, threads, n - 1) {
      ScanFindsOnly(a, m, k, cur, ls, threads, n - 1, r);
    } else {
      var e :| e in m[u] && Hits(e, cur, ls) && r == PairOf(a, e, k, cur);
    }
  }

  lemma ScanFindsAll(a: Addr, m: ELSMap, k: Kind, cur: Access, ls: Lockset)
    ensures var threads := Ascending(m.Keys);
            HitsUpTo(a, m, k, cur, ls, threads, |threads|) == HitPairs(a, m, k, cur, ls)
  {
    var threads := Ascending(m.Keys);
    forall r | r in HitsUpTo(a, m, k, cur, ls, threads, |threads|) ensures r in HitPairs(a, m, k, cur, ls) {
      ScanFindsOnly(a, m, k, cur, ls, threads, |threads|, r);
    }
    forall r | r in HitPairs(a, m, k, cur, ls) ensures r in HitsUpTo(a, m, k, cur, ls, threads, |threads|) {
      var u, e :| u in m && u != cur.t && e in m[u] && Hits(e, cur, ls) && r == PairOf(a, e, k, cur);
      ScanFinds(a, m, k, cur, ls, threads, |threads|, Rank(m.Keys, u), e);
    }
  }

  predicate AnyUnordered(s: set<ELP>, cur: Access, ls: Lockset) {
    exists e | e in s :: Unordered(e, cur, ls)
  }

  predicate OthersUnordered(m: ELSMap, cur: Access, ls: Lockset) {
    exists u | u in m :: u != cur.t && AnyUnordered(m[u], cur, ls)
  }

  ghost predicate UnorderedUpTo(m: ELSMap, cur: Access, ls: Lockset, threads: seq<Tid>, n: nat)
    requires n <= |threads| && forall i | 0 <= i < |threads| :: threads[i] in m
  {
    n > 0 && (UnorderedUpTo(m, cur, ls, threads, n - 1)
              || (threads[n - 1] != cur.t && AnyUnordered(m[threads[n - 1]], cur, ls)))
  }

  lemma {:induction false} UnorderedUpToAt(m: ELSMap, cur: Access, ls: Lockset, threads: seq<Tid>, n: nat)
    requires n <= |threads| && forall i | 0 <= i < |threads| :: threads[i] in m
    ensures UnorderedUpTo(m, cur, ls, threads, n) <==>
            exists i | 0 <= i < n :: threads[i] != cur.t && AnyUnordered(m[threads[i]], cur, ls)
  {
    if n > 0 {
      UnorderedUpToAt(m, cur, ls, threads, n - 1);
    }
  }

  lemma AllThreads(m: ELSMap, cur: Access, ls: Lockset)
    ensures UnorderedUpTo(m, cur, ls, Ascending(m.Keys), |m|) <==> OthersUnordered(m, cur, ls)
  {
    var threads := Ascending(m.Keys);
    UnorderedUpToAt(m, cur, ls, threads, |threads|);
    if u :| u in m && u != cur.t && AnyUnordered(m[u], cur, ls) {
      assert AnyUnordered(m[threads[Rank(m.Keys, u)]], cur, ls);
    }
  }

  // What marks the cell racy.
  predicate ReadMarks(h: Histories, cur: Access, ls: Lockset) {
    !RedundantRead(h, cur, ls) && OthersUnordered(h.writers, cur, ls)
  }

  predicate WriteMarks(h: Histories, cur: Access, ls: Lockset) {
    && !RedundantWrite(h, cur, ls)
    && (OthersUnordered(h.writers, cur, ls) || OthersUnordered(h.readers, cur, ls))
  }

  lemma HitsOneMore(a: Addr, s: set<ELP>, e: ELP, k: Kind, cur: Access, ls: Lockset)
    ensures HitsIn(a, s + {e}, k, cur, ls) ==
            HitsIn(a, s, k, cur, ls) + if Hits(e, cur, ls) then {PairOf(a, e, k, cur)} else {}
  {
  }

  class Cell {
    const addr: Addr
    const track: bool
    var racy: bool
    var insts: set<Inst>
    var writers: ELSMap
    var readers: ELSMap

    constructor (a: Addr, track: bool)
      ensures addr == a && this.track == track && Value() == NO_HISTORY && !racy && insts == {}
    {
      addr, this.track, racy, insts, writers, readers := a, track, false, {}, map[], map[];
    }

    function Value(): Histories
      reads this
    {
      Histories(writers, readers)
    }

    static method Prune(s: set<ELP>, vc: VC, ls: Lockset) returns (kept: set<ELP>)
      ensures kept == Pruned(s, vc, ls)
    {
      kept := s;
      var todo := s;
      while todo != {}
        invariant forall e :: e in kept <==> e in s && (e in todo || !Weaker(e, vc, ls))
        invariant todo <= s
        decreases |todo|
      {
        var e :| e in todo;
        if EqualTo(e.epoch, vc) && e.locks >= ls {
          kept := kept - {e};
        }
        todo := todo - {e};
      }
    }

    method UpdateOnWrite(cur: Access, ls: Lockset) returns (redundant: bool)
      modifies this`writers, this`readers
      ensures redundant <==> RedundantWrite(old(Value()), cur, ls)
      ensures Value() == OnWrite(old(Value()), cur, ls)
    {
      var todo := SetOf(writers, cur.t);
      while todo != {}
        invariant todo <= SetOf(writers, cur.t)
        invariant forall e | e in SetOf(writers, cur.t) - todo :: !Stronger(e, cur.clock, ls)
        decreases |todo|
      {
        var e :| e in todo;
        if EqualTo(e.epoch, cur.clock) && e.locks <= ls {
          assert Stronger(e, cur.clock, ls);
          return true;
        }
        todo := todo - {e};
      }
      var keptReaders := Prune(SetOf(readers, cur.t), cur.clock, ls);
      readers := readers[cur.t := keptReaders];
      var keptWriters := Prune(SetOf(writers, cur.t), cur.clock, ls);
      writers := writers[cur.t := keptWriters + {Current(cur, ls)}];
      return false;
    }

    method UpdateOnRead(cur: Access, ls: Lockset) returns (redundant: bool)
      modifies this`readers
      ensures redundant <==> RedundantRead(old(Value()), cur, ls)
      ensures Value() == OnRead(old(Value()), cur, ls)
    {
      var found := FindNotContained(SetOf(readers, cur.t), cur.clock, ls);
      if found {
        return true;
      }
      found := FindNotContained(SetOf(writers, cur.t), cur.clock, ls);
      if found {
        return true;
      }
      var keptReaders := Prune(SetOf(readers, cur.t), cur.clock, ls);
      readers := readers[cur.t := keptReaders + {Current(cur, ls)}];
      return false;
    }

    static method FindNotContained(s: set<ELP>, vc: VC, ls: Lockset) returns (found: bool)
      ensures found <==> exists e | e in s :: NotContained(e, vc, ls)
    {
      var todo := s;
      while todo != {}
        invariant todo <= s
        invariant forall e | e in s - todo :: !NotContained(e, vc, ls)
        decreases |todo|
      {
        var e :| e in todo;
        if EqualTo(e.epoch, vc) && !(e.locks <= ls) {
          assert NotContained(e, vc, ls);
          return true;
        }
        todo := todo - {e};
      }
      return false;
    }

    // Checks one thread's entries; a hit marks the cell racy.
    method CheckEntries(s: set<ELP>, k: Kind, cur: Access, ls: Lockset) returns (races: set<Pair>)
      modifies this`racy
      ensures races == HitsIn(addr, s, k, cur, ls)
      ensures racy <==> old(racy) || AnyUnordered(s, cur, ls)
    {
      races := {};
      var todo := s;
      while todo != {}
        invariant todo <= s && races == HitsIn(addr, s - todo, k, cur, ls)
        invariant racy <==> old(racy) || exists e | e in s :: e !in todo && Unordered(e, cur, ls)
        decreases |todo|
      {
        var e :| e in todo;
        assert s - (todo - {e}) == s - todo + {e};
        HitsOneMore(addr, s - todo, e, k, cur, ls);
        if !EpochBefore(e.epoch, cur.clock) && e.locks !! ls {
          racy := true;
          if cur.t != e.epoch.tid && e.epoch.clk > Get(cur.clock, e.epoch.tid) {
            races := races + {PairOf(addr, e, k, cur)};
          }
        }
        todo := todo - {e};
      }
      assert s - todo == s;
    }

    // Checks the entries of all other threads.
    method CheckOthers(m: ELSMap, k: Kind, cur: Access, ls: Lockset) returns (races: set<Pair>)
      modifies this`racy
      ensures races == HitPairs(addr, m, k, cur, ls)
      ensures racy <==> old(racy) || OthersUnordered(m, cur, ls)
    {
      races := ScanThreads(m, k, cur, ls, Ascending(m.Keys));
      ScanFindsAll(addr, m, k, cur, ls);
      AllThreads(m, cur, ls);
    }

    method ScanThreads(m: ELSMap, k: Kind, cur: Access, ls: Lockset, threads: seq<Tid>) returns (races: set<Pair>)
      requires forall i | 0 <= i < |threads| :: threads[i] in m
      modifies this`racy
      ensures races == HitsUpTo(addr, m, k, cur, ls, threads, |threads|)
      ensures racy <==> old(racy) || UnorderedUpTo(m, cur, ls, threads, |threads|)
    {
      races := {};
      for i := 0 to |threads|
        invariant races == HitsUpTo(addr, m, k, cur, ls, threads, i)
        invariant racy <==> old(racy) || UnorderedUpTo(m, cur, ls, threads, i)
      {
        if threads[i] != cur.t {
          var more := CheckEntries(m[threads[i]], k, cur, ls);
          races := races + more;
        }
      }
    }

    method ProcessRead(cur: Access, ls: Lockset) returns (races: set<Pair>)
      modifies this
      ensures Value() == OnRead(old(Value()), cur, ls)
      ensures races == ReadPairs(addr, old(Value()), cur, ls)
      ensures racy <==> old(racy) || ReadMarks(old(Value()), cur, ls)
      ensures insts == ReadInsts(old(insts), old(Value()), cur, ls, track)
    {
      var redundant := UpdateOnRead(cur, ls);
      if redundant {
        return {};
      }
      races := CheckOthers(writers, RaceWrite, cur, ls);
      insts := insts + (if track then {cur.inst} else {});
    }

    method ProcessWrite(cur: Access, ls: Lockset) returns (races: set<Pair>)
      modifies this
      ensures Value() == OnWrite(old(Value()), cur, ls)
      ensures races == WritePairs(addr, old(Value()), cur, ls)
      ensures racy <==> old(racy) || WriteMarks(old(Value()), cur, ls)
      ensures insts == WriteInsts(old(insts), old(Value()), cur, ls, track)
    {
      var before := Value();
      var redundant := UpdateOnWrite(cur, ls);
      if redundant {
        return {};
      }
      races := CheckOthers(writers, RaceWrite, cur, ls);
      var more := CheckOthers(readers, RaceRead, cur, ls);
      races := races + more;
      SameOthers(addr, before.writers, writers, RaceWrite, cur, ls);
      SameOthers(addr, before.readers, readers, RaceRead, cur, ls);
      insts := insts + (if track then {cur.inst} else {});
    }

    // The instructions to be marked as racy when the cell is freed.
    method ProcessFree() returns (marked: set<Inst>)
      ensures marked == MarkedOnFree(track, racy, insts)
    {
      marked := if track && racy then insts else {};
    }
  }

  // The current thread's own entries are never checked.
  lemma SameOthers(a: Addr, m: ELSMap, m': ELSMap, k: Kind, cur: Access, ls: Lockset)
    requires cur.t in m' && m' == m[cur.t := m'[cur.t]]
    ensures HitPairs(a, m', k, cur, ls) == HitPairs(a, m, k, cur, ls)
    ensures OthersUnordered(m', cur, ls) <==> OthersUnordered(m, cur, ls)
  {
    forall u | u != cur.t ensures (u in m <==> u in m') && (u in m ==> m[u] == m'[u]) {
    }
  }

  // ---------- the detector along a run ----------

  type HistoryTable = map<Addr, Histories>

  function HistoriesOf(table: HistoryTable, a: Addr): Histories {
    if a in table then table[a] else NO_HISTORY
  }

  ghost function TableAt(x: Run, gate: bool, n: nat): HistoryTable
    requires n <= |x.trace|
  {
    if n == 0 then map[] else
    var table := TableAt(x, gate, n - 1);
    var ls := Held(x.trace, n - 1);
    match x.trace[n - 1].op
    case Read(a, _) =>
      if !Processed(gate, x.trace, n - 1) then table
      else table[a := OnRead(HistoriesOf(table, a), D.AccessAt(x, n - 1), ls)]
    case Write(a, _) =>
      if !Processed(gate, x.trace, n - 1) then table
      else table[a := OnWrite(HistoriesOf(table, a), D.AccessAt(x, n - 1), ls)]
    case Free(region) => table - region
    case _ => table
  }

  ghost function HistoriesAt(x: Run, gate: bool, n: nat, a: Addr): Histories
    requires n <= |x.trace|
  {
    HistoriesOf(TableAt(x, gate, n), a)
  }

  ghost function PairsAt(x: Run, gate: bool, j: nat): set<Pair>
    requires j < |x.trace|
  {
    if !Processed(gate, x.trace, j) then {} else
    match x.trace[j].op
    case Read(a, _) => ReadPairs(a, HistoriesAt(x, gate, j, a), D.AccessAt(x, j), Held(x.trace, j))
    case Write(a, _) => WritePairs(a, HistoriesAt(x, gate, j, a), D.AccessAt(x, j), Held(x.trace, j))
    case _ => {}
  }

  lemma HistoriesNext(x: Run, gate: bool, n: nat, a: Addr)
    requires n < |x.trace|
    ensures var op, h := x.trace[n].op, HistoriesAt(x, gate, n, a);
            HistoriesAt(x, gate, n + 1, a) ==
            if op.Read? && op.a == a && Processed(gate, x.trace, n) then OnRead(h, D.AccessAt(x, n), Held(x.trace, n))
            else if op.Write? && op.a == a && Processed(gate, x.trace, n)
            then OnWrite(h, D.AccessAt(x, n), Held(x.trace, n))
            else if FreedAt(x.trace, n, a) then NO_HISTORY
              else h
  {
  }

  // ---------- every entry is a real access ----------

  // Access i to the cell is skipped by the redundancy test of its kind.
  ghost predicate RedundantAt(x: Run, gate: bool, i: nat, a: Addr)
    requires i < |x.trace|
  {
    var h, cur, ls := HistoriesAt(x, gate, i, a), D.AccessAt(x, i), Held(x.trace, i);
    if cur.kind.RaceRead? then RedundantRead(h, cur, ls) else RedundantWrite(h, cur, ls)
  }

  // Entry e of thread u stands for processed access i of kind k, which was not redundant.
  ghost predicate EntryOf(x: Run, gate: bool, n: nat, a: Addr, u: Tid, k: Kind, e: ELP, i: nat)
    requires i < n <= |x.trace|
  {
    && SeenAccess(gate, x.trace, i, u, a, k) && NoFree(x.trace, i, n, a)
    && e == ELP(Epoch(u, Get(Stamp(x, i), u)), Held(x.trace, i))
    && !RedundantAt(x, gate, i, a)
  }

  ghost predicate IsEntry(x: Run, gate: bool, n: nat, a: Addr, u: Tid, k: Kind, e: ELP)
    requires n <= |x.trace|
  {
    exists i | 0 <= i < n :: EntryOf(x, gate, n, a, u, k, e, i)
  }

  function Entries(h: Histories, u: Tid, k: Kind): set<ELP> {
    SetOf(if k.RaceWrite? then h.writers else h.readers, u)
  }

  lemma EntriesNext(x: Run, gate: bool, n: nat, a: Addr, u: Tid, k: Kind, e: ELP)
    requires n < |x.trace| && e in Entries(HistoriesAt(x, gate, n + 1, a), u, k)
    ensures !FreedAt(x.trace, n, a)
    ensures || e in Entries(HistoriesAt(x, gate, n, a), u, k)
            || (SeenAccess(gate, x.trace, n, u, a, k) && e == Current(D.AccessAt(x, n), Held(x.trace, n))
                && !RedundantAt(x, gate, n, a))
  {
    HistoriesNext(x, gate, n, a);
  }

  lemma {:induction false} EntriesAreAccesses(x: Run, gate: bool, n: nat, a: Addr, u: Tid, k: Kind, e: ELP)
    requires n <= |x.trace| && e in Entries(HistoriesAt(x, gate, n, a), u, k)
    ensures IsEntry(x, gate, n, a, u, k, e)
  {
    if n > 0 {
      var l := n - 1;
      EntriesNext(x, gate, l, a, u, k, e);
      if e in Entries(HistoriesAt(x, gate, l, a), u, k) {
        EntriesAreAccesses(x, gate, l, a, u, k, e);
        var i: nat :| i < l && EntryOf(x, gate, l, a, u, k, e, i);
        assert NoFree(x.trace, i, n, a);
        assert EntryOf(x, gate, n, a, u, k, e, i);
      } else {
        assert NoFree(x.trace, l, n, a);
        assert EntryOf(x, gate, n, a, u, k, e, l);
      }
    }
  }

  // ---------- every write is covered by an entry ----------

  // An entry of the same epoch with at most the locks of write i.
  ghost predicate Covers(x: Run, i: nat, e: ELP)
    requires i < |x.trace|
  {
    e.epoch == Epoch(x.trace[i].tid, Get(Stamp(x, i), x.trace[i].tid)) && e.locks <= Held(x.trace, i)
  }

  lemma CoverStarts(x: Run, gate: bool, i: nat, a: Addr) returns (e: ELP)
    requires i < |x.trace| && SeenAccess(gate, x.trace, i, x.trace[i].tid, a, RaceWrite)
    ensures e in Entries(HistoriesAt(x, gate, i + 1, a), x.trace[i].tid, RaceWrite) && Covers(x, i, e)
  {
    var u, h, cur, ls := x.trace[i].tid, HistoriesAt(x, gate, i, a), D.AccessAt(x, i), Held(x.trace, i);
    HistoriesNext(x, gate, i, a);
    if RedundantWrite(h, cur, ls) {
      e :| e in SetOf(h.writers, u) && Stronger(e, cur.clock, ls);
      EntriesAreAccesses(x, gate, i, a, u, RaceWrite, e);
    } else {
      e := Current(cur, ls);
    }
  }

  lemma CoverStays(x: Run, gate: bool, i: nat, n: nat, a: Addr, e: ELP) returns (e': ELP)
    requires i < n < |x.trace| && !FreedAt(x.trace, n, a)
    requires e in Entries(HistoriesAt(x, gate, n, a), x.trace[i].tid, RaceWrite) && Covers(x, i, e)
    ensures e' in Entries(HistoriesAt(x, gate, n + 1, a), x.trace[i].tid, RaceWrite) && Covers(x, i, e')
  {
    var u := x.trace[i].tid;
    HistoriesNext(x, gate, n, a);
    if e in Entries(HistoriesAt(x, gate, n + 1, a), u, RaceWrite) {
      e' := e;
    } else {
      e' := Current(D.AccessAt(x, n), Held(x.trace, n));
    }
  }

  lemma {:induction false} WriteCovered(x: Run, gate: bool, i: nat, n: nat, a: Addr) returns (e: ELP)
    requires i < n <= |x.trace| && NoFree(x.trace, i, n, a)
    requires SeenAccess(gate, x.trace, i, x.trace[i].tid, a, RaceWrite)
    ensures e in Entries(HistoriesAt(x, gate, n, a), x.trace[i].tid, RaceWrite) && Covers(x, i, e)
    decreases n
  {
    if n == i + 1 {
      e := CoverStarts(x, gate, i, a);
    } else {
      assert !FreedAt(x.trace, n - 1, a);
      assert NoFree(x.trace, i, n - 1, a);
      e := WriteCovered(x, gate, i, n - 1, a);
      e := CoverStays(x, gate, i, n - 1, a, e);
    }
  }

  // ---------- soundness ----------

  // Every reported pair is an unordered pair of accesses without a common lock, neither of them redundant.
  lemma ReportedPairIsHybridRace(x: Run, gate: bool, j: nat, a: Addr, r: Pair)
    requires j < |x.trace| && Touches(x.trace[j], a) && r in PairsAt(x, gate, j)
    ensures r.addr == a && r.t1 == x.trace[j].tid && r.k1 == D.AccessAt(x, j).kind && Conflict(r.k0, r.k1)
    ensures !RedundantAt(x, gate, j, a)
    ensures exists i | 0 <= i < j ::
              x.trace[i].tid == r.t0 && HybridRace(x, gate, i, j, a, r.k0) && !RedundantAt(x, gate, i, a)
  {
    var h, cur, ls := HistoriesAt(x, gate, j, a), D.AccessAt(x, j), Held(x.trace, j);
    var m := if r.k0.RaceWrite? then h.writers else h.readers;
    assert r in HitPairs(a, m, r.k0, cur, ls);
    var u, e :| u in m && u != cur.t && e in m[u] && Hits(e, cur, ls) && r == PairOf(a, e, r.k0, cur);
    EntriesAreAccesses(x, gate, j, a, u, r.k0, e);
    var i: nat :| i < j && EntryOf(x, gate, j, a, u, r.k0, e, i);
    ClocksAreHappensBefore(x, i, j);
    assert HybridRace(x, gate, i, j, a, r.k0);
  }

  // ---------- write-write completeness ----------

  // A write-write race between threads t and u on cell a was reported at event l.
  ghost predicate WWReportedAt(x: Run, gate: bool, l: nat, a: Addr, t: Tid, u: Tid)
    requires l < |x.trace|
  {
    || Pair(a, t, RaceWrite, u, RaceWrite) in PairsAt(x, gate, l)
    || Pair(a, u, RaceWrite, t, RaceWrite) in PairsAt(x, gate, l)
  }

  lemma NewWriteReports(x: Run, gate: bool, i: nat, j: nat, a: Addr)
    requires i < j < |x.trace| && HybridRace(x, gate, i, j, a, RaceWrite)
    requires SeenAccess(gate, x.trace, j, x.trace[j].tid, a, RaceWrite)
    requires !RedundantWrite(HistoriesAt(x, gate, j, a), D.AccessAt(x, j), Held(x.trace, j))
    ensures WWReportedAt(x, gate, j, a, x.trace[i].tid, x.trace[j].tid)
  {
    var u, h, cur, ls := x.trace[i].tid, HistoriesAt(x, gate, j, a), D.AccessAt(x, j), Held(x.trace, j);
    var e := WriteCovered(x, gate, i, j, a);
    ClocksAreHappensBefore(x, i, j);
    assert u in h.writers && e in h.writers[u] && Hits(e, cur, ls);
    assert PairOf(a, e, RaceWrite, cur) in HitPairs(a, h.writers, RaceWrite, cur, ls);
  }

  // A redundant write repeats an earlier write of its epoch made with no more locks.
  lemma RedundantRepeats(x: Run, gate: bool, j: nat, a: Addr) returns (j': nat)
    requires j < |x.trace| && RedundantWrite(HistoriesAt(x, gate, j, a), D.AccessAt(x, j), Held(x.trace, j))
    requires SeenAccess(gate, x.trace, j, x.trace[j].tid, a, RaceWrite)
    ensures j' < j && SeenAccess(gate, x.trace, j', x.trace[j].tid, a, RaceWrite) && NoFree(x.trace, j', j, a)
    ensures Get(Stamp(x, j'), x.trace[j].tid) == Get(Stamp(x, j), x.trace[j].tid)
    ensures Held(x.trace, j') <= Held(x.trace, j)
  {
    var t, h, cur, ls := x.trace[j].tid, HistoriesAt(x, gate, j, a), D.AccessAt(x, j), Held(x.trace, j);
    var e :| e in SetOf(h.writers, t) && Stronger(e, cur.clock, ls);
    EntriesAreAccesses(x, gate, j, a, t, RaceWrite, e);
    j' :| j' < j && EntryOf(x, gate, j, a, t, RaceWrite, e, j');
  }

  // If two threads write a cell unordered and without a common lock, a write-write race between
  // them on that cell has been reported by the time the second write is processed.
  lemma {:induction false} WriteWriteComplete(x: Run, gate: bool, i: nat, j: nat, a: Addr) returns (l: nat)
    requires i < j < |x.trace| && HybridRace(x, gate, i, j, a, RaceWrite)
    requires SeenAccess(gate, x.trace, j, x.trace[j].tid, a, RaceWrite)
    ensures l <= j && NoFree(x.trace, l, j, a)
    ensures WWReportedAt(x, gate, l, a, x.trace[i].tid, x.trace[j].tid)
    decreases j
  {
    if !RedundantWrite(HistoriesAt(x, gate, j, a), D.AccessAt(x, j), Held(x.trace, j)) {
      NewWriteReports(x, gate, i, j, a);
      l := j;
    } else {
      var j' := RedundantRepeats(x, gate, j, a);
      ProgramOrder(x.mode, x.trace, j', j);
      if i < j' {
        if HB(x.mode, x.trace, i, j') {
          HBTransitive(x.mode, x.trace, i, j', j);
        }
        assert NoFree(x.trace, i, j', a);
        l := WriteWriteComplete(x, gate, i, j', a);
        assert NoFree(x.trace, l, j, a);
      } else {
        LaterEventsUnknown(x, i, j);
        ClocksAreHappensBefore(x, j', i);
        assert NoFree(x.trace, j', i, a);
        l := WriteWriteComplete(x, gate, j', i, a);
        assert NoFree(x.trace, l, j, a);
      }
    }
  }

  // ---------- the racy mark ----------

  // The mark of cell a after n events.
  ghost predicate RacyAt(x: Run, gate: bool, n: nat, a: Addr)
    requires n <= |x.trace|
  {
    n > 0 && !FreedAt(x.trace, n - 1, a) && (RacyAt(x, gate, n - 1, a) || MarksAt(x, gate, n - 1, a))
  }

  // Event j marks the cell.
  ghost predicate MarksAt(x: Run, gate: bool, j: nat, a: Addr)
    requires j < |x.trace|
  {
    var h, cur, ls := HistoriesAt(x, gate, j, a), D.AccessAt(x, j), Held(x.trace, j);
    && Touches(x.trace[j], a) && Processed(gate, x.trace, j)
    && if x.trace[j].op.Read? then ReadMarks(h, cur, ls) else WriteMarks(h, cur, ls)
  }

  ghost predicate ReportsOn(x: Run, gate: bool, j: nat, a: Addr)
    requires j < |x.trace|
  {
    Touches(x.trace[j], a) && PairsAt(x, gate, j) != {}
  }

  ghost function Reporting(x: Run, gate: bool, a: Addr): iset<nat> {
    iset j: nat | j < |x.trace| && ReportsOn(x, gate, j, a)
  }

  // Every entry is filed under its own thread, so an unordered entry of another thread is reported.
  lemma UnorderedIsReported(x: Run, gate: bool, j: nat, a: Addr, k: Kind)
    requires j < |x.trace|
    ensures var h, cur, ls := HistoriesAt(x, gate, j, a), D.AccessAt(x, j), Held(x.trace, j);
            var m := if k.RaceWrite? then h.writers else h.readers;
            OthersUnordered(m, cur, ls) <==> HitPairs(a, m, k, cur, ls) != {}
  {
    var h, cur, ls := HistoriesAt(x, gate, j, a), D.AccessAt(x, j), Held(x.trace, j);
    var m := if k.RaceWrite? then h.writers else h.readers;
    if u :| u in m && u != cur.t && AnyUnordered(m[u], cur, ls) {
      var e :| e in m[u] && Unordered(e, cur, ls);
      EntriesAreAccesses(x, gate, j, a, u, k, e);
      assert PairOf(a, e, k, cur) in HitPairs(a, m, k, cur, ls);
    }
    if r :| r in HitPairs(a, m, k, cur, ls) {
      var u, e :| u in m && u != cur.t && e in m[u] && Hits(e, cur, ls) && r == PairOf(a, e, k, cur);
      assert AnyUnordered(m[u], cur, ls);
    }
  }

  lemma MarksWhenReporting(x: Run, gate: bool, j: nat, a: Addr)
    requires j < |x.trace|
    ensures MarksAt(x, gate, j, a) <==> ReportsOn(x, gate, j, a)
  {
    UnorderedIsReported(x, gate, j, a, RaceWrite);
    UnorderedIsReported(x, gate, j, a, RaceRead);
  }

  // A cell is marked racy exactly when MultiLock reported a race on it since it was last freed.
  lemma {:induction false} RacyExact(x: Run, gate: bool, n: nat, a: Addr)
    requires n <= |x.trace|
    ensures RacyAt(x, gate, n, a) <==> D.SinceFree(x.trace, Reporting(x, gate, a), n, a)
  {
    if n > 0 {
      RacyExact(x, gate, n - 1, a);
      MarksWhenReporting(x, gate, n - 1, a);
      D.SinceFreeNext(x.trace, Reporting(x, gate, a), n - 1, a);
    }
  }
}
