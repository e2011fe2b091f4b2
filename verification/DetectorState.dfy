/** The detector object: its clock map and synchronisation tables, updated in place by the callbacks. */
module DetectorState {
  import opened Clocks
  import opened Program
  import opened Protocol
  import opened Origins
  import opened Barriers
  import opened Reachable
  import opened MonitoringUnits

  class Detector {
    const mode: Mode
    var clocks: map<Tid, VC>
    var mutexes: map<Addr, VC>
    var conds: map<Addr, CondMeta>
    var barriers: map<Addr, BarrierMeta>
    var atomic: map<Tid, bool>
    // The cells that have a meta; what it holds belongs to the detector.
    var metas: set<Addr>
    var starts: nat
    var joins: nat

    constructor (mode: Mode)
      ensures this.mode == mode && State() == START_SYNC
      ensures starts == 0 && joins == 0 && atomic == map[] && metas == {}
    {
      this.mode := mode;
      clocks, mutexes, conds, barriers := map[], map[], map[], map[];
      atomic, metas, starts, joins := map[], {}, 0, 0;
    }

    function State(): Sync
      reads this
    {
      Sync(clocks, mutexes, conds, barriers)
    }

    method ThreadStart(t: Tid, parent: Option<Tid>)
      requires parent.Some? ==> parent.value in clocks
      modifies this`clocks, this`atomic, this`starts
      ensures State() == Step(mode, old(State()), Event(t, Begin(parent)))
      ensures starts == old(starts) + 1 && atomic == old(atomic)[t := false]
    {
      var vc := Inc(map[], t);
      if parent.Some? {
        var q := parent.value;
        vc := Join(vc, clocks[q]);
        clocks := clocks[q := Inc(clocks[q], q)];
      }
      clocks := clocks[t := vc];
      atomic := atomic[t := false];
      starts := starts + 1;
    }

    method AfterPthreadJoin(t: Tid, child: Tid)
      requires t in clocks && child in clocks
      modifies this`clocks, this`joins
      ensures State() == Step(mode, old(State()), Event(t, JoinThread(child)))
      ensures joins == old(joins) + 1
    {
      var vc := Join(clocks[t], clocks[child]);
      if mode.MultiLockHB? {
        vc := Inc(vc, t);
      }
      clocks := clocks[t := vc];
      joins := joins + 1;
    }

    method SetAtomic(t: Tid, inside: bool)
      modifies this`atomic
      ensures atomic == old(atomic)[t := inside]
    {
      atomic := atomic[t := inside];
    }

    // The cells of an access that reach ProcessRead or ProcessWrite, in ascending order: none for a
    // filtered address, inside an atomic instruction, or (in Detector1) with one live thread.
    method BeforeMemAccess(t: Tid, filtered: bool, gate: bool, addr: Addr, size: nat, unit: nat)
      returns (cells: seq<Addr>)
      requires 0 < unit && t in atomic
      modifies this`metas
      ensures Members(cells) ==
              if filtered || atomic[t] || (gate && !(starts > 1 && starts - joins > 1)) then {}
              else Covered(addr, size, unit)
      ensures forall i, j | 0 <= i < j < |cells| :: cells[i] < cells[j]
      ensures metas == old(metas) + Members(cells)
    {
      cells := [];
      if filtered || atomic[t] || (gate && !(starts > 1 && starts - joins > 1)) {
        return;
      }
      cells := VisitUnits(DownAlign(addr, unit), UpAlign(addr + size, unit), unit);
      metas := metas + Members(cells);
    }

    static method VisitUnits(start: Addr, end: Addr, unit: nat) returns (cells: seq<Addr>)
      requires 0 < unit
      ensures Members(cells) == Units(start, end, unit)
      ensures forall i, j | 0 <= i < j < |cells| :: cells[i] < cells[j]
    {
      cells := [];
      var a := start;
      while a < end
        invariant forall i | 0 <= i < |cells| :: cells[i] < a
        invariant forall i, j | 0 <= i < j < |cells| :: cells[i] < cells[j]
        invariant Members(cells) + Units(a, end, unit) == Units(start, end, unit)
        decreases end - a
      {
        assert Members(cells + [a]) == Members(cells) + {a};
        cells := cells + [a];
        a := a + unit;
      }
    }

    // Creates the meta of an unknown mutex, so that later lookups find it.
    method GetMutexMeta(m: Addr) returns (meta: VC)
      modifies this`mutexes
      ensures meta == MutexOf(old(State()), m) && mutexes == old(mutexes)[m := meta]
    {
      if m !in mutexes {
        mutexes := mutexes[m := map[]];
      }
      meta := mutexes[m];
      assert mutexes == old(mutexes)[m := meta];
    }

    method ProcessLock(t: Tid, m: Addr)
      requires t in clocks
      modifies this`clocks, this`mutexes
      ensures State() == Step(mode, old(State()), Event(t, Lock(m)))
    {
      var meta := GetMutexMeta(m);
      if mode.FullHB? {
        clocks := clocks[t := Join(clocks[t], meta)];
      }
      assert clocks == clocks[t := clocks[t]];
    }

    method ProcessUnlock(t: Tid, m: Addr)
      requires t in clocks
      modifies this`clocks, this`mutexes
      ensures State() == Step(mode, old(State()), Event(t, Unlock(m)))
    {
      var meta := GetMutexMeta(m);
      var vc := clocks[t];
      mutexes := mutexes[m := if mode.FullHB? then vc else meta];
      assert mutexes == old(mutexes)[m := if mode.FullHB? then vc else meta];
      clocks := clocks[t := if mode.MultiLockHB? then vc else Inc(vc, t)];
    }

    method ProcessNotify(t: Tid, c: Addr)
      requires t in clocks
      modifies this`clocks, this`conds
      ensures State() == Step(mode, old(State()), Event(t, Notify(c)))
    {
      var meta := CondOf(State(), c);
      var vc := JoinTable(clocks[t], meta.wait);
      var signal := SignalAll(meta.signal, meta.wait, vc);
      EveryWaiter(meta.signal, meta.wait, vc);
      conds := conds[c := meta.(signal := signal)];
      clocks := clocks[t := Inc(vc, t)];
    }

    static method SignalAll(signal: map<Tid, VC>, wait: map<Tid, VC>, vc: VC) returns (r: map<Tid, VC>)
      ensures r == Signalled(signal, wait.Keys, vc)
    {
      var waiters := Ascending(wait.Keys);
      ghost var done: set<Tid> := {};
      r := signal;
      var i := 0;
      while i < |waiters|
        invariant 0 <= i <= |waiters| && done == Members(waiters[..i])
        invariant r == Signalled(signal, done, vc)
      {
        PrefixMembers(waiters, i);
        SignalOneMore(signal, done, waiters[i], vc);
        done := done + {waiters[i]};
        r := r[waiters[i] := vc];
        i := i + 1;
      }
      assert waiters[..i] == waiters;
      AscendingMembers(wait.Keys);
    }

    static method JoinTable(base: VC, tab: map<Tid, VC>) returns (vc: VC)
      ensures vc == JoinAll(base, tab)
    {
      var keys := Ascending(tab.Keys);
      vc := base;
      var i := 0;
      while i < |keys|
        invariant 0 <= i <= |keys| && vc == JoinUpTo(base, tab, keys, i)
      {
        vc := Join(vc, tab[keys[i]]);
        i := i + 1;
      }
    }

    method ProcessPreWait(t: Tid, c: Addr)
      requires t in clocks
      modifies this`clocks, this`conds
      ensures State() == Step(mode, old(State()), Event(t, PreWait(c)))
    {
      var meta := CondOf(State(), c);
      conds := conds[c := meta.(wait := meta.wait[t := clocks[t]])];
      clocks := clocks[t := Inc(clocks[t], t)];
    }

    method ProcessPostWait(t: Tid, c: Addr)
      requires t in clocks && t in CondOf(State(), c).wait
      modifies this`clocks, this`conds
      ensures State() == Step(mode, old(State()), Event(t, PostWait(c)))
    {
      var meta := CondOf(State(), c);
      var wait, signal := meta.wait - {t}, meta.signal;
      if t in signal {
        clocks := clocks[t := Join(clocks[t], signal[t])];
        signal := signal - {t};
      }
      assert signal == meta.signal - {t};
      assert clocks == clocks[t := clocks[t]];
      conds := conds[c := CondMeta(wait, signal)];
    }

    method BeforePthreadCondWait(t: Tid, c: Addr, m: Addr)
      requires t in clocks
      modifies this
      ensures State() == Step(mode, Step(mode, old(State()), Event(t, Unlock(m))), Event(t, PreWait(c)))
    {
      ProcessUnlock(t, m);
      ProcessPreWait(t, c);
    }

    method AfterPthreadCondWait(t: Tid, c: Addr, m: Addr)
      requires t in clocks && t in CondOf(State(), c).wait
      modifies this
      ensures State() == Step(mode, Step(mode, old(State()), Event(t, PostWait(c))), Event(t, Lock(m)))
    {
      ProcessPostWait(t, c);
      ProcessLock(t, m);
    }

    method ProcessPreBarrier(t: Tid, b: Addr)
      requires t in clocks
      modifies this`barriers
      ensures State() == Step(mode, old(State()), Event(t, Arrive(b)))
    {
      var meta := BarrierOf(State(), b);
      if meta.pre1 {
        meta := meta.(table1 := meta.table1[t := Slot(clocks[t], false)]);
      } else {
        meta := meta.(table2 := meta.table2[t := Slot(clocks[t], false)]);
      }
      barriers := barriers[b := meta];
      assert clocks == clocks[t := clocks[t]];
    }

    method ProcessPostBarrier(t: Tid, b: Addr)
      requires t in clocks
      requires var tab := PostTable(BarrierOf(State(), b)); t in tab ==> !tab[t].flag
      modifies this`clocks, this`barriers
      ensures State() == Step(mode, old(State()), Event(t, Depart(b)))
    {
      var meta := BarrierOf(State(), b);
      var vc, tab, allFlagged, noneFlagged := ScanSlots(clocks[t], PostTable(meta), t);
      meta := SwitchTables(meta, t, tab, allFlagged, noneFlagged);
      barriers := barriers[b := meta];
      clocks := clocks[t := Inc(vc, t)];
    }

    // The first to leave switches the arrivals to the other table; the last one clears its table.
    static method SwitchTables(meta: BarrierMeta, t: Tid, tab: map<Tid, Slot>, allFlagged: bool, noneFlagged: bool)
      returns (meta': BarrierMeta)
      requires tab == Flagged(PostTable(meta), t)
      requires allFlagged == AllFlaggedBut(PostTable(meta), t) && noneFlagged == NoneFlaggedBut(PostTable(meta), t)
      ensures meta' == DepartMeta(meta, t)
    {
      var left := if allFlagged then map[] else tab;
      meta' := if meta.post1 then meta.(table1 := left) else meta.(table2 := left);
      if noneFlagged {
        meta' := meta'.(pre1 := !meta.pre1);
      }
      if allFlagged {
        meta' := meta'.(post1 := !meta.post1);
      }
    }

    static method ScanSlots(own: VC, tab: map<Tid, Slot>, t: Tid)
      returns (vc: VC, tab': map<Tid, Slot>, allFlagged: bool, noneFlagged: bool)
      ensures vc == JoinAll(own, SlotClocks(tab))
      ensures tab' == Flagged(tab, t)
      ensures allFlagged <==> AllFlaggedBut(tab, t)
      ensures noneFlagged <==> NoneFlaggedBut(tab, t)
    {
      assert SlotClocks(tab).Keys == tab.Keys;
      vc, tab', allFlagged, noneFlagged := VisitSlots(own, tab, t, Ascending(tab.Keys));
      AllScanned(tab, t, true);
      AllScanned(tab, t, false);
      ScannedThread(tab, t);
    }

    // The loop over the departing thread's table: flags its own slot, tests the others, joins all.
    static method VisitSlots(own: VC, tab: map<Tid, Slot>, t: Tid, threads: seq<Tid>)
      returns (vc: VC, tab': map<Tid, Slot>, allFlagged: bool, noneFlagged: bool)
      requires forall k | 0 <= k < |threads| :: threads[k] in tab
      ensures vc == JoinUpTo(own, SlotClocks(tab), threads, |threads|)
      ensures tab' == if Member(t, threads, |threads|) then Flagged(tab, t) else tab
      ensures allFlagged <==> FlagsUpTo(tab, t, threads, |threads|, true)
      ensures noneFlagged <==> FlagsUpTo(tab, t, threads, |threads|, false)
    {
      vc, tab', allFlagged, noneFlagged := own, tab, true, true;
      for i := 0 to |threads|
        invariant vc == JoinUpTo(own, SlotClocks(tab), threads, i)
        invariant tab' == if Member(t, threads, i) then Flagged(tab, t) else tab
        invariant allFlagged <==> FlagsUpTo(tab, t, threads, i, true)
        invariant noneFlagged <==> FlagsUpTo(tab, t, threads, i, false)
      {
        var u := threads[i];
        if u == t {
          tab' := Flagged(tab, t);
        } else if !tab[u].flag {
          allFlagged := false;
        } else {
          noneFlagged := false;
        }
        vc := Join(vc, tab[u].vc);
      }
    }

    // Freeing the null address does nothing; otherwise every table forgets the covered units.
    method FreeAddrRegion(t: Tid, addr: Addr, size: nat, unit: nat)
      requires 0 < unit && t in clocks
      modifies this`metas, this`mutexes, this`conds, this`barriers
      ensures addr == 0 ==> State() == old(State()) && metas == old(metas)
      ensures addr != 0 ==>
                && State() == Step(mode, old(State()), Event(t, Free(Covered(addr, size, unit))))
                && metas == old(metas) - Covered(addr, size, unit)
    {
      if addr == 0 {
        return;
      }
      var start, end := DownAlign(addr, unit), UpAlign(addr + size, unit);
      var cells := VisitUnits(start, end, unit);
      metas := metas - Members(cells);
      mutexes := EraseUnits(mutexes, start, end, unit);
      conds := EraseUnits(conds, start, end, unit);
      barriers := EraseUnits(barriers, start, end, unit);
      assert clocks == clocks[t := clocks[t]];
    }
  }

  ghost function Signalled(signal: map<Tid, VC>, done: set<Tid>, vc: VC): map<Tid, VC> {
    signal + map u | u in done :: vc
  }

  lemma EveryWaiter(signal: map<Tid, VC>, wait: map<Tid, VC>, vc: VC)
    ensures Signalled(signal, wait.Keys, vc) == signal + map u | u in wait :: vc
  {
    assert (map u | u in wait.Keys :: vc) == (map u | u in wait :: vc);
  }

  lemma SignalOneMore(signal: map<Tid, VC>, done: set<Tid>, t: Tid, vc: VC)
    ensures Signalled(signal, done, vc)[t := vc] == Signalled(signal, done + {t}, vc)
  {
  }

  ghost predicate Member(t: Tid, threads: seq<Tid>, n: nat)
    requires n <= |threads|
  {
    n > 0 && (threads[n - 1] == t || Member(t, threads, n - 1))
  }

  lemma {:induction false} MemberIsIn(t: Tid, threads: seq<Tid>, n: nat)
    requires n <= |threads|
    ensures Member(t, threads, n) <==> t in threads[..n]
  {
    if n > 0 {
      MemberIsIn(t, threads, n - 1);
      assert threads[..n] == threads[..n - 1] + [threads[n - 1]];
    }
  }

  // The slots of the first n threads other than t all have this flag.
  predicate FlagsUpTo(tab: map<Tid, Slot>, t: Tid, threads: seq<Tid>, n: nat, flag: bool)
    requires n <= |threads| && forall k | 0 <= k < |threads| :: threads[k] in tab
  {
    n == 0 || (FlagsUpTo(tab, t, threads, n - 1, flag) && (threads[n - 1] == t || tab[threads[n - 1]].flag == flag))
  }

  lemma {:induction false} FlagsUpToAt(tab: map<Tid, Slot>, t: Tid, threads: seq<Tid>, n: nat, flag: bool)
    requires n <= |threads| && forall k | 0 <= k < |threads| :: threads[k] in tab
    ensures FlagsUpTo(tab, t, threads, n, flag) <==> forall u | u in threads[..n] :: u == t || tab[u].flag == flag
  {
    if n > 0 {
      FlagsUpToAt(tab, t, threads, n - 1, flag);
      assert threads[..n] == threads[..n - 1] + [threads[n - 1]];
    }
  }

  lemma AllScanned(tab: map<Tid, Slot>, t: Tid, flag: bool)
    ensures var threads := Ascending(tab.Keys);
            FlagsUpTo(tab, t, threads, |threads|, flag) <==> forall u | u in tab && u != t :: tab[u].flag == flag
  {
    var threads := Ascending(tab.Keys);
    FlagsUpToAt(tab, t, threads, |threads|, flag);
    forall u ensures u in threads[..|tab|] <==> u in tab {
      VisitsAll(tab.Keys, u);
    }
  }

  lemma ScannedThread(tab: map<Tid, Slot>, t: Tid)
    ensures Member(t, Ascending(tab.Keys), |tab|) <==> t in tab
  {
    var threads := Ascending(tab.Keys);
    MemberIsIn(t, threads, |threads|);
    assert threads[..|threads|] == threads;
    AscendingMembers(tab.Keys);
    assert t in threads <==> t in Members(threads);
  }

  // What the callbacks assert about their tables holds at every event of every run: every thread has
  // a clock, a finished wait was registered, and nobody leaves the same barrier round twice.
  lemma AssertionsHold(x: Run, j: nat)
    requires j < |x.trace|
    ensures var e, s := x.trace[j], x.syncs[j];
            match e.op
            case Begin(parent) => parent.Some? ==> parent.value in s.clocks
            case JoinThread(child) => e.tid in s.clocks && child in s.clocks
            case PostWait(c) => e.tid in s.clocks && e.tid in CondOf(s, c).wait
            case Depart(b) =>
              var tab := PostTable(BarrierOf(s, b));
              e.tid in s.clocks && e.tid in tab && !tab[e.tid].flag
            case _ => e.tid in s.clocks
  {
    var e := x.trace[j];
    assert Taken(x, j);
    AlwaysSane(x, j);
    if e.tid in x.progs[j].started {
      StartedHaveClocks(x, j, e.tid);
    }
    match e.op
    case Begin(Some(q)) => StartedHaveClocks(x, j, q);
    case JoinThread(child) => StartedHaveClocks(x, j, child);
    case PostWait(c) => CondOriginHolds(x, j, e.tid, c);
    case Depart(b) =>
      DepartureJoinsItsRound(x, j, b);
    case _ =>
  }

  lemma ClocksStay(x: Run, n: nat, t: Tid)
    requires n < |x.trace| && (t in x.syncs[n].clocks || x.trace[n].tid == t)
    ensures t in x.syncs[n + 1].clocks
  {
    assert Taken(x, n);
  }

  lemma {:induction false} StartedHaveClocks(x: Run, n: nat, t: Tid)
    requires n <= |x.trace| && t in x.progs[n].started
    ensures t in x.syncs[n].clocks
  {
    if n > 0 {
      if t in x.progs[n - 1].started {
        StartedHaveClocks(x, n - 1, t);
      } else {
        assert Taken(x, n - 1);
      }
      ClocksStay(x, n - 1, t);
    }
  }
}
