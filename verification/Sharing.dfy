/** The shared-instruction analyzer: a per-cell automaton, and the instructions it marks as shared. */
module Sharing {
  import opened Clocks
  import opened Program
  import opened Causality
  import opened Accesses
  import opened MonitoringUnits

  datatype Meta = Meta(shared: bool, hasWrite: bool, multiRead: bool, last: Tid, insts: set<Inst>)

  // The cell table, and the instructions marked as shared.
  datatype Cells = Cells(metas: map<Addr, Meta>, marked: set<Inst>)

  function ReadUnit(s: Cells, t: Tid, inst: Inst, a: Addr): Cells {
    if a !in s.metas then s.(metas := s.metas[a := Meta(false, false, false, t, {inst})])
    else
      var m := s.metas[a];
      if m.shared then s.(marked := s.marked + {inst})
      else if t == m.last then s.(metas := s.metas[a := m.(insts := m.insts + {inst})])
      else if m.hasWrite then
        Cells(s.metas[a := m.(shared := true, insts := {})], s.marked + m.insts + {inst})
      else s.(metas := s.metas[a := m.(insts := m.insts + {inst}, multiRead := true, last := t)])
  }

  function WriteUnit(s: Cells, t: Tid, inst: Inst, a: Addr): Cells {
    if a !in s.metas then s.(metas := s.metas[a := Meta(false, true, false, t, {inst})])
    else
      var m := s.metas[a];
      if m.shared then s.(marked := s.marked + {inst})
      else if t != m.last || m.multiRead then
        Cells(s.metas[a := m.(hasWrite := true, shared := true, insts := {})], s.marked + m.insts + {inst})
      else s.(metas := s.metas[a := m.(hasWrite := true, insts := m.insts + {inst})])
  }

  // ---------- the analyzer object ----------

  function ReadUnits(s: Cells, t: Tid, inst: Inst, start: Addr, end: Addr, unit: nat): Cells
    requires 0 < unit
    decreases end - start
  {
    if start >= end then s else ReadUnits(ReadUnit(s, t, inst, start), t, inst, start + unit, end, unit)
  }

  function WriteUnits(s: Cells, t: Tid, inst: Inst, start: Addr, end: Addr, unit: nat): Cells
    requires 0 < unit
    decreases end - start
  {
    if start >= end then s else WriteUnits(WriteUnit(s, t, inst, start), t, inst, start + unit, end, unit)
  }

  class Analyzer {
    var metas: map<Addr, Meta>
    var marked: set<Inst>

    constructor ()
      ensures State() == Cells(map[], {})
    {
      metas, marked := map[], {};
    }

    function State(): Cells
      reads this
    {
      Cells(metas, marked)
    }

    method MarkAll(insts: set<Inst>)
      modifies this`marked
      ensures marked == old(marked) + insts
    {
      var todo := insts;
      while todo != {}
        invariant todo <= insts && marked == old(marked) + (insts - todo)
        decreases |todo|
      {
        var inst :| inst in todo;
        marked := marked + {inst};
        todo := todo - {inst};
      }
    }

    method ReadOne(t: Tid, inst: Inst, a: Addr)
      modifies this
      ensures State() == ReadUnit(old(State()), t, inst, a)
    {
      if a !in metas {
        metas := metas[a := Meta(false, false, false, t, {inst})];
        return;
      }
      var m := metas[a];
      if m.shared {
        marked := marked + {inst};
        return;
      }
      m := m.(insts := m.insts + {inst});
      if t != m.last {
        if m.hasWrite {
          MarkAll(m.insts);
          m := m.(shared := true, insts := {});
        } else {
          m := m.(multiRead := true, last := t);
        }
      }
      metas := metas[a := m];
    }

    method WriteOne(t: Tid, inst: Inst, a: Addr)
      modifies this
      ensures State() == WriteUnit(old(State()), t, inst, a)
    {
      if a !in metas {
        metas := metas[a := Meta(false, true, false, t, {inst})];
        return;
      }
      var m := metas[a];
      if m.shared {
        marked := marked + {inst};
        return;
      }
      m := m.(hasWrite := true, insts := m.insts + {inst});
      if t != m.last || m.multiRead {
        MarkAll(m.insts);
        m := m.(shared := true, insts := {});
      }
      metas := metas[a := m];
    }

    // A filtered access changes nothing; otherwise every covered unit takes a step, in ascending order.
    method BeforeMemRead(t: Tid, filtered: bool, inst: Inst, addr: Addr, size: nat, unit: nat)
      requires 0 < unit
      modifies this
      ensures State() == if filtered then old(State()) else
                         ReadUnits(old(State()), t, inst, DownAlign(addr, unit), UpAlign(addr + size, unit), unit)
    {
      if filtered {
        return;
      }
      var a, end := DownAlign(addr, unit), UpAlign(addr + size, unit);
      ghost var start := a;
      while a < end
        invariant ReadUnits(State(), t, inst, a, end, unit) == ReadUnits(old(State()), t, inst, start, end, unit)
        decreases end - a
      {
        ReadOne(t, inst, a);
        a := a + unit;
      }
    }

    // A filtered access changes nothing; otherwise every covered unit takes a step, in ascending order.
    method BeforeMemWrite(t: Tid, filtered: bool, inst: Inst, addr: Addr, size: nat, unit: nat)
      requires 0 < unit
      modifies this
      ensures State() == if filtered then old(State()) else
                         WriteUnits(old(State()), t, inst, DownAlign(addr, unit), UpAlign(addr + size, unit), unit)
    {
      if filtered {
        return;
      }
      var a, end := DownAlign(addr, unit), UpAlign(addr + size, unit);
      ghost var start := a;
      while a < end
        invariant WriteUnits(State(), t, inst, a, end, unit) == WriteUnits(old(State()), t, inst, start, end, unit)
        decreases end - a
      {
        WriteOne(t, inst, a);
        a := a + unit;
      }
    }

    method FreeAddrRegion(addr: Addr, size: nat, unit: nat)
      requires 0 < unit
      modifies this`metas
      ensures metas == if addr == 0 then old(metas) else old(metas) - Covered(addr, size, unit)
    {
      if addr != 0 {
        metas := EraseUnits(metas, DownAlign(addr, unit), UpAlign(addr + size, unit), unit);
      }
    }
  }

  // ---------- the analyzer along a trace ----------

  function Next(s: Cells, e: Event): Cells {
    match e.op
    case Read(a, inst) => ReadUnit(s, e.tid, inst, a)
    case Write(a, inst) => WriteUnit(s, e.tid, inst, a)
    case Free(region) => s.(metas := s.metas - region)
    case _ => s
  }

  ghost function After(tr: Trace, n: nat): Cells
    requires n <= |tr|
  {
    if n == 0 then Cells(map[], {}) else Next(After(tr, n - 1), tr[n - 1])
  }

  // ---------- incarnations of a cell ----------

  // The last free of the cell before n, or -1: it names the incarnation an access at n belongs to.
  ghost function LastFree(tr: Trace, n: nat, a: Addr): (f: int)
    requires n <= |tr|
    ensures -1 <= f < n
  {
    if n == 0 then -1 else if FreedAt(tr, n - 1, a) then n - 1 else LastFree(tr, n - 1, a)
  }

  // Event i is an access in incarnation f of cell a.
  ghost predicate In(tr: Trace, i: nat, a: Addr, f: int)
    requires i < |tr|
  {
    Touches(tr[i], a) && LastFree(tr, i, a) == f
  }

  ghost function Threads(tr: Trace, n: nat, a: Addr, f: int): set<Tid>
    requires n <= |tr|
  {
    set i: nat | i < n && In(tr, i, a, f) :: tr[i].tid
  }

  ghost function Insts(tr: Trace, n: nat, a: Addr, f: int): set<Inst>
    requires n <= |tr|
  {
    set i: nat | i < n && In(tr, i, a, f) :: tr[i].op.inst
  }

  ghost predicate Written(tr: Trace, n: nat, a: Addr, f: int)
    requires n <= |tr|
  {
    exists i: nat | i < n && In(tr, i, a, f) :: tr[i].op.Write?
  }

  ghost predicate Several(s: set<Tid>) {
    exists t, u | t in s && u in s :: t != u
  }

  // At least two threads have touched the incarnation, and at least one access was a write.
  ghost predicate Mixed(tr: Trace, n: nat, a: Addr, f: int)
    requires n <= |tr|
  {
    Several(Threads(tr, n, a, f)) && Written(tr, n, a, f)
  }

  lemma IncarnationNext(tr: Trace, n: nat, a: Addr, f: int)
    requires n < |tr|
    ensures Threads(tr, n + 1, a, f) == Threads(tr, n, a, f) + if In(tr, n, a, f) then {tr[n].tid} else {}
    ensures Insts(tr, n + 1, a, f) == Insts(tr, n, a, f) + if In(tr, n, a, f) then {tr[n].op.inst} else {}
    ensures Written(tr, n + 1, a, f) <==> Written(tr, n, a, f) || (In(tr, n, a, f) && tr[n].op.Write?)
  {
    assert forall i: nat | i < n && In(tr, i, a, f) ::
        tr[i].tid in Threads(tr, n, a, f) && tr[i].op.inst in Insts(tr, n, a, f);
  }

  // ---------- the cell invariant ----------

  ghost predicate CellIs(tr: Trace, n: nat, a: Addr)
    requires n <= |tr|
  {
    var s, f := After(tr, n), LastFree(tr, n, a);
    var threads := Threads(tr, n, a, f);
    && (a in s.metas <==> threads != {})
    && (a in s.metas ==>
          var m := s.metas[a];
          && (m.shared <==> Mixed(tr, n, a, f))
          && (!m.shared ==>
                && (m.hasWrite <==> Written(tr, n, a, f))
                && m.insts == Insts(tr, n, a, f)
                && m.last in threads
                && (m.multiRead <==> Several(threads))))
  }

  lemma NewIncarnationIsEmpty(tr: Trace, n: nat, a: Addr)
    requires n < |tr| && FreedAt(tr, n, a)
    ensures Threads(tr, n + 1, a, n) == {}
  {
  }

  lemma CellNext(tr: Trace, n: nat, a: Addr)
    requires n < |tr| && CellIs(tr, n, a)
    ensures CellIs(tr, n + 1, a)
  {
    var f := LastFree(tr, n, a);
    IncarnationNext(tr, n, a, f);
    if FreedAt(tr, n, a) {
      NewIncarnationIsEmpty(tr, n, a);
    } else if Touches(tr[n], a) {
      CellTouched(tr, n, a);
    }
  }

  lemma CellTouched(tr: Trace, n: nat, a: Addr)
    requires n < |tr| && CellIs(tr, n, a) && Touches(tr[n], a)
    ensures CellIs(tr, n + 1, a)
  {
    var f := LastFree(tr, n, a);
    IncarnationNext(tr, n, a, f);
    var threads, t := Threads(tr, n, a, f), tr[n].tid;
    SeveralGrows(threads, t);
    UntouchedIsEmpty(tr, n, a, f);
    if a in After(tr, n).metas {
      assert threads != {} && (After(tr, n).metas[a].last in threads || After(tr, n).metas[a].shared);
    }
  }

  lemma UntouchedIsEmpty(tr: Trace, n: nat, a: Addr, f: int)
    requires n <= |tr|
    ensures Threads(tr, n, a, f) == {} ==> Insts(tr, n, a, f) == {} && !Written(tr, n, a, f)
  {
    assert forall i: nat | i < n && In(tr, i, a, f) :: tr[i].tid in Threads(tr, n, a, f);
  }

  lemma SeveralGrows(s: set<Tid>, t: Tid)
    ensures Several(s + {t}) <==> Several(s) || (s != {} && s != {t})
  {
    if Several(s) {
      var u, w :| u in s && w in s && u != w;
      assert u in s + {t} && w in s + {t};
    } else if s != {} && s != {t} {
      var u :| u in s && (u != t || exists w :: w in s && w != t);
      var w :| w in s && w != t;
      assert w in s + {t} && t in s + {t};
    }
  }

  lemma {:induction false} CellHolds(tr: Trace, n: nat, a: Addr)
    requires n <= |tr|
    ensures CellIs(tr, n, a)
  {
    if n > 0 {
      CellHolds(tr, n - 1, a);
      CellNext(tr, n - 1, a);
    }
  }

  // ---------- exactness ----------

  // Some incarnation that inst accessed is mixed by position n.
  ghost predicate SharedInst(tr: Trace, n: nat, inst: Inst)
    requires n <= |tr|
  {
    exists a, f :: Mixed(tr, n, a, f) && inst in Insts(tr, n, a, f)
  }

  lemma SharedStays(tr: Trace, n: nat, inst: Inst)
    requires n < |tr| && SharedInst(tr, n, inst)
    ensures SharedInst(tr, n + 1, inst)
  {
    var a, f :| Mixed(tr, n, a, f) && inst in Insts(tr, n, a, f);
    IncarnationNext(tr, n, a, f);
    SeveralGrows(Threads(tr, n, a, f), tr[n].tid);
    assert Threads(tr, n, a, f) + {} == Threads(tr, n, a, f);
    assert Mixed(tr, n + 1, a, f);
  }

  // The incarnation that event n accesses is mixed after it, and inst accessed it.
  ghost predicate SharedHere(tr: Trace, n: nat, inst: Inst)
    requires n < |tr|
  {
    (tr[n].op.Read? || tr[n].op.Write?) &&
    var a := tr[n].op.a;
    var f := LastFree(tr, n, a);
    Mixed(tr, n + 1, a, f) && inst in Insts(tr, n + 1, a, f)
  }

  lemma SharedComes(tr: Trace, n: nat, inst: Inst)
    requires n < |tr| && SharedInst(tr, n + 1, inst)
    ensures SharedInst(tr, n, inst) || SharedHere(tr, n, inst)
  {
    var a, f :| Mixed(tr, n + 1, a, f) && inst in Insts(tr, n + 1, a, f);
    IncarnationNext(tr, n, a, f);
    if !In(tr, n, a, f) {
      assert Threads(tr, n + 1, a, f) == Threads(tr, n, a, f);
      assert Mixed(tr, n, a, f);
    }
  }

  lemma SharedNext(tr: Trace, n: nat, inst: Inst)
    requires n < |tr|
    ensures SharedInst(tr, n + 1, inst) <==> SharedInst(tr, n, inst) || SharedHere(tr, n, inst)
  {
    if SharedInst(tr, n, inst) {
      SharedStays(tr, n, inst);
    }
    if SharedInst(tr, n + 1, inst) {
      SharedComes(tr, n, inst);
    }
  }

  // What one access marks, in terms of the cell before and after it.
  lemma MarkedAfter(tr: Trace, n: nat, inst: Inst)
    requires n < |tr| && (tr[n].op.Read? || tr[n].op.Write?)
    ensures var s, s', a := After(tr, n), After(tr, n + 1), tr[n].op.a;
            inst in s'.marked <==>
                    || inst in s.marked
                    || (s'.metas[a].shared
                        && (inst == tr[n].op.inst || (!s.metas[a].shared && inst in s.metas[a].insts)))
  {
  }

  // One event marks the instructions of the incarnation it makes mixed, or its own if it was mixed.
  lemma MarkedNext(tr: Trace, n: nat, inst: Inst)
    requires n < |tr| && (tr[n].op.Read? || tr[n].op.Write?)
    requires inst in After(tr, n).marked <==> SharedInst(tr, n, inst)
    ensures inst in After(tr, n + 1).marked <==> SharedInst(tr, n, inst) || SharedHere(tr, n, inst)
  {
    var a := tr[n].op.a;
    var f := LastFree(tr, n, a);
    MarkedAfter(tr, n, inst);
    CellHolds(tr, n, a);
    CellHolds(tr, n + 1, a);
    IncarnationNext(tr, n, a, f);
    assert In(tr, n, a, f);
    if Mixed(tr, n, a, f) && inst in Insts(tr, n, a, f) {
      assert SharedInst(tr, n, inst);
    }
  }

  // After any trace with frees, an instruction is marked as shared exactly when it accessed some
  // incarnation of a cell that two threads touched and one of them wrote, also if it did so before
  // the cell became shared.
  lemma {:induction false} MarkedExactlyShared(tr: Trace, n: nat, inst: Inst)
    requires n <= |tr|
    ensures inst in After(tr, n).marked <==> SharedInst(tr, n, inst)
  {
    if n == 0 {
      assert forall a, f :: Insts(tr, 0, a, f) == {};
    } else {
      var l := n - 1;
      MarkedExactlyShared(tr, l, inst);
      SharedNext(tr, l, inst);
      if tr[l].op.Read? || tr[l].op.Write? {
        MarkedNext(tr, l, inst);
      }
    }
  }

  // ---------- accesses of several units ----------

  // The unit accesses of one callback, as single events.
  function UnitReads(t: Tid, inst: Inst, start: Addr, end: Addr, unit: nat): Trace
    requires 0 < unit
    decreases end - start
  {
    if start >= end then [] else [Event(t, Read(start, inst))] + UnitReads(t, inst, start + unit, end, unit)
  }

  function UnitWrites(t: Tid, inst: Inst, start: Addr, end: Addr, unit: nat): Trace
    requires 0 < unit
    decreases end - start
  {
    if start >= end then [] else [Event(t, Write(start, inst))] + UnitWrites(t, inst, start + unit, end, unit)
  }

  lemma {:induction false} AfterPrefix(tr: Trace, more: Trace, n: nat)
    requires n <= |tr|
    ensures After(tr + more, n) == After(tr, n)
  {
    if n > 0 {
      AfterPrefix(tr, more, n - 1);
    }
  }

  lemma AfterOneMore(tr: Trace, e: Event)
    ensures After(tr + [e], |tr| + 1) == Next(After(tr, |tr|), e)
  {
    AfterPrefix(tr, [e], |tr|);
  }

  lemma EventFirst(tr: Trace, e: Event, rest: Trace)
    ensures tr + [e] + rest == tr + ([e] + rest)
  {
  }

  // What BeforeMemRead computes is the analyzer after the trace extended by the unit reads.
  lemma {:induction false} ReadUnitsExtend(tr: Trace, t: Tid, inst: Inst, start: Addr, end: Addr, unit: nat)
    requires 0 < unit
    ensures var tr' := tr + UnitReads(t, inst, start, end, unit);
            ReadUnits(After(tr, |tr|), t, inst, start, end, unit) == After(tr', |tr'|)
    decreases end - start
  {
    if start >= end {
      assert tr + [] == tr;
    } else {
      var e, rest := Event(t, Read(start, inst)), UnitReads(t, inst, start + unit, end, unit);
      AfterOneMore(tr, e);
      ReadUnitsExtend(tr + [e], t, inst, start + unit, end, unit);
      EventFirst(tr, e, rest);
    }
  }

  lemma {:induction false} WriteUnitsExtend(tr: Trace, t: Tid, inst: Inst, start: Addr, end: Addr, unit: nat)
    requires 0 < unit
    ensures var tr' := tr + UnitWrites(t, inst, start, end, unit);
            WriteUnits(After(tr, |tr|), t, inst, start, end, unit) == After(tr', |tr'|)
    decreases end - start
  {
    if start >= end {
      assert tr + [] == tr;
    } else {
      var e, rest := Event(t, Write(start, inst)), UnitWrites(t, inst, start + unit, end, unit);
      AfterOneMore(tr, e);
      WriteUnitsExtend(tr + [e], t, inst, start + unit, end, unit);
      EventFirst(tr, e, rest);
    }
  }

  // ---------- the unit accesses are those of the covered units ----------

  // Exactly the covered units are accessed, by the given thread and instruction.
  lemma {:induction false} UnitReadsCover(t: Tid, inst: Inst, start: Addr, end: Addr, unit: nat, c: Addr)
    requires 0 < unit
    ensures c in Units(start, end, unit) <==> Event(t, Read(c, inst)) in UnitReads(t, inst, start, end, unit)
    ensures forall e | e in UnitReads(t, inst, start, end, unit) ::
              e.tid == t && e.op.Read? && e.op.inst == inst && e.op.a >= start
    decreases end - start
  {
    if start < end {
      UnitReadsCover(t, inst, start + unit, end, unit, c);
    }
  }

  lemma {:induction false} UnitWritesCover(t: Tid, inst: Inst, start: Addr, end: Addr, unit: nat, c: Addr)
    requires 0 < unit
    ensures c in Units(start, end, unit) <==> Event(t, Write(c, inst)) in UnitWrites(t, inst, start, end, unit)
    ensures forall e | e in UnitWrites(t, inst, start, end, unit) ::
              e.tid == t && e.op.Write? && e.op.inst == inst && e.op.a >= start
    decreases end - start
  {
    if start < end {
      UnitWritesCover(t, inst, start + unit, end, unit, c);
    }
  }
}
