/** The instructions the detectors mark as racy when a cell is freed. */
module RacyInstructions {
  import opened Program
  import opened Protocol
  import opened Causality
  import opened Accesses
  import opened Locksets
  import D = Djit
  import F = FastTrack
  import R = FirstRace
  import M = FastTrackMarks
  import A = AccuLock
  import L = MultiLock

  // The instructions a cell has collected after n events, given which events it takes note of.
  ghost function Collected(tr: Trace, noted: iset<nat>, n: nat, a: Addr): set<Inst>
    requires n <= |tr|
  {
    if n == 0 || FreedAt(tr, n - 1, a) then {} else
    Collected(tr, noted, n - 1, a) + if n - 1 in noted && Touches(tr[n - 1], a) then {tr[n - 1].op.inst} else {}
  }

  // The noted accesses to the cell by instruction inst.
  ghost function By(tr: Trace, noted: iset<nat>, a: Addr, inst: Inst): iset<nat> {
    iset j: nat | j < |tr| && j in noted && Touches(tr[j], a) && tr[j].op.inst == inst
  }

  lemma {:induction false} CollectedExact(tr: Trace, noted: iset<nat>, n: nat, a: Addr, inst: Inst)
    requires n <= |tr|
    ensures inst in Collected(tr, noted, n, a) <==> D.SinceFree(tr, By(tr, noted, a, inst), n, a)
  {
    if n > 0 {
      CollectedExact(tr, noted, n - 1, a, inst);
      D.SinceFreeNext(tr, By(tr, noted, a, inst), n - 1, a);
    }
  }

  // Event f frees an incarnation of the cell on which a race was reported and that inst has accessed.
  ghost predicate RacyIncarnation(
    tr: Trace, noted: iset<nat>, reporting: iset<nat>, f: nat, a: Addr, inst: Inst)
    requires f < |tr|
  {
    FreedAt(tr, f, a) && D.SinceFree(tr, reporting, f, a) && D.SinceFree(tr, By(tr, noted, a, inst), f, a)
  }

  ghost predicate SomeRacyFree(
    tr: Trace, noted: iset<nat>, reporting: iset<nat>, n: nat, a: Addr, inst: Inst)
    requires n <= |tr|
  {
    exists f | 0 <= f < n :: RacyIncarnation(tr, noted, reporting, f, a, inst)
  }

  // What is added event by event is there exactly when some event has added it.
  lemma {:induction false} Accumulates(present: iset<nat>, adds: iset<nat>, n: nat)
    requires 0 !in present
    requires forall k: nat | k < n :: k + 1 in present <==> k in present || k in adds
    ensures n in present <==> exists f: nat | f < n :: f in adds
  {
    if n > 0 {
      Accumulates(present, adds, n - 1);
      assert n - 1 + 1 in present <==> n - 1 in present || n - 1 in adds;
    }
  }

  // ---------- Djit: all cells at once ----------

  ghost function DjitNotes(x: Run, gate: bool): iset<nat> {
    iset j: nat | j < |x.trace| && Processed(gate, x.trace, j)
  }

  // The instruction table of the detector after n events.
  ghost function DjitInsts(x: Run, gate: bool, track: bool, n: nat): map<Addr, set<Inst>>
    requires n <= |x.trace|
  {
    if n == 0 then map[] else
    var insts := DjitInsts(x, gate, track, n - 1);
    match x.trace[n - 1].op
    case Read(a, inst) =>
      if !Processed(gate, x.trace, n - 1) then insts
      else D.Collect(insts, a, track, inst)
    case Write(a, inst) =>
      if !Processed(gate, x.trace, n - 1) then insts
      else D.Collect(insts, a, track, inst)
    case Free(region) => insts - region
    case _ => insts
  }

  // The instructions it has marked as racy.
  ghost function DjitMarked(x: Run, gate: bool, track: bool, n: nat): set<Inst>
    requires n <= |x.trace|
  {
    if n == 0 then {} else
    var marked := DjitMarked(x, gate, track, n - 1);
    match x.trace[n - 1].op
    case Free(region) =>
      if !track then marked
      else marked + D.RacyInsts(D.TableAt(x, gate, n - 1), DjitInsts(x, gate, track, n - 1), region)
    case _ => marked
  }

  // The cell has collected exactly the instructions of the processed accesses since its last free.
  lemma {:induction false} DjitCollects(x: Run, gate: bool, track: bool, n: nat, a: Addr)
    requires n <= |x.trace|
    ensures D.InstsOf(DjitInsts(x, gate, track, n), a) ==
            if track then Collected(x.trace, DjitNotes(x, gate), n, a) else {}
  {
    if n > 0 {
      DjitCollects(x, gate, track, n - 1, a);
    }
  }

  // Freeing at event f marks inst for some cell.
  ghost predicate DjitRacyFree(x: Run, gate: bool, f: nat, inst: Inst)
    requires f < |x.trace|
  {
    exists a :: RacyIncarnation(x.trace, DjitNotes(x, gate), D.Reporting(x, gate, a), f, a, inst)
  }

  lemma DjitMarksNext(x: Run, gate: bool, n: nat, region: set<Addr>, inst: Inst)
    requires n < |x.trace| && x.trace[n].op == Free(region)
    ensures inst in D.RacyInsts(D.TableAt(x, gate, n), DjitInsts(x, gate, true, n), region) <==>
            DjitRacyFree(x, gate, n, inst)
  {
    forall a | a in region
      ensures D.MetaOf(D.TableAt(x, gate, n), a).racy && inst in D.InstsOf(DjitInsts(x, gate, true, n), a) <==>
              RacyIncarnation(x.trace, DjitNotes(x, gate), D.Reporting(x, gate, a), n, a, inst)
    {
      D.RacyExact(x, gate, n, a);
      DjitCollects(x, gate, true, n, a);
      CollectedExact(x.trace, DjitNotes(x, gate), n, a, inst);
    }
    if a :| RacyIncarnation(x.trace, DjitNotes(x, gate), D.Reporting(x, gate, a), n, a, inst) {
      assert a in region;
    }
  }

  ghost predicate SomeDjitRacyFree(x: Run, gate: bool, n: nat, inst: Inst)
    requires n <= |x.trace|
  {
    exists f | 0 <= f < n :: DjitRacyFree(x, gate, f, inst)
  }

  lemma DjitMarkedNext(x: Run, gate: bool, track: bool, n: nat, inst: Inst)
    requires n < |x.trace|
    ensures inst in DjitMarked(x, gate, track, n + 1) <==>
            inst in DjitMarked(x, gate, track, n) || (track && DjitRacyFree(x, gate, n, inst))
  {
    if x.trace[n].op.Free? {
      DjitMarksNext(x, gate, n, x.trace[n].op.region, inst);
    }
  }

  // Djit has marked exactly the instructions that accessed a freed incarnation with a reported race.
  lemma DjitMarksExactly(x: Run, gate: bool, track: bool, n: nat, inst: Inst)
    requires n <= |x.trace|
    ensures inst in DjitMarked(x, gate, track, n) <==> track && SomeDjitRacyFree(x, gate, n, inst)
  {
    var present := iset k: nat | k <= n && inst in DjitMarked(x, gate, track, k);
    var adds := iset f: nat | f < n && track && DjitRacyFree(x, gate, f, inst);
    forall k: nat | k < n ensures k + 1 in present <==> k in present || k in adds {
      DjitMarkedNext(x, gate, track, k, inst);
    }
    Accumulates(present, adds, n);
    assert forall f: nat | f < n :: f in adds <==> track && DjitRacyFree(x, gate, f, inst);
  }

  // ---------- the other detectors: one cell at a time ----------

  // What a free of the cell adds to the marked instructions.
  ghost function AfterFree(
    tr: Trace, n: nat, a: Addr, marked: set<Inst>, track: bool, racy: bool, insts: set<Inst>): set<Inst>
    requires n < |tr|
  {
    marked + if FreedAt(tr, n, a) then MarkedOnFree(track, racy, insts) else {}
  }

  lemma FreeMarks(
    tr: Trace, noted: iset<nat>, reporting: iset<nat>, n: nat, a: Addr, inst: Inst,
    marked: set<Inst>, track: bool, racy: bool, insts: set<Inst>)
    requires n < |tr| && (racy <==> D.SinceFree(tr, reporting, n, a))
    requires insts == if track then Collected(tr, noted, n, a) else {}
    ensures inst in AfterFree(tr, n, a, marked, track, racy, insts) <==>
            inst in marked || (track && RacyIncarnation(tr, noted, reporting, n, a, inst))
  {
    CollectedExact(tr, noted, n, a, inst);
  }

  ghost function FastTrackNotes(x: Run, gate: bool, a: Addr): iset<nat> {
    iset j: nat | j < |x.trace| && Processed(gate, x.trace, j) && !F.Skipped(x, gate, j, a)
  }

  // The instructions the cell has collected after n events.
  ghost function FastTrackInsts(x: Run, gate: bool, track: bool, n: nat, a: Addr): set<Inst>
    requires n <= |x.trace|
  {
    if n == 0 then {} else
    var insts := FastTrackInsts(x, gate, track, n - 1, a);
    var m, cur := F.MetaAt(x, gate, n - 1, a), D.AccessAt(x, n - 1);
    match x.trace[n - 1].op
    case Read(b, _) =>
      if b == a && Processed(gate, x.trace, n - 1) then F.ReadInsts(insts, m, cur, track) else insts
    case Write(b, _) =>
      if b == a && Processed(gate, x.trace, n - 1) then F.WriteInsts(insts, m, cur, track) else insts
    case Free(region) => if a in region then {} else insts
    case _ => insts
  }

  ghost function FastTrackMarked(x: Run, gate: bool, track: bool, n: nat, a: Addr): set<Inst>
    requires n <= |x.trace|
  {
    if n == 0 then {} else
    AfterFree(x.trace, n - 1, a, FastTrackMarked(x, gate, track, n - 1, a),
              track, F.MetaAt(x, gate, n - 1, a).racy, FastTrackInsts(x, gate, track, n - 1, a))
  }

  lemma {:induction false} FastTrackCollects(x: Run, gate: bool, track: bool, n: nat, a: Addr)
    requires n <= |x.trace|
    ensures FastTrackInsts(x, gate, track, n, a) ==
            if track then Collected(x.trace, FastTrackNotes(x, gate, a), n, a) else {}
  {
    if n > 0 {
      FastTrackCollects(x, gate, track, n - 1, a);
    }
  }

  lemma FastTrackMarkedNext(x: Run, gate: bool, track: bool, n: nat, a: Addr, inst: Inst)
    requires n < |x.trace|
    ensures inst in FastTrackMarked(x, gate, track, n + 1, a) <==>
            inst in FastTrackMarked(x, gate, track, n, a)
            || (track && RacyIncarnation(x.trace, FastTrackNotes(x, gate, a), R.Reporting(x, gate, a), n, a, inst))
  {
    FastTrackCollects(x, gate, track, n, a);
    M.RacyExact(x, gate, n, a);
    FreeMarks(x.trace, FastTrackNotes(x, gate, a), R.Reporting(x, gate, a), n, a, inst,
              FastTrackMarked(x, gate, track, n, a),
              track, F.MetaAt(x, gate, n, a).racy, FastTrackInsts(x, gate, track, n, a));
  }

  lemma FastTrackMarksExactly(x: Run, gate: bool, track: bool, n: nat, a: Addr, inst: Inst)
    requires n <= |x.trace|
    ensures inst in FastTrackMarked(x, gate, track, n, a) <==>
            track && SomeRacyFree(x.trace, FastTrackNotes(x, gate, a), R.Reporting(x, gate, a), n, a, inst)
  {
    var noted, reporting := FastTrackNotes(x, gate, a), R.Reporting(x, gate, a);
    var present := iset k: nat | k <= n && inst in FastTrackMarked(x, gate, track, k, a);
    var adds := iset f: nat | f < n && track && RacyIncarnation(x.trace, noted, reporting, f, a, inst);
    forall k: nat | k < n ensures k + 1 in present <==> k in present || k in adds {
      FastTrackMarkedNext(x, gate, track, k, a, inst);
    }
    Accumulates(present, adds, n);
    assert forall f: nat | f < n :: f in adds <==> track && RacyIncarnation(x.trace, noted, reporting, f, a, inst);
  }

  ghost function AccuLockNotes(x: Run, gate: bool, a: Addr): iset<nat> {
    iset j: nat | j < |x.trace| && Processed(gate, x.trace, j) && !A.Skipped(x, gate, j, a)
  }

  // The instructions the cell has collected after n events.
  ghost function AccuLockInsts(x: Run, gate: bool, track: bool, n: nat, a: Addr): set<Inst>
    requires n <= |x.trace|
  {
    if n == 0 then {} else
    var insts := AccuLockInsts(x, gate, track, n - 1, a);
    var m, cur := A.MetaAt(x, gate, n - 1, a), D.AccessAt(x, n - 1);
    match x.trace[n - 1].op
    case Read(b, _) =>
      if b == a && Processed(gate, x.trace, n - 1) then A.ReadInsts(insts, m, cur, track) else insts
    case Write(b, _) =>
      if b == a && Processed(gate, x.trace, n - 1) then A.WriteInsts(insts, m, cur, track) else insts
    case Free(region) => if a in region then {} else insts
    case _ => insts
  }

  ghost function AccuLockMarked(x: Run, gate: bool, track: bool, n: nat, a: Addr): set<Inst>
    requires n <= |x.trace|
  {
    if n == 0 then {} else
    AfterFree(x.trace, n - 1, a, AccuLockMarked(x, gate, track, n - 1, a),
              track, A.MetaAt(x, gate, n - 1, a).racy, AccuLockInsts(x, gate, track, n - 1, a))
  }

  lemma {:induction false} AccuLockCollects(x: Run, gate: bool, track: bool, n: nat, a: Addr)
    requires n <= |x.trace|
    ensures AccuLockInsts(x, gate, track, n, a) ==
            if track then Collected(x.trace, AccuLockNotes(x, gate, a), n, a) else {}
  {
    if n > 0 {
      AccuLockCollects(x, gate, track, n - 1, a);
    }
  }

  lemma AccuLockMarkedNext(x: Run, gate: bool, track: bool, n: nat, a: Addr, inst: Inst)
    requires n < |x.trace|
    ensures inst in AccuLockMarked(x, gate, track, n + 1, a) <==>
            inst in AccuLockMarked(x, gate, track, n, a)
            || (track && RacyIncarnation(x.trace, AccuLockNotes(x, gate, a), A.Reporting(x, gate, a), n, a, inst))
  {
    AccuLockCollects(x, gate, track, n, a);
    A.RacyExact(x, gate, n, a);
    FreeMarks(x.trace, AccuLockNotes(x, gate, a), A.Reporting(x, gate, a), n, a, inst,
              AccuLockMarked(x, gate, track, n, a),
              track, A.MetaAt(x, gate, n, a).racy, AccuLockInsts(x, gate, track, n, a));
  }

  lemma AccuLockMarksExactly(x: Run, gate: bool, track: bool, n: nat, a: Addr, inst: Inst)
    requires n <= |x.trace|
    ensures inst in AccuLockMarked(x, gate, track, n, a) <==>
            track && SomeRacyFree(x.trace, AccuLockNotes(x, gate, a), A.Reporting(x, gate, a), n, a, inst)
  {
    var noted, reporting := AccuLockNotes(x, gate, a), A.Reporting(x, gate, a);
    var present := iset k: nat | k <= n && inst in AccuLockMarked(x, gate, track, k, a);
    var adds := iset f: nat | f < n && track && RacyIncarnation(x.trace, noted, reporting, f, a, inst);
    forall k: nat | k < n ensures k + 1 in present <==> k in present || k in adds {
      AccuLockMarkedNext(x, gate, track, k, a, inst);
    }
    Accumulates(present, adds, n);
    assert forall f: nat | f < n :: f in adds <==> track && RacyIncarnation(x.trace, noted, reporting, f, a, inst);
  }

  ghost function MultiLockNotes(x: Run, gate: bool, a: Addr): iset<nat> {
    iset j: nat | j < |x.trace| && Processed(gate, x.trace, j) && !L.RedundantAt(x, gate, j, a)
  }

  // The instructions the cell has collected after n events.
  ghost function MultiLockInsts(x: Run, gate: bool, track: bool, n: nat, a: Addr): set<Inst>
    requires n <= |x.trace|
  {
    if n == 0 then {} else
    var insts := MultiLockInsts(x, gate, track, n - 1, a);
    var m, cur := L.HistoriesAt(x, gate, n - 1, a), D.AccessAt(x, n - 1);
    var ls := Held(x.trace, n - 1);
    match x.trace[n - 1].op
    case Read(b, _) =>
      if b == a && Processed(gate, x.trace, n - 1) then L.ReadInsts(insts, m, cur, ls, track) else insts
    case Write(b, _) =>
      if b == a && Processed(gate, x.trace, n - 1) then L.WriteInsts(insts, m, cur, ls, track) else insts
    case Free(region) => if a in region then {} else insts
    case _ => insts
  }

  ghost function MultiLockMarked(x: Run, gate: bool, track: bool, n: nat, a: Addr): set<Inst>
    requires n <= |x.trace|
  {
    if n == 0 then {} else
    AfterFree(x.trace, n - 1, a, MultiLockMarked(x, gate, track, n - 1, a),
              track, L.RacyAt(x, gate, n - 1, a), MultiLockInsts(x, gate, track, n - 1, a))
  }

  lemma {:induction false} MultiLockCollects(x: Run, gate: bool, track: bool, n: nat, a: Addr)
    requires n <= |x.trace|
    ensures MultiLockInsts(x, gate, track, n, a) ==
            if track then Collected(x.trace, MultiLockNotes(x, gate, a), n, a) else {}
  {
    if n > 0 {
      MultiLockCollects(x, gate, track, n - 1, a);
    }
  }

  lemma MultiLockMarkedNext(x: Run, gate: bool, track: bool, n: nat, a: Addr, inst: Inst)
    requires n < |x.trace|
    ensures inst in MultiLockMarked(x, gate, track, n + 1, a) <==>
            inst in MultiLockMarked(x, gate, track, n, a)
            || (track && RacyIncarnation(x.trace, MultiLockNotes(x, gate, a), L.Reporting(x, gate, a), n, a, inst))
  {
    MultiLockCollects(x, gate, track, n, a);
    L.RacyExact(x, gate, n, a);
    FreeMarks(x.trace, MultiLockNotes(x, gate, a), L.Reporting(x, gate, a), n, a, inst,
              MultiLockMarked(x, gate, track, n, a),
              track, L.RacyAt(x, gate, n, a), MultiLockInsts(x, gate, track, n, a));
  }

  lemma MultiLockMarksExactly(x: Run, gate: bool, track: bool, n: nat, a: Addr, inst: Inst)
    requires n <= |x.trace|
    ensures inst in MultiLockMarked(x, gate, track, n, a) <==>
            track && SomeRacyFree(x.trace, MultiLockNotes(x, gate, a), L.Reporting(x, gate, a), n, a, inst)
  {
    var noted, reporting := MultiLockNotes(x, gate, a), L.Reporting(x, gate, a);
    var present := iset k: nat | k <= n && inst in MultiLockMarked(x, gate, track, k, a);
    var adds := iset f: nat | f < n && track && RacyIncarnation(x.trace, noted, reporting, f, a, inst);
    forall k: nat | k < n ensures k + 1 in present <==> k in present || k in adds {
      MultiLockMarkedNext(x, gate, track, k, a, inst);
    }
    Accumulates(present, adds, n);
    assert forall f: nat | f < n :: f in adds <==> track && RacyIncarnation(x.trace, noted, reporting, f, a, inst);
  }
}
