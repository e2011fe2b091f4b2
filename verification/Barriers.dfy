/** The two-table barrier: which table holds which round, and whose clocks a departure joins. */
module Barriers {
  import opened Clocks
  import opened Program
  import opened Protocol
  import opened Causality
  import opened Reachable

  // ---------- the shape of the tables ----------

  function OtherTable(m: BarrierMeta): map<Tid, Slot> {
    if m.post1 then m.table2 else m.table1
  }

  ghost predicate TableIs(tab: map<Tid, Slot>, members: set<Tid>, flagged: set<Tid>) {
    tab.Keys == members && forall u | u in tab :: tab[u].flag <==> u in flagged
  }

  // While nobody leaves, the post table collects the arrivals and the other table is empty.  While
  // a round drains, the post table is exactly that round, flagged for those who left, and the
  // other table collects the next round.
  ghost predicate BarrierShape(bar: Bar, all: set<Tid>, m: BarrierMeta) {
    && (m.pre1 == m.post1 <==> (bar.leaving == {} || bar.leaving == all))
    && (bar.leaving == {} ==> TableIs(PostTable(m), bar.arrived, {}) && OtherTable(m) == map[])
    && (bar.leaving != {} ==> TableIs(PostTable(m), all, all - bar.leaving) && TableIs(OtherTable(m), bar.arrived, {}))
  }

  ghost predicate BarOk(bar: Bar, all: set<Tid>) {
    && bar.arrived <= all && bar.leaving <= all && bar.arrived !! bar.leaving
    && (bar.leaving != {} ==> bar.round > 0)
  }

  lemma ArriveKeepsShape(bar: Bar, all: set<Tid>, m: BarrierMeta, t: Tid, v: VC)
    requires BarOk(bar, all) && BarrierShape(bar, all, m)
    requires t in all && t !in bar.arrived && t !in bar.leaving
    ensures BarrierShape(ArriveAt(bar, all, t), all, ArriveMeta(m, t, v))
    ensures bar.arrived + {t} == all ==> bar.leaving == {}
  {
    if bar.arrived + {t} == all {
      assert bar.leaving == {} by {
        assert bar.leaving <= all == bar.arrived + {t};
        assert bar.leaving !! bar.arrived + {t};
      }
      assert all - all == {};
    }
  }

  lemma FlagsTell(bar: Bar, all: set<Tid>, m: BarrierMeta, t: Tid)
    requires BarOk(bar, all) && BarrierShape(bar, all, m) && t in bar.leaving
    ensures AllFlaggedBut(PostTable(m), t) <==> bar.leaving == {t}
    ensures NoneFlaggedBut(PostTable(m), t) <==> bar.leaving == all
    ensures t in PostTable(m) && !PostTable(m)[t].flag
  {
    var tab := PostTable(m);
    if AllFlaggedBut(tab, t) {
      forall u | u in bar.leaving ensures u == t {
        assert u in tab;
      }
    }
    if NoneFlaggedBut(tab, t) {
      forall u | u in all ensures u in bar.leaving {
        assert u in tab;
      }
    }
  }

  lemma DepartKeepsShape(bar: Bar, all: set<Tid>, m: BarrierMeta, t: Tid)
    requires BarOk(bar, all) && BarrierShape(bar, all, m) && t in bar.leaving
    ensures BarrierShape(bar.(leaving := bar.leaving - {t}), all, DepartMeta(m, t))
  {
    FlagsTell(bar, all, m, t);
    var m' := DepartMeta(m, t);
    if bar.leaving == {t} {
      assert bar.leaving - {t} == {};
      assert PostTable(m') == OtherTable(m);
    } else {
      var u :| u in bar.leaving && u != t;
      assert u in bar.leaving - {t};
      assert PostTable(m') == Flagged(PostTable(m), t);
      assert OtherTable(m') == OtherTable(m);
    }
  }

  // ---------- how one event changes a barrier ----------

  lemma BarAfter(parties: Parties, p: Prog, e: Event, b: Addr)
    requires CanDo(parties, p, e)
    ensures BarOf(Do(parties, p, e), b) ==
            if e.op == Arrive(b) then ArriveAt(BarOf(p, b), PartiesOf(parties, b), e.tid)
            else if e.op == Depart(b) then BarOf(p, b).(leaving := BarOf(p, b).leaving - {e.tid})
            else if e.op.Free? && b in e.op.region then Bar(0, {}, {})
            else BarOf(p, b)
  {
  }

  lemma BarriersAfterGet(s: Sync, e: Event, v: VC, b: Addr)
    ensures var after := BarriersAfter(s, e, v);
            (if b in after then after[b] else BarrierMeta(true, true, map[], map[])) ==
            if e.op == Arrive(b) then ArriveMeta(BarrierOf(s, b), e.tid, v)
            else if e.op == Depart(b) then DepartMeta(BarrierOf(s, b), e.tid)
            else if e.op.Free? && b in e.op.region then BarrierMeta(true, true, map[], map[])
            else BarrierOf(s, b)
  {
  }

  // ---------- along a run ----------

  ghost predicate Shape(x: Run, n: nat, b: Addr)
    requires n <= |x.trace|
  {
    BarrierShape(BarOf(x.progs[n], b), PartiesOf(x.parties, b), BarrierOf(x.syncs[n], b))
  }

  lemma BarNext(x: Run, n: nat, b: Addr)
    requires n < |x.trace|
    ensures var e, p := x.trace[n], x.progs[n];
            && BarOk(BarOf(p, b), PartiesOf(x.parties, b))
            && (e.op == Arrive(b) ==>
                  e.tid in PartiesOf(x.parties, b) && e.tid !in BarOf(p, b).arrived && e.tid !in BarOf(p, b).leaving)
            && (e.op == Depart(b) ==> e.tid in BarOf(p, b).leaving)
    ensures var e, bar, meta := x.trace[n], BarOf(x.progs[n], b), BarrierOf(x.syncs[n], b);
            var bar', meta' := BarOf(x.progs[n + 1], b), BarrierOf(x.syncs[n + 1], b);
            if e.op == Arrive(b) then
              bar' == ArriveAt(bar, PartiesOf(x.parties, b), e.tid) && meta' == ArriveMeta(meta, e.tid, Stamp(x, n))
            else if e.op == Depart(b) then
              bar' == bar.(leaving := bar.leaving - {e.tid}) && meta' == DepartMeta(meta, e.tid)
            else if FreedAt(x.trace, n, b) then
              bar' == Bar(0, {}, {}) && meta' == BarrierMeta(true, true, map[], map[])
            else bar' == bar && meta' == meta
  {
    var e := x.trace[n];
    assert Taken(x, n);
    AlwaysSane(x, n);
    assert BarSane(x.parties, x.progs[n], b);
    BarAfter(x.parties, x.progs[n], e, b);
    BarriersAfterGet(x.syncs[n], e, Stamp(x, n), b);
    assert In(x.progs[n], e.tid, b) ==> e.tid in x.progs[n].inside;
  }

  lemma ShapeNext(x: Run, n: nat, b: Addr)
    requires n < |x.trace| && Shape(x, n, b)
    ensures Shape(x, n + 1, b)
  {
    BarNext(x, n, b);
    var e, bar, all := x.trace[n], BarOf(x.progs[n], b), PartiesOf(x.parties, b);
    if e.op == Arrive(b) {
      ArriveKeepsShape(bar, all, BarrierOf(x.syncs[n], b), e.tid, Stamp(x, n));
    } else if e.op == Depart(b) {
      DepartKeepsShape(bar, all, BarrierOf(x.syncs[n], b), e.tid);
    }
  }

  lemma {:induction false} ShapeHolds(x: Run, n: nat, b: Addr)
    requires n <= |x.trace|
    ensures Shape(x, n, b)
  {
    if n > 0 {
      ShapeHolds(x, n - 1, b);
      ShapeNext(x, n - 1, b);
    }
  }

  // A thread has left as many rounds as were completed, except the one it may still leave.
  ghost predicate RoundsOk(x: Run, n: nat, u: Tid, b: Addr)
    requires n <= |x.trace|
  {
    var bar := BarOf(x.progs[n], b);
    u in PartiesOf(x.parties, b) ==>
      Rounds(x.trace, n, u, b) + (if u in bar.leaving then 1 else 0) == bar.round
  }

  lemma RoundsNext(x: Run, n: nat, u: Tid, b: Addr)
    requires n < |x.trace| && RoundsOk(x, n, u, b)
    ensures RoundsOk(x, n + 1, u, b)
  {
    BarNext(x, n, b);
    var e, bar, all := x.trace[n], BarOf(x.progs[n], b), PartiesOf(x.parties, b);
    if e.op == Arrive(b) {
      ShapeHolds(x, n, b);
      ArriveKeepsShape(bar, all, BarrierOf(x.syncs[n], b), e.tid, Stamp(x, n));
    }
  }

  lemma {:induction false} RoundsHold(x: Run, n: nat, u: Tid, b: Addr)
    requires n <= |x.trace|
    ensures RoundsOk(x, n, u, b)
  {
    if n > 0 {
      RoundsHold(x, n - 1, u, b);
      RoundsNext(x, n - 1, u, b);
    }
  }

  // The table that collects arrivals.
  function GatherTable(bar: Bar, m: BarrierMeta): map<Tid, Slot> {
    if bar.leaving == {} then PostTable(m) else OtherTable(m)
  }

  ghost predicate SlotIs(x: Run, tab: map<Tid, Slot>, u: Tid, o: int) {
    0 <= o < |x.trace| && u in tab && tab[u].vc == Stamp(x, o)
  }

  // Arrivals are kept with the stamp of the arrival of their own round.
  ghost predicate SlotOrigin(x: Run, n: nat, u: Tid, b: Addr)
    requires n <= |x.trace|
  {
    var bar, m := BarOf(x.progs[n], b), BarrierOf(x.syncs[n], b);
    && (u in bar.arrived ==> SlotIs(x, GatherTable(bar, m), u, ArrivalAt(x.trace, n, u, b, bar.round)))
    && (bar.leaving != {} && bar.round > 0 && u in PartiesOf(x.parties, b) ==>
          SlotIs(x, PostTable(m), u, ArrivalAt(x.trace, n, u, b, bar.round - 1)))
  }

  lemma SlotOriginArrive(x: Run, n: nat, u: Tid, b: Addr)
    requires n < |x.trace| && SlotOrigin(x, n, u, b) && x.trace[n].op == Arrive(b)
    ensures SlotOrigin(x, n + 1, u, b)
  {
    BarNext(x, n, b);
    ShapeHolds(x, n, b);
    var e, bar, all, m := x.trace[n], BarOf(x.progs[n], b), PartiesOf(x.parties, b), BarrierOf(x.syncs[n], b);
    RoundsHold(x, n, e.tid, b);
    ArrivalSlots(bar, all, m, e.tid, Stamp(x, n), u);
    ArrivalNext(x, n, u, b, bar.round);
    ArrivalNext(x, n, u, b, bar.round - if bar.round > 0 then 1 else 0);
  }

  // Which slot of which table stands for an arrival of u once t has arrived.
  lemma ArrivalSlots(bar: Bar, all: set<Tid>, m: BarrierMeta, t: Tid, v: VC, u: Tid)
    requires BarOk(bar, all) && BarrierShape(bar, all, m)
    requires t in all && t !in bar.arrived && t !in bar.leaving
    ensures var bar', m', tab := ArriveAt(bar, all, t), ArriveMeta(m, t, v), GatherTable(bar, m);
            var tab' := if bar'.leaving == all && bar.leaving == {} then PostTable(m') else GatherTable(bar', m');
            && (u in bar'.arrived || (u in all && bar'.arrived == {}) ==>
                  u in tab' && (if u == t then tab'[u].vc == v else u in tab && tab'[u] == tab[u]))
            && (bar.leaving != {} ==> PostTable(m') == PostTable(m) && bar'.leaving == bar.leaving)
  {
    ArriveKeepsShape(bar, all, m, t, v);
  }

  lemma ArrivalNext(x: Run, n: nat, u: Tid, b: Addr, r: nat)
    requires n < |x.trace| && x.trace[n].op == Arrive(b)
    ensures ArrivalAt(x.trace, n + 1, u, b, r) ==
            if u == x.trace[n].tid && Rounds(x.trace, n, u, b) == r then n else ArrivalAt(x.trace, n, u, b, r)
  {
  }

  lemma SlotOriginDepart(x: Run, n: nat, u: Tid, b: Addr)
    requires n < |x.trace| && SlotOrigin(x, n, u, b) && x.trace[n].op == Depart(b)
    ensures SlotOrigin(x, n + 1, u, b)
  {
    BarNext(x, n, b);
    ShapeHolds(x, n, b);
    var e, bar, all, m := x.trace[n], BarOf(x.progs[n], b), PartiesOf(x.parties, b), BarrierOf(x.syncs[n], b);
    FlagsTell(bar, all, m, e.tid);
    if bar.leaving - {e.tid} == {} {
      assert bar.leaving == {e.tid};
    }
  }

  lemma SlotOriginOther(x: Run, n: nat, u: Tid, b: Addr)
    requires n < |x.trace| && SlotOrigin(x, n, u, b) && x.trace[n].op != Arrive(b) && x.trace[n].op != Depart(b)
    ensures SlotOrigin(x, n + 1, u, b)
  {
    BarNext(x, n, b);
  }

  lemma {:induction false} SlotOriginHolds(x: Run, n: nat, u: Tid, b: Addr)
    requires n <= |x.trace|
    ensures SlotOrigin(x, n, u, b)
  {
    if n > 0 {
      SlotOriginHolds(x, n - 1, u, b);
      if x.trace[n - 1].op == Arrive(b) {
        SlotOriginArrive(x, n - 1, u, b);
      } else if x.trace[n - 1].op == Depart(b) {
        SlotOriginDepart(x, n - 1, u, b);
      } else {
        SlotOriginOther(x, n - 1, u, b);
      }
    }
  }

  // ---------- the barrier theorem ----------

  // Every departure finds in the post table exactly the participants, each with the clock of its
  // arrival for the round the departing thread leaves; the thread's own slot is not yet flagged.
  lemma DepartureJoinsItsRound(x: Run, j: nat, b: Addr)
    requires j < |x.trace| && x.trace[j].op == Depart(b)
    ensures var t, tab, all := x.trace[j].tid, PostTable(BarrierOf(x.syncs[j], b)), PartiesOf(x.parties, b);
            && t in all && tab.Keys == all
            && !tab[t].flag
            && forall u | u in all :: SlotIs(x, tab, u, ArrivalAt(x.trace, j, u, b, Rounds(x.trace, j, t, b)))
  {
    var t, all := x.trace[j].tid, PartiesOf(x.parties, b);
    BarNext(x, j, b);
    ShapeHolds(x, j, b);
    RoundsHold(x, j, t, b);
    var bar := BarOf(x.progs[j], b);
    FlagsTell(bar, all, BarrierOf(x.syncs[j], b), t);
    forall u | u in all
      ensures SlotIs(x, PostTable(BarrierOf(x.syncs[j], b)), u, ArrivalAt(x.trace, j, u, b, Rounds(x.trace, j, t, b)))
    {
      SlotOriginHolds(x, j, u, b);
    }
  }

  // No arrival overwrites a slot, and it goes to a table whose slots are all of its own round.
  lemma ArrivalStartsItsSlot(x: Run, j: nat, b: Addr)
    requires j < |x.trace| && x.trace[j].op == Arrive(b)
    ensures var t, tab := x.trace[j].tid, PreTable(BarrierOf(x.syncs[j], b));
            && t !in tab
            && (forall u | u in tab :: !tab[u].flag
                                       && SlotIs(x, tab, u, ArrivalAt(x.trace, j, u, b, Rounds(x.trace, j, t, b))))
  {
    var t, all := x.trace[j].tid, PartiesOf(x.parties, b);
    BarNext(x, j, b);
    ShapeHolds(x, j, b);
    RoundsHold(x, j, t, b);
    var bar, m := BarOf(x.progs[j], b), BarrierOf(x.syncs[j], b);
    assert PreTable(m) == GatherTable(bar, m);
    forall u | u in PreTable(m)
      ensures SlotIs(x, PreTable(m), u, ArrivalAt(x.trace, j, u, b, Rounds(x.trace, j, t, b)))
    {
      SlotOriginHolds(x, j, u, b);
    }
  }

  // When nobody is inside the barrier both tables are empty and the selectors agree.
  lemma IdleBarrierIsReset(x: Run, n: nat, b: Addr)
    requires n <= |x.trace|
    requires forall t | t in x.progs[n].inside :: x.progs[n].inside[t] != b
    ensures var m := BarrierOf(x.syncs[n], b);
            m.table1 == map[] && m.table2 == map[] && m.pre1 == m.post1
  {
    ShapeHolds(x, n, b);
    AlwaysSane(x, n);
    var bar := BarOf(x.progs[n], b);
    assert bar.arrived == {} by {
      forall t | t in bar.arrived ensures false { assert In(x.progs[n], t, b); }
    }
    assert bar.leaving == {} by {
      forall t | t in bar.leaving ensures false { assert In(x.progs[n], t, b); }
    }
    assert PostTable(BarrierOf(x.syncs[n], b)).Keys == {};
  }

  // ---------- departures after the barrier was freed ----------

  // The meta after n departures that find nobody's slot.
  function LateMeta(n: nat): BarrierMeta {
    BarrierMeta(n % 2 == 0, n % 2 == 0, map[], map[])
  }

  // A released thread whose departure comes after the barrier was freed finds an empty table: it learns
  // nothing, only ticks, and switches both selectors.
  lemma LateDeparture(mode: Mode, s: Sync, t: Tid, b: Addr, n: nat)
    requires BarrierOf(s, b) == LateMeta(n)
    ensures PostTable(BarrierOf(s, b)) == map[]
    ensures var s' := Step(mode, s, Event(t, Depart(b)));
            BarrierOf(s', b) == LateMeta(n + 1) && ClockOf(s', t) == Inc(ClockOf(s, t), t)
  {
    var tab := PostTable(BarrierOf(s, b));
    assert SlotClocks(tab) == map[];
  }

  // The two tables and both selectors exchanged.
  function Mirror(m: BarrierMeta): BarrierMeta {
    BarrierMeta(!m.pre1, !m.post1, m.table2, m.table1)
  }

  // A mirrored barrier behaves the same for ever, so selectors left switched by late departures change
  // nothing for the rounds that follow.
  lemma MirrorBehavesTheSame(m: BarrierMeta, t: Tid, vc: VC, n: nat)
    ensures PostTable(Mirror(m)) == PostTable(m) && PreTable(Mirror(m)) == PreTable(m)
    ensures ArriveMeta(Mirror(m), t, vc) == Mirror(ArriveMeta(m, t, vc))
    ensures DepartMeta(Mirror(m), t) == Mirror(DepartMeta(m, t))
    ensures LateMeta(n) == LateMeta(0) || LateMeta(n) == Mirror(LateMeta(0))
  {
  }
}
