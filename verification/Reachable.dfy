/** Invariants of the programs themselves, kept by every legal event. */
module Reachable {
  import opened Clocks
  import opened Program
  import opened Protocol

  ghost predicate In(p: Prog, t: Tid, b: Addr) {
    t in BarOf(p, b).arrived || t in BarOf(p, b).leaving
  }

  // Arrivals and leavers of a barrier are disjoint participants, and a round that is full is closed.
  ghost predicate BarSane(parties: Parties, p: Prog, b: Addr) {
    var bar, all := BarOf(p, b), PartiesOf(parties, b);
    && bar.arrived <= all && bar.leaving <= all && bar.arrived !! bar.leaving
    && (bar.leaving == {} ==> bar.arrived == all ==> all == {})
    && (bar.leaving != {} ==> bar.round > 0)
  }

  ghost predicate ThreadsSane(p: Prog) {
    && (forall t | t in p.waiting :: t in p.started && t !in p.joined && t !in p.inside)
    && (forall t | t in p.inside :: t in p.started && t !in p.joined)
    && (forall m | m in p.held :: p.held[m] in p.started)
  }

  ghost predicate InsideSane(p: Prog) {
    && (forall t | t in p.inside :: In(p, t, p.inside[t]))
    && (forall t, b | In(p, t, b) :: t in p.inside && p.inside[t] == b)
  }

  ghost predicate Sane(parties: Parties, p: Prog) {
    && ThreadsSane(p)
    && InsideSane(p)
    && (forall b :: BarSane(parties, p, b))
  }

  lemma SaneStart(parties: Parties)
    ensures Sane(parties, START_PROG)
  {
  }

  lemma WaitersStay(parties: Parties, p: Prog, e: Event)
    requires ThreadsSane(p) && CanDo(parties, p, e)
    ensures var p' := Do(parties, p, e);
            forall t | t in p'.waiting :: t in p'.started && t !in p'.joined && t !in p'.inside
  {
  }

  lemma InsidersStay(parties: Parties, p: Prog, e: Event)
    requires ThreadsSane(p) && CanDo(parties, p, e)
    ensures var p' := Do(parties, p, e); forall t | t in p'.inside :: t in p'.started && t !in p'.joined
  {
  }

  lemma HoldersStay(parties: Parties, p: Prog, e: Event)
    requires ThreadsSane(p) && CanDo(parties, p, e)
    ensures var p' := Do(parties, p, e); forall m | m in p'.held :: p'.held[m] in p'.started
  {
  }

  lemma ThreadsStay(parties: Parties, p: Prog, e: Event)
    requires ThreadsSane(p) && CanDo(parties, p, e)
    ensures ThreadsSane(Do(parties, p, e))
  {
    WaitersStay(parties, p, e);
    InsidersStay(parties, p, e);
    HoldersStay(parties, p, e);
  }

  lemma BarsStay(parties: Parties, p: Prog, e: Event, b: Addr)
    requires Sane(parties, p) && CanDo(parties, p, e)
    ensures BarSane(parties, Do(parties, p, e), b)
  {
    assert BarSane(parties, p, b);
    var bar, all := BarOf(p, b), PartiesOf(parties, b);
    if e.op == Arrive(b) {
      assert !In(p, e.tid, b);
      if bar.arrived + {e.tid} == all {
        assert bar.leaving == {};
      }
    }
  }

  // How one event changes who is inside which barrier.
  lemma MembersAfter(parties: Parties, p: Prog, e: Event, t: Tid, b: Addr)
    requires Sane(parties, p) && CanDo(parties, p, e)
    ensures var p' := Do(parties, p, e);
            In(p', t, b) <==>
            if e.op.Arrive? && e.tid == t then b == e.op.b
            else if e.op.Depart? && e.tid == t then false
            else In(p, t, b)
  {
    assert BarSane(parties, p, b);
    if e.op == Arrive(b) {
      assert !In(p, e.tid, b);
      var bar, all := BarOf(p, b), PartiesOf(parties, b);
      if bar.arrived + {e.tid} == all {
        assert bar.leaving == {};
      }
    }
    assert In(p, t, b) ==> p.inside[t] == b;
  }

  lemma InsideAfter(parties: Parties, p: Prog, e: Event, t: Tid)
    requires CanDo(parties, p, e)
    ensures var p' := Do(parties, p, e);
            && (t in p'.inside <==>
                if e.op.Arrive? && e.tid == t then true
                else if e.op.Depart? && e.tid == t then false
                else t in p.inside)
            && (t in p'.inside ==> p'.inside[t] == if e.op.Arrive? && e.tid == t then e.op.b else p.inside[t])
  {
  }

  lemma InsideStays(parties: Parties, p: Prog, e: Event)
    requires Sane(parties, p) && CanDo(parties, p, e)
    ensures InsideSane(Do(parties, p, e))
  {
    var p' := Do(parties, p, e);
    forall t | t in p'.inside ensures In(p', t, p'.inside[t]) {
      InsideAfter(parties, p, e, t);
      MembersAfter(parties, p, e, t, p'.inside[t]);
    }
    forall t, b | In(p', t, b) ensures t in p'.inside && p'.inside[t] == b {
      InsideAfter(parties, p, e, t);
      MembersAfter(parties, p, e, t, b);
    }
  }

  lemma StaysSane(parties: Parties, p: Prog, e: Event)
    requires Sane(parties, p) && CanDo(parties, p, e)
    ensures Sane(parties, Do(parties, p, e))
  {
    ThreadsStay(parties, p, e);
    InsideStays(parties, p, e);
    forall b ensures BarSane(parties, Do(parties, p, e), b) {
      BarsStay(parties, p, e, b);
    }
  }

  lemma {:induction false} AlwaysSane(x: Run, n: nat)
    requires n <= |x.trace|
    ensures Sane(x.parties, x.progs[n])
  {
    if n == 0 {
      SaneStart(x.parties);
    } else {
      AlwaysSane(x, n - 1);
      assert Taken(x, n - 1);
      StaysSane(x.parties, x.progs[n - 1], x.trace[n - 1]);
    }
  }
}
