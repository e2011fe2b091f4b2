/** Clocks characterise happens-before on every run, in every mode of the protocol. */
module ClockTheorem {
  import opened Clocks
  import opened Program
  import opened Protocol
  import opened Causality
  import opened Reachable
  import opened Origins
  import opened Barriers

  // ---------- edges only raise stamps ----------

  lemma OwnClockBelowStamp(x: Run, i: nat, j: nat)
    requires i < j < |x.trace| && x.trace[i].tid == x.trace[j].tid
    ensures Below(Stamp(x, i), Stamp(x, j))
  {
    OwnStampsBelow(x, j, i);
    StartedBefore(x, i, j);
    assert Taken(x, j);
    StampCoversOwnClock(x, j);
    BelowTransitive(Stamp(x, i), ClockAt(x, j, x.trace[j].tid), Stamp(x, j));
  }

  // What the stamp of an event that joins the single clock c covers.
  lemma JoinCovers(x: Run, j: nat, own: VC, c: VC)
    requires j < |x.trace| && Stamp(x, j) == Join(own, c)
    ensures Below(c, Stamp(x, j))
  {
    forall u ensures Get(c, u) <= Get(Stamp(x, j), u) {
      JoinGet(own, c, u);
    }
  }

  lemma DepartCovers(x: Run, i: nat, j: nat, b: Addr)
    requires i < j < |x.trace| && x.trace[j].op == Depart(b) && Edge(x.mode, x.trace, i, j)
    requires x.trace[i].tid != x.trace[j].tid
    ensures Below(Stamp(x, i), Stamp(x, j))
  {
    var t, u := x.trace[j].tid, x.trace[i].tid;
    DepartureJoinsItsRound(x, j, b);
    ArriverIsParty(x, i, b);
    var slots := PostTable(BarrierOf(x.syncs[j], b));
    assert SlotIs(x, slots, u, i);
    JoinedSlotBelow(ClockOf(x.syncs[j], t), slots, t, u);
  }

  lemma JoinedSlotBelow(own: VC, slots: map<Tid, Slot>, t: Tid, u: Tid)
    requires u in slots
    ensures Below(slots[u].vc, Inc(JoinAll(own, SlotClocks(slots)), t))
  {
    var tab := SlotClocks(slots);
    forall w ensures Get(slots[u].vc, w) <= Get(Inc(JoinAll(own, tab), t), w) {
      JoinAllGet(own, tab, w);
      assert tab[u] == slots[u].vc;
    }
  }

  lemma ArriverIsParty(x: Run, i: nat, b: Addr)
    requires i < |x.trace| && x.trace[i].op == Arrive(b)
    ensures x.trace[i].tid in PartiesOf(x.parties, b)
  {
    assert Taken(x, i);
  }

  lemma EdgeRaises(x: Run, i: nat, j: nat)
    requires i < j < |x.trace| && Edge(x.mode, x.trace, i, j)
    ensures Below(Stamp(x, i), Stamp(x, j))
  {
    var e, u, s := x.trace[j], x.trace[i].tid, x.syncs[j];
    if u == e.tid {
      OwnClockBelowStamp(x, i, j);
    } else {
      var own := ClockOf(s, e.tid);
      match e.op
      case Begin(_) =>
        OwnStampsBelow(x, j, i);
        JoinCovers(x, j, map[e.tid := 1], ClockOf(s, u));
        BelowTransitive(Stamp(x, i), ClockOf(s, u), Stamp(x, j));
      case JoinThread(_) =>
        OwnStampsBelow(x, j, i);
        JoinCovers(x, j, own, ClockOf(s, u));
        BelowTransitive(Stamp(x, i), ClockOf(s, u), Stamp(x, j));
      case Lock(m) =>
        MutexCovers(x, i, j, m);
        JoinCovers(x, j, own, MutexOf(s, m));
        BelowTransitive(Stamp(x, i), MutexOf(s, m), Stamp(x, j));
      case Notify(c) =>
        CondOriginHolds(x, j, u, c);
        forall w ensures Get(Stamp(x, i), w) <= Get(Stamp(x, j), w) {
          JoinAllGet(own, CondOf(s, c).wait, w);
          assert u in CondOf(s, c).wait;
        }
      case PostWait(c) =>
        CondOriginHolds(x, j, e.tid, c);
        JoinCovers(x, j, own, CondOf(s, c).signal[e.tid]);
      case Depart(b) =>
        DepartCovers(x, i, j, b);
    }
  }

  // ---------- every component of a stamp comes along an edge ----------

  // Component w of stamp j is the one carried by edge p -> j.
  ghost predicate Carries(x: Run, p: int, j: nat, w: Tid)
    requires j < |x.trace|
  {
    && 0 <= p < j
    && Edge(x.mode, x.trace, p, j)
    && Get(Stamp(x, p), w) == Get(Stamp(x, j), w)
  }

  // Event j forks from or joins thread w, so every earlier event of w has an edge to it.
  ghost predicate TakesAll(x: Run, j: nat, w: Tid)
    requires j < |x.trace|
  {
    x.trace[j].op == Begin(Some(w)) || x.trace[j].op == JoinThread(w)
  }

  ghost predicate Sourced(x: Run, j: nat, w: Tid)
    requires j < |x.trace|
  {
    || Get(Stamp(x, j), w) == 0
    || TakesAll(x, j, w)
    || exists p :: Carries(x, p, j, w)
  }

  lemma FromThread(x: Run, j: nat, q: Tid, w: Tid)
    requires j < |x.trace| && w != q && q in x.progs[j].started
    requires q == x.trace[j].tid || TakesAll(x, j, q)
    requires Get(Stamp(x, j), w) == Get(ClockAt(x, j, q), w)
    ensures Carries(x, LastOf(x.trace, j, q), j, w)
  {
    ThreadOriginHolds(x, j, q);
    var p := LastOf(x.trace, j, q);
    assert x.trace[p].tid == q;
  }

  lemma SourcedLock(x: Run, j: nat, m: Addr, w: Tid)
    requires j < |x.trace| && x.trace[j].op == Lock(m) && w != x.trace[j].tid
    ensures Sourced(x, j, w)
  {
    var t, s := x.trace[j].tid, x.syncs[j];
    assert Taken(x, j);
    if x.mode.FullHB? {
      JoinGet(ClockOf(s, t), MutexOf(s, m), w);
    }
    if Get(Stamp(x, j), w) == Get(ClockAt(x, j, t), w) {
      FromThread(x, j, t, w);
    } else {
      MutexOriginHolds(x, j, m);
      var o := LastUnlock(x.trace, j, m);
      if o >= 0 {
        assert Carries(x, o, j, w);
      }
    }
  }

  lemma SourcedNotify(x: Run, j: nat, c: Addr, w: Tid)
    requires j < |x.trace| && x.trace[j].op == Notify(c) && w != x.trace[j].tid
    ensures Sourced(x, j, w)
  {
    var t, s := x.trace[j].tid, x.syncs[j];
    assert Taken(x, j);
    JoinAllGet(ClockOf(s, t), CondOf(s, c).wait, w);
    if Get(Stamp(x, j), w) == Get(ClockAt(x, j, t), w) {
      FromThread(x, j, t, w);
    } else {
      var q :| q in CondOf(s, c).wait && Get(Stamp(x, j), w) == Get(CondOf(s, c).wait[q], w);
      CondOriginHolds(x, j, q, c);
      assert Carries(x, WaitAt(x.trace, j, q, c), j, w);
    }
  }

  lemma SourcedPostWait(x: Run, j: nat, c: Addr, w: Tid)
    requires j < |x.trace| && x.trace[j].op == PostWait(c) && w != x.trace[j].tid
    ensures Sourced(x, j, w)
  {
    var t, s := x.trace[j].tid, x.syncs[j];
    assert Taken(x, j);
    CondOriginHolds(x, j, t, c);
    if t in CondOf(s, c).signal {
      JoinGet(ClockOf(s, t), CondOf(s, c).signal[t], w);
    }
    if Get(Stamp(x, j), w) == Get(ClockAt(x, j, t), w) {
      FromThread(x, j, t, w);
    } else {
      assert Carries(x, NotifyAt(x.trace, j, t, c), j, w);
    }
  }

  lemma SourcedDepart(x: Run, j: nat, b: Addr, w: Tid)
    requires j < |x.trace| && x.trace[j].op == Depart(b) && w != x.trace[j].tid
    ensures Sourced(x, j, w)
  {
    var t, s := x.trace[j].tid, x.syncs[j];
    assert Taken(x, j);
    AlwaysSane(x, j);
    var tab := SlotClocks(PostTable(BarrierOf(s, b)));
    JoinAllGet(ClockOf(s, t), tab, w);
    if Get(Stamp(x, j), w) == Get(ClockAt(x, j, t), w) {
      FromThread(x, j, t, w);
    } else {
      var q :| q in tab && Get(Stamp(x, j), w) == Get(tab[q], w);
      DepartureJoinsItsRound(x, j, b);
      var o := ArrivalAt(x.trace, j, q, b, Rounds(x.trace, j, t, b));
      assert SlotIs(x, PostTable(BarrierOf(s, b)), q, o);
      assert Carries(x, o, j, w);
    }
  }

  lemma SourcedBegin(x: Run, j: nat, w: Tid)
    requires j < |x.trace| && x.trace[j].op.Begin? && w != x.trace[j].tid
    ensures Sourced(x, j, w)
  {
    var t, s := x.trace[j].tid, x.syncs[j];
    assert Taken(x, j);
    if x.trace[j].op.parent.Some? && !TakesAll(x, j, w) {
      var q := x.trace[j].op.parent.value;
      JoinGet(map[t := 1], ClockOf(s, q), w);
      FromThread(x, j, q, w);
    }
  }

  lemma SourcedJoin(x: Run, j: nat, w: Tid)
    requires j < |x.trace| && x.trace[j].op.JoinThread? && w != x.trace[j].tid
    ensures Sourced(x, j, w)
  {
    var t, s := x.trace[j].tid, x.syncs[j];
    assert Taken(x, j);
    var q := x.trace[j].op.child;
    if w != q {
      JoinGet(ClockOf(s, t), ClockOf(s, q), w);
      if Get(Stamp(x, j), w) == Get(ClockAt(x, j, t), w) {
        FromThread(x, j, t, w);
      } else {
        FromThread(x, j, q, w);
      }
    }
  }

  lemma StampIsSourced(x: Run, j: nat, w: Tid)
    requires j < |x.trace| && w != x.trace[j].tid
    ensures Sourced(x, j, w)
  {
    match x.trace[j].op
    case Begin(_) => SourcedBegin(x, j, w);
    case JoinThread(_) => SourcedJoin(x, j, w);
    case Lock(m) => SourcedLock(x, j, m, w);
    case Notify(c) => SourcedNotify(x, j, c, w);
    case PostWait(c) => SourcedPostWait(x, j, c, w);
    case Depart(b) => SourcedDepart(x, j, b, w);
    case _ =>
      assert Taken(x, j);
      FromThread(x, j, x.trace[j].tid, w);
  }

  // ---------- nobody knows more of a thread than the thread itself ----------

  ghost function Own(x: Run, n: nat, u: Tid): nat
    requires n <= |x.trace|
  {
    Get(ClockAt(x, n, u), u)
  }

  // A thread whose own clock value no other clock has reached.
  ghost predicate Ahead(x: Run, n: nat, u: Tid)
    requires n <= |x.trace|
  {
    u !in x.progs[n].inside && u !in x.progs[n].joined
  }

  // Stamp j holds of u at most u's own clock, and strictly less unless u is still in the very
  // epoch of the event, inside a barrier, or finished and joined.
  ghost predicate Floor(x: Run, n: nat, j: nat, u: Tid)
    requires j < n <= |x.trace|
  {
    && (u !in x.progs[n].started ==> Get(Stamp(x, j), u) == 0)
    && (u in x.progs[n].started ==> Get(Stamp(x, j), u) <= Own(x, n, u))
    && (u in x.progs[n].started && Ahead(x, n, u) && (x.trace[j].tid != u || Releases(x, j)) ==>
          Get(Stamp(x, j), u) < Own(x, n, u))
  }

  lemma StartedOnly(x: Run, n: nat)
    requires n < |x.trace|
    ensures x.progs[n + 1].started == x.progs[n].started + {x.trace[n].tid}
    ensures x.progs[n].joined <= x.progs[n + 1].joined
    ensures x.trace[n].op.JoinThread? ==> x.trace[n].op.child in x.progs[n + 1].joined
    ensures forall u | u != x.trace[n].tid :: u in x.progs[n + 1].inside <==> u in x.progs[n].inside
    ensures x.trace[n].op.Arrive? ==> x.trace[n].tid in x.progs[n + 1].inside
    ensures !x.trace[n].op.Depart? && x.trace[n].tid in x.progs[n].inside ==> x.trace[n].tid in x.progs[n + 1].inside
  {
    AlwaysSane(x, n);
    StartedNext(x, n);
    assert Taken(x, n);
    InsideAfterAll(x.parties, x.progs[n], x.trace[n]);
  }

  lemma InsideAfterAll(parties: Parties, p: Prog, e: Event)
    requires CanDo(parties, p, e)
    ensures forall u | u != e.tid :: u in Do(parties, p, e).inside <==> u in p.inside
    ensures e.op.Arrive? ==> e.tid in Do(parties, p, e).inside
    ensures !e.op.Depart? && e.tid in p.inside ==> e.tid in Do(parties, p, e).inside
    ensures p.joined <= Do(parties, p, e).joined
    ensures e.op.JoinThread? ==> e.op.child in Do(parties, p, e).joined
  {
    forall u ensures u != e.tid ==> (u in Do(parties, p, e).inside <==> u in p.inside) {
      InsideAfter(parties, p, e, u);
    }
    InsideAfter(parties, p, e, e.tid);
  }

  lemma {:induction false} OwnPositive(x: Run, n: nat, u: Tid)
    requires n <= |x.trace| && u in x.progs[n].started
    ensures 0 < Own(x, n, u)
  {
    if n > 0 {
      StartedOnly(x, n - 1);
      if u in x.progs[n - 1].started {
        OwnPositive(x, n - 1, u);
        ClockGrows(x, n - 1, u);
      } else {
        ClockNext(x, n - 1, u);
        StampOwnPositive(x, n - 1);
      }
    }
  }

  lemma StampOwnPositive(x: Run, j: nat)
    requires j < |x.trace| && x.trace[j].tid !in x.progs[j].started
    ensures 0 < Get(Stamp(x, j), x.trace[j].tid)
  {
    var t := x.trace[j].tid;
    assert Taken(x, j);
    AlwaysSane(x, j);
    match x.trace[j].op
    case Begin(Some(q)) => JoinGet(map[t := 1], ClockOf(x.syncs[j], q), t);
    case Begin(None) =>
    case _ =>
  }

  lemma DepartTicks(x: Run, k: nat)
    requires k < |x.trace| && x.trace[k].op.Depart?
    ensures Own(x, k, x.trace[k].tid) < Own(x, k + 1, x.trace[k].tid)
  {
    var t, s := x.trace[k].tid, x.syncs[k];
    ClockNext(x, k, t);
    JoinAllGet(ClockOf(s, t), SlotClocks(PostTable(BarrierOf(s, x.trace[k].op.b))), t);
  }

  lemma FloorNext(x: Run, k: nat, j: nat, u: Tid)
    requires j < k < |x.trace| && Floor(x, k, j, u)
    ensures Floor(x, k + 1, j, u)
  {
    StartedOnly(x, k);
    if u in x.progs[k].started {
      ClockGrows(x, k, u);
      if u in x.progs[k].inside && u !in x.progs[k + 1].inside {
        DepartTicks(x, k);
      }
    } else if u in x.progs[k + 1].started {
      OwnPositive(x, k + 1, u);
    }
  }

  lemma EdgeFromRelease(x: Run, p: nat, j: nat)
    requires p < j < |x.trace| && Edge(x.mode, x.trace, p, j)
    requires x.trace[p].tid != x.trace[j].tid && !TakesAll(x, j, x.trace[p].tid)
    ensures Releases(x, p)
  {
  }

  lemma {:induction false} FloorHolds(x: Run, n: nat, j: nat, u: Tid)
    requires j < n <= |x.trace|
    ensures Floor(x, n, j, u)
    decreases n, 1
  {
    if j < n - 1 {
      FloorHolds(x, n - 1, j, u);
      FloorNext(x, n - 1, j, u);
    } else if u == x.trace[j].tid {
      StartedOnly(x, j);
      ClockNext(x, j, u);
    } else {
      StampIsSourced(x, j, u);
      StartedOnly(x, j);
      if Get(Stamp(x, j), u) == 0 {
        if u in x.progs[n].started {
          OwnPositive(x, n, u);
        }
      } else if TakesAll(x, j, u) {
        FloorTakesAll(x, j, u);
      } else {
        var p :| Carries(x, p, j, u);
        FloorHolds(x, j, p, u);
        FloorCarried(x, p, j, u);
      }
    }
  }

  lemma FloorCarried(x: Run, p: nat, j: nat, u: Tid)
    requires j < |x.trace| && u != x.trace[j].tid && Carries(x, p, j, u) && !TakesAll(x, j, u)
    requires Floor(x, j, p, u)
    ensures Floor(x, j + 1, j, u)
  {
    StartedOnly(x, j);
    if u in x.progs[j].started {
      ClockGrows(x, j, u);
    }
    if x.trace[p].tid == u {
      EdgeFromRelease(x, p, j);
    }
  }

  lemma {:induction false} FloorTakesAll(x: Run, j: nat, u: Tid)
    requires j < |x.trace| && u != x.trace[j].tid && TakesAll(x, j, u)
    ensures Floor(x, j + 1, j, u)
    decreases j + 1, 0
  {
    StartedOnly(x, j);
    assert Taken(x, j);
    var t, s := x.trace[j].tid, x.syncs[j];
    ClockNext(x, j, u);
    if x.trace[j].op.Begin? {
      JoinGet(map[t := 1], ClockOf(s, u), u);
    } else {
      JoinGet(ClockOf(s, t), ClockOf(s, u), u);
      ThreadOriginHolds(x, j, t);
      FloorHolds(x, j, LastOf(x.trace, j, t), u);
    }
  }

  // The own-component invariant along a run: what an event knows of another thread is strictly
  // below the stamps of all later events of that thread.
  lemma LaterEventsUnknown(x: Run, p: nat, i: nat)
    requires p < i < |x.trace|
    requires x.trace[p].tid != x.trace[i].tid || Releases(x, p)
    ensures Get(Stamp(x, p), x.trace[i].tid) < Get(Stamp(x, i), x.trace[i].tid)
  {
    var u := x.trace[i].tid;
    FloorHolds(x, i, p, u);
    AlwaysSane(x, i);
    assert Taken(x, i);
    if u !in x.progs[i].started {
      StampOwnPositive(x, i);
    } else if x.trace[i].op.Depart? {
      DepartTicks(x, i);
      ClockNext(x, i, u);
    } else {
      StampCoversOwnClock(x, i);
      assert Own(x, i, u) <= Get(Stamp(x, i), u);
    }
  }

  // The t-component of a stored clock, against t's own.
  ghost predicate UnderOwn(x: Run, n: nat, t: Tid, c: VC)
    requires n <= |x.trace|
  {
    && Get(c, t) <= Own(x, n, t)
    && (Ahead(x, n, t) ==> Get(c, t) < Own(x, n, t))
  }

  // In every reachable state, no clock stored anywhere holds more of a thread than the thread's own
  // clock, and each holds strictly less of every thread that is running.
  lemma OwnComponentInvariant(x: Run, n: nat, t: Tid)
    requires n <= |x.trace| && t in x.progs[n].started
    ensures forall q | q in x.progs[n].started && q != t :: UnderOwn(x, n, t, ClockAt(x, n, q))
    ensures forall m :: UnderOwn(x, n, t, MutexOf(x.syncs[n], m))
    ensures forall c, q | q in CondOf(x.syncs[n], c).wait :: UnderOwn(x, n, t, CondOf(x.syncs[n], c).wait[q])
    ensures forall c, q | q in CondOf(x.syncs[n], c).signal :: UnderOwn(x, n, t, CondOf(x.syncs[n], c).signal[q])
    ensures forall b, q | q in BarrierOf(x.syncs[n], b).table1 ::
              UnderOwn(x, n, t, BarrierOf(x.syncs[n], b).table1[q].vc)
    ensures forall b, q | q in BarrierOf(x.syncs[n], b).table2 ::
              UnderOwn(x, n, t, BarrierOf(x.syncs[n], b).table2[q].vc)
  {
    var s := x.syncs[n];
    OwnPositive(x, n, t);
    forall q | q in x.progs[n].started && q != t ensures UnderOwn(x, n, t, ClockAt(x, n, q)) {
      ThreadOriginHolds(x, n, q);
      FloorHolds(x, n, LastOf(x.trace, n, q), t);
    }
    forall m ensures UnderOwn(x, n, t, MutexOf(s, m)) {
      MutexOriginHolds(x, n, m);
      if LastUnlock(x.trace, n, m) >= 0 {
        FloorHolds(x, n, LastUnlock(x.trace, n, m), t);
      }
    }
    forall c, q | q in CondOf(s, c).wait ensures UnderOwn(x, n, t, CondOf(s, c).wait[q]) {
      CondOriginHolds(x, n, q, c);
      FloorHolds(x, n, WaitAt(x.trace, n, q, c), t);
    }
    forall c, q | q in CondOf(s, c).signal ensures UnderOwn(x, n, t, CondOf(s, c).signal[q]) {
      CondOriginHolds(x, n, q, c);
      FloorHolds(x, n, NotifyAt(x.trace, n, q, c), t);
    }
    forall b, q | q in BarrierOf(s, b).table1 ensures UnderOwn(x, n, t, BarrierOf(s, b).table1[q].vc) {
      SlotUnderOwn(x, n, t, b, q);
    }
    forall b, q | q in BarrierOf(s, b).table2 ensures UnderOwn(x, n, t, BarrierOf(s, b).table2[q].vc) {
      SlotUnderOwn(x, n, t, b, q);
    }
  }

  lemma SlotUnderOwn(x: Run, n: nat, t: Tid, b: Addr, q: Tid)
    requires n <= |x.trace| && t in x.progs[n].started
    ensures var m := BarrierOf(x.syncs[n], b);
            && (q in PostTable(m) ==> UnderOwn(x, n, t, PostTable(m)[q].vc))
            && (q in OtherTable(m) ==> UnderOwn(x, n, t, OtherTable(m)[q].vc))
  {
    ShapeHolds(x, n, b);
    SlotOriginHolds(x, n, q, b);
    AlwaysSane(x, n);
    assert BarSane(x.parties, x.progs[n], b);
    var bar, m := BarOf(x.progs[n], b), BarrierOf(x.syncs[n], b);
    if q in bar.arrived {
      FloorHolds(x, n, ArrivalAt(x.trace, n, q, b, bar.round), t);
    }
    if bar.leaving != {} && q in PostTable(m) {
      FloorHolds(x, n, ArrivalAt(x.trace, n, q, b, bar.round - 1), t);
    }
  }

  // ---------- the clock theorem ----------

  lemma {:induction false} OrderRaises(x: Run, i: nat, j: nat)
    requires i < j < |x.trace| && HB(x.mode, x.trace, i, j)
    ensures Below(Stamp(x, i), Stamp(x, j))
    decreases j
  {
    if Edge(x.mode, x.trace, i, j) {
      EdgeRaises(x, i, j);
    } else {
      var p :| i < p < j && HB(x.mode, x.trace, i, p) && Edge(x.mode, x.trace, p, j);
      OrderRaises(x, i, p);
      EdgeRaises(x, p, j);
      BelowTransitive(Stamp(x, i), Stamp(x, p), Stamp(x, j));
    }
  }

  lemma OwnStampPositive(x: Run, i: nat)
    requires i < |x.trace|
    ensures 0 < Get(Stamp(x, i), x.trace[i].tid)
  {
    var u := x.trace[i].tid;
    if u in x.progs[i].started {
      OwnPositive(x, i, u);
      assert Taken(x, i);
      StampCoversOwnClock(x, i);
      assert Own(x, i, u) <= Get(Stamp(x, i), u);
    } else {
      StampOwnPositive(x, i);
    }
  }

  lemma {:induction false} KnownIsOrdered(x: Run, i: nat, j: nat)
    requires i < j < |x.trace|
    requires Get(Stamp(x, i), x.trace[i].tid) <= Get(Stamp(x, j), x.trace[i].tid)
    ensures HB(x.mode, x.trace, i, j)
    decreases j
  {
    var u := x.trace[i].tid;
    if u != x.trace[j].tid && !TakesAll(x, j, u) {
      OwnStampPositive(x, i);
      StampIsSourced(x, j, u);
      var p :| Carries(x, p, j, u);
      if i < p {
        KnownIsOrdered(x, i, p);
      } else if p < i {
        LaterIsNotCarried(x, p, i, j, u);
      }
    }
  }

  // An edge does not carry stamps that come after its source.
  lemma LaterIsNotCarried(x: Run, p: nat, i: nat, j: nat, u: Tid)
    requires p < i < j < |x.trace| && Carries(x, p, j, u)
    requires x.trace[i].tid == u != x.trace[j].tid && !TakesAll(x, j, u)
    ensures Get(Stamp(x, j), u) < Get(Stamp(x, i), u)
  {
    if x.trace[p].tid == u {
      EdgeFromRelease(x, p, j);
    }
    LaterEventsUnknown(x, p, i);
  }

  // Event i happens before a later event j exactly when the stamp of j has reached the clock
  // value thread tid(i) had at i.
  lemma ClocksAreHappensBefore(x: Run, i: nat, j: nat)
    requires i < j < |x.trace|
    ensures HB(x.mode, x.trace, i, j) <==>
            Get(Stamp(x, i), x.trace[i].tid) <= Get(Stamp(x, j), x.trace[i].tid)
  {
    if HB(x.mode, x.trace, i, j) {
      OrderRaises(x, i, j);
    } else if Get(Stamp(x, i), x.trace[i].tid) <= Get(Stamp(x, j), x.trace[i].tid) {
      KnownIsOrdered(x, i, j);
    }
  }
}
