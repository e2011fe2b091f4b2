/** A thread's own clock component counts the events that tick it, and nothing else. */
module Ticks {
  import opened Clocks
  import opened Program
  import opened Protocol
  import opened Causality
  import opened Reachable
  import opened Origins
  import opened ClockTheorem

  // Event e starts a new epoch of thread t: a notify, entering a wait, leaving a barrier, starting another
  // thread, an unlock unless the detector is MultiLock, and a join if it is.
  predicate IsTick(mode: Mode, e: Event, t: Tid) {
    || e.op == Begin(Some(t))
    || (e.tid == t
        && match e.op
           case Notify(_) => true
           case PreWait(_) => true
           case Depart(_) => true
           case Unlock(_) => !mode.MultiLockHB?
           case JoinThread(_) => mode.MultiLockHB?
           case _ => false)
  }

  ghost function TickCount(mode: Mode, tr: Trace, n: nat, t: Tid): nat
    requires n <= |tr|
  {
    if n == 0 then 0 else TickCount(mode, tr, n - 1, t) + if IsTick(mode, tr[n - 1], t) then 1 else 0
  }

  // Whatever a thread joins holds no more of it than its own clock, so joins leave its component alone.
  lemma StampOwn(x: Run, n: nat)
    requires n < |x.trace| && x.trace[n].tid in x.progs[n].started
    ensures var t := x.trace[n].tid;
            Get(Stamp(x, n), t) == Own(x, n, t) + if x.trace[n].op.Depart? then 1 else 0
  {
    var e, s := x.trace[n], x.syncs[n];
    var t := e.tid;
    var own := ClockOf(s, t);
    assert Taken(x, n);
    AlwaysSane(x, n);
    OwnComponentInvariant(x, n, t);
    match e.op
    case JoinThread(child) => JoinGet(own, ClockOf(s, child), t);
    assert UnderOwn(x, n, t, ClockAt(x, n, child));
    case Lock(m) => JoinGet(own, MutexOf(s, m), t);
    assert UnderOwn(x, n, t, MutexOf(s, m));
    case Notify(c) => StampOwnNotify(x, n, t, c);
    case PostWait(c) => StampOwnPostWait(x, n, t, c);
    case Depart(b) => StampOwnDepart(x, n, t, b);
    case _ =>
  }

  lemma StampOwnNotify(x: Run, n: nat, t: Tid, c: Addr)
    requires n < |x.trace| && x.trace[n] == Event(t, Notify(c)) && t in x.progs[n].started
    ensures Get(Stamp(x, n), t) == Own(x, n, t)
  {
    var s := x.syncs[n];
    OwnComponentInvariant(x, n, t);
    JoinAllGet(ClockOf(s, t), CondOf(s, c).wait, t);
    forall q | q in CondOf(s, c).wait ensures Get(CondOf(s, c).wait[q], t) <= Own(x, n, t) {
      assert UnderOwn(x, n, t, CondOf(s, c).wait[q]);
    }
  }

  lemma StampOwnPostWait(x: Run, n: nat, t: Tid, c: Addr)
    requires n < |x.trace| && x.trace[n] == Event(t, PostWait(c)) && t in x.progs[n].started
    ensures Get(Stamp(x, n), t) == Own(x, n, t)
  {
    var s := x.syncs[n];
    OwnComponentInvariant(x, n, t);
    if t in CondOf(s, c).signal {
      JoinGet(ClockOf(s, t), CondOf(s, c).signal[t], t);
      assert UnderOwn(x, n, t, CondOf(s, c).signal[t]);
    }
  }

  lemma StampOwnDepart(x: Run, n: nat, t: Tid, b: Addr)
    requires n < |x.trace| && x.trace[n] == Event(t, Depart(b)) && t in x.progs[n].started
    ensures Get(Stamp(x, n), t) == Own(x, n, t) + 1
  {
    var s := x.syncs[n];
    var tab := PostTable(BarrierOf(s, b));
    OwnComponentInvariant(x, n, t);
    JoinAllGet(ClockOf(s, t), SlotClocks(tab), t);
    forall q | q in tab ensures Get(SlotClocks(tab)[q], t) <= Own(x, n, t) {
      assert UnderOwn(x, n, t, tab[q].vc);
    }
  }

  lemma OwnNext(x: Run, n: nat, t: Tid)
    requires n < |x.trace| && t in x.progs[n].started
    ensures Own(x, n + 1, t) == Own(x, n, t) + if IsTick(x.mode, x.trace[n], t) then 1 else 0
  {
    ClockNext(x, n, t);
    assert Taken(x, n);
    AlwaysSane(x, n);
    if x.trace[n].tid == t {
      StampOwn(x, n);
    }
  }

  // Nobody has heard of a thread before it starts.
  lemma OwnStarts(x: Run, n: nat)
    requires n < |x.trace| && x.trace[n].op.Begin?
    ensures Own(x, n + 1, x.trace[n].tid) == 1
  {
    var t := x.trace[n].tid;
    ClockNext(x, n, t);
    assert Taken(x, n);
    match x.trace[n].op.parent
    case None =>
    case Some(q) =>
      JoinGet(map[t := 1], ClockOf(x.syncs[n], q), t);
      ThreadOriginHolds(x, n, q);
      StartedHasEvent(x, n, q);
      FloorHolds(x, n, LastOf(x.trace, n, q), t);
  }

  lemma {:induction false} StartedHasEvent(x: Run, n: nat, q: Tid)
    requires n <= |x.trace| && q in x.progs[n].started
    ensures LastOf(x.trace, n, q) >= 0
  {
    if n > 0 && x.trace[n - 1].tid != q {
      StartedOnly(x, n - 1);
      StartedHasEvent(x, n - 1, q);
    }
  }

  lemma {:induction false} NoTicksBefore(x: Run, n: nat, t: Tid)
    requires n <= |x.trace| && t !in x.progs[n].started
    ensures TickCount(x.mode, x.trace, n, t) == 0
  {
    if n > 0 {
      StartedOnly(x, n - 1);
      assert Taken(x, n - 1);
      NoTicksBefore(x, n - 1, t);
    }
  }

  // In every reachable state, a started thread's own component is one more than the number of its ticks.
  lemma {:induction false} OwnClockCounts(x: Run, n: nat, t: Tid)
    requires n <= |x.trace| && t in x.progs[n].started
    ensures Own(x, n, t) == 1 + TickCount(x.mode, x.trace, n, t)
  {
    if n > 0 {
      StartedOnly(x, n - 1);
      if t in x.progs[n - 1].started {
        OwnClockCounts(x, n - 1, t);
        OwnNext(x, n - 1, t);
      } else {
        assert Taken(x, n - 1);
        AlwaysSane(x, n - 1);
        OwnStarts(x, n - 1);
        NoTicksBefore(x, n - 1, t);
      }
    }
  }

  // So two accesses of a thread are of one epoch exactly when nothing ticks the thread between them.
  lemma EpochsAreTickless(x: Run, i: nat, j: nat)
    requires i < j < |x.trace| && x.trace[i].tid == x.trace[j].tid
    requires (x.trace[i].op.Read? || x.trace[i].op.Write?) && (x.trace[j].op.Read? || x.trace[j].op.Write?)
    ensures Get(Stamp(x, i), x.trace[i].tid) == Get(Stamp(x, j), x.trace[i].tid) <==>
            forall k | i < k < j :: !IsTick(x.mode, x.trace[k], x.trace[i].tid)
  {
    var t := x.trace[i].tid;
    assert Taken(x, i) && Taken(x, j);
    OwnClockCounts(x, i, t);
    OwnClockCounts(x, j, t);
    TicksBetween(x.mode, x.trace, i + 1, j, t);
  }

  lemma {:induction false} TicksBetween(mode: Mode, tr: Trace, i: nat, j: nat, t: Tid)
    requires i <= j <= |tr|
    ensures TickCount(mode, tr, i, t) <= TickCount(mode, tr, j, t)
    ensures TickCount(mode, tr, i, t) == TickCount(mode, tr, j, t) <==> forall k | i <= k < j :: !IsTick(mode, tr[k], t)
    decreases j
  {
    if i < j {
      TicksBetween(mode, tr, i, j - 1, t);
    }
  }
}
