/** Every clock stored by the protocol is the stamp of the event that put it there. */
module Origins {
  import opened Clocks
  import opened Program
  import opened Protocol
  import opened Causality
  import opened Reachable

  // ---------- threads ----------

  // Events whose stamp other threads may later join.
  ghost predicate Releases(x: Run, j: nat)
    requires j < |x.trace|
  {
    x.trace[j].op.Arrive? || (Ticks(x.mode, x.trace[j].op) && !x.trace[j].op.JoinThread?)
  }

  // How one event changes the clock of each thread.
  function ClockAfter(mode: Mode, e: Event, v: VC, q: Tid, c: VC): VC {
    if q == e.tid then if Ticks(mode, e.op) then Inc(v, q) else v
    else if e.op == Begin(Some(q)) then Inc(c, q)
    else c
  }

  lemma ClocksAfterGet(mode: Mode, s: Sync, e: Event, v: VC, q: Tid)
    ensures var m := ClocksAfter(mode, s, e, v);
            (if q in m then m[q] else map[]) == ClockAfter(mode, e, v, q, ClockOf(s, q))
  {
  }

  lemma ClockNext(x: Run, n: nat, q: Tid)
    requires n < |x.trace|
    ensures ClockAt(x, n + 1, q) == ClockAfter(x.mode, x.trace[n], Stamp(x, n), q, ClockAt(x, n, q))
  {
    assert Taken(x, n);
    ClocksAfterGet(x.mode, x.syncs[n], x.trace[n], Stamp(x, n), q);
  }

  lemma StampCoversOwnClock(x: Run, n: nat)
    requires n < |x.trace| && !x.trace[n].op.Begin?
    ensures Below(ClockAt(x, n, x.trace[n].tid), Stamp(x, n))
  {
    var e, s := x.trace[n], x.syncs[n];
    var own := ClockOf(s, e.tid);
    forall u ensures Get(own, u) <= Get(Stamp(x, n), u) {
      match e.op
      case JoinThread(child) => JoinGet(own, ClockOf(s, child), u);
      case Lock(m) => JoinGet(own, MutexOf(s, m), u);
      case Notify(c) => JoinAllGet(own, CondOf(s, c).wait, u);
      case PostWait(c) =>
        if e.tid in CondOf(s, c).signal {
          JoinGet(own, CondOf(s, c).signal[e.tid], u);
        }
      case Depart(b) => JoinAllGet(own, SlotClocks(PostTable(BarrierOf(s, b))), u);
      case _ =>
    }
  }

  lemma ClockGrows(x: Run, n: nat, q: Tid)
    requires n < |x.trace|
    requires q in x.progs[n].started
    ensures Below(ClockAt(x, n, q), ClockAt(x, n + 1, q))
  {
    assert Taken(x, n);
    AlwaysSane(x, n);
    ClockNext(x, n, q);
    if q == x.trace[n].tid {
      StampCoversOwnClock(x, n);
    }
  }

  ghost predicate ThreadOrigin(x: Run, n: nat, t: Tid)
    requires n <= |x.trace|
  {
    t in x.progs[n].started ==>
      && LastOf(x.trace, n, t) >= 0
      && forall u | u != t :: Get(ClockAt(x, n, t), u) == Get(Stamp(x, LastOf(x.trace, n, t)), u)
  }

  lemma StartedNext(x: Run, n: nat)
    requires n < |x.trace|
    requires Sane(x.parties, x.progs[n])
    ensures var p, p' := x.progs[n], x.progs[n + 1];
            p'.started == p.started + {x.trace[n].tid}
  {
    assert Taken(x, n);
  }

  lemma {:induction false} ThreadOriginHolds(x: Run, n: nat, t: Tid)
    requires n <= |x.trace|
    ensures ThreadOrigin(x, n, t)
  {
    if n > 0 {
      ThreadOriginHolds(x, n - 1, t);
      AlwaysSane(x, n - 1);
      ThreadOriginNext(x, n - 1, t);
    }
  }

  lemma ThreadOriginNext(x: Run, n: nat, t: Tid)
    requires n < |x.trace| && Sane(x.parties, x.progs[n])
    requires ThreadOrigin(x, n, t)
    ensures ThreadOrigin(x, n + 1, t)
  {
    StartedNext(x, n);
    ClockNext(x, n, t);
  }

  lemma StampBelowNext(x: Run, j: nat)
    requires j < |x.trace|
    ensures Below(Stamp(x, j), ClockAt(x, j + 1, x.trace[j].tid))
  {
    ClockNext(x, j, x.trace[j].tid);
  }

  // A thread's clock covers the stamps of all its events.
  lemma {:induction false} OwnStampsBelow(x: Run, n: nat, j: nat)
    requires j < n <= |x.trace|
    ensures Below(Stamp(x, j), ClockAt(x, n, x.trace[j].tid))
    decreases n
  {
    var t := x.trace[j].tid;
    if j == n - 1 {
      StampBelowNext(x, j);
    } else {
      OwnStampsBelow(x, n - 1, j);
      StartedBefore(x, j, n - 1);
      ClockGrows(x, n - 1, t);
      BelowTransitive(Stamp(x, j), ClockAt(x, n - 1, t), ClockAt(x, n, t));
    }
  }

  lemma BelowTransitive(a: VC, b: VC, c: VC)
    requires Below(a, b) && Below(b, c)
    ensures Below(a, c)
  {
    forall t ensures Get(a, t) <= Get(c, t) {
      assert Get(a, t) <= Get(b, t);
    }
  }

  lemma {:induction false} StartedBefore(x: Run, j: nat, n: nat)
    requires j < n <= |x.trace|
    ensures x.trace[j].tid in x.progs[n].started
    decreases n
  {
    AlwaysSane(x, n - 1);
    StartedNext(x, n - 1);
    if j < n - 1 {
      StartedBefore(x, j, n - 1);
    }
  }

  // ---------- condition variables ----------

  ghost predicate CondOrigin(x: Run, n: nat, t: Tid, c: Addr)
    requires n <= |x.trace|
  {
    var meta := CondOf(x.syncs[n], c);
    var p, w, k := x.progs[n], WaitAt(x.trace, n, t, c), NotifyAt(x.trace, n, t, c);
    && (w >= 0 <==> t in meta.wait)
    && (w >= 0 <==> t in p.waiting && p.waiting[t] == c)
    && (w >= 0 ==> meta.wait[t] == Stamp(x, w))
    && (k >= 0 <==> t in meta.signal)
    && (k >= 0 ==> w >= 0 && meta.signal[t] == Stamp(x, k))
  }

  lemma CondsAfterGet(s: Sync, e: Event, v: VC, c: Addr)
    ensures var m := CondsAfter(s, e, v);
            (if c in m then m[c] else CondMeta(map[], map[])) ==
            if e.op == Notify(c) || e.op == PreWait(c) || e.op == PostWait(c)
            then CondAfter(CondOf(s, c), e.tid, e.op, v)
            else if e.op.Free? && c in e.op.region then CondMeta(map[], map[])
              else CondOf(s, c)
  {
  }

  lemma WaitingAfter(parties: Parties, p: Prog, e: Event)
    requires CanDo(parties, p, e)
    ensures var p' := Do(parties, p, e);
            p'.waiting == match e.op
                          case PreWait(c) => p.waiting[e.tid := c]
                          case PostWait(_) => p.waiting - {e.tid}
                          case _ => p.waiting
  {
  }

  // How one event changes the metas of c and the waiting threads.
  lemma CondNext(x: Run, n: nat, c: Addr)
    requires n < |x.trace|
    ensures var e, v, s, s' := x.trace[n], Stamp(x, n), x.syncs[n], x.syncs[n + 1];
            CondOf(s', c) ==
            if e.op == Notify(c) || e.op == PreWait(c) || e.op == PostWait(c)
            then CondAfter(CondOf(s, c), e.tid, e.op, v)
            else if e.op.Free? && c in e.op.region then CondMeta(map[], map[])
              else CondOf(s, c)
    ensures x.progs[n + 1].waiting == match x.trace[n].op
                                      case PreWait(d) => x.progs[n].waiting[x.trace[n].tid := d]
                                      case PostWait(_) => x.progs[n].waiting - {x.trace[n].tid}
                                      case _ => x.progs[n].waiting
    ensures CanDo(x.parties, x.progs[n], x.trace[n])
  {
    assert Taken(x, n);
    CondsAfterGet(x.syncs[n], x.trace[n], Stamp(x, n), c);
    WaitingAfter(x.parties, x.progs[n], x.trace[n]);
  }

  lemma CondOriginNotify(x: Run, n: nat, t: Tid, c: Addr)
    requires n < |x.trace| && CondOrigin(x, n, t, c) && x.trace[n].op == Notify(c)
    ensures CondOrigin(x, n + 1, t, c)
  {
    CondNext(x, n, c);
  }

  lemma CondOriginPreWait(x: Run, n: nat, t: Tid, c: Addr)
    requires n < |x.trace| && CondOrigin(x, n, t, c) && x.trace[n].op.PreWait?
    ensures CondOrigin(x, n + 1, t, c)
  {
    CondNext(x, n, c);
  }

  lemma CondOriginPostWait(x: Run, n: nat, t: Tid, c: Addr)
    requires n < |x.trace| && CondOrigin(x, n, t, c) && x.trace[n].op.PostWait?
    ensures CondOrigin(x, n + 1, t, c)
  {
    CondNext(x, n, c);
  }

  lemma CondOriginOther(x: Run, n: nat, t: Tid, c: Addr)
    requires n < |x.trace| && CondOrigin(x, n, t, c)
    requires x.trace[n].op != Notify(c) && !x.trace[n].op.PreWait? && !x.trace[n].op.PostWait?
    ensures CondOrigin(x, n + 1, t, c)
  {
    CondNext(x, n, c);
  }

  lemma CondOriginNext(x: Run, n: nat, t: Tid, c: Addr)
    requires n < |x.trace| && CondOrigin(x, n, t, c)
    ensures CondOrigin(x, n + 1, t, c)
  {
    var op := x.trace[n].op;
    if op == Notify(c) {
      CondOriginNotify(x, n, t, c);
    } else if op.PreWait? {
      CondOriginPreWait(x, n, t, c);
    } else if op.PostWait? {
      CondOriginPostWait(x, n, t, c);
    } else {
      CondOriginOther(x, n, t, c);
    }
  }

  lemma {:induction false} CondOriginHolds(x: Run, n: nat, t: Tid, c: Addr)
    requires n <= |x.trace|
    ensures CondOrigin(x, n, t, c)
  {
    if n > 0 {
      CondOriginHolds(x, n - 1, t, c);
      CondOriginNext(x, n - 1, t, c);
    }
  }

  // ---------- mutexes ----------

  // The last unlock of m since it was last freed, or -1.
  ghost function LastUnlock(tr: Trace, n: nat, m: Addr): (k: int)
    requires n <= |tr|
    ensures -1 <= k < n && (k >= 0 ==> tr[k].op == Unlock(m) && NoFree(tr, k, n, m))
  {
    if n == 0 then -1
    else if tr[n - 1].op == Unlock(m) then n - 1
    else if FreedAt(tr, n - 1, m) then -1
    else LastUnlock(tr, n - 1, m)
  }

  ghost predicate MutexOrigin(x: Run, n: nat, m: Addr)
    requires n <= |x.trace|
  {
    var o := LastUnlock(x.trace, n, m);
    MutexOf(x.syncs[n], m) == if x.mode.FullHB? && o >= 0 then Stamp(x, o) else map[]
  }

  lemma MutexesAfterGet(mode: Mode, s: Sync, op: Op, v: VC, m: Addr)
    ensures var after := MutexesAfter(mode, s, op, v);
            (if m in after then after[m] else map[]) ==
            if op == Unlock(m) && mode.FullHB? then v
            else if op.Free? && m in op.region then map[]
            else MutexOf(s, m)
  {
  }

  lemma MutexOriginNext(x: Run, n: nat, m: Addr)
    requires n < |x.trace| && MutexOrigin(x, n, m)
    ensures MutexOrigin(x, n + 1, m)
  {
    assert Taken(x, n);
    MutexesAfterGet(x.mode, x.syncs[n], x.trace[n].op, Stamp(x, n), m);
  }

  lemma {:induction false} MutexOriginHolds(x: Run, n: nat, m: Addr)
    requires n <= |x.trace|
    ensures MutexOrigin(x, n, m)
  {
    if n > 0 {
      MutexOriginHolds(x, n - 1, m);
      MutexOriginNext(x, n - 1, m);
    }
  }

  // While m is held its holder's clock covers the mutex clock.
  ghost predicate HolderCovers(x: Run, n: nat, m: Addr)
    requires n <= |x.trace|
  {
    m in x.progs[n].held ==> Below(MutexOf(x.syncs[n], m), ClockAt(x, n, x.progs[n].held[m]))
  }

  lemma HeldAfter(parties: Parties, p: Prog, e: Event)
    requires CanDo(parties, p, e)
    ensures Do(parties, p, e).held == match e.op
                                      case Lock(m) => p.held[m := e.tid]
                                      case Unlock(m) => p.held - {m}
                                      case _ => p.held
  {
  }

  lemma HolderCoversNext(x: Run, n: nat, m: Addr)
    requires n < |x.trace| && HolderCovers(x, n, m) && Sane(x.parties, x.progs[n])
    requires x.mode.FullHB?
    ensures HolderCovers(x, n + 1, m)
  {
    var p, e, s := x.progs[n], x.trace[n], x.syncs[n];
    assert Taken(x, n);
    MutexesAfterGet(x.mode, s, e.op, Stamp(x, n), m);
    HeldAfter(x.parties, p, e);
    if e.op == Lock(m) {
      ClockNext(x, n, e.tid);
      forall u ensures Get(MutexOf(s, m), u) <= Get(Stamp(x, n), u) {
        JoinGet(ClockOf(s, e.tid), MutexOf(s, m), u);
      }
    } else if m in x.progs[n + 1].held {
      ClockGrows(x, n, p.held[m]);
      BelowTransitive(MutexOf(s, m), ClockAt(x, n, p.held[m]), ClockAt(x, n + 1, p.held[m]));
    }
  }

  lemma {:induction false} HolderCoversHolds(x: Run, n: nat, m: Addr)
    requires n <= |x.trace| && x.mode.FullHB?
    ensures HolderCovers(x, n, m)
  {
    if n > 0 {
      HolderCoversHolds(x, n - 1, m);
      AlwaysSane(x, n - 1);
      HolderCoversNext(x, n - 1, m);
    }
  }

  // The mutex clock covers every unlock since the mutex was last freed, although it is
  // overwritten each time: the next holder joined it first.
  lemma {:induction false} MutexCovers(x: Run, i: nat, n: nat, m: Addr)
    requires i < n <= |x.trace| && x.mode.FullHB?
    requires x.trace[i].op == Unlock(m) && NoFree(x.trace, i, n, m)
    ensures Below(Stamp(x, i), MutexOf(x.syncs[n], m))
    decreases n
  {
    var k := n - 1;
    assert Taken(x, k);
    MutexesAfterGet(x.mode, x.syncs[k], x.trace[k].op, Stamp(x, k), m);
    if i < k {
      assert !FreedAt(x.trace, k, m);
      MutexCovers(x, i, k, m);
      if x.trace[k].op == Unlock(m) {
        HolderCoversHolds(x, k, m);
        BelowTransitive(Stamp(x, i), MutexOf(x.syncs[k], m), Stamp(x, k));
      }
    }
  }
}
