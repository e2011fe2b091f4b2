/** The live-thread gate of Detector1 skips only accesses ordered with everything another thread does. */
module Gate {
  import opened Clocks
  import opened Program
  import opened Protocol
  import opened Causality
  import opened Reachable
  import opened Origins
  import opened Accesses
  import opened Djit

  // ---------- the counters count threads ----------

  ghost predicate Counted(x: Run, n: nat)
    requires n <= |x.trace|
  {
    && Starts(x.trace, n) == |x.progs[n].started|
    && Joins(x.trace, n) == |x.progs[n].joined|
    && x.progs[n].joined <= x.progs[n].started
  }

  lemma MembersNext(x: Run, n: nat)
    requires n < |x.trace|
    ensures var e, p, p' := x.trace[n], x.progs[n], x.progs[n + 1];
            && (if e.op.Begin? then e.tid !in p.started && p'.started == p.started + {e.tid}
                else e.tid in p.started && p'.started == p.started)
            && (if e.op.JoinThread? then e.op.child in p.started && e.op.child !in p.joined
                                         && p'.joined == p.joined + {e.op.child}
                else p'.joined == p.joined)
            && (!e.op.Begin? ==> e.tid !in p.joined)
            && (e.op == Begin(None) ==> p.started == {})
            && (e.op.Begin? && e.op.parent.Some? ==> e.op.parent.value in p.started)
  {
    assert Taken(x, n);
    AlwaysSane(x, n);
  }

  lemma {:induction false} CountedHolds(x: Run, n: nat)
    requires n <= |x.trace|
    ensures Counted(x, n)
  {
    if n > 0 {
      CountedHolds(x, n - 1);
      MembersNext(x, n - 1);
    }
  }

  lemma AtMostOne(s: set<Tid>, t: Tid, u: Tid)
    requires t in s && u in s && |s| <= 1
    ensures t == u
  {
    var pair := {t, u};
    assert pair <= s;
    assert |s - pair| == |s| - |pair|;
  }

  // When the gate is closed every thread but the one accessing has been joined.
  lemma OthersJoined(x: Run, j: nat, u: Tid)
    requires j < |x.trace| && !Processed(true, x.trace, j) && !x.trace[j].op.Begin?
    requires u in x.progs[j].started && u != x.trace[j].tid
    ensures u in x.progs[j].joined
  {
    CountedHolds(x, j);
    MembersNext(x, j);
    var p, t := x.progs[j], x.trace[j].tid;
    if u !in p.joined {
      var live := p.started - p.joined;
      assert |live| == |p.started| - |p.joined|;
      AtMostOne(live, t, u);
    }
  }

  // ---------- threads along a run ----------

  lemma {:induction false} StaysStarted(x: Run, m: nat, n: nat, u: Tid)
    requires m <= n <= |x.trace|
    ensures u in x.progs[m].started ==> u in x.progs[n].started
    ensures u in x.progs[m].joined ==> u in x.progs[n].joined
    decreases n
  {
    if m < n {
      StaysStarted(x, m, n - 1, u);
      MembersNext(x, n - 1);
    }
  }

  // The event that joined u.
  lemma {:induction false} JoinEvent(x: Run, n: nat, u: Tid) returns (k: nat)
    requires n <= |x.trace| && u in x.progs[n].joined
    ensures k < n && x.trace[k].op == JoinThread(u)
    ensures forall i | k < i < |x.trace| :: x.trace[i].tid != u
  {
    MembersNext(x, n - 1);
    if u in x.progs[n - 1].joined {
      k := JoinEvent(x, n - 1, u);
    } else {
      k := n - 1;
      forall i | k < i < |x.trace| ensures x.trace[i].tid != u {
        StaysStarted(x, n, i, u);
        MembersNext(x, i);
        CountedHolds(x, i);
      }
    }
  }

  // The event that started u after position m.
  lemma {:induction false} BeginEvent(x: Run, m: nat, n: nat, u: Tid) returns (k: nat)
    requires m <= n <= |x.trace| && u in x.progs[n].started && u !in x.progs[m].started
    ensures m <= k < n && x.trace[k].tid == u && x.trace[k].op.Begin?
    decreases n
  {
    MembersNext(x, n - 1);
    if u in x.progs[n - 1].started {
      k := BeginEvent(x, m, n - 1, u);
    } else {
      k := n - 1;
    }
  }

  // ---------- skipped accesses are ordered with everything ----------

  lemma {:induction false} EarlierOrdered(x: Run, i: nat, j: nat)
    requires i < j < |x.trace| && !Processed(true, x.trace, j) && !x.trace[j].op.Begin?
    requires x.trace[i].tid != x.trace[j].tid
    ensures HB(x.mode, x.trace, i, j)
    decreases j - i
  {
    var u := x.trace[i].tid;
    StartedBefore(x, i, j);
    OthersJoined(x, j, u);
    var k := JoinEvent(x, j, u);
    MembersNext(x, k);
    assert Taken(x, k);
    assert i < k;
    assert Edge(x.mode, x.trace, i, k);
    if x.trace[k].tid == x.trace[j].tid {
      assert Edge(x.mode, x.trace, k, j);
    } else {
      EarlierOrdered(x, k, j);
    }
    HBTransitive(x.mode, x.trace, i, k, j);
  }

  // Event i is the late start callback of a thread whose parent was joined before event j.
  ghost predicate Orphan(x: Run, j: nat, i: nat)
    requires j < i < |x.trace|
  {
    x.trace[i].op.Begin? && x.trace[i].op.parent.Some? && x.trace[i].op.parent.value in x.progs[j].joined
  }

  ghost predicate NoOrphan(x: Run, j: nat, n: nat)
    requires n <= |x.trace|
  {
    forall i | j < i < n :: !Orphan(x, j, i)
  }

  // A thread with an event after a skipped access had not started by then.
  lemma NewThread(x: Run, j: nat, i: nat, u: Tid)
    requires j < i < |x.trace| && !Processed(true, x.trace, j) && !x.trace[j].op.Begin?
    requires x.trace[i].tid == u != x.trace[j].tid
    ensures u !in x.progs[j].started
  {
    if u in x.progs[j].started {
      OthersJoined(x, j, u);
      var k := JoinEvent(x, j, u);
    }
  }

  lemma {:induction false} LaterOrdered(x: Run, j: nat, i: nat)
    requires j < i < |x.trace| && !Processed(true, x.trace, j) && !x.trace[j].op.Begin?
    requires x.trace[i].tid != x.trace[j].tid && NoOrphan(x, j, i + 1)
    ensures HB(x.mode, x.trace, j, i)
    decreases i
  {
    var u := x.trace[i].tid;
    NewThread(x, j, i, u);
    StartedBefore(x, i, i + 1);
    var k := BeginEvent(x, j, i + 1, u);
    MembersNext(x, j);
    assert k != j && !Orphan(x, j, k);
    if k < i {
      LaterOrdered(x, j, k);
      assert Edge(x.mode, x.trace, k, i);
      HBTransitive(x.mode, x.trace, j, k, i);
    } else {
      StartOrdered(x, j, i);
    }
  }

  // A start is ordered by its parent, which is the skipped thread or started after it.
  lemma {:induction false} StartOrdered(x: Run, j: nat, i: nat)
    requires j < i < |x.trace| && !Processed(true, x.trace, j) && !x.trace[j].op.Begin? && x.trace[i].op.Begin?
    requires x.trace[i].tid != x.trace[j].tid && NoOrphan(x, j, i + 1)
    ensures HB(x.mode, x.trace, j, i)
    decreases i, 0
  {
    var t := x.trace[j].tid;
    MembersNext(x, j);
    MembersNext(x, i);
    StaysStarted(x, j, i, t);
    var q := x.trace[i].op.parent.value;
    assert !Orphan(x, j, i);
    if q == t {
      assert Edge(x.mode, x.trace, j, i);
    } else {
      if q in x.progs[j].started {
        OthersJoined(x, j, q);
      }
      var p := BeginEvent(x, j, i, q);
      assert p != j;
      LaterOrdered(x, j, p);
      assert Edge(x.mode, x.trace, p, i);
      HBTransitive(x.mode, x.trace, j, p, i);
    }
  }

  // A late start by a joined parent has no edge from anything after the join.
  lemma OrphanUnordered(x: Run, j: nat, i: nat)
    requires j < i < |x.trace| && !x.trace[j].op.Begin? && Orphan(x, j, i)
    ensures x.trace[i].tid != x.trace[j].tid && !HB(x.mode, x.trace, j, i)
  {
    var q := x.trace[i].op.parent.value;
    var k := JoinEvent(x, j, q);
    forall p | j <= p < i ensures !Edge(x.mode, x.trace, p, i) {
      MembersNext(x, i);
      StartedBefore(x, p, i);
    }
    assert !Edge(x.mode, x.trace, j, i);
  }

  // A skipped access is ordered before all later events of the other threads up to position n exactly
  // when no thread starts there whose parent had been joined before the access.
  lemma OrderedIffNoOrphan(x: Run, j: nat, n: nat)
    requires j < n <= |x.trace| && !Processed(true, x.trace, j) && !x.trace[j].op.Begin?
    ensures (forall i | j < i < n && x.trace[i].tid != x.trace[j].tid :: HB(x.mode, x.trace, j, i)) <==>
            NoOrphan(x, j, n)
  {
    if NoOrphan(x, j, n) {
      forall i | j < i < n && x.trace[i].tid != x.trace[j].tid ensures HB(x.mode, x.trace, j, i) {
        LaterOrdered(x, j, i);
      }
    } else {
      var i :| j < i < n && Orphan(x, j, i);
      OrphanUnordered(x, j, i);
    }
  }

  // ---------- what Djit loses behind the gate ----------

  // An access skipped by the gate is in no race, unless it is followed by an orphan's start.
  lemma SkippedNeverRaces(x: Run, i: nat, j: nat)
    requires i < j < |x.trace| && x.trace[i].tid != x.trace[j].tid
    requires !x.trace[i].op.Begin? && !x.trace[j].op.Begin?
    requires !Processed(true, x.trace, i) || !Processed(true, x.trace, j)
    ensures HB(x.mode, x.trace, i, j) || (Processed(true, x.trace, j) && !NoOrphan(x, i, j))
  {
    if !Processed(true, x.trace, j) {
      EarlierOrdered(x, i, j);
    } else if NoOrphan(x, i, j) {
      LaterOrdered(x, i, j);
    }
  }

  // No orphan starts between event j and the skipped accesses of thread u to the cell.
  ghost predicate NoOrphansBefore(x: Run, j: nat, u: Tid, a: Addr)
    requires j < |x.trace|
  {
    forall i | 0 <= i < j && x.trace[i].tid == u && Touches(x.trace[i], a) && !Processed(true, x.trace, i) ::
      NoOrphan(x, i, j)
  }

  // The gate hides a race exactly when all the racing accesses of the thread were skipped, and each of
  // those is followed by an orphan's start.
  lemma HiddenRace(x: Run, j: nat, u: Tid, a: Addr, k: Kind)
    requires j < |x.trace| && (x.trace[j].op.Read? || x.trace[j].op.Write?)
    ensures HasRace(x, true, j, u, a, k) <==>
            exists i | 0 <= i < j :: Races(x, false, i, j, u, a, k) && Processed(true, x.trace, i)
    ensures forall i | 0 <= i < j && Races(x, false, i, j, u, a, k) && !Processed(true, x.trace, i) ::
              !NoOrphan(x, i, j)
    ensures HasRace(x, false, j, u, a, k) ==> Processed(true, x.trace, j)
  {
    forall i | 0 <= i < j ensures Races(x, true, i, j, u, a, k) <==>
                                  Races(x, false, i, j, u, a, k) && Processed(true, x.trace, i)
    {
      assert SeenAccess(true, x.trace, i, u, a, k) <==>
             SeenAccess(false, x.trace, i, u, a, k) && Processed(true, x.trace, i);
    }
    forall i | 0 <= i < j && Races(x, false, i, j, u, a, k)
      ensures Processed(true, x.trace, j) && (!Processed(true, x.trace, i) ==> !NoOrphan(x, i, j))
    {
      if !Processed(true, x.trace, i) || !Processed(true, x.trace, j) {
        SkippedNeverRaces(x, i, j);
      }
    }
  }

  lemma SameRaces(x: Run, j: nat, u: Tid, a: Addr, k: Kind)
    requires j < |x.trace| && (x.trace[j].op.Read? || x.trace[j].op.Write?) && NoOrphansBefore(x, j, u, a)
    ensures HasRace(x, false, j, u, a, k) <==> HasRace(x, true, j, u, a, k)
    ensures HasRace(x, false, j, u, a, k) ==>
              && Processed(true, x.trace, j)
              && LastSeen(false, x.trace, j, u, a, k) == LastSeen(true, x.trace, j, u, a, k)
  {
    HiddenRace(x, j, u, a, k);
    if i: nat :| i < j && Races(x, false, i, j, u, a, k) {
      LastOfRaceProcessed(x, i, j, u, a, k);
    }
  }

  lemma LastOfRaceProcessed(x: Run, i: nat, j: nat, u: Tid, a: Addr, k: Kind)
    requires i < j < |x.trace| && !x.trace[j].op.Begin? && Races(x, false, i, j, u, a, k)
    requires NoOrphansBefore(x, j, u, a)
    ensures LastSeen(false, x.trace, j, u, a, k) == LastSeen(true, x.trace, j, u, a, k)
  {
    var o, o' := LastSeen(false, x.trace, j, u, a, k), LastSeen(true, x.trace, j, u, a, k);
    assert i <= o;
    if !Processed(true, x.trace, o) {
      SkippedNeverRaces(x, o, j);
      if i < o {
        assert Edge(x.mode, x.trace, i, o);
        HBTransitive(x.mode, x.trace, i, o, j);
      }
    }
    assert SeenAccess(true, x.trace, o, u, a, k);
    assert o <= o';
    assert SeenAccess(true, x.trace, o', u, a, k) ==> SeenAccess(false, x.trace, o', u, a, k);
  }

  // Gated and ungated Djit report the same races of a thread at every event that no orphan's start
  // separates from an access of that thread skipped on the cell.
  lemma GateIsLossless(x: Run, j: nat, r: Report)
    requires j < |x.trace| && NoOrphansBefore(x, j, r.t0, r.addr)
    ensures r in ReportsAt(x, true, j) <==> r in ReportsAt(x, false, j)
  {
    if x.trace[j].op.Read? || x.trace[j].op.Write? {
      var a := x.trace[j].op.a;
      DjitExact(x, false, j, a, r);
      if Processed(true, x.trace, j) {
        DjitExact(x, true, j, a, r);
      }
      if r.addr == a {
        SameRaces(x, j, r.t0, a, r.k0);
        if HasRace(x, false, j, r.t0, a, r.k0) {
          ReportedInstruction(x, false, j, r.t0, a, r.k0);
          ReportedInstruction(x, true, j, r.t0, a, r.k0);
        }
      }
    }
  }
}
