/** What the first and last flags mean, and why a pair the mutual exclusion check rejects cannot happen. */
module CriticalSections {
  import opened Program
  import opened Protocol
  import opened Clocks
  import opened Origins
  import opened Locksets
  import opened FlaggedLocks
  import opened ClockHistories

  // ---------- critical sections of one thread ----------

  // The position of the Lock that opened the critical section of m the thread is in before its k-th
  // operation, or -1.
  ghost function LockedSince(q: seq<Op>, k: nat, m: Addr): (l: int)
    requires k <= |q|
    ensures -1 <= l < k && (l >= 0 ==> q[l] == Lock(m))
  {
    if k == 0 then -1
    else if q[k - 1] == Lock(m) then k - 1
    else if q[k - 1] == Unlock(m) then -1
    else LockedSince(q, k - 1, m)
  }

  // The critical section of m that operation k lies in, named by the Lock that opened it, or -1.  An
  // Unlock of m leaves the section before it is analysed, a Lock enters it afterwards.
  ghost function SectionOf(q: seq<Op>, k: nat, m: Addr): (l: int)
    requires k < |q|
    ensures -1 <= l < k
  {
    if q[k] == Unlock(m) then -1 else LockedSince(q, k, m)
  }

  // Operations i and j lie in the same critical section of m.
  ghost predicate SameSection(q: seq<Op>, i: nat, j: nat, m: Addr)
    requires i < |q| && j < |q|
  {
    SectionOf(q, i, m) >= 0 && SectionOf(q, i, m) == SectionOf(q, j, m)
  }

  // A critical section is an interval.
  lemma {:induction false} SectionIsInterval(q: seq<Op>, k: nat, j: nat, m: Addr)
    requires k <= j <= |q| && 0 <= LockedSince(q, j, m) < k
    ensures LockedSince(q, k, m) == LockedSince(q, j, m)
    decreases j
  {
    if k < j {
      SectionIsInterval(q, k, j - 1, m);
    }
  }

  lemma SectionWithin(q: seq<Op>, k: nat, j: nat, m: Addr)
    requires k <= j < |q| && 0 <= SectionOf(q, j, m) < k
    ensures SectionOf(q, k, m) == SectionOf(q, j, m)
  {
    if k < j {
      SectionIsInterval(q, k, j, m);
      SectionIsInterval(q, k + 1, j, m);
    }
  }

  lemma {:induction false} SamePrefix(q: seq<Op>, q': seq<Op>, k: nat, m: Addr)
    requires k <= |q| && k <= |q'| && q[..k] == q'[..k]
    ensures LockedSince(q, k, m) == LockedSince(q', k, m)
  {
    if k > 0 {
      assert q[k - 1] == q[..k][k - 1] == q'[k - 1];
      assert q[..k - 1] == q[..k][..k - 1] == q'[..k - 1];
      SamePrefix(q, q', k - 1, m);
    }
  }

  // ---------- versions identify critical sections ----------

  // Every Lock took a new value of the global version counter.
  ghost predicate FreshVersions(q: seq<Op>, vers: seq<nat>) {
    && |vers| == |q|
    && forall i, j | 0 <= i < j < |q| && q[i].Lock? && q[j].Lock? :: vers[i] != vers[j]
  }

  // The thread's lockset before its k-th operation.
  ghost function VersionsAt(q: seq<Op>, vers: seq<nat>, k: nat): Versions
    requires k <= |q| == |vers|
  {
    if k == 0 then map[] else
    var ls := VersionsAt(q, vers, k - 1);
    match q[k - 1]
    case Lock(m) => ls[m := vers[k - 1]]
    case Unlock(m) => ls - {m}
    case _ => ls
  }

  lemma {:induction false} VersionIsSection(q: seq<Op>, vers: seq<nat>, k: nat, m: Addr)
    requires k <= |q| == |vers|
    ensures var ls, l := VersionsAt(q, vers, k), LockedSince(q, k, m);
            (m in ls <==> l >= 0) && (m in ls ==> ls[m] == vers[l])
  {
    if k > 0 {
      VersionIsSection(q, vers, k - 1, m);
    }
  }

  // The lockset an operation is analysed with: an Unlock has removed its mutex by then.
  ghost function LocksOf(q: seq<Op>, vers: seq<nat>, k: nat): Versions
    requires k < |q| == |vers|
  {
    var ls := VersionsAt(q, vers, k);
    if q[k].Unlock? then ls - {q[k].m} else ls
  }

  lemma LocksAreSections(q: seq<Op>, vers: seq<nat>, k: nat, m: Addr)
    requires k < |q| == |vers|
    ensures var ls, l := LocksOf(q, vers, k), SectionOf(q, k, m);
            (m in ls <==> l >= 0) && (m in ls ==> ls[m] == vers[l])
  {
    VersionIsSection(q, vers, k, m);
  }

  lemma ExistIsSameSection(q: seq<Op>, vers: seq<nat>, i: nat, j: nat, m: Addr)
    requires FreshVersions(q, vers) && i < |q| && j < |q|
    requires m in LocksOf(q, vers, j)
    ensures Exist(LocksOf(q, vers, i), m, LocksOf(q, vers, j)[m]) <==> SameSection(q, i, j, m)
  {
    LocksAreSections(q, vers, i, m);
    LocksAreSections(q, vers, j, m);
  }

  // ---------- the flags are exact ----------

  // The accesses of one thread to one location, a memory cell or a mutex with its locks and unlocks:
  // positions among the thread's operations.
  ghost predicate Positions(q: seq<Op>, acc: seq<nat>) {
    && (forall i | 0 <= i < |acc| :: acc[i] < |q|)
    && (forall i, j | 0 <= i < j < |acc| :: acc[i] < acc[j])
  }

  // The flag table completed for access i, by the next access or by the free of the location.
  ghost function FlagsOf(q: seq<Op>, vers: seq<nat>, acc: seq<nat>, i: nat): FlagTable
    requires |vers| == |q| && Positions(q, acc) && i < |acc|
  {
    var prev := if i == 0 then map[] else LocksOf(q, vers, acc[i - 1]);
    var ls := LocksOf(q, vers, acc[i]);
    var next := if i + 1 < |acc| then Some(LocksOf(q, vers, acc[i + 1])) else None;
    LastFlags(FirstFlags(map[], prev, ls), ls, next)
  }

  ghost predicate FirstInSection(q: seq<Op>, acc: seq<nat>, i: nat, m: Addr)
    requires Positions(q, acc) && i < |acc|
  {
    forall k | 0 <= k < i :: !SameSection(q, acc[k], acc[i], m)
  }

  ghost predicate LastInSection(q: seq<Op>, acc: seq<nat>, i: nat, m: Addr)
    requires Positions(q, acc) && i < |acc|
  {
    forall k | i < k < |acc| :: !SameSection(q, acc[i], acc[k], m)
  }

  // Comparing with the neighbouring access decides for all earlier and later ones.
  lemma NeighboursDecide(q: seq<Op>, acc: seq<nat>, i: nat, m: Addr)
    requires Positions(q, acc) && i < |acc|
    ensures FirstInSection(q, acc, i, m) <==> i == 0 || !SameSection(q, acc[i - 1], acc[i], m)
    ensures LastInSection(q, acc, i, m) <==> i + 1 == |acc| || !SameSection(q, acc[i], acc[i + 1], m)
  {
    forall k | 0 <= k < i && SameSection(q, acc[k], acc[i], m) ensures SameSection(q, acc[i - 1], acc[i], m) {
      SectionWithin(q, acc[i - 1], acc[i], m);
    }
    forall k | i < k < |acc| && SameSection(q, acc[i], acc[k], m) ensures SameSection(q, acc[i], acc[i + 1], m) {
      SectionWithin(q, acc[i + 1], acc[k], m);
    }
  }

  // The table computed by the two loops, lock by lock.
  lemma FlagsAre(q: seq<Op>, vers: seq<nat>, acc: seq<nat>, i: nat, m: Addr)
    requires |vers| == |q| && Positions(q, acc) && i < |acc|
    ensures var fls, ls := FlagsOf(q, vers, acc, i), LocksOf(q, vers, acc[i]);
            && (m in fls <==> m in ls)
            && (m in fls ==>
                  && (fls[m].first <==> i == 0 || !Exist(LocksOf(q, vers, acc[i - 1]), m, ls[m]))
                  && (fls[m].last <==> i + 1 == |acc| || !Exist(LocksOf(q, vers, acc[i + 1]), m, ls[m])))
  {
    var prev := if i == 0 then map[] else LocksOf(q, vers, acc[i - 1]);
    var ls := LocksOf(q, vers, acc[i]);
    var next := if i + 1 < |acc| then Some(LocksOf(q, vers, acc[i + 1])) else None;
    FirstFlagsAt(map[], prev, ls, m);
    LastFlagsAt(FirstFlags(map[], prev, ls), ls, next, m);
  }

  // With fresh versions, a lock is in the table of an access exactly when the access lies in a critical
  // section of it; its flags say exactly whether the access is the first and last one to the location in
  // that critical section.
  lemma FreshFlagsExact(q: seq<Op>, vers: seq<nat>, acc: seq<nat>, i: nat, m: Addr)
    requires FreshVersions(q, vers) && Positions(q, acc) && i < |acc|
    ensures var fls := FlagsOf(q, vers, acc, i);
            && (m in fls <==> SectionOf(q, acc[i], m) >= 0)
            && (m in fls ==> (fls[m].first <==> FirstInSection(q, acc, i, m)))
            && (m in fls ==> (fls[m].last <==> LastInSection(q, acc, i, m)))
  {
    FlagsAre(q, vers, acc, i, m);
    LocksAreSections(q, vers, acc[i], m);
    NeighboursDecide(q, acc, i, m);
    if m in LocksOf(q, vers, acc[i]) {
      if i > 0 {
        ExistIsSameSection(q, vers, acc[i - 1], acc[i], m);
      }
      if i + 1 < |acc| {
        ExistIsSameSection(q, vers, acc[i + 1], acc[i], m);
      }
    }
  }

  // ---------- versions along a run ----------

  // The operations thread t performs before position n of a trace.
  ghost function OpsOf(tr: Trace, n: nat, t: Tid): seq<Op>
    requires n <= |tr|
  {
    if n == 0 then []
    else if tr[n - 1].tid == t then OpsOf(tr, n - 1, t) + [tr[n - 1].op]
    else OpsOf(tr, n - 1, t)
  }

  // The global version counter: every Lock of any thread increments it.
  ghost function Counter(tr: Trace, n: nat): nat
    requires n <= |tr|
  {
    if n == 0 then 0 else Counter(tr, n - 1) + if tr[n - 1].op.Lock? then 1 else 0
  }

  // The value of the counter after each operation of thread t: for a Lock, the version it takes.
  ghost function VersionsOf(tr: Trace, n: nat, t: Tid): (vers: seq<nat>)
    requires n <= |tr|
    ensures |vers| == |OpsOf(tr, n, t)|
  {
    if n == 0 then []
    else if tr[n - 1].tid == t then VersionsOf(tr, n - 1, t) + [Counter(tr, n)]
    else VersionsOf(tr, n - 1, t)
  }

  lemma {:induction false} VersionsBelowCounter(tr: Trace, n: nat, t: Tid, i: nat)
    requires n <= |tr| && i < |OpsOf(tr, n, t)|
    ensures VersionsOf(tr, n, t)[i] <= Counter(tr, n)
  {
    if i < |OpsOf(tr, n - 1, t)| {
      VersionsBelowCounter(tr, n - 1, t, i);
    }
  }

  // Every Lock takes a version that no earlier Lock of the thread has taken.
  lemma {:induction false} VersionsAreFresh(tr: Trace, n: nat, t: Tid)
    requires n <= |tr|
    ensures FreshVersions(OpsOf(tr, n, t), VersionsOf(tr, n, t))
  {
    if n > 0 {
      VersionsAreFresh(tr, n - 1, t);
      var vers, counter := VersionsOf(tr, n - 1, t), Counter(tr, n - 1);
      forall i | 0 <= i < |vers| ensures vers[i] <= counter {
        VersionsBelowCounter(tr, n - 1, t, i);
      }
    }
  }

  // The flag table of access i of thread t in an observed trace.
  ghost function ObservedFlags(tr: Trace, t: Tid, acc: seq<nat>, i: nat): FlagTable
    requires Positions(OpsOf(tr, |tr|, t), acc) && i < |acc|
  {
    FlagsOf(OpsOf(tr, |tr|, t), VersionsOf(tr, |tr|, t), acc, i)
  }

  // In every observed trace, the flags of an access say exactly whether it is its thread's first and
  // last one to the location in each critical section it lies in.
  lemma FlagsExact(tr: Trace, t: Tid, acc: seq<nat>, i: nat, m: Addr)
    requires Positions(OpsOf(tr, |tr|, t), acc) && i < |acc|
    ensures var q, fls := OpsOf(tr, |tr|, t), ObservedFlags(tr, t, acc, i);
            && (m in fls <==> SectionOf(q, acc[i], m) >= 0)
            && (m in fls ==> (fls[m].first <==> FirstInSection(q, acc, i, m)))
            && (m in fls ==> (fls[m].last <==> LastInSection(q, acc, i, m)))
  {
    VersionsAreFresh(tr, |tr|, t);
    FreshFlagsExact(OpsOf(tr, |tr|, t), VersionsOf(tr, |tr|, t), acc, i, m);
  }

  // ---------- the check ----------

  predicate MutexAllows(src: FlagTable, dst: FlagTable) {
    forall a | a in src && a in dst :: src[a].last && dst[a].first
  }

  method CheckMutexExclution(src: FlagTable, dst: FlagTable) returns (ok: bool)
    ensures ok <==> forall a | a in src && a in dst :: src[a].last && dst[a].first
  {
    var locks := Ascending(src.Keys);
    for i := 0 to |locks|
      invariant forall k | 0 <= k < i && locks[k] in dst :: src[locks[k]].last && dst[locks[k]].first
    {
      if locks[i] in dst && (!src[locks[i]].last || !dst[locks[i]].first) {
        return false;
      }
    }
    AscendingMembers(src.Keys);
    forall a | a in src && a in dst ensures src[a].last && dst[a].first {
      assert a in Members(locks);
    }
    return true;
  }

  // ---------- compound patterns ----------

  // The locks held in one critical section over both accesses of a local pair.
  function CommonLockSet(prev: Versions, curr: Versions): FlagTable {
    map a | a in prev && Exist(curr, a, prev[a]) :: Flag(false, false)
  }

  // The whole check: steps 1 to 3 on the clocks and times, step 4 on the locks of a pair on two locations.
  method CheckCompound(prev: VC, curr: VC, oneMeta: bool, prevLs: Versions, currLs: Versions,
                       succ: seq<TimeInfo>, pred: seq<TimeInfo>, succFls: FlagTable, predFls: FlagTable)
    returns (ok: bool)
    requires Increasing(succ) && Increasing(pred)
    ensures ok <==>
            && (exists s, p | s in succ && p in pred :: Surrounds(s, p, prev, curr))
            && (oneMeta || forall a | a in prevLs && Exist(currLs, a, prevLs[a]) :: a !in succFls && a !in predFls)
  {
    ok := CheckCompoundTimes(prev, curr, succ, pred);
    if !ok {
      return false;
    }
    if !oneMeta {
      var fls := CommonLockSet(prevLs, currLs);
      var before := CheckMutexExclution(fls, succFls);
      var after := CheckMutexExclution(predFls, fls);
      forall a | a in prevLs && Exist(currLs, a, prevLs[a]) ensures a in fls && !fls[a].first && !fls[a].last {
      }
      if !before || !after {
        return false;
      }
    }
    return true;
  }

  // ---------- the operations of a thread inside an interleaving ----------

  lemma {:induction false} OpsGrow(tr: Trace, i: nat, n: nat, t: Tid)
    requires i <= n <= |tr|
    ensures OpsOf(tr, i, t) <= OpsOf(tr, n, t)
    ensures i < n && tr[i].tid == t ==> |OpsOf(tr, i, t)| < |OpsOf(tr, n, t)|
    decreases n
  {
    if i < n {
      OpsGrow(tr, i, n - 1, t);
    }
  }

  // Every operation between two points of the interleaving happens at some event between them.
  lemma {:induction false} HappensBetween(tr: Trace, i: nat, n: nat, t: Tid, k: nat) returns (s: nat)
    requires i <= n <= |tr| && |OpsOf(tr, i, t)| <= k < |OpsOf(tr, n, t)|
    ensures i <= s < n && tr[s].tid == t && |OpsOf(tr, s, t)| == k
    decreases n
  {
    if k < |OpsOf(tr, n - 1, t)| {
      s := HappensBetween(tr, i, n - 1, t, k);
    } else {
      s := n - 1;
    }
  }

  lemma LockedAfter(q: seq<Op>, op: Op, m: Addr)
    ensures LockedSince(q + [op], |q| + 1, m) >= 0 <==>
            op == Lock(m) || (op != Unlock(m) && LockedSince(q, |q|, m) >= 0)
  {
    SamePrefix(q, q + [op], |q|, m);
  }

  lemma HeldByAfter(y: Run, n: nat, t: Tid, m: Addr)
    requires n < |y.trace|
    ensures HeldBy(y, n + 1, m, t) <==>
            if y.trace[n].tid == t then y.trace[n].op == Lock(m) || (y.trace[n].op != Unlock(m) && HeldBy(y, n, m, t))
            else HeldBy(y, n, m, t)
  {
    assert Taken(y, n);
    HeldAfter(y.parties, y.progs[n], y.trace[n]);
  }

  lemma {:induction false} HeldIsLocked(y: Run, n: nat, t: Tid, m: Addr)
    requires n <= |y.trace|
    ensures var q := OpsOf(y.trace, n, t);
            HeldBy(y, n, m, t) <==> LockedSince(q, |q|, m) >= 0
  {
    if n > 0 {
      HeldIsLocked(y, n - 1, t, m);
      HeldByAfter(y, n - 1, t, m);
      LockedAfter(OpsOf(y.trace, n - 1, t), y.trace[n - 1].op, m);
    }
  }

  // The same, against all the operations the thread would perform.
  lemma HeldAtRank(y: Run, n: nat, t: Tid, q: seq<Op>, m: Addr)
    requires n <= |y.trace| && OpsOf(y.trace, |y.trace|, t) <= q
    ensures |OpsOf(y.trace, n, t)| <= |q|
    ensures HeldBy(y, n, m, t) <==> LockedSince(q, |OpsOf(y.trace, n, t)|, m) >= 0
  {
    var q' := OpsOf(y.trace, n, t);
    OpsGrow(y.trace, n, |y.trace|, t);
    HeldIsLocked(y, n, t, m);
    SamePrefix(q', q, |q'|, m);
  }

  // ---------- infeasibility ----------

  // Event p of the interleaving is access i of its thread, whose operations are q.
  ghost predicate IsAccessAt(tr: Trace, p: nat, q: seq<Op>, acc: seq<nat>, i: nat)
    requires p < |tr|
  {
    && OpsOf(tr, |tr|, tr[p].tid) <= q && Positions(q, acc) && i < |acc|
    && |OpsOf(tr, p, tr[p].tid)| == acc[i]
  }

  // No access of thread t to the location lies strictly between p and r.
  ghost predicate QuietBetween(tr: Trace, p: nat, r: nat, t: Tid, acc: seq<nat>)
    requires p < r < |tr|
  {
    forall s | p < s < r && tr[s].tid == t :: |OpsOf(tr, s, t)| !in acc
  }

  // The source is not the last access of its critical section: its thread still holds the lock at r.
  lemma SourceStillHolds(y: Run, p: nat, r: nat, q: seq<Op>, acc: seq<nat>, i: nat, m: Addr)
    requires p < r < |y.trace| && IsAccessAt(y.trace, p, q, acc, i)
    requires QuietBetween(y.trace, p, r, y.trace[p].tid, acc)
    requires !LastInSection(q, acc, i, m)
    ensures HeldBy(y, r, m, y.trace[p].tid)
  {
    var tr, t := y.trace, y.trace[p].tid;
    var k :| i < k < |acc| && SameSection(q, acc[i], acc[k], m);
    OpsGrow(tr, p, r, t);
    OpsGrow(tr, p, p + 1, t);
    OpsGrow(tr, p + 1, r, t);
    if acc[k] < |OpsOf(tr, r, t)| {
      var s := HappensBetween(tr, p + 1, r, t, acc[k]);
    }
    HeldAtRank(y, r, t, q, m);
    SectionIsInterval(q, |OpsOf(tr, r, t)|, acc[k], m);
  }

  // The target is not the first access of its critical section: its thread held the lock at p.
  lemma TargetAlreadyHolds(y: Run, p: nat, r: nat, q: seq<Op>, acc: seq<nat>, i: nat, m: Addr)
    requires p < r < |y.trace| && IsAccessAt(y.trace, r, q, acc, i)
    requires QuietBetween(y.trace, p, r, y.trace[r].tid, acc) && y.trace[p].tid != y.trace[r].tid
    requires !FirstInSection(q, acc, i, m)
    ensures HeldBy(y, p, m, y.trace[r].tid)
  {
    var tr, t := y.trace, y.trace[r].tid;
    var k :| 0 <= k < i && SameSection(q, acc[k], acc[i], m);
    OpsGrow(tr, p, r, t);
    if |OpsOf(tr, p, t)| <= acc[k] {
      var s := HappensBetween(tr, p, r, t, acc[k]);
    }
    HeldAtRank(y, p, t, q, m);
    SectionIsInterval(q, |OpsOf(tr, p, t)|, acc[i], m);
  }

  // In every mutex both hold, access i is the last of its critical section and access j the first of its own.
  ghost predicate SectionsAllow(tr: Trace, t: Tid, acc0: seq<nat>, i: nat, u: Tid, acc1: seq<nat>, j: nat)
    requires Positions(OpsOf(tr, |tr|, t), acc0) && i < |acc0|
    requires Positions(OpsOf(tr, |tr|, u), acc1) && j < |acc1|
  {
    var q0, q1 := OpsOf(tr, |tr|, t), OpsOf(tr, |tr|, u);
    forall m | SectionOf(q0, acc0[i], m) >= 0 && SectionOf(q1, acc1[j], m) >= 0 ::
      LastInSection(q0, acc0, i, m) && FirstInSection(q1, acc1, j, m)
  }

  // That is exactly what the check decides about two observed accesses.
  lemma MutexCheckExact(tr: Trace, t: Tid, acc0: seq<nat>, i: nat, u: Tid, acc1: seq<nat>, j: nat)
    requires Positions(OpsOf(tr, |tr|, t), acc0) && i < |acc0|
    requires Positions(OpsOf(tr, |tr|, u), acc1) && j < |acc1|
    ensures MutexAllows(ObservedFlags(tr, t, acc0, i), ObservedFlags(tr, u, acc1, j)) <==>
            SectionsAllow(tr, t, acc0, i, u, acc1, j)
  {
    var src, dst := ObservedFlags(tr, t, acc0, i), ObservedFlags(tr, u, acc1, j);
    forall m
      ensures (m in src <==> SectionOf(OpsOf(tr, |tr|, t), acc0[i], m) >= 0)
      ensures m in src ==> (src[m].last <==> LastInSection(OpsOf(tr, |tr|, t), acc0, i, m))
      ensures (m in dst <==> SectionOf(OpsOf(tr, |tr|, u), acc1[j], m) >= 0)
      ensures m in dst ==> (dst[m].first <==> FirstInSection(OpsOf(tr, |tr|, u), acc1, j, m))
    {
      FlagsExact(tr, t, acc0, i, m);
      FlagsExact(tr, u, acc1, j, m);
    }
  }

  // Accesses i and j of two threads were observed in trace tr.  If the check rejects the pair, no run in
  // which both threads perform those operations in order puts the second access directly after the
  // first on the location.
  lemma RejectedPairIsInfeasible(tr: Trace, y: Run, p: nat, r: nat, acc0: seq<nat>, i: nat, acc1: seq<nat>, j: nat)
    requires p < r < |y.trace| && y.trace[p].tid != y.trace[r].tid
    requires IsAccessAt(y.trace, p, OpsOf(tr, |tr|, y.trace[p].tid), acc0, i)
    requires IsAccessAt(y.trace, r, OpsOf(tr, |tr|, y.trace[r].tid), acc1, j)
    requires QuietBetween(y.trace, p, r, y.trace[p].tid, acc0) && QuietBetween(y.trace, p, r, y.trace[r].tid, acc1)
    ensures MutexAllows(ObservedFlags(tr, y.trace[p].tid, acc0, i), ObservedFlags(tr, y.trace[r].tid, acc1, j))
  {
    var t, u := y.trace[p].tid, y.trace[r].tid;
    var q0, q1 := OpsOf(tr, |tr|, t), OpsOf(tr, |tr|, u);
    var src, dst := ObservedFlags(tr, t, acc0, i), ObservedFlags(tr, u, acc1, j);
    forall m | m in src && m in dst ensures src[m].last && dst[m].first {
      FlagsExact(tr, t, acc0, i, m);
      FlagsExact(tr, u, acc1, j, m);
      HeldAtRank(y, p, t, q0, m);
      HeldAtRank(y, r, u, q1, m);
      if !LastInSection(q0, acc0, i, m) {
        SourceStillHolds(y, p, r, q0, acc0, i, m);
      } else if !FirstInSection(q1, acc1, j, m) {
        TargetAlreadyHolds(y, p, r, q1, acc1, j, m);
      }
    }
  }
}
