/** Locksets of the hybrid detectors: the set operations, the held locks of a run, and their meaning. */
module Locksets {
  import opened Clocks
  import opened Program
  import opened Protocol
  import opened Causality
  import opened Origins
  import opened Accesses
  import opened Epochs

  // ---------- the lockset object ----------

  type Lockset = set<Addr>

  datatype ELP = ELP(epoch: Epoch, locks: Lockset)

  class LockTable {
    var addrs: Lockset

    constructor ()
      ensures addrs == {}
    {
      addrs := {};
    }

    method Add(m: Addr)
      modifies this
      ensures addrs == old(addrs) + {m}
    {
      addrs := addrs + {m};
    }

    method Remove(m: Addr)
      modifies this
      ensures addrs == old(addrs) - {m}
    {
      addrs := addrs - {m};
    }

    method IsSubsetOf(ls: LockTable) returns (r: bool)
      ensures r <==> addrs <= ls.addrs
    {
      if |addrs| > |ls.addrs| {
        SubsetIsSmaller(addrs, ls.addrs);
        return false;
      }
      r := AllIn(addrs, ls.addrs);
    }

    method IsSupersetOf(ls: LockTable) returns (r: bool)
      ensures r <==> ls.addrs <= addrs
    {
      if |addrs| < |ls.addrs| {
        SubsetIsSmaller(ls.addrs, addrs);
        return false;
      }
      r := AllIn(ls.addrs, addrs);
    }

    // Compares sizes and one inclusion only.
    method IsMatch(ls: LockTable) returns (r: bool)
      ensures r <==> addrs == ls.addrs
    {
      if |addrs| != |ls.addrs| {
        return false;
      }
      SubsetIsSmaller(addrs, ls.addrs);
      r := AllIn(addrs, ls.addrs);
    }

    method IsDisjoint(ls: LockTable) returns (r: bool)
      ensures r <==> addrs !! ls.addrs
    {
      AscendingMembers(addrs);
      r := Visit(Ascending(addrs), ls.addrs, false);
    }

    static method AllIn(s: Lockset, t: Lockset) returns (r: bool)
      ensures r <==> s <= t
    {
      AscendingMembers(s);
      r := Visit(Ascending(s), t, true);
    }

    // The early-exit loops: stops at the first lock whose presence is not the expected one.
    static method Visit(locks: seq<Addr>, t: Lockset, expected: bool) returns (r: bool)
      ensures r <==> forall m | m in Members(locks) :: (m in t) == expected
    {
      for i := 0 to |locks|
        invariant forall k | 0 <= k < i :: (locks[k] in t) == expected
      {
        if (locks[i] in t) != expected {
          assert locks[i] in Members(locks);
          return false;
        }
      }
      return true;
    }
  }

  lemma SubsetIsSmaller(s: Lockset, t: Lockset)
    ensures s <= t ==> |s| <= |t| && (|s| == |t| ==> s == t)
  {
    assert s <= t ==> s + (t - s) == t;
    assert |s + (t - s)| == |s| + |t - s|;
  }

  // ---------- entries ----------

  function Current(cur: Access, ls: Lockset): ELP {
    ELP(Epoch(cur.t, Get(cur.clock, cur.t)), ls)
  }

  // The entry is unordered with the access and was made under no common lock.
  predicate Unordered(e: ELP, cur: Access, ls: Lockset) {
    !EpochBefore(e.epoch, cur.clock) && e.locks !! ls
  }

  predicate Hits(e: ELP, cur: Access, ls: Lockset) {
    Unordered(e, cur, ls) && cur.t != e.epoch.tid
  }

  // ---------- the locks held along a run ----------

  // The detector's own table of held locks, kept by ProcessLock and ProcessUnlock.
  ghost function LocksAt(tr: Trace, n: nat, t: Tid): Lockset
    requires n <= |tr|
  {
    if n == 0 then {}
    else if tr[n - 1].tid == t && tr[n - 1].op.Lock? then LocksAt(tr, n - 1, t) + {tr[n - 1].op.m}
    else if tr[n - 1].tid == t && tr[n - 1].op.Unlock? then LocksAt(tr, n - 1, t) - {tr[n - 1].op.m}
    else LocksAt(tr, n - 1, t)
  }

  // The locks held at event j by its thread.
  ghost function Held(tr: Trace, j: nat): Lockset
    requires j < |tr|
  {
    LocksAt(tr, j, tr[j].tid)
  }

  // The detector's lock tables hold exactly the mutexes each thread holds.
  lemma {:induction false} LocksAreHeld(x: Run, n: nat, t: Tid, m: Addr)
    requires n <= |x.trace|
    ensures m in LocksAt(x.trace, n, t) <==> HeldBy(x, n, m, t)
  {
    if n > 0 {
      LocksAreHeld(x, n - 1, t, m);
      assert Taken(x, n - 1);
      HeldAfter(x.parties, x.progs[n - 1], x.trace[n - 1]);
    }
  }

  ghost predicate HeldBy(x: Run, n: nat, m: Addr, t: Tid)
    requires n <= |x.trace|
  {
    m in x.progs[n].held && x.progs[n].held[m] == t
  }

  lemma {:induction false} ReleasedSince(x: Run, i: nat, n: nat, m: Addr, u: Tid) returns (k: nat)
    requires i < n <= |x.trace| && HeldBy(x, i, m, u) && !HeldBy(x, n, m, u)
    ensures i <= k < n && x.trace[k] == Event(u, Unlock(m))
    decreases n
  {
    if HeldBy(x, n - 1, m, u) {
      assert Taken(x, n - 1);
      HeldAfter(x.parties, x.progs[n - 1], x.trace[n - 1]);
      k := n - 1;
    } else {
      k := ReleasedSince(x, i, n - 1, m, u);
    }
  }

  // ---------- hybrid races ----------

  // Access i races with event j for the hybrid condition: unordered, and no common lock.
  ghost predicate HybridRace(x: Run, gate: bool, i: nat, j: nat, a: Addr, k: Kind)
    requires i < j < |x.trace|
  {
    && x.trace[i].tid != x.trace[j].tid
    && SeenAccess(gate, x.trace, i, x.trace[i].tid, a, k) && NoFree(x.trace, i, j, a)
    && !HB(x.mode, x.trace, i, j)
    && Held(x.trace, i) !! Held(x.trace, j)
  }
}
