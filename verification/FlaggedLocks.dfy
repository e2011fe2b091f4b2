/** Versioned locksets, first/last flags of accesses, and the mutual exclusion check built on them. */
module FlaggedLocks {
  import opened Program
  import opened Clocks
  import opened Locksets

  // ---------- core/lock_set ----------

  // A lock address and the version of its current critical section.
  type Versions = map<Addr, nat>

  class LockSet {
    var locks: Versions

    constructor ()
      ensures locks == map[]
    {
      locks := map[];
    }

    // The version is the next value of the global counter, passed in and out.
    method Add(a: Addr, counter: nat) returns (counter': nat)
      modifies this
      ensures counter' == counter + 1 && locks == old(locks)[a := counter']
    {
      counter' := counter + 1;
      locks := locks[a := counter'];
    }

    method Remove(a: Addr)
      modifies this
      ensures locks == old(locks) - {a}
    {
      locks := locks - {a};
    }

    // The same set of locks, whatever their versions.
    method Match(ls: LockSet) returns (r: bool)
      ensures r <==> locks.Keys == ls.locks.Keys
    {
      if |locks| != |ls.locks| {
        return false;
      }
      var mine := Ascending(locks.Keys);
      for i := 0 to |mine|
        invariant forall k | 0 <= k < i :: mine[k] in ls.locks
      {
        if mine[i] !in ls.locks {
          return false;
        }
      }
      AscendingMembers(locks.Keys);
      assert locks.Keys <= ls.locks.Keys by {
        forall a | a in locks.Keys ensures a in ls.locks.Keys {
          assert a in Members(mine);
        }
      }
      SubsetIsSmaller(locks.Keys, ls.locks.Keys);
      return true;
    }

    method Disjoint(ls: LockSet) returns (r: bool)
      ensures r <==> locks.Keys !! ls.locks.Keys
    {
      var mine := Ascending(locks.Keys);
      for i := 0 to |mine|
        invariant forall k | 0 <= k < i :: mine[k] !in ls.locks
      {
        if mine[i] in ls.locks {
          return false;
        }
      }
      AscendingMembers(locks.Keys);
      forall a | a in locks.Keys ensures a !in ls.locks.Keys {
        assert a in Members(mine);
      }
      return true;
    }

    // No lock of this set is held in one and the same critical section by both of the others.
    method DisjointFromSection(ls1: LockSet, ls2: LockSet) returns (r: bool)
      ensures r <==> forall a | a in locks && a in ls1.locks && a in ls2.locks :: ls1.locks[a] != ls2.locks[a]
    {
      var mine := Ascending(locks.Keys);
      for i := 0 to |mine|
        invariant forall k | 0 <= k < i && mine[k] in ls1.locks && mine[k] in ls2.locks ::
            ls1.locks[mine[k]] != ls2.locks[mine[k]]
      {
        if mine[i] in ls1.locks && mine[i] in ls2.locks && ls1.locks[mine[i]] == ls2.locks[mine[i]] {
          return false;
        }
      }
      AscendingMembers(locks.Keys);
      forall a | a in locks && a in ls1.locks && a in ls2.locks ensures ls1.locks[a] != ls2.locks[a] {
        assert a in Members(mine);
      }
      return true;
    }
  }

  // ---------- the flags ----------

  datatype Flag = Flag(first: bool, last: bool)

  type FlagTable = map<Addr, Flag>

  predicate Exist(ls: Versions, a: Addr, version: nat) {
    a in ls && ls[a] == version
  }

  function FlagOf(fls: FlagTable, a: Addr): Flag {
    if a in fls then fls[a] else Flag(false, false)
  }

  function FirstFlag(fls: FlagTable, last: Versions, curr: Versions, a: Addr): Flag
    requires a in curr
  {
    Flag(FlagOf(fls, a).first || !Exist(last, a, curr[a]), false)
  }

  function LastFlag(fls: FlagTable, last: Versions, curr: Option<Versions>, a: Addr): Flag
    requires a in last
  {
    Flag(FlagOf(fls, a).first, FlagOf(fls, a).last || curr.None? || !Exist(curr.value, a, last[a]))
  }

  // The flag tables after the loops have visited the first n locks.
  function FirstFlagsUpTo(fls: FlagTable, last: Versions, curr: Versions, locks: seq<Addr>, n: nat): FlagTable
    requires n <= |locks| && forall k | 0 <= k < |locks| :: locks[k] in curr
  {
    if n == 0 then fls else
    var t := FirstFlagsUpTo(fls, last, curr, locks, n - 1);
    t[locks[n - 1] := FirstFlag(t, last, curr, locks[n - 1])]
  }

  function LastFlagsUpTo(fls: FlagTable, last: Versions, curr: Option<Versions>, locks: seq<Addr>, n: nat): FlagTable
    requires n <= |locks| && forall k | 0 <= k < |locks| :: locks[k] in last
  {
    if n == 0 then fls else
    var t := LastFlagsUpTo(fls, last, curr, locks, n - 1);
    t[locks[n - 1] := LastFlag(t, last, curr, locks[n - 1])]
  }

  function FirstFlags(fls: FlagTable, last: Versions, curr: Versions): FlagTable {
    FirstFlagsUpTo(fls, last, curr, Ascending(curr.Keys), |curr|)
  }

  function LastFlags(fls: FlagTable, last: Versions, curr: Option<Versions>): FlagTable {
    LastFlagsUpTo(fls, last, curr, Ascending(last.Keys), |last|)
  }

  lemma {:induction false} FirstFlagsEntry(
    fls: FlagTable, last: Versions, curr: Versions, locks: seq<Addr>, n: nat, a: Addr)
    requires n <= |locks| && forall k | 0 <= k < |locks| :: locks[k] in curr
    ensures var t := FirstFlagsUpTo(fls, last, curr, locks, n);
            && (a in t <==> a in fls || a in locks[..n])
            && (a in t ==> t[a] == if a in locks[..n] then FirstFlag(fls, last, curr, a) else fls[a])
  {
    if n > 0 {
      FirstFlagsEntry(fls, last, curr, locks, n - 1, a);
      assert locks[..n] == locks[..n - 1] + [locks[n - 1]];
    }
  }

  lemma {:induction false} LastFlagsEntry(
    fls: FlagTable, last: Versions, curr: Option<Versions>, locks: seq<Addr>, n: nat, a: Addr)
    requires n <= |locks| && forall k | 0 <= k < |locks| :: locks[k] in last
    ensures var t := LastFlagsUpTo(fls, last, curr, locks, n);
            && (a in t <==> a in fls || a in locks[..n])
            && (a in t ==> t[a] == if a in locks[..n] then LastFlag(fls, last, curr, a) else fls[a])
  {
    if n > 0 {
      LastFlagsEntry(fls, last, curr, locks, n - 1, a);
      assert locks[..n] == locks[..n - 1] + [locks[n - 1]];
    }
  }

  // Every lock of the current set gets its flag, the others keep theirs.
  lemma FirstFlagsAt(fls: FlagTable, last: Versions, curr: Versions, a: Addr)
    ensures var t := FirstFlags(fls, last, curr);
            && (a in t <==> a in fls || a in curr)
            && (a in t ==> t[a] == if a in curr then FirstFlag(fls, last, curr, a) else fls[a])
  {
    FirstFlagsEntry(fls, last, curr, Ascending(curr.Keys), |curr|, a);
    VisitsAll(curr.Keys, a);
  }

  lemma LastFlagsAt(fls: FlagTable, last: Versions, curr: Option<Versions>, a: Addr)
    ensures var t := LastFlags(fls, last, curr);
            && (a in t <==> a in fls || a in last)
            && (a in t ==> t[a] == if a in last then LastFlag(fls, last, curr, a) else fls[a])
  {
    LastFlagsEntry(fls, last, curr, Ascending(last.Keys), |last|, a);
    VisitsAll(last.Keys, a);
  }

  // The same locks with the same flags.
  method MatchFlags(fls1: FlagTable, fls2: FlagTable) returns (r: bool)
    ensures r <==> fls1 == fls2
  {
    if |fls1| != |fls2| {
      return false;
    }
    var mine := Ascending(fls1.Keys);
    for i := 0 to |mine|
      invariant forall k | 0 <= k < i :: mine[k] in fls2 && fls2[mine[k]] == fls1[mine[k]]
    {
      if mine[i] !in fls2 || fls2[mine[i]] != fls1[mine[i]] {
        return false;
      }
    }
    AscendingMembers(fls1.Keys);
    forall a | a in fls1 ensures a in fls2 && fls2[a] == fls1[a] {
      assert a in Members(mine);
    }
    assert fls1.Keys <= fls2.Keys;
    SubsetIsSmaller(fls1.Keys, fls2.Keys);
    return true;
  }

  // The last access of one thread to one location.
  class DynAcc {
    var seen: bool
    var ls: Versions
    var fls: FlagTable

    constructor ()
      ensures !seen && ls == map[] && fls == map[]
    {
      seen, ls, fls := false, map[], map[];
    }

    static method UpdateFirstFlag(fls: FlagTable, last: Versions, curr: Versions) returns (r: FlagTable)
      ensures r == FirstFlags(fls, last, curr)
    {
      r := fls;
      var locks := Ascending(curr.Keys);
      for i := 0 to |locks|
        invariant r == FirstFlagsUpTo(fls, last, curr, locks, i)
      {
        var a := locks[i];
        var flag := FlagOf(r, a);
        if !Exist(last, a, curr[a]) {
          flag := flag.(first := true);
        }
        r := r[a := flag.(last := false)];
      }
    }

    static method UpdateLastFlag(fls: FlagTable, last: Versions, curr: Option<Versions>) returns (r: FlagTable)
      ensures r == LastFlags(fls, last, curr)
    {
      r := fls;
      var locks := Ascending(last.Keys);
      for i := 0 to |locks|
        invariant r == LastFlagsUpTo(fls, last, curr, locks, i)
      {
        var a := locks[i];
        var flag := FlagOf(r, a);
        if curr.None? || !Exist(curr.value, a, last[a]) {
          flag := flag.(last := true);
        }
        r := r[a := flag];
      }
    }

    // A new access completes the flags of the previous one and opens its own.
    method Access(curr: Versions) returns (completed: Option<FlagTable>)
      modifies this
      ensures completed == if old(seen) then Some(LastFlags(old(fls), old(ls), Some(curr))) else None
      ensures seen && ls == curr && fls == FirstFlags(map[], old(ls), curr)
    {
      completed := None;
      if seen {
        var done := UpdateLastFlag(fls, ls, Some(curr));
        completed := Some(done);
      }
      seen := true;
      fls := UpdateFirstFlag(map[], ls, curr);
      ls := curr;
    }

    // Freeing the location completes the last access.
    method Freed() returns (completed: FlagTable)
      ensures completed == LastFlags(fls, ls, None)
    {
      completed := UpdateLastFlag(fls, ls, None);
    }
  }
}
