/** Vector clocks: the mathematical order, and the loops over sorted maps that decide it. */
module Clocks {

  type Tid = nat

  // A vector clock maps thread ids to clock values; a missing thread stands for clock 0.
  type VC = map<Tid, nat>

  function Get(c: VC, t: Tid): nat {
    if t in c then c[t] else 0
  }

  function Inc(c: VC, t: Tid): VC {
    c[t := Get(c, t) + 1]
  }

  function Max(a: nat, b: nat): nat {
    if a > b then a else b
  }

  function Join(a: VC, b: VC): VC {
    map t | t in a.Keys + b.Keys :: Max(Get(a, t), Get(b, t))
  }

  // The order decided by the merge scan: every stored entry of a is matched by a stored entry of b.
  predicate Leq(a: VC, b: VC) {
    forall t | t in a :: t in b && a[t] <= b[t]
  }

  // The mathematical order on clocks as functions.
  ghost predicate Below(a: VC, b: VC) {
    forall t :: Get(a, t) <= Get(b, t)
  }

  ghost predicate Positive(a: VC) {
    forall t | t in a :: 0 < a[t]
  }

  lemma LeqIsPointwise(a: VC, b: VC)
    ensures Leq(a, b) ==> Below(a, b)
    ensures Positive(a) ==> (Leq(a, b) <==> Below(a, b))
  {
    if Positive(a) && Below(a, b) {
      forall t | t in a ensures t in b && a[t] <= b[t] {
        assert Get(a, t) <= Get(b, t);
      }
    }
  }

  lemma LeqIsPartialOrder(a: VC, b: VC, c: VC)
    ensures Leq(a, a)
    ensures Leq(a, b) && Leq(b, a) <==> a == b
    ensures Leq(a, b) && Leq(b, c) ==> Leq(a, c)
  {
    if Leq(a, b) && Leq(b, a) {
      assert a.Keys == b.Keys;
    }
  }

  lemma JoinIsLeastUpperBound(a: VC, b: VC, c: VC)
    ensures Leq(a, Join(a, b)) && Leq(b, Join(a, b))
    ensures Leq(Join(a, b), c) <==> Leq(a, c) && Leq(b, c)
  {
    if Leq(Join(a, b), c) {
      forall t | t in a ensures t in c && a[t] <= c[t] { assert t in Join(a, b); }
      forall t | t in b ensures t in c && b[t] <= c[t] { assert t in Join(a, b); }
    }
  }

  lemma JoinGet(a: VC, b: VC, t: Tid)
    ensures Get(Join(a, b), t) == Max(Get(a, t), Get(b, t))
  {
  }

  // ---------- ascending enumeration of a finite set (the iteration order of std::map) ----------

  function MinFrom(s: set<nat>, n: nat, ghost bound: nat): (m: nat)
    requires bound in s && n <= bound
    requires forall x | x in s :: n <= x
    ensures m in s && forall x | x in s :: m <= x
    decreases bound - n
  {
    if n in s then n else MinFrom(s, n + 1, bound)
  }

  function Min(s: set<nat>): (m: nat)
    requires s != {}
    ensures m in s && forall x | x in s :: m <= x
  {
    ghost var bound :| bound in s;
    MinFrom(s, 0, bound)
  }

  function Ascending(s: set<nat>): (q: seq<nat>)
    ensures |q| == |s|
    ensures forall i | 0 <= i < |q| :: q[i] in s
    ensures forall i, j | 0 <= i < j < |q| :: q[i] < q[j]
  {
    if s == {} then [] else
    var m := Min(s);
    [m] + Ascending(s - {m})
  }

  // Every member of s is visited: Rank is the position at which the scan reaches it.
  ghost function Rank(s: set<nat>, x: nat): (k: nat)
    requires x in s
    ensures k < |Ascending(s)| && Ascending(s)[k] == x
  {
    var m := Min(s);
    if x == m then 0 else 1 + Rank(s - {m}, x)
  }

  function Members(q: seq<nat>): set<nat> {
    set x | x in q
  }

  lemma AscendingMembers(s: set<nat>)
    ensures Members(Ascending(s)) == s
  {
    var q := Ascending(s);
    forall x | x in s ensures x in q {
      assert q[Rank(s, x)] == x;
    }
  }

  lemma VisitsAll(s: set<nat>, x: nat)
    ensures x in Ascending(s)[..|s|] <==> x in s
  {
    var q := Ascending(s);
    assert q[..|s|] == q;
    if x in s {
      assert q[Rank(s, x)] == x;
    }
  }

  lemma PrefixMembers(q: seq<nat>, n: nat)
    requires n < |q|
    ensures Members(q[..n + 1]) == Members(q[..n]) + {q[n]}
    ensures q[..|q|] == q
  {
    assert q[..n + 1] == q[..n] + [q[n]];
  }

  // ---------- folding Join over the clocks of a table, in table order ----------

  function JoinUpTo(base: VC, tab: map<Tid, VC>, keys: seq<Tid>, n: nat): VC
    requires n <= |keys| && forall k | 0 <= k < |keys| :: keys[k] in tab
  {
    if n == 0 then base else Join(JoinUpTo(base, tab, keys, n - 1), tab[keys[n - 1]])
  }

  function JoinAll(base: VC, tab: map<Tid, VC>): VC {
    var keys := Ascending(tab.Keys);
    JoinUpTo(base, tab, keys, |keys|)
  }

  lemma {:induction false} JoinUpToGet(base: VC, tab: map<Tid, VC>, keys: seq<Tid>, n: nat, u: Tid)
    requires n <= |keys| && forall k | 0 <= k < |keys| :: keys[k] in tab
    ensures var r := Get(JoinUpTo(base, tab, keys, n), u);
            && Get(base, u) <= r
            && (forall k | 0 <= k < n :: Get(tab[keys[k]], u) <= r)
            && (r == Get(base, u) || exists k | 0 <= k < n :: r == Get(tab[keys[k]], u))
  {
    if n > 0 {
      JoinUpToGet(base, tab, keys, n - 1, u);
      JoinGet(JoinUpTo(base, tab, keys, n - 1), tab[keys[n - 1]], u);
      var r' := Get(JoinUpTo(base, tab, keys, n - 1), u);
      var r := Get(JoinUpTo(base, tab, keys, n), u);
      if r != Get(tab[keys[n - 1]], u) && r' != Get(base, u) {
        var k :| 0 <= k < n - 1 && r' == Get(tab[keys[k]], u);
        assert r == Get(tab[keys[k]], u);
      }
    }
  }

  // Component u of the fold is the maximum of that component over the base and the table.
  lemma JoinAllGet(base: VC, tab: map<Tid, VC>, u: Tid)
    ensures Get(base, u) <= Get(JoinAll(base, tab), u)
    ensures forall t | t in tab :: Get(tab[t], u) <= Get(JoinAll(base, tab), u)
    ensures Get(JoinAll(base, tab), u) == Get(base, u)
            || exists t | t in tab :: Get(JoinAll(base, tab), u) == Get(tab[t], u)
  {
    var keys := Ascending(tab.Keys);
    JoinUpToGet(base, tab, keys, |keys|, u);
    forall t | t in tab ensures Get(tab[t], u) <= Get(JoinAll(base, tab), u) {
      assert keys[Rank(tab.Keys, t)] == t;
    }
    var r := Get(JoinAll(base, tab), u);
    if r != Get(base, u) {
      var k :| 0 <= k < |keys| && r == Get(tab[keys[k]], u);
      assert keys[k] in tab;
    }
  }

  // ---------- facts about ascending scans ----------

  // Once the scan stands past every entry below t, it stands at t or has missed nothing.
  lemma {:induction false} Passed(s: set<nat>, j: nat, t: nat)
    requires t in s && j <= |Ascending(s)|
    requires 0 < j ==> Ascending(s)[j - 1] < t
    ensures j < |Ascending(s)| && Ascending(s)[j] <= t
  {
    var k := Rank(s, t);
  }

  // One turn of the Join loop: raise one component, creating it when absent.
  function Raise(c: VC, t: Tid, clk: nat): VC {
    c[t := if t in c then Max(clk, c[t]) else clk]
  }

  // The clock after n turns of the Join loop over the given threads.
  ghost function Raised(a: VC, b: VC, keys: seq<Tid>, n: nat): VC
    requires n <= |keys| && forall k | 0 <= k < |keys| :: keys[k] in b
  {
    if n == 0 then a else Raise(Raised(a, b, keys, n - 1), keys[n - 1], b[keys[n - 1]])
  }

  lemma {:induction false} RaisedEntry(a: VC, b: VC, keys: seq<Tid>, n: nat, t: Tid)
    requires n <= |keys| && forall k | 0 <= k < |keys| :: keys[k] in b
    ensures var r := Raised(a, b, keys, n);
            && (t in r <==> t in a || t in keys[..n])
            && (t in r ==> r[t] == if t in keys[..n] then Max(Get(a, t), b[t]) else Get(a, t))
  {
    if n > 0 {
      RaisedEntry(a, b, keys, n - 1, t);
      assert keys[..n] == keys[..n - 1] + [keys[n - 1]];
    }
  }

  lemma {:induction false} RaisedGet(a: VC, b: VC, t: Tid)
    ensures var r := Raised(a, b, Ascending(b.Keys), |b|);
            (t in r <==> t in a || t in b) && (t in r ==> r[t] == Max(Get(a, t), Get(b, t)))
  {
    RaisedEntry(a, b, Ascending(b.Keys), |b|, t);
    VisitsAll(b.Keys, t);
  }

  lemma {:induction false} SameAsJoin(a: VC, b: VC, r: VC)
    requires forall t :: t in r <==> t in a || t in b
    requires forall t | t in r :: r[t] == Max(Get(a, t), Get(b, t))
    ensures r == Join(a, b)
  {
    assert r.Keys == a.Keys + b.Keys;
  }

  lemma {:induction false} RaisedIsJoin(a: VC, b: VC)
    ensures Raised(a, b, Ascending(b.Keys), |b|) == Join(a, b)
  {
    var r := Raised(a, b, Ascending(b.Keys), |b|);
    forall t ensures (t in r <==> t in a || t in b) && (t in r ==> r[t] == Max(Get(a, t), Get(b, t))) {
      RaisedGet(a, b, t);
    }
    SameAsJoin(a, b, r);
  }

  // ---------- the class with its two-iterator loops ----------

  class VectorClock {
    var clocks: VC

    constructor ()
      ensures clocks == map[]
    {
      clocks := map[];
    }

    method HappensBefore(vc: VectorClock) returns (r: bool)
      ensures r <==> Leq(clocks, vc.clocks)
    {
      var a, b := clocks, vc.clocks;
      var mine, theirs := Ascending(a.Keys), Ascending(b.Keys);
      var i, j := 0, 0;
      while i < |mine|
        invariant 0 <= i <= |mine| && 0 <= j <= |theirs|
        invariant forall k | 0 <= k < i :: mine[k] in b && a[mine[k]] <= b[mine[k]]
        invariant i < |mine| && 0 < j ==> theirs[j - 1] < mine[i]
      {
        var t := mine[i];
        var valid := false;
        while j < |theirs|
          invariant 0 <= j <= |theirs| && !valid
          invariant 0 < j ==> theirs[j - 1] < t
        {
          if theirs[j] == t {
            if b[theirs[j]] >= a[t] {
              valid := true;
              j := j + 1;
            }
            break;
          } else if theirs[j] > t {
            break;
          }
          j := j + 1;
        }
        if !valid {
          if t in b {
            Passed(b.Keys, j, t);
          }
          return false;
        }
        i := i + 1;
      }
      forall t | t in a ensures t in b && a[t] <= b[t] {
        assert mine[Rank(a.Keys, t)] == t;
      }
      return true;
    }

    method HappensAfter(vc: VectorClock) returns (r: bool)
      ensures r <==> Leq(vc.clocks, clocks)
    {
      var a, b := clocks, vc.clocks;
      var mine, theirs := Ascending(a.Keys), Ascending(b.Keys);
      var i, j := 0, 0;
      while j < |theirs|
        invariant 0 <= i <= |mine| && 0 <= j <= |theirs|
        invariant forall k | 0 <= k < j :: theirs[k] in a && b[theirs[k]] <= a[theirs[k]]
        invariant j < |theirs| && 0 < i ==> mine[i - 1] < theirs[j]
      {
        var t := theirs[j];
        var valid := false;
        while i < |mine|
          invariant 0 <= i <= |mine| && !valid
          invariant 0 < i ==> mine[i - 1] < t
        {
          if mine[i] == t {
            if a[mine[i]] >= b[t] {
              valid := true;
              i := i + 1;
            }
            break;
          } else if mine[i] > t {
            break;
          }
          i := i + 1;
        }
        if !valid {
          if t in a {
            Passed(a.Keys, i, t);
          }
          return false;
        }
        j := j + 1;
      }
      forall t | t in b ensures t in a && b[t] <= a[t] {
        assert theirs[Rank(b.Keys, t)] == t;
      }
      return true;
    }

    method Equal(vc: VectorClock) returns (r: bool)
      ensures r <==> clocks == vc.clocks
    {
      var a, b := clocks, vc.clocks;
      if |a.Keys| != |b.Keys| {
        return false;
      }
      var mine, theirs := Ascending(a.Keys), Ascending(b.Keys);
      var i := 0;
      while i < |mine| && i < |theirs|
        invariant 0 <= i <= |mine|
        invariant forall k | 0 <= k < i :: mine[k] == theirs[k] && a[mine[k]] == b[theirs[k]]
      {
        if mine[i] != theirs[i] || a[mine[i]] != b[theirs[i]] {
          assert a != b;
          return false;
        }
        i := i + 1;
      }
      assert mine == theirs;
      forall t | t in a ensures t in b && a[t] == b[t] {
        assert mine[Rank(a.Keys, t)] == t;
      }
      forall t | t in b ensures t in a {
        assert theirs[Rank(b.Keys, t)] == t;
      }
      return true;
    }

    method JoinWith(vc: VectorClock)
      modifies this
      ensures clocks == Join(old(clocks), old(vc.clocks))
    {
      ghost var a := clocks;
      var b := vc.clocks;
      var theirs := Ascending(b.Keys);
      var i := 0;
      while i < |theirs|
        invariant 0 <= i <= |theirs|
        invariant clocks == Raised(a, b, theirs, i)
      {
        var t := theirs[i];
        if t !in clocks {
          clocks := clocks[t := b[t]];
        } else {
          clocks := clocks[t := Max(b[t], clocks[t])];
        }
        i := i + 1;
      }
      RaisedIsJoin(a, b);
    }

    method Increment(t: Tid)
      modifies this
      ensures clocks == Inc(old(clocks), t)
    {
      if t !in clocks {
        clocks := clocks[t := 1];
      } else {
        clocks := clocks[t := clocks[t] + 1];
      }
    }

    method GetClock(t: Tid) returns (clk: nat)
      ensures clk == Get(clocks, t)
    {
      if t !in clocks {
        return 0;
      } else {
        return clocks[t];
      }
    }

    method SetClock(t: Tid, clk: nat)
      modifies this
      ensures clocks == old(clocks)[t := clk]
    {
      clocks := clocks[t := clk];
    }
  }
}
