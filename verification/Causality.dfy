/** Happens-before over the events of a run, stated on the trace alone. */
module Causality {
  import opened Clocks
  import opened Program

  // ---------- what the trace says about synchronisation objects before position n ----------

  // The last event of thread t, or -1.
  ghost function LastOf(tr: Trace, n: nat, t: Tid): (k: int)
    requires n <= |tr|
    ensures -1 <= k < n
    ensures k >= 0 ==> tr[k].tid == t
    ensures forall i | k < i < n :: tr[i].tid != t
  {
    if n == 0 then -1
    else if tr[n - 1].tid == t then n - 1
    else LastOf(tr, n - 1, t)
  }

  ghost predicate FreedAt(tr: Trace, k: nat, a: Addr)
    requires k < |tr|
  {
    tr[k].op.Free? && a in tr[k].op.region
  }

  ghost predicate NoFree(tr: Trace, i: nat, j: nat, a: Addr)
    requires j <= |tr|
  {
    forall k | i < k < j :: !FreedAt(tr, k, a)
  }

  // The pending PreWait of t on c, or -1.
  ghost function WaitAt(tr: Trace, n: nat, t: Tid, c: Addr): (k: int)
    requires n <= |tr|
    ensures -1 <= k < n && (k >= 0 ==> tr[k] == Event(t, PreWait(c)))
  {
    if n == 0 then -1
    else if tr[n - 1] == Event(t, PreWait(c)) then n - 1
    else if tr[n - 1] == Event(t, PostWait(c)) then -1
    else WaitAt(tr, n - 1, t, c)
  }

  // The last Notify on c since t started its pending wait there, or -1.
  ghost function NotifyAt(tr: Trace, n: nat, t: Tid, c: Addr): (k: int)
    requires n <= |tr|
    ensures -1 <= k < n && (k >= 0 ==> tr[k].op == Notify(c))
  {
    if n == 0 then -1
    else if tr[n - 1].op == Notify(c) && WaitAt(tr, n - 1, t, c) >= 0 then n - 1
    else if tr[n - 1] == Event(t, PostWait(c)) then -1
    else NotifyAt(tr, n - 1, t, c)
  }

  // How many rounds of barrier b thread t has left (since b was last freed).
  ghost function Rounds(tr: Trace, n: nat, t: Tid, b: Addr): nat
    requires n <= |tr|
  {
    if n == 0 then 0
    else if FreedAt(tr, n - 1, b) then 0
    else if tr[n - 1] == Event(t, Depart(b)) then Rounds(tr, n - 1, t, b) + 1
    else Rounds(tr, n - 1, t, b)
  }

  // The arrival of t at b for round r, or -1.
  ghost function ArrivalAt(tr: Trace, n: nat, t: Tid, b: Addr, r: nat): (k: int)
    requires n <= |tr|
    ensures -1 <= k < n && (k >= 0 ==> tr[k] == Event(t, Arrive(b)))
  {
    if n == 0 then -1
    else if FreedAt(tr, n - 1, b) then -1
    else if tr[n - 1] == Event(t, Arrive(b)) && Rounds(tr, n - 1, t, b) == r then n - 1
    else ArrivalAt(tr, n - 1, t, b, r)
  }

  // ---------- happens-before ----------

  // The generating edges: program order, fork, join, unlock to every later lock of the same
  // mutex, a pending wait to a notify, the last notify to the end of the wait, and every
  // arrival of a barrier round to every departure of that round.
  ghost predicate Edge(mode: Mode, tr: Trace, i: nat, j: nat)
    requires i < j < |tr|
  {
    var u, t := tr[i].tid, tr[j].tid;
    || u == t
    || match tr[j].op
       case Begin(parent) => parent == Some(u)
       case JoinThread(child) => child == u
       case Lock(m) => mode.FullHB? && tr[i].op == Unlock(m) && NoFree(tr, i, j, m)
       case Notify(c) => i == WaitAt(tr, j, u, c)
       case PostWait(c) => i == NotifyAt(tr, j, t, c)
       case Depart(b) => i == ArrivalAt(tr, j, u, b, Rounds(tr, j, t, b))
       case _ => false
  }

  ghost predicate HB(mode: Mode, tr: Trace, i: nat, j: nat)
    requires i < j < |tr|
    decreases j
  {
    || Edge(mode, tr, i, j)
    || exists p | i < p < j :: HB(mode, tr, i, p) && Edge(mode, tr, p, j)
  }

  lemma ProgramOrder(mode: Mode, tr: Trace, i: nat, j: nat)
    requires i < j < |tr|
    ensures tr[i].tid == tr[j].tid ==> HB(mode, tr, i, j)
  {
  }

  lemma {:induction false} HBTransitive(mode: Mode, tr: Trace, i: nat, p: nat, j: nat)
    requires i < p < j < |tr|
    requires HB(mode, tr, i, p) && HB(mode, tr, p, j)
    ensures HB(mode, tr, i, j)
    decreases j
  {
    if !Edge(mode, tr, p, j) {
      var q :| p < q < j && HB(mode, tr, p, q) && Edge(mode, tr, q, j);
      HBTransitive(mode, tr, i, p, q);
    }
  }

  // Dropping lock edges only removes orderings.
  lemma {:induction false} LocksOnlyAddOrder(mode: Mode, tr: Trace, i: nat, j: nat)
    requires i < j < |tr|
    ensures HB(mode, tr, i, j) ==> HB(FullHB, tr, i, j)
    decreases j
  {
    if HB(mode, tr, i, j) && !Edge(mode, tr, i, j) {
      var p :| i < p < j && HB(mode, tr, i, p) && Edge(mode, tr, p, j);
      LocksOnlyAddOrder(mode, tr, i, p);
      assert Edge(FullHB, tr, p, j);
    }
  }
}
