/** Which synchronisation objects a detector knows: exactly those used since they were last freed. */
module MetaTables {
  import opened Program
  import opened Protocol
  import opened Causality
  import opened Djit

  ghost function MutexUses(tr: Trace, m: Addr): iset<nat> {
    iset j: nat | j < |tr| && (tr[j].op == Lock(m) || tr[j].op == Unlock(m))
  }

  ghost function CondUses(tr: Trace, c: Addr): iset<nat> {
    iset j: nat | j < |tr| && (tr[j].op == Notify(c) || tr[j].op == PreWait(c) || tr[j].op == PostWait(c))
  }

  ghost function BarrierUses(tr: Trace, b: Addr): iset<nat> {
    iset j: nat | j < |tr| && (tr[j].op == Arrive(b) || tr[j].op == Depart(b))
  }

  // A mutex has a meta exactly when it was locked or unlocked since its memory was last freed.
  lemma {:induction false} MutexesKnown(x: Run, n: nat, m: Addr)
    requires n <= |x.trace|
    ensures m in x.syncs[n].mutexes <==> SinceFree(x.trace, MutexUses(x.trace, m), n, m)
  {
    if n == 0 {
      assert !SinceFree(x.trace, MutexUses(x.trace, m), 0, m);
    } else {
      MutexesKnown(x, n - 1, m);
      MutexNext(x, n - 1, m);
      SinceFreeNext(x.trace, MutexUses(x.trace, m), n - 1, m);
    }
  }

  lemma MutexNext(x: Run, n: nat, m: Addr)
    requires n < |x.trace|
    ensures m in x.syncs[n + 1].mutexes <==>
            n in MutexUses(x.trace, m) || (m in x.syncs[n].mutexes && !FreedAt(x.trace, n, m))
  {
    assert Taken(x, n);
  }

  // The same for condition variables and barriers.
  lemma {:induction false} CondsKnown(x: Run, n: nat, c: Addr)
    requires n <= |x.trace|
    ensures c in x.syncs[n].conds <==> SinceFree(x.trace, CondUses(x.trace, c), n, c)
  {
    if n == 0 {
      assert !SinceFree(x.trace, CondUses(x.trace, c), 0, c);
    } else {
      CondsKnown(x, n - 1, c);
      CondNext(x, n - 1, c);
      SinceFreeNext(x.trace, CondUses(x.trace, c), n - 1, c);
    }
  }

  lemma CondNext(x: Run, n: nat, c: Addr)
    requires n < |x.trace|
    ensures c in x.syncs[n + 1].conds <==>
            n in CondUses(x.trace, c) || (c in x.syncs[n].conds && !FreedAt(x.trace, n, c))
  {
    assert Taken(x, n);
  }

  lemma {:induction false} BarriersKnown(x: Run, n: nat, b: Addr)
    requires n <= |x.trace|
    ensures b in x.syncs[n].barriers <==> SinceFree(x.trace, BarrierUses(x.trace, b), n, b)
  {
    if n == 0 {
      assert !SinceFree(x.trace, BarrierUses(x.trace, b), 0, b);
    } else {
      BarriersKnown(x, n - 1, b);
      BarrierNext(x, n - 1, b);
      SinceFreeNext(x.trace, BarrierUses(x.trace, b), n - 1, b);
    }
  }

  lemma BarrierNext(x: Run, n: nat, b: Addr)
    requires n < |x.trace|
    ensures b in x.syncs[n + 1].barriers <==>
            n in BarrierUses(x.trace, b) || (b in x.syncs[n].barriers && !FreedAt(x.trace, n, b))
  {
    assert Taken(x, n);
  }
}
