/** MultiLock exactly, on the events alone: which accesses are redundant, which entries stand, what it reports. */
module MultiLockEntries {
  import opened Clocks
  import opened Program
  import opened Protocol
  import opened Causality
  import opened ClockTheorem
  import opened Accesses
  import opened Epochs
  import opened Locksets
  import opened MultiLock
  import D = Djit

  // ---------- the events whose entries a cell keeps ----------

  // Events o and i are of one thread, in one epoch of it.
  ghost predicate OneEpoch(x: Run, o: nat, i: nat)
    requires o < |x.trace| && i < |x.trace|
  {
    x.trace[o].tid == x.trace[i].tid && SameEpoch(x, o, i)
  }

  // Event i adds nothing.  A write: a standing write of its epoch held no lock that it does not hold.  A
  // read, by the negated test: a standing access of its epoch held some lock that it does not hold.
  ghost predicate Redundant(x: Run, gate: bool, i: nat, a: Addr)
    requires i < |x.trace|
    decreases i, 1
  {
    exists o: nat | o < i ::
      && Standing(x, gate, o, i, a) && OneEpoch(x, o, i)
      && if x.trace[i].op.Write? then x.trace[o].op.Write? && Held(x.trace, o) <= Held(x.trace, i)
         else !(Held(x.trace, o) <= Held(x.trace, i))
  }

  // Event e replaces access o of its epoch, which held at least its locks; a read replaces only reads.
  ghost predicate Erases(x: Run, gate: bool, e: nat, o: nat, a: Addr)
    requires o < e < |x.trace|
    decreases e, 2
  {
    && Touches(x.trace[e], a) && Processed(gate, x.trace, e) && !Redundant(x, gate, e, a)
    && OneEpoch(x, o, e) && Held(x.trace, e) <= Held(x.trace, o)
    && (x.trace[o].op.Write? ==> x.trace[e].op.Write?)
  }

  // Access o to the cell was not redundant, and up to n it was neither replaced nor freed.
  ghost predicate Standing(x: Run, gate: bool, o: nat, n: nat, a: Addr)
    requires o < n <= |x.trace|
    decreases n, 0
  {
    && Touches(x.trace[o], a) && Processed(gate, x.trace, o) && !Redundant(x, gate, o, a)
    && NoFree(x.trace, o, n, a) && forall e | o < e < n :: !Erases(x, gate, e, o, a)
  }

  ghost function EntryAt(x: Run, o: nat): ELP
    requires o < |x.trace|
  {
    ELP(Epoch(x.trace[o].tid, Get(Stamp(x, o), x.trace[o].tid)), Held(x.trace, o))
  }

  // Access o of u, of kind k, stands as entry e.
  ghost predicate StandsAs(x: Run, gate: bool, o: nat, n: nat, a: Addr, u: Tid, k: Kind, e: ELP)
    requires o < n <= |x.trace|
  {
    Standing(x, gate, o, n, a) && x.trace[o].tid == u && KindOf(x.trace[o]) == k && e == EntryAt(x, o)
  }

  ghost predicate SomeStands(x: Run, gate: bool, n: nat, a: Addr, u: Tid, k: Kind, e: ELP)
    requires n <= |x.trace|
  {
    exists o: nat | o < n :: StandsAs(x, gate, o, n, a, u, k, e)
  }

  // ---------- one event ----------

  // Event n replaces entries like e.
  ghost predicate ErasesEntry(x: Run, gate: bool, n: nat, a: Addr, u: Tid, k: Kind, e: ELP)
    requires n < |x.trace|
  {
    && Touches(x.trace[n], a) && Processed(gate, x.trace, n) && !Redundant(x, gate, n, a)
    && x.trace[n].tid == u && e.epoch.clk == Get(Stamp(x, n), u) && Held(x.trace, n) <= e.locks
    && (k.RaceWrite? ==> x.trace[n].op.Write?)
  }

  ghost predicate StartsAs(x: Run, gate: bool, n: nat, a: Addr, u: Tid, k: Kind, e: ELP)
    requires n < |x.trace|
  {
    && Touches(x.trace[n], a) && Processed(gate, x.trace, n) && !Redundant(x, gate, n, a)
    && x.trace[n].tid == u && KindOf(x.trace[n]) == k && e == EntryAt(x, n)
  }

  lemma StandingNext(x: Run, gate: bool, o: nat, n: nat, a: Addr, u: Tid, k: Kind, e: ELP)
    requires o < n < |x.trace|
    ensures StandsAs(x, gate, o, n + 1, a, u, k, e) <==>
            StandsAs(x, gate, o, n, a, u, k, e) && !FreedAt(x.trace, n, a) && !ErasesEntry(x, gate, n, a, u, k, e)
  {
    assert NoFree(x.trace, o, n + 1, a) <==> NoFree(x.trace, o, n, a) && !FreedAt(x.trace, n, a);
    assert StandsAs(x, gate, o, n, a, u, k, e) ==>
        (Erases(x, gate, n, o, a) <==> ErasesEntry(x, gate, n, a, u, k, e));
  }

  lemma SomeStandsNext(x: Run, gate: bool, n: nat, a: Addr, u: Tid, k: Kind, e: ELP)
    requires n < |x.trace|
    ensures SomeStands(x, gate, n + 1, a, u, k, e) <==>
            || StartsAs(x, gate, n, a, u, k, e)
            || (SomeStands(x, gate, n, a, u, k, e) && !FreedAt(x.trace, n, a) && !ErasesEntry(x, gate, n, a, u, k, e))
  {
    if SomeStands(x, gate, n + 1, a, u, k, e) {
      var l := n + 1;
      var o: nat :| o < l && StandsAs(x, gate, o, l, a, u, k, e);
      if o < n {
        StandingNext(x, gate, o, n, a, u, k, e);
        assert SomeStands(x, gate, n, a, u, k, e);
      }
    }
    if o: nat :| o < n && StandsAs(x, gate, o, n, a, u, k, e) {
      StandingNext(x, gate, o, n, a, u, k, e);
    }
    if StartsAs(x, gate, n, a, u, k, e) {
      assert StandsAs(x, gate, n, n + 1, a, u, k, e);
    }
  }

  // What the handlers do to one entry, in terms of the events.
  lemma EntryNext(x: Run, gate: bool, n: nat, a: Addr, u: Tid, k: Kind, e: ELP)
    requires n < |x.trace|
    requires RedundantAt(x, gate, n, a) <==> Redundant(x, gate, n, a)
    requires e in Entries(HistoriesAt(x, gate, n, a), u, k) ==> e.epoch.tid == u && e.epoch.clk > 0
    ensures e in Entries(HistoriesAt(x, gate, n + 1, a), u, k) <==>
            || StartsAs(x, gate, n, a, u, k, e)
            || (e in Entries(HistoriesAt(x, gate, n, a), u, k)
                && !FreedAt(x.trace, n, a) && !ErasesEntry(x, gate, n, a, u, k, e))
  {
    HistoriesNext(x, gate, n, a);
  }

  // ---------- the entries are exact ----------

  // Entry e of kind k makes the access redundant.
  predicate Blocks(k: Kind, e: ELP, cur: Access, ls: Lockset) {
    && EqualTo(e.epoch, cur.clock)
    && if cur.kind.RaceWrite? then k.RaceWrite? && e.locks <= ls else !(e.locks <= ls)
  }

  lemma RedundantIsBlocked(h: Histories, cur: Access, ls: Lockset)
    ensures (if cur.kind.RaceRead? then RedundantRead(h, cur, ls) else RedundantWrite(h, cur, ls)) <==>
            exists k, e :: e in Entries(h, cur.t, k) && Blocks(k, e, cur, ls)
  {
    if k, e :| e in Entries(h, cur.t, k) && Blocks(k, e, cur, ls) {
      assert Stronger(e, cur.clock, ls) || NotContained(e, cur.clock, ls);
    }
    forall e | e in SetOf(h.writers, cur.t) ensures e in Entries(h, cur.t, RaceWrite) {
    }
    forall e | e in SetOf(h.readers, cur.t) ensures e in Entries(h, cur.t, RaceRead) {
    }
  }

  lemma StandingBlocks(x: Run, gate: bool, o: nat, i: nat, a: Addr)
    requires o < i < |x.trace| && Touches(x.trace[i], a) && Standing(x, gate, o, i, a)
    requires x.trace[o].tid == x.trace[i].tid
    ensures Blocks(KindOf(x.trace[o]), EntryAt(x, o), D.AccessAt(x, i), Held(x.trace, i)) <==>
            && OneEpoch(x, o, i)
            && if x.trace[i].op.Write? then x.trace[o].op.Write? && Held(x.trace, o) <= Held(x.trace, i)
               else !(Held(x.trace, o) <= Held(x.trace, i))
  {
    OwnStampPositive(x, o);
  }

  lemma RedundantFromEntries(x: Run, gate: bool, i: nat, a: Addr)
    requires i < |x.trace| && Touches(x.trace[i], a)
    requires forall k, e ::
               e in Entries(HistoriesAt(x, gate, i, a), x.trace[i].tid, k) <==>
                    SomeStands(x, gate, i, a, x.trace[i].tid, k, e)
    ensures RedundantAt(x, gate, i, a) <==> Redundant(x, gate, i, a)
  {
    var t, h, cur, ls := x.trace[i].tid, HistoriesAt(x, gate, i, a), D.AccessAt(x, i), Held(x.trace, i);
    RedundantIsBlocked(h, cur, ls);
    if k, e :| e in Entries(h, t, k) && Blocks(k, e, cur, ls) {
      assert SomeStands(x, gate, i, a, t, k, e);
      var o: nat :| o < i && StandsAs(x, gate, o, i, a, t, k, e);
      StandingBlocks(x, gate, o, i, a);
    }
    if Redundant(x, gate, i, a) {
      var o: nat :| o < i && Standing(x, gate, o, i, a) && OneEpoch(x, o, i)
                    && if x.trace[i].op.Write? then x.trace[o].op.Write? && Held(x.trace, o) <= Held(x.trace, i)
                    else !(Held(x.trace, o) <= Held(x.trace, i));
      StandingBlocks(x, gate, o, i, a);
      assert StandsAs(x, gate, o, i, a, t, KindOf(x.trace[o]), EntryAt(x, o));
      assert SomeStands(x, gate, i, a, t, KindOf(x.trace[o]), EntryAt(x, o));
    }
  }

  // The entries of a thread are exactly those of its standing accesses.
  lemma {:induction false} EntriesExact(x: Run, gate: bool, n: nat, a: Addr, u: Tid, k: Kind, e: ELP)
    requires n <= |x.trace|
    ensures e in Entries(HistoriesAt(x, gate, n, a), u, k) <==> SomeStands(x, gate, n, a, u, k, e)
    decreases n, 0
  {
    if n > 0 {
      var l := n - 1;
      EntriesExact(x, gate, l, a, u, k, e);
      if Touches(x.trace[l], a) {
        RedundantExact(x, gate, l, a);
      }
      if e in Entries(HistoriesAt(x, gate, l, a), u, k) {
        var o: nat :| o < l && StandsAs(x, gate, o, l, a, u, k, e);
        OwnStampPositive(x, o);
      }
      SomeStandsNext(x, gate, l, a, u, k, e);
      if Touches(x.trace[l], a) {
        EntryNext(x, gate, l, a, u, k, e);
      } else {
        HistoriesNext(x, gate, l, a);
      }
    }
  }

  // The redundancy tests skip exactly the accesses that are redundant on the events.
  lemma {:induction false} RedundantExact(x: Run, gate: bool, i: nat, a: Addr)
    requires i < |x.trace| && Touches(x.trace[i], a)
    ensures RedundantAt(x, gate, i, a) <==> Redundant(x, gate, i, a)
    decreases i, 1
  {
    forall k, e
      ensures e in Entries(HistoriesAt(x, gate, i, a), x.trace[i].tid, k) <==>
              SomeStands(x, gate, i, a, x.trace[i].tid, k, e)
    {
      EntriesExact(x, gate, i, a, x.trace[i].tid, k, e);
    }
    RedundantFromEntries(x, gate, i, a);
  }

  // ---------- what pruning leaves ----------

  // The later of two standing accesses of one kind and epoch did not replace the earlier one.
  lemma LaterDidNotErase(x: Run, gate: bool, o: nat, o': nat, n: nat, a: Addr)
    requires o < o' < n <= |x.trace| && Standing(x, gate, o, n, a) && Standing(x, gate, o', n, a)
    requires OneEpoch(x, o, o') && (x.trace[o].op.Write? ==> x.trace[o'].op.Write?)
    ensures !(Held(x.trace, o') <= Held(x.trace, o))
  {
    assert !Erases(x, gate, o', o, a);
  }

  // Nor was the later one redundant because of the earlier one.
  lemma EarlierDidNotBlock(x: Run, gate: bool, o: nat, o': nat, n: nat, a: Addr)
    requires o < o' < n <= |x.trace| && Standing(x, gate, o, n, a) && Standing(x, gate, o', n, a)
    requires OneEpoch(x, o, o')
    ensures if x.trace[o'].op.Write? then x.trace[o].op.Write? ==> !(Held(x.trace, o) <= Held(x.trace, o'))
            else Held(x.trace, o) <= Held(x.trace, o')
  {
    assert NoFree(x.trace, o, o', a);
    assert Standing(x, gate, o, o', a);
    assert !Redundant(x, gate, o', a);
  }

  // No two writer entries of one epoch have nested locksets.
  lemma WritersAreAntichain(x: Run, gate: bool, n: nat, a: Addr, u: Tid, e: ELP, e': ELP)
    requires n <= |x.trace| && e.epoch == e'.epoch && e.locks <= e'.locks
    requires e in Entries(HistoriesAt(x, gate, n, a), u, RaceWrite)
    requires e' in Entries(HistoriesAt(x, gate, n, a), u, RaceWrite)
    ensures e == e'
  {
    EntriesExact(x, gate, n, a, u, RaceWrite, e);
    EntriesExact(x, gate, n, a, u, RaceWrite, e');
    var o: nat :| o < n && StandsAs(x, gate, o, n, a, u, RaceWrite, e);
    var o': nat :| o' < n && StandsAs(x, gate, o', n, a, u, RaceWrite, e');
    if o < o' {
      EarlierDidNotBlock(x, gate, o, o', n, a);
    } else if o' < o {
      LaterDidNotErase(x, gate, o', o, n, a);
    }
  }

  // The negated test makes it the other way round for readers: of two reader entries of one epoch, the
  // later one holds all the locks of the earlier one, and more.
  lemma ReadersAreChain(x: Run, gate: bool, o: nat, o': nat, n: nat, a: Addr)
    requires o < o' < n <= |x.trace| && Standing(x, gate, o, n, a) && Standing(x, gate, o', n, a)
    requires x.trace[o].op.Read? && x.trace[o'].op.Read? && OneEpoch(x, o, o')
    ensures Held(x.trace, o) < Held(x.trace, o')
  {
    LaterDidNotErase(x, gate, o, o', n, a);
    EarlierDidNotBlock(x, gate, o, o', n, a);
  }

  // A write that is not redundant leaves no reader entry of its epoch that holds all its locks.
  lemma NoReaderAboveWrite(x: Run, gate: bool, o: nat, w: nat, n: nat, a: Addr)
    requires o < w < n <= |x.trace| && Standing(x, gate, o, n, a) && OneEpoch(x, o, w)
    requires x.trace[w].op.Write? && Touches(x.trace[w], a) && Processed(gate, x.trace, w)
    requires !Redundant(x, gate, w, a)
    ensures !(Held(x.trace, w) <= Held(x.trace, o))
  {
    assert !Erases(x, gate, w, o, a);
  }

  // ---------- every report ----------

  // Standing access o of u races with event j.
  ghost predicate StandingRace(x: Run, gate: bool, o: nat, j: nat, a: Addr, u: Tid, k: Kind)
    requires o < j < |x.trace|
  {
    && Standing(x, gate, o, j, a) && x.trace[o].tid == u && KindOf(x.trace[o]) == k && u != x.trace[j].tid
    && !HB(x.mode, x.trace, o, j) && Held(x.trace, o) !! Held(x.trace, j)
  }

  lemma HitPairSound(x: Run, gate: bool, j: nat, a: Addr, u: Tid, k: Kind)
    requires j < |x.trace| && Touches(x.trace[j], a)
    requires var h, cur, ls := HistoriesAt(x, gate, j, a), D.AccessAt(x, j), Held(x.trace, j);
             Pair(a, u, k, cur.t, cur.kind)
             in HitPairs(a, HistoryOf(h, k), k, cur, ls)
    ensures exists o: nat | o < j :: StandingRace(x, gate, o, j, a, u, k)
  {
    var h, cur, ls := HistoriesAt(x, gate, j, a), D.AccessAt(x, j), Held(x.trace, j);
    var m := HistoryOf(h, k);
    var v, e :| v in m && v != cur.t && e in m[v] && Hits(e, cur, ls) && e.epoch.tid == u;
    EntriesExact(x, gate, j, a, v, k, e);
    var o: nat :| o < j && StandsAs(x, gate, o, j, a, v, k, e);
    ClocksAreHappensBefore(x, o, j);
    assert StandingRace(x, gate, o, j, a, u, k);
  }

  lemma HitPairComplete(x: Run, gate: bool, o: nat, j: nat, a: Addr, u: Tid, k: Kind)
    requires o < j < |x.trace| && Touches(x.trace[j], a) && StandingRace(x, gate, o, j, a, u, k)
    ensures var h, cur, ls := HistoriesAt(x, gate, j, a), D.AccessAt(x, j), Held(x.trace, j);
            Pair(a, u, k, cur.t, cur.kind)
            in HitPairs(a, HistoryOf(h, k), k, cur, ls)
  {
    var h, cur, ls := HistoriesAt(x, gate, j, a), D.AccessAt(x, j), Held(x.trace, j);
    var m := HistoryOf(h, k);
    var e := EntryAt(x, o);
    assert StandsAs(x, gate, o, j, a, u, k, e);
    EntriesExact(x, gate, j, a, u, k, e);
    ClocksAreHappensBefore(x, o, j);
    assert u in m && e in m[u] && Hits(e, cur, ls);
    assert PairOf(a, e, k, cur) in HitPairs(a, m, k, cur, ls);
  }

  // At every processed access, thread u is reported for kind k exactly when the access is not redundant
  // and some standing access of u of that kind conflicts with it, is unordered with it and shares no lock.
  lemma PairsExact(x: Run, gate: bool, j: nat, a: Addr, u: Tid, k: Kind)
    requires j < |x.trace| && Touches(x.trace[j], a) && Processed(gate, x.trace, j)
    ensures Pair(a, u, k, x.trace[j].tid, KindOf(x.trace[j])) in PairsAt(x, gate, j) <==>
            && !Redundant(x, gate, j, a) && Conflict(k, KindOf(x.trace[j]))
            && exists o: nat | o < j :: StandingRace(x, gate, o, j, a, u, k)
  {
    RedundantExact(x, gate, j, a);
    PairKind(x, gate, j, a, u, k);
    if Pair(a, u, k, x.trace[j].tid, KindOf(x.trace[j])) in PairsAt(x, gate, j) {
      HitPairSound(x, gate, j, a, u, k);
    }
    if o: nat :| o < j && StandingRace(x, gate, o, j, a, u, k) {
      HitPairComplete(x, gate, o, j, a, u, k);
    }
  }

  function HistoryOf(h: Histories, k: Kind): ELSMap {
    if k.RaceWrite? then h.writers else h.readers
  }

  // A pair is found among the entries of its own kind.
  lemma PairKind(x: Run, gate: bool, j: nat, a: Addr, u: Tid, k: Kind)
    requires j < |x.trace| && Touches(x.trace[j], a) && Processed(gate, x.trace, j)
    ensures var h, cur, ls := HistoriesAt(x, gate, j, a), D.AccessAt(x, j), Held(x.trace, j);
            var r := Pair(a, u, k, cur.t, cur.kind);
            r in PairsAt(x, gate, j) <==>
                 !RedundantAt(x, gate, j, a) && Conflict(k, cur.kind) && r in HitPairs(a, HistoryOf(h, k), k, cur, ls)
  {
  }
}
