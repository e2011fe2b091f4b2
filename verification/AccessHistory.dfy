/** The access history of one location: recording completed accesses, and the dependencies predicted. */
module AccessHistory {
  import opened Clocks
  import opened Program
  import opened ClockHistories
  import opened FlaggedLocks
  import opened Summaries
  import opened ClockMerge

  // A completed access: its thread, what it was, its flags, the clock and the local time it was made in.
  datatype Recording = Recording(thread: Tid, kind: EventType, inst: Inst, fls: FlagTable, vc: VC, clk: nat)

  predicate Matches(s: Summary, r: Recording) {
    s.kind == r.kind && s.inst == r.inst && s.fls == r.fls
  }

  // ---------- one recording on values ----------

  function SumsOf(table: Table, t: Tid): seq<Summary> {
    if t in table then table[t] else []
  }

  // The first matching summary from position k on, or the number of summaries.
  function FirstMatch(sums: seq<Summary>, r: Recording, k: nat): (i: nat)
    requires k <= |sums|
    ensures k <= i <= |sums| && (i < |sums| ==> Matches(sums[i], r))
    ensures forall l | k <= l < i :: !Matches(sums[l], r)
    decreases |sums| - k
  {
    if k == |sums| || Matches(sums[k], r) then k else FirstMatch(sums, r, k + 1)
  }

  // The summary a recording goes to.
  function Target(table: Table, r: Recording): Ref {
    Ref(r.thread, FirstMatch(SumsOf(table, r.thread), r, 0))
  }

  predicate NonEmpty(table: Table) {
    forall t | t in table :: forall i | 0 <= i < |table[t]| :: table[t][i].tinfo != []
  }

  function Recorded(table: Table, r: Recording): Table
    requires NonEmpty(table)
  {
    var sums, i := SumsOf(table, r.thread), Target(table, r).index;
    if i == |sums|
    then table[r.thread := sums + [Summary(r.kind, r.inst, r.fls, [TimeInfo(r.vc, r.clk, r.clk)])]]
    else
      var s := sums[i];
      table[r.thread := sums[i := s.(tinfo := Extended(s.tinfo, r.vc, r.clk))]]
  }

  // The clock value is the last one of the summary: nothing is searched.
  predicate Hit(table: Table, r: Recording)
    requires NonEmpty(table)
  {
    var sums, i := SumsOf(table, r.thread), Target(table, r).index;
    i < |sums| && sums[i].tinfo[|sums[i].tinfo| - 1].vc == r.vc
  }

  // Some clock value of the summary is concurrent with vc.
  predicate Sees(s: Summary, vc: VC) {
    exists e | e in s.tinfo :: Concurrent(e.vc, vc)
  }

  predicate Passes(atomic: set<Inst>, src: Summary, dst: Summary) {
    Compatible(src, dst) && CheckAtomic(atomic, src, dst)
  }

  // The full search for summary cur in clock value vc finds dependency d.
  predicate Found(table: Table, atomic: set<Inst>, cur: Ref, vc: VC, d: Dependency) {
    && Stored(table, d.src) && Stored(table, d.dst) && d.src.thread != d.dst.thread
    && Passes(atomic, SumAt(table, d.src), SumAt(table, d.dst))
    && ((d.src == cur && Sees(SumAt(table, d.dst), vc)) || (d.dst == cur && Sees(SumAt(table, d.src), vc)))
  }

  // ---------- what the table says about the recordings ----------

  // The accesses of each thread were recorded in program order.
  ghost predicate InOrder(log: seq<Recording>) {
    forall i, j | 0 <= i < j < |log| && log[i].thread == log[j].thread ::
      Leq(log[i].vc, log[j].vc) && log[i].clk <= log[j].clk
  }

  // Entry e of summary s of thread t is the clock of a recording, and ends at its time.
  ghost predicate EntryFrom(log: seq<Recording>, t: Tid, s: Summary, e: TimeInfo) {
    exists l | 0 <= l < |log| :: log[l].thread == t && Matches(s, log[l]) && log[l].vc == e.vc && log[l].clk == e.end
  }

  ghost predicate SumFrom(log: seq<Recording>, t: Tid, s: Summary) {
    && s.tinfo != [] && Increasing(s.tinfo)
    && forall e | e in s.tinfo :: EntryFrom(log, t, s, e)
  }

  predicate Shows(s: Summary, vc: VC) {
    exists e | e in s.tinfo :: e.vc == vc
  }

  // The summary of recording r is ref, and shows its clock.
  predicate KeptIn(table: Table, r: Recording, ref: Ref) {
    Stored(table, ref) && ref.thread == r.thread && Matches(SumAt(table, ref), r) && Shows(SumAt(table, ref), r.vc)
  }

  ghost predicate IsKept(table: Table, r: Recording) {
    exists ref :: KeptIn(table, r, ref)
  }

  predicate SameKey(s: Summary, s': Summary) {
    s.kind == s'.kind && s.inst == s'.inst && s.fls == s'.fls
  }

  ghost predicate Distinct(sums: seq<Summary>) {
    forall i, j | 0 <= i < j < |sums| :: !SameKey(sums[i], sums[j])
  }

  // Every entry comes from the recordings, every recording is kept, and no two summaries are alike.
  ghost predicate Holds(log: seq<Recording>, table: Table) {
    && NonEmpty(table)
    && (forall ref | Stored(table, ref) :: SumFrom(log, ref.thread, SumAt(table, ref)))
    && (forall l | 0 <= l < |log| :: IsKept(table, log[l]))
    && (forall t | t in table :: Distinct(table[t]))
  }

  lemma EntryStays(log: seq<Recording>, r: Recording, t: Tid, s: Summary, e: TimeInfo)
    requires EntryFrom(log, t, s, e)
    ensures EntryFrom(log + [r], t, s, e)
  {
    var l :| 0 <= l < |log| && log[l].thread == t && Matches(s, log[l]) && log[l].vc == e.vc && log[l].clk == e.end;
    assert (log + [r])[l] == log[l];
  }

  lemma EntryStarts(log: seq<Recording>, r: Recording, s: Summary, e: TimeInfo)
    requires Matches(s, r) && e.vc == r.vc && e.end == r.clk
    ensures EntryFrom(log + [r], r.thread, s, e)
  {
    assert (log + [r])[|log|] == r;
  }

  lemma SumStays(log: seq<Recording>, r: Recording, t: Tid, s: Summary)
    requires SumFrom(log, t, s)
    ensures SumFrom(log + [r], t, s)
  {
    forall e | e in s.tinfo ensures EntryFrom(log + [r], t, s, e) {
      EntryStays(log, r, t, s, e);
    }
  }

  lemma EntryKey(log: seq<Recording>, t: Tid, s: Summary, s': Summary, e: TimeInfo)
    requires SameKey(s, s') && EntryFrom(log, t, s, e)
    ensures EntryFrom(log, t, s', e)
  {
  }

  // The last entry of a summary lies before any later recording of its thread.
  lemma EntryBefore(log: seq<Recording>, r: Recording, s: Summary, e: TimeInfo)
    requires InOrder(log + [r]) && EntryFrom(log, r.thread, s, e)
    ensures Leq(e.vc, r.vc) && e.end <= r.clk
  {
    var l :| 0 <= l < |log| && log[l].thread == r.thread && Matches(s, log[l]) && log[l].vc == e.vc
             && log[l].clk == e.end;
    assert (log + [r])[l] == log[l] && (log + [r])[|log|] == r;
  }

  lemma SumExtends(log: seq<Recording>, r: Recording, s: Summary)
    requires InOrder(log + [r]) && SumFrom(log, r.thread, s) && Matches(s, r)
    ensures SumFrom(log + [r], r.thread, s.(tinfo := Extended(s.tinfo, r.vc, r.clk)))
    ensures Shows(s.(tinfo := Extended(s.tinfo, r.vc, r.clk)), r.vc)
  {
    var h, h', last := s.tinfo, Extended(s.tinfo, r.vc, r.clk), |s.tinfo| - 1;
    var s' := s.(tinfo := h');
    EntryBefore(log, r, s, h[last]);
    ExtendedIncreasing(h, r.vc, r.clk);
    forall e | e in h' ensures EntryFrom(log + [r], r.thread, s', e) {
      if e in h {
        EntryStays(log, r, r.thread, s, e);
        EntryKey(log + [r], r.thread, s, s', e);
      } else {
        EntryStarts(log, r, s', e);
      }
    }
    assert h'[|h'| - 1].vc == r.vc;
  }

  // An extended history shows the same clocks and the new one.
  lemma ExtendedShows(s: Summary, vc: VC, clk: nat, c: VC)
    requires s.tinfo != []
    ensures Shows(s.(tinfo := Extended(s.tinfo, vc, clk)), c) <==> c == vc || Shows(s, c)
  {
    var h, h', last := s.tinfo, Extended(s.tinfo, vc, clk), |s.tinfo| - 1;
    if e :| e in h && e.vc == c {
      var k :| 0 <= k < |h| && h[k] == e;
      assert h'[k].vc == c;
    }
    assert h'[|h'| - 1].vc == vc;
  }

  // ---------- recording keeps the table ----------

  lemma TargetIs(table: Table, r: Recording)
    requires NonEmpty(table)
    ensures var table', ref := Recorded(table, r), Target(table, r);
            && Stored(table', ref) && Matches(SumAt(table', ref), r) && Shows(SumAt(table', ref), r.vc)
            && NonEmpty(table')
            && (forall q :: Stored(table', q) <==> Stored(table, q) || q == ref)
            && (forall q | Stored(table, q) && q != ref :: SumAt(table', q) == SumAt(table, q))
            && (Stored(table, ref) ==> SameKey(SumAt(table, ref), SumAt(table', ref)))
  {
    var table', ref := Recorded(table, r), Target(table, r);
    if Stored(table, ref) {
      ExtendedShows(SumAt(table, ref), r.vc, r.clk, r.vc);
    } else {
      assert SumAt(table', ref).tinfo[0].vc == r.vc;
    }
  }

  lemma RecordedFrom(log: seq<Recording>, table: Table, r: Recording, q: Ref)
    requires InOrder(log + [r]) && Holds(log, table) && Stored(Recorded(table, r), q)
    ensures SumFrom(log + [r], q.thread, SumAt(Recorded(table, r), q))
  {
    var ref := Target(table, r);
    TargetIs(table, r);
    if q != ref {
      SumStays(log, r, q.thread, SumAt(table, q));
    } else if Stored(table, ref) {
      SumExtends(log, r, SumAt(table, ref));
    } else {
      var s := SumAt(Recorded(table, r), ref);
      EntryStarts(log, r, s, s.tinfo[0]);
    }
  }

  lemma RecordedKeeps(log: seq<Recording>, table: Table, r: Recording, l: nat)
    requires Holds(log, table) && l < |log + [r]|
    ensures IsKept(Recorded(table, r), (log + [r])[l])
  {
    var table', ref := Recorded(table, r), Target(table, r);
    TargetIs(table, r);
    if l == |log| {
      assert KeptIn(table', (log + [r])[l], ref);
    } else {
      assert IsKept(table, log[l]);
      var q :| KeptIn(table, log[l], q);
      if q == ref {
        ExtendedShows(SumAt(table, ref), r.vc, r.clk, log[l].vc);
      }
      assert KeptIn(table', (log + [r])[l], q);
    }
  }

  lemma RecordedDistinct(log: seq<Recording>, table: Table, r: Recording, t: Tid)
    requires Holds(log, table) && t in Recorded(table, r)
    ensures Distinct(Recorded(table, r)[t])
  {
    var sums := SumsOf(table, t);
    assert Distinct(sums);
  }

  lemma RecordedHolds(log: seq<Recording>, table: Table, r: Recording)
    requires InOrder(log + [r]) && Holds(log, table)
    ensures Holds(log + [r], Recorded(table, r))
  {
    TargetIs(table, r);
    forall q | Stored(Recorded(table, r), q) ensures SumFrom(log + [r], q.thread, SumAt(Recorded(table, r), q)) {
      RecordedFrom(log, table, r, q);
    }
    forall l | 0 <= l < |log + [r]| ensures IsKept(Recorded(table, r), (log + [r])[l]) {
      RecordedKeeps(log, table, r, l);
    }
    forall t | t in Recorded(table, r) ensures Distinct(Recorded(table, r)[t]) {
      RecordedDistinct(log, table, r, t);
    }
  }

  // ---------- the local times of an entry ----------

  // Recording l belongs to summary s of thread t in clock value vc.
  ghost predicate Belongs(log: seq<Recording>, l: nat, t: Tid, s: Summary, vc: VC) {
    l < |log| && log[l].thread == t && Matches(s, log[l]) && log[l].vc == vc
  }

  // Entry e runs from the first to the last local time of its recordings.
  ghost predicate Spans(log: seq<Recording>, t: Tid, s: Summary, e: TimeInfo) {
    && (exists l: nat :: Belongs(log, l, t, s, e.vc) && log[l].clk == e.start)
    && (exists l: nat :: Belongs(log, l, t, s, e.vc) && log[l].clk == e.end)
    && (forall l: nat | Belongs(log, l, t, s, e.vc) :: e.start <= log[l].clk <= e.end)
  }

  ghost predicate SpansRight(log: seq<Recording>, t: Tid, s: Summary) {
    forall k | 0 <= k < |s.tinfo| :: Spans(log, t, s, s.tinfo[k])
  }

  ghost predicate AllSpans(log: seq<Recording>, table: Table) {
    forall ref | Stored(table, ref) :: SpansRight(log, ref.thread, SumAt(table, ref))
  }

  lemma BelongsNext(log: seq<Recording>, r: Recording, l: nat, t: Tid, s: Summary, vc: VC)
    ensures Belongs(log + [r], l, t, s, vc) <==>
            Belongs(log, l, t, s, vc) || (l == |log| && r.thread == t && Matches(s, r) && r.vc == vc)
  {
  }

  // A recording elsewhere does not change the span.
  lemma SpanStays(log: seq<Recording>, r: Recording, t: Tid, s: Summary, s': Summary, e: TimeInfo)
    requires Spans(log, t, s, e) && SameKey(s, s') && !(r.thread == t && Matches(s, r) && r.vc == e.vc)
    ensures Spans(log + [r], t, s', e)
  {
    forall l: nat ensures Belongs(log + [r], l, t, s', e.vc) <==> Belongs(log, l, t, s, e.vc) {
    }
    var first: nat :| Belongs(log, first, t, s, e.vc) && log[first].clk == e.start;
    var last: nat :| Belongs(log, last, t, s, e.vc) && log[last].clk == e.end;
    assert Belongs(log + [r], first, t, s', e.vc) && (log + [r])[first].clk == e.start;
    assert Belongs(log + [r], last, t, s', e.vc) && (log + [r])[last].clk == e.end;
  }

  // A recording in the same clock value extends it.
  lemma SpanExtends(log: seq<Recording>, r: Recording, s: Summary, s': Summary, e: TimeInfo)
    requires Spans(log, r.thread, s, e) && SameKey(s, s') && Matches(s, r) && r.vc == e.vc
    requires e.start <= e.end <= r.clk
    ensures Spans(log + [r], r.thread, s', e.(end := r.clk))
  {
    var first: nat :| Belongs(log, first, r.thread, s, e.vc) && log[first].clk == e.start;
    assert Belongs(log + [r], first, r.thread, s', e.vc) && (log + [r])[first].clk == e.start;
    assert Belongs(log + [r], |log|, r.thread, s', e.vc) && (log + [r])[|log|].clk == r.clk;
    forall l: nat | Belongs(log + [r], l, r.thread, s', e.vc) ensures e.start <= (log + [r])[l].clk <= r.clk {
      assert l < |log| ==> Belongs(log, l, r.thread, s, e.vc);
    }
  }

  // The first recording in a clock value starts it.
  lemma SpanStarts(log: seq<Recording>, r: Recording, s: Summary)
    requires Matches(s, r) && forall l: nat :: !Belongs(log, l, r.thread, s, r.vc)
    ensures Spans(log + [r], r.thread, s, TimeInfo(r.vc, r.clk, r.clk))
  {
    assert Belongs(log + [r], |log|, r.thread, s, r.vc) && (log + [r])[|log|].clk == r.clk;
    forall l: nat | Belongs(log + [r], l, r.thread, s, r.vc) ensures (log + [r])[l].clk == r.clk {
      assert l < |log| ==> Belongs(log, l, r.thread, s, r.vc);
    }
  }

  // Whatever was recorded for a summary is shown by it.
  lemma BelongingIsShown(log: seq<Recording>, table: Table, ref: Ref, l: nat, vc: VC)
    requires Holds(log, table) && Stored(table, ref) && Belongs(log, l, ref.thread, SumAt(table, ref), vc)
    ensures Shows(SumAt(table, ref), vc)
  {
    assert IsKept(table, log[l]);
    var q :| KeptIn(table, log[l], q);
    OneSummary(table[ref.thread], ref.index, q.index);
  }

  // If anything was recorded with the same kind, instruction and flags, the summary exists.
  lemma BelongingHasTarget(log: seq<Recording>, table: Table, r: Recording, s: Summary, l: nat, vc: VC)
    requires Holds(log, table) && Matches(s, r) && Belongs(log, l, r.thread, s, vc)
    ensures Stored(table, Target(table, r))
  {
    assert IsKept(table, log[l]);
    var q :| KeptIn(table, log[l], q);
    assert Matches(SumsOf(table, r.thread)[q.index], r);
  }

  // One entry of the recording's own summary.
  lemma ExtendedSpan(log: seq<Recording>, r: Recording, s: Summary, k: nat)
    requires InOrder(log + [r]) && SumFrom(log, r.thread, s) && SpansRight(log, r.thread, s) && Matches(s, r)
    requires forall l: nat :: Belongs(log, l, r.thread, s, r.vc) ==> Shows(s, r.vc)
    requires k < |Extended(s.tinfo, r.vc, r.clk)|
    ensures var h := Extended(s.tinfo, r.vc, r.clk); Spans(log + [r], r.thread, s.(tinfo := h), h[k])
  {
    var h, last := s.tinfo, |s.tinfo| - 1;
    var s' := s.(tinfo := Extended(h, r.vc, r.clk));
    EntryBefore(log, r, s, h[last]);
    ExtendedIncreasing(h, r.vc, r.clk);
    if k == |h| {
      forall l: nat ensures !Belongs(log, l, r.thread, s', r.vc) {
        assert Belongs(log, l, r.thread, s', r.vc) <==> Belongs(log, l, r.thread, s, r.vc);
      }
      SpanStarts(log, r, s');
    } else if k == last && h[last].vc == r.vc {
      assert Spans(log, r.thread, s, h[last]);
      SpanExtends(log, r, s, s', h[last]);
    } else {
      assert Spans(log, r.thread, s, h[k]);
      OtherClock(h, k, r.vc, r.clk);
      SpanStays(log, r, r.thread, s, s', h[k]);
    }
  }

  lemma ExtendedSpans(log: seq<Recording>, r: Recording, s: Summary)
    requires InOrder(log + [r]) && SumFrom(log, r.thread, s) && SpansRight(log, r.thread, s) && Matches(s, r)
    requires forall l: nat :: Belongs(log, l, r.thread, s, r.vc) ==> Shows(s, r.vc)
    ensures SpansRight(log + [r], r.thread, s.(tinfo := Extended(s.tinfo, r.vc, r.clk)))
  {
    var h := Extended(s.tinfo, r.vc, r.clk);
    forall k | 0 <= k < |h| ensures Spans(log + [r], r.thread, s.(tinfo := h), h[k]) {
      ExtendedSpan(log, r, s, k);
    }
  }

  lemma AboutTarget(log: seq<Recording>, table: Table, r: Recording)
    requires Holds(log, table) && AllSpans(log, table) && Stored(table, Target(table, r))
    ensures var s := SumAt(table, Target(table, r));
            && SumFrom(log, r.thread, s) && SpansRight(log, r.thread, s) && Matches(s, r)
            && forall l: nat :: Belongs(log, l, r.thread, s, r.vc) ==> Shows(s, r.vc)
  {
    var ref := Target(table, r);
    var s := SumAt(table, ref);
    forall l: nat | Belongs(log, l, r.thread, s, r.vc) ensures Shows(s, r.vc) {
      BelongingIsShown(log, table, ref, l, r.vc);
    }
  }

  lemma TargetIsExtended(table: Table, r: Recording)
    requires NonEmpty(table) && Stored(table, Target(table, r))
    ensures var ref := Target(table, r);
            && Stored(Recorded(table, r), ref)
            && SumAt(Recorded(table, r), ref) ==
               SumAt(table, ref).(tinfo := Extended(SumAt(table, ref).tinfo, r.vc, r.clk))
  {
  }

  lemma TargetSpans(log: seq<Recording>, table: Table, r: Recording)
    requires InOrder(log + [r]) && Holds(log, table) && AllSpans(log, table) && Stored(table, Target(table, r))
    ensures var ref := Target(table, r);
            Stored(Recorded(table, r), ref) && SpansRight(log + [r], r.thread, SumAt(Recorded(table, r), ref))
  {
    AboutTarget(log, table, r);
    ExtendedSpans(log, r, SumAt(table, Target(table, r)));
    TargetIsExtended(table, r);
  }

  // Entries that are not extended are of other clock values.
  lemma OtherClock(h: seq<TimeInfo>, k: nat, vc: VC, clk: nat)
    requires Increasing(h) && k < |h| && Leq(h[|h| - 1].vc, vc)
    requires !(k == |h| - 1 && h[|h| - 1].vc == vc)
    ensures h[k].vc != vc
  {
    if k < |h| - 1 && h[k].vc == vc {
      LeqIsPartialOrder(h[k].vc, h[|h| - 1].vc, vc);
    }
  }

  lemma NewSpans(log: seq<Recording>, table: Table, r: Recording, s: Summary)
    requires Holds(log, table) && !Stored(table, Target(table, r)) && Matches(s, r)
    requires s.tinfo == [TimeInfo(r.vc, r.clk, r.clk)]
    ensures SpansRight(log + [r], r.thread, s)
  {
    forall l: nat ensures !Belongs(log, l, r.thread, s, r.vc) {
      if Belongs(log, l, r.thread, s, r.vc) {
        BelongingHasTarget(log, table, r, s, l, r.vc);
      }
    }
    SpanStarts(log, r, s);
  }

  lemma NewSummary(table: Table, r: Recording)
    requires NonEmpty(table) && !Stored(table, Target(table, r))
    ensures var ref := Target(table, r);
            && Stored(Recorded(table, r), ref)
            && SumAt(Recorded(table, r), ref) == Summary(r.kind, r.inst, r.fls, [TimeInfo(r.vc, r.clk, r.clk)])
  {
  }

  lemma SpansOf(log: seq<Recording>, table: Table, r: Recording, q: Ref)
    requires InOrder(log + [r]) && Holds(log, table) && AllSpans(log, table) && Stored(Recorded(table, r), q)
    ensures SpansRight(log + [r], q.thread, SumAt(Recorded(table, r), q))
  {
    if q != Target(table, r) {
      TargetIs(table, r);
      OtherSpans(log, table, r, q);
    } else if Stored(table, q) {
      TargetSpans(log, table, r);
    } else {
      NewSummary(table, r);
      NewSpans(log, table, r, SumAt(Recorded(table, r), q));
    }
  }

  // Every entry runs exactly from the first to the last local time of the recordings it stands for.
  lemma RecordedSpans(log: seq<Recording>, table: Table, r: Recording)
    requires InOrder(log + [r]) && Holds(log, table) && AllSpans(log, table)
    ensures AllSpans(log + [r], Recorded(table, r))
  {
    var log', table' := log + [r], Recorded(table, r);
    forall q | Stored(table', q) ensures SpansRight(log', q.thread, SumAt(table', q)) {
      SpansOf(log, table, r, q);
    }
  }

  lemma OtherSpans(log: seq<Recording>, table: Table, r: Recording, q: Ref)
    requires Holds(log, table) && AllSpans(log, table) && Stored(table, q) && q != Target(table, r)
    ensures SpansRight(log + [r], q.thread, SumAt(table, q))
  {
    var s, ref := SumAt(table, q), Target(table, r);
    if q.thread == r.thread && Matches(s, r) {
      assert ref.index < |table[q.thread]|;
      OneSummary(table[q.thread], q.index, ref.index);
    }
    assert SpansRight(log, q.thread, s);
    forall k | 0 <= k < |s.tinfo| ensures Spans(log + [r], q.thread, s, s.tinfo[k]) {
      SpanStays(log, r, q.thread, s, s, s.tinfo[k]);
    }
  }

  // ---------- the dependencies are exact ----------

  ghost predicate ConcurrentSums(s: Summary, s': Summary) {
    exists c, c' | Shows(s, c) && Shows(s', c') :: Concurrent(c, c')
  }

  // Two summaries of different threads that pass the tests and have two concurrent clock values.
  ghost predicate IsPair(table: Table, atomic: set<Inst>, d: Dependency) {
    && Stored(table, d.src) && Stored(table, d.dst) && d.src.thread != d.dst.thread
    && Passes(atomic, SumAt(table, d.src), SumAt(table, d.dst))
    && ConcurrentSums(SumAt(table, d.src), SumAt(table, d.dst))
  }

  lemma SeesIs(s: Summary, vc: VC)
    ensures Sees(s, vc) <==> exists c :: Shows(s, c) && Concurrent(c, vc)
  {
    if c :| Shows(s, c) && Concurrent(c, vc) {
      var e :| e in s.tinfo && e.vc == c;
    }
    if e :| e in s.tinfo && Concurrent(e.vc, vc) {
      assert Shows(s, e.vc);
    }
  }

  // A pair of a summary that shows clock c with one that sees c.
  lemma SeenPair(s: Summary, other: Summary, c: VC)
    requires Shows(s, c) && Sees(other, c)
    ensures ConcurrentSums(s, other) && ConcurrentSums(other, s)
  {
    SeesIs(other, c);
    var c' :| Shows(other, c') && Concurrent(c', c);
    assert Shows(s, c) && Shows(other, c') && Concurrent(c, c');
  }

  lemma MorePairs(s: Summary, s': Summary, other: Summary)
    requires forall c :: Shows(s, c) ==> Shows(s', c)
    ensures ConcurrentSums(s, other) ==> ConcurrentSums(s', other)
    ensures ConcurrentSums(other, s) ==> ConcurrentSums(other, s')
  {
  }

  // A pair of the grown summary is an old one or sees the new clock.
  lemma PairIsOldOrSeen(s: Summary, s': Summary, other: Summary, vc: VC)
    requires forall c :: Shows(s', c) ==> c == vc || Shows(s, c)
    ensures ConcurrentSums(s', other) ==> ConcurrentSums(s, other) || Sees(other, vc)
    ensures ConcurrentSums(other, s') ==> ConcurrentSums(other, s) || Sees(other, vc)
  {
    if c, c' :| Shows(s', c) && Shows(other, c') && Concurrent(c, c') {
      if c == vc {
        SeesIs(other, vc);
      }
    }
    if c', c :| Shows(other, c') && Shows(s', c) && Concurrent(c', c) {
      if c == vc {
        SeesIs(other, vc);
      }
    }
  }

  // A summary that gains clock vc gains the pairs that see vc.
  lemma PairsGrow(s: Summary, s': Summary, other: Summary, vc: VC)
    requires forall c :: Shows(s', c) <==> c == vc || Shows(s, c)
    ensures ConcurrentSums(s', other) <==> ConcurrentSums(s, other) || Sees(other, vc)
    ensures ConcurrentSums(other, s') <==> ConcurrentSums(other, s) || Sees(other, vc)
  {
    MorePairs(s, s', other);
    PairIsOldOrSeen(s, s', other, vc);
    if Sees(other, vc) {
      SeenPair(s', other, vc);
    }
  }

  // A new summary has the pairs that see its clock.
  lemma PairsStart(s: Summary, other: Summary, vc: VC)
    requires forall c :: Shows(s, c) <==> c == vc
    ensures ConcurrentSums(s, other) <==> Sees(other, vc)
    ensures ConcurrentSums(other, s) <==> Sees(other, vc)
  {
    if Sees(other, vc) {
      SeenPair(s, other, vc);
    }
    SeesIs(other, vc);
  }

  // How a recording changes the clocks of its summary.
  lemma TargetShows(table: Table, r: Recording, c: VC)
    requires NonEmpty(table)
    ensures var table', ref := Recorded(table, r), Target(table, r);
            Stored(table', ref) && (Shows(SumAt(table', ref), c) <==>
                                    c == r.vc || (Stored(table, ref) && Shows(SumAt(table, ref), c)))
  {
    var table', ref := Recorded(table, r), Target(table, r);
    TargetIs(table, r);
    if Stored(table, ref) {
      ExtendedShows(SumAt(table, ref), r.vc, r.clk, c);
    } else {
      assert SumAt(table', ref).tinfo == [TimeInfo(r.vc, r.clk, r.clk)];
    }
  }

  // Between the summary of the recording and another one: the pairs that see the new clock are added.
  lemma TargetPairs(table: Table, r: Recording, other: Summary)
    requires NonEmpty(table)
    ensures var table', ref := Recorded(table, r), Target(table, r);
            && Stored(table', ref)
            && (ConcurrentSums(SumAt(table', ref), other) <==>
                Sees(other, r.vc) || (Stored(table, ref) && ConcurrentSums(SumAt(table, ref), other)))
            && (ConcurrentSums(other, SumAt(table', ref)) <==>
                Sees(other, r.vc) || (Stored(table, ref) && ConcurrentSums(other, SumAt(table, ref))))
  {
    var table', ref := Recorded(table, r), Target(table, r);
    TargetShows(table, r, r.vc);
    forall c ensures Shows(SumAt(table', ref), c) <==>
                     c == r.vc || (Stored(table, ref) && Shows(SumAt(table, ref), c))
    {
      TargetShows(table, r, c);
    }
    if Stored(table, ref) {
      PairsGrow(SumAt(table, ref), SumAt(table', ref), other, r.vc);
    } else {
      PairsStart(SumAt(table', ref), other, r.vc);
    }
  }

  // A clock value that the summary already shows brings no new pairs.
  lemma HitPairs(table: Table, r: Recording, other: Summary)
    requires NonEmpty(table) && Hit(table, r) && Sees(other, r.vc)
    ensures Stored(table, Target(table, r))
    ensures ConcurrentSums(SumAt(table, Target(table, r)), other)
    ensures ConcurrentSums(other, SumAt(table, Target(table, r)))
  {
    var s := SumAt(table, Target(table, r));
    assert Shows(s, r.vc);
    SeesIs(other, r.vc);
  }

  // The recording adds exactly the dependencies that its full search finds, and none when it is a hit.
  lemma PairsNext(table: Table, atomic: set<Inst>, r: Recording, d: Dependency)
    requires NonEmpty(table)
    ensures var table', ref := Recorded(table, r), Target(table, r);
            && (IsPair(table', atomic, d) <==> IsPair(table, atomic, d) || Found(table', atomic, ref, r.vc, d))
            && (Hit(table, r) ==> (IsPair(table', atomic, d) <==> IsPair(table, atomic, d)))
  {
    var table', ref := Recorded(table, r), Target(table, r);
    TargetIs(table, r);
    if Stored(table', d.src) && Stored(table', d.dst) && d.src.thread != d.dst.thread {
      if d.src == ref || d.dst == ref {
        var other := SumAt(table', if d.src == ref then d.dst else d.src);
        TargetPairs(table, r, other);
        if Hit(table, r) && Sees(other, r.vc) {
          HitPairs(table, r, other);
        }
      }
    }
  }

  // Recording k is of the same thread, kind, instruction and flags as recording i.
  ghost predicate SameAccess(log: seq<Recording>, k: nat, i: nat)
    requires i < |log|
  {
    && k < |log| && log[k].thread == log[i].thread
    && log[k].kind == log[i].kind && log[k].inst == log[i].inst && log[k].fls == log[i].fls
  }

  // Somewhere in the log the accesses of recordings i and j were made in concurrent clock values.
  ghost predicate ConcurrentAccesses(log: seq<Recording>, i: nat, j: nat)
    requires i < |log| && j < |log|
  {
    exists k: nat, l: nat :: SameAccess(log, k, i) && SameAccess(log, l, j) && Concurrent(log[k].vc, log[l].vc)
  }

  lemma ShownIsRecorded(log: seq<Recording>, table: Table, p: Ref, i: nat, c: VC) returns (k: nat)
    requires Holds(log, table) && i < |log| && KeptIn(table, log[i], p) && Shows(SumAt(table, p), c)
    ensures SameAccess(log, k, i) && log[k].vc == c
  {
    var s := SumAt(table, p);
    var e :| e in s.tinfo && e.vc == c;
    assert SumFrom(log, p.thread, s);
    assert EntryFrom(log, p.thread, s, e);
    k :| 0 <= k < |log| && log[k].thread == p.thread && Matches(s, log[k]) && log[k].vc == e.vc && log[k].clk == e.end;
  }

  lemma OneSummary(sums: seq<Summary>, i: nat, j: nat)
    requires Distinct(sums) && i < |sums| && j < |sums| && SameKey(sums[i], sums[j])
    ensures i == j
  {
  }

  lemma RecordedIsShown(log: seq<Recording>, table: Table, p: Ref, i: nat, k: nat)
    requires Holds(log, table) && i < |log| && KeptIn(table, log[i], p) && SameAccess(log, k, i)
    ensures Shows(SumAt(table, p), log[k].vc)
  {
    assert IsKept(table, log[k]);
    var ref :| KeptIn(table, log[k], ref);
    OneSummary(table[p.thread], p.index, ref.index);
  }

  // Two summaries have concurrent clocks exactly when accesses recorded in them were concurrent.
  lemma ConcurrentSumsAreAccesses(log: seq<Recording>, table: Table, p: Ref, q: Ref, i: nat, j: nat)
    requires Holds(log, table) && i < |log| && j < |log| && KeptIn(table, log[i], p) && KeptIn(table, log[j], q)
    ensures ConcurrentSums(SumAt(table, p), SumAt(table, q)) <==> ConcurrentAccesses(log, i, j)
  {
    if c, c' :| Shows(SumAt(table, p), c) && Shows(SumAt(table, q), c') && Concurrent(c, c') {
      var k := ShownIsRecorded(log, table, p, i, c);
      var l := ShownIsRecorded(log, table, q, j, c');
    }
    if k: nat, l: nat :| SameAccess(log, k, i) && SameAccess(log, l, j) && Concurrent(log[k].vc, log[l].vc) {
      RecordedIsShown(log, table, p, i, k);
      RecordedIsShown(log, table, q, j, l);
    }
  }

  predicate IsMemory(k: EventType) {
    k.MemRead? || k.MemWrite?
  }

  // What two accesses have to pass.  Two memory accesses conflict if one of them writes; of the mutex
  // operations only an unlock leads to a lock.  In every common lock the first access is the last of its
  // section and the second the first.  An atomic instruction's read has no outgoing dependency and its
  // write no incoming one.
  predicate AccessesPass(atomic: set<Inst>, src: Recording, dst: Recording) {
    && (|| (IsMemory(src.kind) && IsMemory(dst.kind) && (src.kind.MemWrite? || dst.kind.MemWrite?))
        || (src.kind.MutexUnlock? && dst.kind.MutexLock?))
    && (forall m | m in src.fls && m in dst.fls :: src.fls[m].last && dst.fls[m].first)
    && !(src.inst in atomic && src.kind.MemRead?) && !(dst.inst in atomic && dst.kind.MemWrite?)
  }

  lemma PairOfKept(table: Table, atomic: set<Inst>, p: Ref, q: Ref, src: Recording, dst: Recording)
    requires KeptIn(table, src, p) && KeptIn(table, dst, q)
    ensures IsPair(table, atomic, Dependency(p, q)) <==>
            && src.thread != dst.thread && AccessesPass(atomic, src, dst)
            && ConcurrentSums(SumAt(table, p), SumAt(table, q))
  {
  }

  // In terms of the recordings alone: the summary of access i gets a dependency to that of access j
  // exactly when they are of different threads, pass the tests, and were made in concurrent clock values.
  lemma PairsAreConcurrentAccesses(
    log: seq<Recording>, table: Table, atomic: set<Inst>, p: Ref, q: Ref, i: nat, j: nat)
    requires Holds(log, table) && i < |log| && j < |log| && KeptIn(table, log[i], p) && KeptIn(table, log[j], q)
    ensures IsPair(table, atomic, Dependency(p, q)) <==>
            && log[i].thread != log[j].thread && AccessesPass(atomic, log[i], log[j])
            && ConcurrentAccesses(log, i, j)
  {
    PairOfKept(table, atomic, p, q, log[i], log[j]);
    ConcurrentSumsAreAccesses(log, table, p, q, i, j);
  }

  // ---------- the summaries of one thread ----------

  lemma EntriesComparable(log: seq<Recording>, t: Tid, s: Summary, s': Summary, e: TimeInfo, e': TimeInfo)
    requires InOrder(log) && EntryFrom(log, t, s, e) && EntryFrom(log, t, s', e')
    ensures Leq(e.vc, e'.vc) || Leq(e'.vc, e.vc)
  {
    var l :| 0 <= l < |log| && log[l].thread == t && Matches(s, log[l]) && log[l].vc == e.vc && log[l].clk == e.end;
    var l' :| 0 <= l' < |log| && log[l'].thread == t && Matches(s', log[l']) && log[l'].vc == e'.vc
              && log[l'].clk == e'.end;
    LeqIsPartialOrder(e.vc, e.vc, e.vc);
  }

  lemma SumsComparable(log: seq<Recording>, t: Tid, s: Summary, s': Summary, k: nat, l: nat)
    requires InOrder(log) && SumFrom(log, t, s) && SumFrom(log, t, s') && k < |s.tinfo| && l < |s'.tinfo|
    ensures Leq(s.tinfo[k].vc, s'.tinfo[l].vc) || Leq(s'.tinfo[l].vc, s.tinfo[k].vc)
  {
    EntriesComparable(log, t, s, s', s.tinfo[k], s'.tinfo[l]);
  }

  lemma SumsFrom(log: seq<Recording>, table: Table, t: Tid, i: nat)
    requires Holds(log, table) && t in table && i < |table[t]|
    ensures SumFrom(log, t, table[t][i])
  {
    assert Stored(table, Ref(t, i)) && SumAt(table, Ref(t, i)) == table[t][i];
  }

  // Recording each thread's accesses in order makes all clocks of its summaries comparable, which the
  // merge of step 1 relies on.
  lemma SummariesOfOneThread(log: seq<Recording>, table: Table, t: Tid)
    requires InOrder(log) && Holds(log, table) && t in table
    ensures OneThread(table[t])
  {
    var sums := table[t];
    forall i | 0 <= i < |sums| ensures SumFrom(log, t, sums[i]) {
      SumsFrom(log, table, t, i);
    }
    forall i, j, k, l | 0 <= i < |sums| && 0 <= j < |sums| && 0 <= k < |sums[i].tinfo| && 0 <= l < |sums[j].tinfo|
      ensures Leq(sums[i].tinfo[k].vc, sums[j].tinfo[l].vc) || Leq(sums[j].tinfo[l].vc, sums[i].tinfo[k].vc)
    {
      SumsComparable(log, t, sums[i], sums[j], k, l);
    }
  }
}
