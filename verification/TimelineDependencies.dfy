/** What the dependencies on merged timelines mean for the recorded accesses. */
module TimelineDependencies {
  import opened Clocks
  import opened ClockHistories
  import opened Summaries
  import opened ClockMerge
  import opened Predecessors
  import opened PairUpdate
  import opened AccessHistory
  import opened Predictor

  // ---------- the ends of a dependency, on the recordings ----------

  // Recording k is of the same thread and clock value as recording l.
  ghost predicate SameClock(log: seq<Recording>, k: nat, l: nat)
    requires l < |log|
  {
    k < |log| && log[k].thread == log[l].thread && log[k].vc == log[l].vc
  }

  ghost predicate LastInClock(log: seq<Recording>, l: nat)
    requires l < |log|
  {
    forall k: nat | SameClock(log, k, l) :: log[k].clk <= log[l].clk
  }

  ghost predicate FirstInClock(log: seq<Recording>, l: nat)
    requires l < |log|
  {
    forall k: nat | SameClock(log, k, l) :: log[l].clk <= log[k].clk
  }

  // Recording l is of summary ref.
  ghost predicate IsOf(log: seq<Recording>, table: Table, l: nat, ref: Ref) {
    l < |log| && KeptIn(table, log[l], ref)
  }

  // The clock of recording p happens before that of c, is not seen by an earlier clock of c's thread, and
  // happens before no other clock of another thread that happens before c's.
  ghost predicate ImmediatelyBefore(log: seq<Recording>, p: nat, c: nat)
    requires p < |log| && c < |log|
  {
    && log[p].thread != log[c].thread && Leq(log[p].vc, log[c].vc)
    && (forall k: nat | k < |log| && log[k].thread == log[c].thread && Before(log[k].vc, log[c].vc) ::
          !Leq(log[p].vc, log[k].vc))
    && (forall k: nat | k < |log| && log[k].thread != log[c].thread && Leq(log[k].vc, log[c].vc)
                        && !SameClock(log, k, p) ::
          !Leq(log[p].vc, log[k].vc))
  }

  // ---------- places and recordings ----------

  // Recording l is of the thread and clock value of place p.
  ghost predicate RecordedAt(log: seq<Recording>, tls: Timelines, l: nat, p: Place) {
    l < |log| && Exists(tls, p) && log[l].thread == p.thread && log[l].vc == At(tls, p)
  }

  lemma EntryAtIndex(log: seq<Recording>, table: Table, ref: Ref, k: nat) returns (l: nat)
    requires Holds(log, table) && Stored(table, ref) && k < |SumAt(table, ref).tinfo|
    ensures IsOf(log, table, l, ref) && log[l].vc == SumAt(table, ref).tinfo[k].vc
  {
    var s := SumAt(table, ref);
    var e := s.tinfo[k];
    assert SumFrom(log, ref.thread, s);
    assert EntryFrom(log, ref.thread, s, e);
    l :| 0 <= l < |log| && log[l].thread == ref.thread && Matches(s, log[l]) && log[l].vc == e.vc
         && log[l].clk == e.end;
  }

  lemma RecordingIsPlaced(log: seq<Recording>, table: Table, tls: Timelines, l: nat) returns (p: Place)
    requires Holds(log, table) && TimelinesOf(table, tls) && l < |log|
    ensures RecordedAt(log, tls, l, p)
  {
    assert IsKept(table, log[l]);
    var ref :| KeptIn(table, log[l], ref);
    var s, sums := SumAt(table, ref), table[ref.thread];
    var e :| e in s.tinfo && e.vc == log[l].vc;
    var k :| 0 <= k < |s.tinfo| && s.tinfo[k] == e;
    assert IsTimeline(sums, tls[ref.thread]);
    assert Listed(tls[ref.thread], sums[ref.index].tinfo[k].vc);
    var i :| 0 <= i < |tls[ref.thread]| && tls[ref.thread][i].vc == log[l].vc;
    p := Place(ref.thread, i);
  }

  lemma PlaceIsRecorded(log: seq<Recording>, table: Table, tls: Timelines, p: Place) returns (l: nat)
    requires Holds(log, table) && TimelinesOf(table, tls) && Exists(tls, p)
    ensures RecordedAt(log, tls, l, p)
  {
    var sums, e := table[p.thread], tls[p.thread][p.index];
    assert IsTimeline(sums, tls[p.thread]);
    assert Describes(sums, e);
    var k :| 0 <= k < |sums[e.first].tinfo| && sums[e.first].tinfo[k].vc == e.vc;
    l := EntryAtIndex(log, table, Ref(p.thread, e.first), k);
  }

  lemma OnePlace(tls: Timelines, p: Place, q: Place)
    requires Ordered(tls) && Exists(tls, p) && Exists(tls, q) && p.thread == q.thread && At(tls, p) == At(tls, q)
    ensures p == q
  {
    var tl := tls[p.thread];
    assert p.index < q.index ==> Before(tl[p.index].vc, tl[q.index].vc);
    assert q.index < p.index ==> Before(tl[q.index].vc, tl[p.index].vc);
  }

  lemma OneEntry(h: seq<TimeInfo>, i: nat, j: nat)
    requires Increasing(h) && i < |h| && j < |h| && h[i].vc == h[j].vc
    ensures i == j
  {
  }

  // ---------- which accesses a place stands for ----------

  // The span of the summary that shows recording m, in its clock value.
  lemma SpanIn(log: seq<Recording>, t: Tid, s: Summary, m: nat) returns (k: nat)
    requires m < |log| && SpansRight(log, t, s) && Belongs(log, m, t, s, log[m].vc) && Shows(s, log[m].vc)
    ensures k < |s.tinfo| && s.tinfo[k].vc == log[m].vc && s.tinfo[k].start <= log[m].clk <= s.tinfo[k].end
  {
    var e :| e in s.tinfo && e.vc == log[m].vc;
    k :| 0 <= k < |s.tinfo| && s.tinfo[k] == e;
    assert Spans(log, t, s, s.tinfo[k]);
  }

  // The first or last recording of an entry.
  lemma SpanEnds(log: seq<Recording>, t: Tid, s: Summary, k: nat) returns (first: nat, last: nat)
    requires SpansRight(log, t, s) && k < |s.tinfo|
    ensures Belongs(log, first, t, s, s.tinfo[k].vc) && log[first].clk == s.tinfo[k].start
    ensures Belongs(log, last, t, s, s.tinfo[k].vc) && log[last].clk == s.tinfo[k].end
  {
    assert Spans(log, t, s, s.tinfo[k]);
    first :| Belongs(log, first, t, s, s.tinfo[k].vc) && log[first].clk == s.tinfo[k].start;
    last :| Belongs(log, last, t, s, s.tinfo[k].vc) && log[last].clk == s.tinfo[k].end;
  }

  // What is used of the invariants about one summary, and about one recording.
  lemma SummaryFacts(log: seq<Recording>, table: Table, t: Tid, i: nat)
    requires Holds(log, table) && AllSpans(log, table) && t in table && i < |table[t]|
    ensures SpansRight(log, t, table[t][i]) && Increasing(table[t][i].tinfo)
  {
    SumsFrom(log, table, t, i);
    assert Stored(table, Ref(t, i)) && SumAt(table, Ref(t, i)) == table[t][i];
  }

  lemma RecordingFacts(log: seq<Recording>, table: Table, m: nat) returns (i: nat)
    requires Holds(log, table) && m < |log|
    ensures log[m].thread in table && i < |table[log[m].thread]|
    ensures Matches(table[log[m].thread][i], log[m]) && Shows(table[log[m].thread][i], log[m].vc)
  {
    assert IsKept(table, log[m]);
    var ref :| KeptIn(table, log[m], ref);
    i := ref.index;
  }

  // No summary of the thread has a later end, or an earlier start, in clock value vc.
  ghost predicate NoLater(sums: seq<Summary>, vc: VC, end: nat) {
    forall i, k | 0 <= i < |sums| && 0 <= k < |sums[i].tinfo| ::
      sums[i].tinfo[k].vc == vc ==> sums[i].tinfo[k].end <= end
  }

  ghost predicate NoEarlier(sums: seq<Summary>, vc: VC, start: nat) {
    forall i, k | 0 <= i < |sums| && 0 <= k < |sums[i].tinfo| ::
      sums[i].tinfo[k].vc == vc ==> start <= sums[i].tinfo[k].start
  }

  lemma EntryEnd(sums: seq<Summary>, e: TimedEntry) returns (k: nat)
    requires Describes(sums, e) && Increasing(sums[e.last].tinfo)
    ensures k < |sums[e.last].tinfo| && sums[e.last].tinfo[k].vc == e.vc
    ensures NoLater(sums, e.vc, sums[e.last].tinfo[k].end)
  {
    k :| 0 <= k < |sums[e.last].tinfo| && sums[e.last].tinfo[k].vc == e.vc;
    forall i, k' | 0 <= i < |sums| && 0 <= k' < |sums[i].tinfo| && sums[i].tinfo[k'].vc == e.vc
      ensures sums[i].tinfo[k'].end <= sums[e.last].tinfo[k].end
    {
      assert EndsLast(sums, e.vc, e.last, i, k');
      var k'' :| 0 <= k'' < |sums[e.last].tinfo| && sums[e.last].tinfo[k''].vc == e.vc
                 && sums[i].tinfo[k'].end <= sums[e.last].tinfo[k''].end;
      OneEntry(sums[e.last].tinfo, k, k'');
    }
  }

  lemma EntryStart(sums: seq<Summary>, e: TimedEntry) returns (k: nat)
    requires Describes(sums, e) && Increasing(sums[e.first].tinfo)
    ensures k < |sums[e.first].tinfo| && sums[e.first].tinfo[k].vc == e.vc
    ensures NoEarlier(sums, e.vc, sums[e.first].tinfo[k].start)
  {
    k :| 0 <= k < |sums[e.first].tinfo| && sums[e.first].tinfo[k].vc == e.vc;
    forall i, k' | 0 <= i < |sums| && 0 <= k' < |sums[i].tinfo| && sums[i].tinfo[k'].vc == e.vc
      ensures sums[e.first].tinfo[k].start <= sums[i].tinfo[k'].start
    {
      assert StartsFirst(sums, e.vc, e.first, i, k');
      var k'' :| 0 <= k'' < |sums[e.first].tinfo| && sums[e.first].tinfo[k''].vc == e.vc
                 && sums[e.first].tinfo[k''].start <= sums[i].tinfo[k'].start;
      OneEntry(sums[e.first].tinfo, k, k'');
    }
  }

  // What a place names, without the rest of the timeline.
  lemma PlaceEnds(table: Table, tls: Timelines, p: Place) returns (first: nat, last: nat)
    requires TimelinesOf(table, tls) && Exists(tls, p) && AllIncreasing(table)
    ensures p.thread in table
    ensures var e, sums := tls[p.thread][p.index], table[p.thread];
            && e.last < |sums| && last < |sums[e.last].tinfo| && sums[e.last].tinfo[last].vc == e.vc
            && NoLater(sums, e.vc, sums[e.last].tinfo[last].end)
            && e.first < |sums| && first < |sums[e.first].tinfo| && sums[e.first].tinfo[first].vc == e.vc
            && NoEarlier(sums, e.vc, sums[e.first].tinfo[first].start)
  {
    assert IsTimeline(table[p.thread], tls[p.thread]);
    last := EntryEnd(table[p.thread], tls[p.thread][p.index]);
    first := EntryStart(table[p.thread], tls[p.thread][p.index]);
  }

  lemma NotAfter(log: seq<Recording>, table: Table, m: nat, end: nat)
    requires Holds(log, table) && AllSpans(log, table) && m < |log|
    requires log[m].thread in table && NoLater(table[log[m].thread], log[m].vc, end)
    ensures log[m].clk <= end
  {
    var i := RecordingFacts(log, table, m);
    SummaryFacts(log, table, log[m].thread, i);
    var k := SpanIn(log, log[m].thread, table[log[m].thread][i], m);
  }

  lemma NotBefore(log: seq<Recording>, table: Table, m: nat, start: nat)
    requires Holds(log, table) && AllSpans(log, table) && m < |log|
    requires log[m].thread in table && NoEarlier(table[log[m].thread], log[m].vc, start)
    ensures start <= log[m].clk
  {
    var i := RecordingFacts(log, table, m);
    SummaryFacts(log, table, log[m].thread, i);
    var k := SpanIn(log, log[m].thread, table[log[m].thread][i], m);
  }

  lemma BelongsIsOf(log: seq<Recording>, table: Table, ref: Ref, l: nat, k: nat)
    requires Stored(table, ref) && k < |SumAt(table, ref).tinfo|
    requires Belongs(log, l, ref.thread, SumAt(table, ref), SumAt(table, ref).tinfo[k].vc)
    ensures IsOf(log, table, l, ref)
  {
    assert SumAt(table, ref).tinfo[k] in SumAt(table, ref).tinfo;
  }

  lemma LastAt(log: seq<Recording>, table: Table, ref: Ref, k: nat) returns (l: nat)
    requires Holds(log, table) && AllSpans(log, table) && Stored(table, ref) && k < |SumAt(table, ref).tinfo|
    requires NoLater(table[ref.thread], SumAt(table, ref).tinfo[k].vc, SumAt(table, ref).tinfo[k].end)
    ensures IsOf(log, table, l, ref) && log[l].vc == SumAt(table, ref).tinfo[k].vc && LastInClock(log, l)
  {
    var first;
    SummaryFacts(log, table, ref.thread, ref.index);
    first, l := SpanEnds(log, ref.thread, SumAt(table, ref), k);
    BelongsIsOf(log, table, ref, l, k);
    forall m: nat | SameClock(log, m, l) ensures log[m].clk <= log[l].clk {
      NotAfter(log, table, m, SumAt(table, ref).tinfo[k].end);
    }
  }

  lemma FirstAt(log: seq<Recording>, table: Table, ref: Ref, k: nat) returns (l: nat)
    requires Holds(log, table) && AllSpans(log, table) && Stored(table, ref) && k < |SumAt(table, ref).tinfo|
    requires NoEarlier(table[ref.thread], SumAt(table, ref).tinfo[k].vc, SumAt(table, ref).tinfo[k].start)
    ensures IsOf(log, table, l, ref) && log[l].vc == SumAt(table, ref).tinfo[k].vc && FirstInClock(log, l)
  {
    var last;
    SummaryFacts(log, table, ref.thread, ref.index);
    l, last := SpanEnds(log, ref.thread, SumAt(table, ref), k);
    BelongsIsOf(log, table, ref, l, k);
    forall m: nat | SameClock(log, m, l) ensures log[l].clk <= log[m].clk {
      NotBefore(log, table, m, SumAt(table, ref).tinfo[k].start);
    }
  }

  // The summary a place names as its last one holds the last access of the thread in that clock value.
  lemma LastIsLast(log: seq<Recording>, table: Table, tls: Timelines, p: Place) returns (l: nat)
    requires Holds(log, table) && AllSpans(log, table) && TimelinesOf(table, tls) && Exists(tls, p)
    ensures RecordedAt(log, tls, l, p) && LastInClock(log, l)
    ensures IsOf(log, table, l, Ref(p.thread, tls[p.thread][p.index].last))
  {
    HoldsIncreasing(log, table);
    var first, last := PlaceEnds(table, tls, p);
    l := LastAt(log, table, Ref(p.thread, tls[p.thread][p.index].last), last);
  }

  // The summary a place names as its first one holds the first access.
  lemma FirstIsFirst(log: seq<Recording>, table: Table, tls: Timelines, p: Place) returns (l: nat)
    requires Holds(log, table) && AllSpans(log, table) && TimelinesOf(table, tls) && Exists(tls, p)
    ensures RecordedAt(log, tls, l, p) && FirstInClock(log, l)
    ensures IsOf(log, table, l, Ref(p.thread, tls[p.thread][p.index].first))
  {
    HoldsIncreasing(log, table);
    var first, last := PlaceEnds(table, tls, p);
    l := FirstAt(log, table, Ref(p.thread, tls[p.thread][p.index].first), first);
  }

  // ---------- immediate predecessors ----------

  // A place is an immediate predecessor exactly when the recordings there are.
  lemma ImmediateExact(log: seq<Recording>, table: Table, tls: Timelines, p: Place, c: Place, l0: nat, l1: nat)
    requires Holds(log, table) && TimelinesOf(table, tls) && Ordered(tls)
    requires RecordedAt(log, tls, l0, p) && RecordedAt(log, tls, l1, c)
    ensures Immediate(tls, c, p) <==> ImmediatelyBefore(log, l0, l1)
  {
    if Immediate(tls, c, p) {
      forall k: nat | k < |log| && log[k].thread == log[l1].thread && Before(log[k].vc, log[l1].vc)
        ensures !Leq(log[l0].vc, log[k].vc)
      {
        NotSeenBefore(log, table, tls, p, c, l0, l1, k);
      }
      forall k: nat | k < |log| && log[k].thread != log[l1].thread && Leq(log[k].vc, log[l1].vc)
                      && !SameClock(log, k, l0)
        ensures !Leq(log[l0].vc, log[k].vc)
      {
        var q := RecordingIsPlaced(log, table, tls, k);
        assert q != p;
      }
    }
    if ImmediatelyBefore(log, l0, l1) {
      ImmediateFromRecordings(log, table, tls, p, c, l0, l1);
    }
  }

  lemma NotSeenBefore(
    log: seq<Recording>, table: Table, tls: Timelines, p: Place, c: Place, l0: nat, l1: nat, k: nat)
    requires Holds(log, table) && TimelinesOf(table, tls) && Ordered(tls)
    requires RecordedAt(log, tls, l0, p) && RecordedAt(log, tls, l1, c) && Immediate(tls, c, p)
    requires k < |log| && log[k].thread == log[l1].thread && Before(log[k].vc, log[l1].vc)
    ensures !Leq(log[l0].vc, log[k].vc)
  {
    var q := RecordingIsPlaced(log, table, tls, k);
    PreviousDecides(tls, p, c, q);
  }

  // What the entry before c has not seen, no earlier entry has.
  lemma PreviousDecides(tls: Timelines, p: Place, c: Place, q: Place)
    requires Ordered(tls) && Exists(tls, c) && Exists(tls, q) && Immediate(tls, c, p)
    requires q.thread == c.thread && Before(At(tls, q), At(tls, c))
    ensures !Leq(At(tls, p), At(tls, q))
  {
    var tl := tls[c.thread];
    assert q.index > c.index ==> Before(tl[c.index].vc, tl[q.index].vc);
    LeqIsPartialOrder(At(tls, q), At(tls, c), At(tls, q));
    if q.index < c.index - 1 {
      assert Before(tl[q.index].vc, tl[c.index - 1].vc);
      LeqIsPartialOrder(At(tls, p), At(tls, q), tl[c.index - 1].vc);
    }
  }

  lemma ImmediateFromRecordings(
    log: seq<Recording>, table: Table, tls: Timelines, p: Place, c: Place, l0: nat, l1: nat)
    requires Holds(log, table) && TimelinesOf(table, tls) && Ordered(tls)
    requires RecordedAt(log, tls, l0, p) && RecordedAt(log, tls, l1, c) && ImmediatelyBefore(log, l0, l1)
    ensures Immediate(tls, c, p)
  {
    if c.index > 0 {
      var prev := Place(c.thread, c.index - 1);
      var k := PlaceIsRecorded(log, table, tls, prev);
      assert Before(tls[c.thread][c.index - 1].vc, tls[c.thread][c.index].vc);
    }
    forall q | IsEarlier(tls, c, q) && q != p ensures !Leq(At(tls, p), At(tls, q)) {
      var k := PlaceIsRecorded(log, table, tls, q);
      if SameClock(log, k, l0) {
        OnePlace(tls, p, q);
      }
    }
  }

  // ---------- the dependencies ----------

  // Whatever dependency the timelines require leads from the last access of a thread in one clock value to
  // the first access of another thread in a clock value immediately after it, and passes the tests.
  lemma RequiredEnds(log: seq<Recording>, table: Table, tls: Timelines, d: Dependency) returns (l0: nat, l1: nat)
    requires Holds(log, table) && AllSpans(log, table) && TimelinesOf(table, tls) && Ordered(tls) && Known(tls, table)
    requires Required(tls, table, d)
    ensures IsOf(log, table, l0, d.src) && LastInClock(log, l0)
    ensures IsOf(log, table, l1, d.dst) && FirstInClock(log, l1)
    ensures ImmediatelyBefore(log, l0, l1) && AccessesPass({}, log[l0], log[l1])
  {
    var c, p :| Depends(tls, table, c, p, d);
    l0, l1 := EndsOf(log, table, tls, c, p);
    ImmediateExact(log, table, tls, p, c, l0, l1);
    PassIsAllowed(table, d, log[l0], log[l1]);
  }

  lemma EndsOf(log: seq<Recording>, table: Table, tls: Timelines, c: Place, p: Place) returns (l0: nat, l1: nat)
    requires Holds(log, table) && AllSpans(log, table) && TimelinesOf(table, tls)
    requires Exists(tls, c) && Exists(tls, p)
    ensures RecordedAt(log, tls, l0, p) && LastInClock(log, l0)
    ensures IsOf(log, table, l0, Ref(p.thread, tls[p.thread][p.index].last))
    ensures RecordedAt(log, tls, l1, c) && FirstInClock(log, l1)
    ensures IsOf(log, table, l1, Ref(c.thread, tls[c.thread][c.index].first))
  {
    l0 := LastIsLast(log, table, tls, p);
    l1 := FirstIsFirst(log, table, tls, c);
  }

  lemma PassIsAllowed(table: Table, d: Dependency, src: Recording, dst: Recording)
    requires KeptIn(table, src, d.src) && KeptIn(table, dst, d.dst)
    ensures Allowed(table, d) <==> AccessesPass({}, src, dst)
  {
  }

  // Conversely, two such accesses give a dependency between their summaries, if no access of another
  // summary of their threads ties with them.
  lemma EndsAreRequired(log: seq<Recording>, table: Table, tls: Timelines, d: Dependency, l0: nat, l1: nat)
    requires Holds(log, table) && AllSpans(log, table) && TimelinesOf(table, tls) && Ordered(tls) && Known(tls, table)
    requires IsOf(log, table, l0, d.src) && LastInClock(log, l0) && NoTie(log, l0)
    requires IsOf(log, table, l1, d.dst) && FirstInClock(log, l1) && NoTie(log, l1)
    requires ImmediatelyBefore(log, l0, l1) && AccessesPass({}, log[l0], log[l1])
    ensures Required(tls, table, d)
  {
    var p := RecordingIsPlaced(log, table, tls, l0);
    var c := RecordingIsPlaced(log, table, tls, l1);
    ImmediateExact(log, table, tls, p, c, l0, l1);
    PassIsAllowed(table, d, log[l0], log[l1]);
    var m0, m1 := EndsOf(log, table, tls, c, p);
    OneLast(log, table, l0, m0, d.src, Ref(p.thread, tls[p.thread][p.index].last));
    OneFirst(log, table, l1, m1, d.dst, Ref(c.thread, tls[c.thread][c.index].first));
    assert Depends(tls, table, c, p, d);
  }

  lemma OneLast(log: seq<Recording>, table: Table, l: nat, m: nat, p: Ref, q: Ref)
    requires Holds(log, table) && IsOf(log, table, l, p) && IsOf(log, table, m, q) && SameClock(log, m, l)
    requires LastInClock(log, l) && LastInClock(log, m) && NoTie(log, l)
    ensures p == q
  {
    assert SameClock(log, l, m);
    OneRef(log, table, l, m, p, q);
  }

  lemma OneFirst(log: seq<Recording>, table: Table, l: nat, m: nat, p: Ref, q: Ref)
    requires Holds(log, table) && IsOf(log, table, l, p) && IsOf(log, table, m, q) && SameClock(log, m, l)
    requires FirstInClock(log, l) && FirstInClock(log, m) && NoTie(log, l)
    ensures p == q
  {
    assert SameClock(log, l, m);
    OneRef(log, table, l, m, p, q);
  }

  // No recording at the same local time in the same clock value has another kind, instruction or flags.
  ghost predicate NoTie(log: seq<Recording>, l: nat)
    requires l < |log|
  {
    forall k: nat | SameClock(log, k, l) && log[k].clk == log[l].clk :: SameAccess(log, k, l)
  }

  lemma OneRef(log: seq<Recording>, table: Table, l: nat, m: nat, p: Ref, q: Ref)
    requires Holds(log, table) && IsOf(log, table, l, p) && IsOf(log, table, m, q) && SameAccess(log, m, l)
    ensures p == q
  {
    OneSummary(table[p.thread], p.index, q.index);
  }
}
