/** Step 1 of ProcessAccSumPairUpdate: merging the histories of one thread's summaries into a timeline. */
module ClockMerge {
  import opened Clocks
  import opened ClockHistories
  import opened Summaries

  // A clock value of the thread, a summary that started first in it and one that ended last.
  datatype TimedEntry = TimedEntry(vc: VC, first: nat, last: nat)

  // The summaries of one thread: increasing histories over clocks that are all comparable.
  ghost predicate OneThread(sums: seq<Summary>) {
    && (forall i | 0 <= i < |sums| :: Increasing(sums[i].tinfo))
    && (forall i, j, k, l |
          0 <= i < |sums| && 0 <= j < |sums| && 0 <= k < |sums[i].tinfo| && 0 <= l < |sums[j].tinfo| ::
          Leq(sums[i].tinfo[k].vc, sums[j].tinfo[l].vc) || Leq(sums[j].tinfo[l].vc, sums[i].tinfo[k].vc))
  }

  predicate IsCursor(sums: seq<Summary>, cur: seq<nat>) {
    |cur| == |sums| && forall i | 0 <= i < |cur| :: cur[i] <= |sums[i].tinfo|
  }

  // ---------- progress ----------

  // The entries of the first n summaries not yet consumed.
  ghost function Left(sums: seq<Summary>, cur: seq<nat>, n: nat): nat
    requires IsCursor(sums, cur) && n <= |cur|
  {
    if n == 0 then 0 else Left(sums, cur, n - 1) + |sums[n - 1].tinfo| - cur[n - 1]
  }

  lemma {:induction false} LeftShrinks(sums: seq<Summary>, cur: seq<nat>, cur': seq<nat>, n: nat)
    requires IsCursor(sums, cur) && IsCursor(sums, cur') && n <= |cur|
    requires forall i | 0 <= i < |cur| :: cur[i] <= cur'[i]
    ensures Left(sums, cur', n) <= Left(sums, cur, n)
    ensures (exists i | 0 <= i < n :: cur[i] < cur'[i]) ==> Left(sums, cur', n) < Left(sums, cur, n)
  {
    if n > 0 {
      LeftShrinks(sums, cur, cur', n - 1);
    }
  }

  // The summaries among the first n that are consumed completely.
  ghost function Finished(sums: seq<Summary>, cur: seq<nat>, n: nat): nat
    requires IsCursor(sums, cur) && n <= |cur|
  {
    if n == 0 then 0 else Finished(sums, cur, n - 1) + if cur[n - 1] == |sums[n - 1].tinfo| then 1 else 0
  }

  lemma {:induction false} AllFinished(sums: seq<Summary>, cur: seq<nat>, n: nat)
    requires IsCursor(sums, cur) && n <= |cur|
    ensures Finished(sums, cur, n) <= n
    ensures Finished(sums, cur, n) == n <==> forall i | 0 <= i < n :: cur[i] == |sums[i].tinfo|
  {
    if n > 0 {
      AllFinished(sums, cur, n - 1);
    }
  }

  // ---------- what the timeline says ----------

  // Entry e names the summary with the smallest start, and the one with the largest end, among all
  // entries of this clock value; a read is preferred at the start and a write at the end.
  ghost predicate StartsFirst(sums: seq<Summary>, vc: VC, w: nat, i: nat, k: nat)
    requires w < |sums| && i < |sums| && k < |sums[i].tinfo|
  {
    sums[i].tinfo[k].vc == vc ==> exists l | 0 <= l < |sums[w].tinfo| ::
        && sums[w].tinfo[l].vc == vc
        && sums[w].tinfo[l].start <= sums[i].tinfo[k].start
        && (sums[w].tinfo[l].start == sums[i].tinfo[k].start && sums[i].kind.MemRead? ==> sums[w].kind.MemRead?)
  }

  ghost predicate EndsLast(sums: seq<Summary>, vc: VC, w: nat, i: nat, k: nat)
    requires w < |sums| && i < |sums| && k < |sums[i].tinfo|
  {
    sums[i].tinfo[k].vc == vc ==> exists l | 0 <= l < |sums[w].tinfo| ::
        && sums[w].tinfo[l].vc == vc
        && sums[i].tinfo[k].end <= sums[w].tinfo[l].end
        && (sums[w].tinfo[l].end == sums[i].tinfo[k].end && sums[i].kind.MemWrite? ==> sums[w].kind.MemWrite?)
  }

  ghost predicate Describes(sums: seq<Summary>, e: TimedEntry) {
    && e.first < |sums| && e.last < |sums|
    && (exists k | 0 <= k < |sums[e.first].tinfo| :: sums[e.first].tinfo[k].vc == e.vc)
    && (exists k | 0 <= k < |sums[e.last].tinfo| :: sums[e.last].tinfo[k].vc == e.vc)
    && (forall i, k | 0 <= i < |sums| && 0 <= k < |sums[i].tinfo| :: StartsFirst(sums, e.vc, e.first, i, k))
    && (forall i, k | 0 <= i < |sums| && 0 <= k < |sums[i].tinfo| :: EndsLast(sums, e.vc, e.last, i, k))
  }

  ghost predicate StrictlyIncreasing(out: seq<TimedEntry>) {
    forall i, j | 0 <= i < j < |out| :: Before(out[i].vc, out[j].vc)
  }

  ghost predicate Listed(out: seq<TimedEntry>, vc: VC) {
    exists e | 0 <= e < |out| :: out[e].vc == vc
  }

  // The timeline after consuming the entries before the cursors.
  ghost predicate Merged(sums: seq<Summary>, cur: seq<nat>, out: seq<TimedEntry>)
    requires IsCursor(sums, cur)
  {
    && StrictlyIncreasing(out)
    && (forall e | 0 <= e < |out| :: Describes(sums, out[e]))
    && (forall i, k | 0 <= i < |sums| && 0 <= k < cur[i] :: Listed(out, sums[i].tinfo[k].vc))
    && (forall e, i, k | 0 <= e < |out| && 0 <= i < |sums| && cur[i] <= k < |sums[i].tinfo| ::
          Before(out[e].vc, sums[i].tinfo[k].vc))
  }

  // The timeline of a thread: strictly increasing, exactly the clocks of its summaries, each entry
  // naming a summary that started first and one that ended last in that clock.
  ghost predicate IsTimeline(sums: seq<Summary>, out: seq<TimedEntry>) {
    && StrictlyIncreasing(out)
    && (forall e | 0 <= e < |out| :: Describes(sums, out[e]))
    && (forall i, k | 0 <= i < |sums| && 0 <= k < |sums[i].tinfo| :: Listed(out, sums[i].tinfo[k].vc))
  }

  // ---------- one turn ----------

  // vc is the earliest clock under the cursors.
  ghost predicate Earliest(sums: seq<Summary>, cur: seq<nat>, n: nat, vc: VC)
    requires IsCursor(sums, cur) && n <= |sums|
  {
    forall i | 0 <= i < n && cur[i] < |sums[i].tinfo| :: Leq(vc, sums[i].tinfo[cur[i]].vc)
  }

  ghost predicate UnderCursor(sums: seq<Summary>, cur: seq<nat>, n: nat, vc: VC)
    requires IsCursor(sums, cur) && n <= |sums|
  {
    exists i | 0 <= i < n :: cur[i] < |sums[i].tinfo| && sums[i].tinfo[cur[i]].vc == vc
  }

  // The first pass.
  method FindEarliest(sums: seq<Summary>, cur: seq<nat>) returns (vc: VC)
    requires OneThread(sums) && IsCursor(sums, cur)
    requires exists i | 0 <= i < |sums| :: cur[i] < |sums[i].tinfo|
    ensures Earliest(sums, cur, |sums|, vc) && UnderCursor(sums, cur, |sums|, vc)
  {
    var found := false;
    vc := map[];
    for i := 0 to |sums|
      invariant found <==> exists k | 0 <= k < i :: cur[k] < |sums[k].tinfo|
      invariant found ==> Earliest(sums, cur, i, vc) && UnderCursor(sums, cur, i, vc)
    {
      if cur[i] < |sums[i].tinfo| {
        var here := sums[i].tinfo[cur[i]].vc;
        if !found {
          found, vc := true, here;
          LeqIsPartialOrder(here, here, here);
        } else if Leq(here, vc) {
          forall k | 0 <= k < i && cur[k] < |sums[k].tinfo| ensures Leq(here, sums[k].tinfo[cur[k]].vc) {
            LeqIsPartialOrder(here, vc, sums[k].tinfo[cur[k]].vc);
          }
          LeqIsPartialOrder(here, here, here);
          vc := here;
        }
      }
    }
  }

  ghost predicate AtClock(sums: seq<Summary>, cur: seq<nat>, vc: VC, i: nat)
    requires IsCursor(sums, cur) && i < |sums|
  {
    cur[i] < |sums[i].tinfo| && sums[i].tinfo[cur[i]].vc == vc
  }

  // Whether summary i's entry should replace summary w's as the first or the last one.
  predicate StartsNoLater(sums: seq<Summary>, cur: seq<nat>, i: nat, w: nat)
    requires IsCursor(sums, cur) && i < |sums| && w < |sums| && cur[i] < |sums[i].tinfo| && cur[w] < |sums[w].tinfo|
  {
    var a, b := sums[i].tinfo[cur[i]].start, sums[w].tinfo[cur[w]].start;
    a < b || (a == b && sums[i].kind.MemRead?)
  }

  predicate EndsNoEarlier(sums: seq<Summary>, cur: seq<nat>, i: nat, w: nat)
    requires IsCursor(sums, cur) && i < |sums| && w < |sums| && cur[i] < |sums[i].tinfo| && cur[w] < |sums[w].tinfo|
  {
    var a, b := sums[i].tinfo[cur[i]].end, sums[w].tinfo[cur[w]].end;
    a > b || (a == b && sums[i].kind.MemWrite?)
  }

  // w is the best start among the first n summaries at this clock.
  ghost predicate BestStart(sums: seq<Summary>, cur: seq<nat>, vc: VC, n: nat, w: nat)
    requires IsCursor(sums, cur) && n <= |sums|
  {
    && w < n && AtClock(sums, cur, vc, w)
    && forall i | 0 <= i < n && AtClock(sums, cur, vc, i) ::
         && sums[w].tinfo[cur[w]].start <= sums[i].tinfo[cur[i]].start
         && (sums[w].tinfo[cur[w]].start == sums[i].tinfo[cur[i]].start ==>
               sums[i].kind.MemRead? ==> sums[w].kind.MemRead?)
  }

  ghost predicate BestEnd(sums: seq<Summary>, cur: seq<nat>, vc: VC, n: nat, w: nat)
    requires IsCursor(sums, cur) && n <= |sums|
  {
    && w < n && AtClock(sums, cur, vc, w)
    && forall i | 0 <= i < n && AtClock(sums, cur, vc, i) ::
         && sums[i].tinfo[cur[i]].end <= sums[w].tinfo[cur[w]].end
         && (sums[w].tinfo[cur[w]].end == sums[i].tinfo[cur[i]].end ==>
               sums[i].kind.MemWrite? ==> sums[w].kind.MemWrite?)
  }

  // The cursors after the first n summaries at this clock have moved on.
  ghost predicate Advanced(sums: seq<Summary>, cur: seq<nat>, vc: VC, n: nat, cur': seq<nat>)
    requires IsCursor(sums, cur) && n <= |sums|
  {
    && IsCursor(sums, cur')
    && (forall i | 0 <= i < n :: cur'[i] == if AtClock(sums, cur, vc, i) then cur[i] + 1 else cur[i])
    && (forall i | n <= i < |sums| :: cur'[i] == cur[i])
  }

  lemma {:induction false} FinishedMoves(sums: seq<Summary>, cur: seq<nat>, i: nat, n: nat)
    requires IsCursor(sums, cur) && i < |cur| && n <= |cur| && cur[i] < |sums[i].tinfo|
    ensures var cur' := cur[i := cur[i] + 1];
            Finished(sums, cur', n) == Finished(sums, cur, n) + if i < n && cur'[i] == |sums[i].tinfo| then 1 else 0
  {
    if n > 0 {
      FinishedMoves(sums, cur, i, n - 1);
    }
  }

  // The second pass: picks the summaries and moves every cursor that stands at this clock.
  method Consume(sums: seq<Summary>, cur: seq<nat>, vc: VC, finished: nat)
    returns (cur': seq<nat>, first: nat, last: nat, finished': nat)
    requires IsCursor(sums, cur) && UnderCursor(sums, cur, |sums|, vc)
    requires finished == Finished(sums, cur, |sums|)
    ensures Advanced(sums, cur, vc, |sums|, cur')
    ensures BestStart(sums, cur, vc, |sums|, first) && BestEnd(sums, cur, vc, |sums|, last)
    ensures finished' == Finished(sums, cur', |sums|)
  {
    var found := false;
    cur', first, last, finished' := cur, 0, 0, finished;
    for i := 0 to |sums|
      invariant Advanced(sums, cur, vc, i, cur')
      invariant finished' == Finished(sums, cur', |sums|)
      invariant found <==> exists k | 0 <= k < i :: AtClock(sums, cur, vc, k)
      invariant found ==> BestStart(sums, cur, vc, i, first) && BestEnd(sums, cur, vc, i, last)
    {
      if cur'[i] < |sums[i].tinfo| && sums[i].tinfo[cur'[i]].vc == vc {
        assert AtClock(sums, cur, vc, i);
        if !found || StartsNoLater(sums, cur, i, first) {
          first := i;
        }
        if !found || EndsNoEarlier(sums, cur, i, last) {
          last := i;
        }
        found := true;
        FinishedMoves(sums, cur', i, |sums|);
        cur' := cur'[i := cur'[i] + 1];
        if cur'[i] == |sums[i].tinfo| {
          finished' := finished' + 1;
        }
      }
    }
  }

  // ---------- one turn keeps the timeline ----------

  // Whatever has this clock value stands under a cursor.
  lemma OnlyUnderCursors(sums: seq<Summary>, cur: seq<nat>, out: seq<TimedEntry>, vc: VC, i: nat, k: nat)
    requires OneThread(sums) && IsCursor(sums, cur) && Merged(sums, cur, out)
    requires Earliest(sums, cur, |sums|, vc) && UnderCursor(sums, cur, |sums|, vc)
    requires i < |sums| && k < |sums[i].tinfo| && sums[i].tinfo[k].vc == vc
    ensures k == cur[i]
  {
    var j :| 0 <= j < |sums| && cur[j] < |sums[j].tinfo| && sums[j].tinfo[cur[j]].vc == vc;
    assert k < cur[i] ==> Listed(out, sums[i].tinfo[k].vc);
    assert k > cur[i] ==> Before(sums[i].tinfo[cur[i]].vc, vc);
    if k > cur[i] {
      LeqIsPartialOrder(sums[i].tinfo[cur[i]].vc, vc, vc);
    } else {
      assert forall e | 0 <= e < |out| :: Before(out[e].vc, sums[j].tinfo[cur[j]].vc);
    }
  }

  lemma NewEntryDescribes(sums: seq<Summary>, cur: seq<nat>, out: seq<TimedEntry>, vc: VC, first: nat, last: nat)
    requires OneThread(sums) && IsCursor(sums, cur) && Merged(sums, cur, out)
    requires Earliest(sums, cur, |sums|, vc)
    requires BestStart(sums, cur, vc, |sums|, first) && BestEnd(sums, cur, vc, |sums|, last)
    ensures Describes(sums, TimedEntry(vc, first, last))
  {
    assert UnderCursor(sums, cur, |sums|, vc);
    forall i, k | 0 <= i < |sums| && 0 <= k < |sums[i].tinfo|
      ensures StartsFirst(sums, vc, first, i, k) && EndsLast(sums, vc, last, i, k)
    {
      if sums[i].tinfo[k].vc == vc {
        OnlyUnderCursors(sums, cur, out, vc, i, k);
        assert AtClock(sums, cur, vc, i);
      }
    }
  }

  // Everything still ahead of the moved cursors is strictly later than the consumed clock.
  lemma RestIsLater(sums: seq<Summary>, cur: seq<nat>, cur': seq<nat>, vc: VC, i: nat, k: nat)
    requires OneThread(sums) && IsCursor(sums, cur) && Earliest(sums, cur, |sums|, vc)
    requires Advanced(sums, cur, vc, |sums|, cur')
    requires i < |sums| && cur'[i] <= k < |sums[i].tinfo|
    ensures Before(vc, sums[i].tinfo[k].vc)
  {
    var here := sums[i].tinfo[cur[i]].vc;
    if cur[i] < k {
      assert Before(here, sums[i].tinfo[k].vc);
      LeqIsPartialOrder(vc, here, sums[i].tinfo[k].vc);
      LeqIsPartialOrder(here, sums[i].tinfo[k].vc, here);
    }
  }

  lemma ConsumedAreListed(
    sums: seq<Summary>, cur: seq<nat>, cur': seq<nat>, out: seq<TimedEntry>, e: TimedEntry, i: nat, k: nat)
    requires IsCursor(sums, cur) && Merged(sums, cur, out) && Advanced(sums, cur, e.vc, |sums|, cur')
    requires i < |sums| && k < cur'[i]
    ensures Listed(out + [e], sums[i].tinfo[k].vc)
  {
    var out' := out + [e];
    if k < cur[i] {
      assert Listed(out, sums[i].tinfo[k].vc);
      var d :| 0 <= d < |out| && out[d].vc == sums[i].tinfo[k].vc;
      assert out'[d].vc == sums[i].tinfo[k].vc;
    } else {
      assert out'[|out|].vc == sums[i].tinfo[k].vc;
    }
  }

  lemma StillIncreasing(sums: seq<Summary>, cur: seq<nat>, out: seq<TimedEntry>, e: TimedEntry)
    requires IsCursor(sums, cur) && Merged(sums, cur, out) && e.first < |sums| && AtClock(sums, cur, e.vc, e.first)
    ensures StrictlyIncreasing(out + [e])
  {
    forall d | 0 <= d < |out| ensures Before(out[d].vc, e.vc) {
      assert Before(out[d].vc, sums[e.first].tinfo[cur[e.first]].vc);
    }
  }

  lemma TurnKeepsMerged(sums: seq<Summary>, cur: seq<nat>, cur': seq<nat>, out: seq<TimedEntry>, e: TimedEntry)
    requires OneThread(sums) && IsCursor(sums, cur) && Merged(sums, cur, out)
    requires Earliest(sums, cur, |sums|, e.vc)
    requires BestStart(sums, cur, e.vc, |sums|, e.first) && BestEnd(sums, cur, e.vc, |sums|, e.last)
    requires Advanced(sums, cur, e.vc, |sums|, cur')
    ensures Merged(sums, cur', out + [e])
  {
    var out' := out + [e];
    NewEntryDescribes(sums, cur, out, e.vc, e.first, e.last);
    StillIncreasing(sums, cur, out, e);
    forall d | 0 <= d < |out'| ensures Describes(sums, out'[d]) {
      assert d < |out| ==> Describes(sums, out[d]);
    }
    forall i, k | 0 <= i < |sums| && 0 <= k < cur'[i] ensures Listed(out', sums[i].tinfo[k].vc) {
      ConsumedAreListed(sums, cur, cur', out, e, i, k);
    }
    forall d, i, k | 0 <= d < |out'| && 0 <= i < |sums| && cur'[i] <= k < |sums[i].tinfo|
      ensures Before(out'[d].vc, sums[i].tinfo[k].vc)
    {
      assert d < |out| ==> Before(out[d].vc, sums[i].tinfo[k].vc);
      RestIsLater(sums, cur, cur', e.vc, i, k);
    }
  }

  method Timeline(sums: seq<Summary>) returns (out: seq<TimedEntry>)
    requires OneThread(sums) && forall i | 0 <= i < |sums| :: sums[i].tinfo != []
    ensures IsTimeline(sums, out)
  {
    var cur: seq<nat> := seq(|sums|, _ => 0);
    var finished := 0;
    out := [];
    NoneFinished(sums, cur, |sums|);
    while finished != |sums|
      invariant IsCursor(sums, cur) && Merged(sums, cur, out)
      invariant finished == Finished(sums, cur, |sums|)
      decreases Left(sums, cur, |sums|)
    {
      cur, finished, out := Turn(sums, cur, finished, out);
    }
    AllFinished(sums, cur, |sums|);
  }

  // One turn of the loop: both passes and the new entry.
  method Turn(sums: seq<Summary>, cur: seq<nat>, finished: nat, out: seq<TimedEntry>)
    returns (cur': seq<nat>, finished': nat, out': seq<TimedEntry>)
    requires OneThread(sums) && IsCursor(sums, cur) && Merged(sums, cur, out)
    requires finished == Finished(sums, cur, |sums|) != |sums|
    ensures IsCursor(sums, cur') && Merged(sums, cur', out') && finished' == Finished(sums, cur', |sums|)
    ensures Left(sums, cur', |sums|) < Left(sums, cur, |sums|)
  {
    AllFinished(sums, cur, |sums|);
    var vc := FindEarliest(sums, cur);
    var first, last;
    cur', first, last, finished' := Consume(sums, cur, vc, finished);
    TurnKeepsMerged(sums, cur, cur', out, TimedEntry(vc, first, last));
    assert cur[first] < cur'[first];
    LeftShrinks(sums, cur, cur', |sums|);
    out' := out + [TimedEntry(vc, first, last)];
  }

  lemma {:induction false} NoneFinished(sums: seq<Summary>, cur: seq<nat>, n: nat)
    requires IsCursor(sums, cur) && n <= |cur|
    requires forall i | 0 <= i < |sums| :: sums[i].tinfo != [] && cur[i] == 0
    ensures Finished(sums, cur, n) == 0
  {
    if n > 0 {
      NoneFinished(sums, cur, n - 1);
    }
  }
}
