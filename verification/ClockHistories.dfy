/** Clock histories of access summaries: growing them, and the early-exit searches over them. */
module ClockHistories {
  import opened Clocks

  // One clock value a summary was seen with, and the first and last local times in it.
  datatype TimeInfo = TimeInfo(vc: VC, start: nat, end: nat)

  ghost predicate Before(a: VC, b: VC) {
    Leq(a, b) && a != b
  }

  // The order that recording the accesses of one thread keeps.
  ghost predicate Increasing(h: seq<TimeInfo>) {
    && (forall i | 0 <= i < |h| :: h[i].start <= h[i].end)
    && (forall i, j | 0 <= i < j < |h| :: Before(h[i].vc, h[j].vc) && h[i].end <= h[j].start)
  }

  predicate Concurrent(a: VC, b: VC) {
    !Leq(a, b) && !Leq(b, a)
  }

  // One more access of the thread: only the last entry is compared, a new clock value opens a new entry.
  function Extended(h: seq<TimeInfo>, vc: VC, clk: nat): seq<TimeInfo>
    requires h != []
  {
    var last := |h| - 1;
    if h[last].vc == vc then h[last := h[last].(end := clk)] else h + [TimeInfo(vc, clk, clk)]
  }

  // Recording accesses in order keeps the history strictly increasing, so comparing with the last entry
  // decides whether the clock value is new.
  lemma ExtendedIncreasing(h: seq<TimeInfo>, vc: VC, clk: nat)
    requires Increasing(h) && h != [] && Leq(h[|h| - 1].vc, vc) && h[|h| - 1].end <= clk
    ensures Increasing(Extended(h, vc, clk))
    ensures h[|h| - 1].vc == vc <==> exists e | e in h :: e.vc == vc
  {
    var last := |h| - 1;
    forall i | 0 <= i <= last && h[last].vc != vc ensures Before(h[i].vc, vc) {
      LeqIsPartialOrder(h[i].vc, h[last].vc, vc);
      LeqIsPartialOrder(h[last].vc, vc, vc);
    }
  }

  // ---------- the searches ----------

  lemma EarlierBelow(h: seq<TimeInfo>, i: nat, j: nat, vc: VC)
    requires Increasing(h) && i <= j < |h| && Leq(h[j].vc, vc)
    ensures Leq(h[i].vc, vc)
  {
    LeqIsPartialOrder(h[i].vc, h[j].vc, vc);
  }

  lemma LaterAbove(h: seq<TimeInfo>, i: nat, j: nat, vc: VC)
    requires Increasing(h) && i <= j < |h| && Leq(vc, h[i].vc)
    ensures Leq(vc, h[j].vc)
  {
    LeqIsPartialOrder(vc, h[i].vc, h[j].vc);
  }

  // Scans from the latest entry and stops at the first that answers.
  method CheckConcurrent(vc: VC, h: seq<TimeInfo>) returns (found: bool)
    requires Increasing(h)
    ensures found <==> exists e | e in h :: Concurrent(e.vc, vc)
  {
    var i := |h|;
    while i > 0
      invariant 0 <= i <= |h|
      invariant forall k | i <= k < |h| :: Leq(vc, h[k].vc)
    {
      i := i - 1;
      if Leq(h[i].vc, vc) {
        forall k | 0 <= k <= i ensures Leq(h[k].vc, vc) {
          EarlierBelow(h, k, i, vc);
        }
        return false;
      }
      if !Leq(vc, h[i].vc) {
        assert Concurrent(h[i].vc, vc);
        return true;
      }
    }
    return false;
  }

  // The earliest entry that does not happen before vc, found by walking back while that holds.
  method EarliestNotBefore(h: seq<TimeInfo>, vc: VC) returns (i: nat)
    requires Increasing(h)
    ensures i <= |h|
    ensures forall k | 0 <= k < |h| :: Leq(h[k].vc, vc) <==> k < i
  {
    i := |h|;
    while i > 0 && !Leq(h[i - 1].vc, vc)
      invariant 0 <= i <= |h|
      invariant forall k | i <= k < |h| :: !Leq(h[k].vc, vc)
    {
      i := i - 1;
    }
    forall k | 0 <= k < i ensures Leq(h[k].vc, vc) {
      EarlierBelow(h, k, i - 1, vc);
    }
  }

  // The number of leading entries that do not happen after vc.
  method LatestNotAfter(h: seq<TimeInfo>, vc: VC) returns (i: nat)
    requires Increasing(h)
    ensures i <= |h|
    ensures forall k | 0 <= k < |h| :: Leq(vc, h[k].vc) <==> i <= k
  {
    i := 0;
    while i < |h| && !Leq(vc, h[i].vc)
      invariant 0 <= i <= |h|
      invariant forall k | 0 <= k < i :: !Leq(vc, h[k].vc)
    {
      i := i + 1;
    }
    forall k | i <= k < |h| ensures Leq(vc, h[k].vc) {
      LaterAbove(h, i, k, vc);
    }
  }

  // The successor may come after prev, the predecessor before curr, and the local times allow
  // successor, predecessor in this order.
  predicate Surrounds(s: TimeInfo, p: TimeInfo, prev: VC, curr: VC) {
    !Leq(s.vc, prev) && !Leq(curr, p.vc) && s.start <= p.end
  }

  // Steps 1 to 3 of CheckCompound: one pair of entries decides for all of them.
  method CheckCompoundTimes(prev: VC, curr: VC, succ: seq<TimeInfo>, pred: seq<TimeInfo>) returns (found: bool)
    requires Increasing(succ) && Increasing(pred)
    ensures found <==> exists s, p | s in succ && p in pred :: Surrounds(s, p, prev, curr)
  {
    var i := EarliestNotBefore(succ, prev);
    if i == |succ| {
      return false;
    }
    var k := LatestNotAfter(pred, curr);
    if k == 0 {
      return false;
    }
    found := succ[i].start <= pred[k - 1].end;
    if found {
      assert Surrounds(succ[i], pred[k - 1], prev, curr);
    } else {
      forall a, b | 0 <= a < |succ| && 0 <= b < |pred| ensures !Surrounds(succ[a], pred[b], prev, curr) {
        assert a > i ==> succ[i].end <= succ[a].start;
        assert b < k - 1 ==> pred[b].end <= pred[k - 1].start;
      }
    }
  }

  predicate SurroundsReversed(s: TimeInfo, p: TimeInfo, prev: VC, curr: VC) {
    !Leq(s.vc, prev) && !Leq(curr, p.vc) && p.start <= s.end
  }

  // CheckCompound2 takes the latest successor and the earliest predecessor instead.
  method CheckCompound2Times(prev: VC, curr: VC, succ: seq<TimeInfo>, pred: seq<TimeInfo>) returns (found: bool)
    requires Increasing(succ) && Increasing(pred)
    ensures found <==> exists s, p | s in succ && p in pred :: SurroundsReversed(s, p, prev, curr)
  {
    var i := |succ|;
    while i > 0 && Leq(succ[i - 1].vc, prev)
      invariant 0 <= i <= |succ|
      invariant forall a | i <= a < |succ| :: Leq(succ[a].vc, prev)
    {
      i := i - 1;
    }
    if i == 0 {
      return false;
    }
    var k := 0;
    while k < |pred| && Leq(curr, pred[k].vc)
      invariant 0 <= k <= |pred|
      invariant forall b | 0 <= b < k :: Leq(curr, pred[b].vc)
    {
      k := k + 1;
    }
    if k == |pred| {
      return false;
    }
    found := pred[k].start <= succ[i - 1].end;
    if found {
      assert SurroundsReversed(succ[i - 1], pred[k], prev, curr);
    } else {
      forall a, b | 0 <= a < |succ| && 0 <= b < |pred| ensures !SurroundsReversed(succ[a], pred[b], prev, curr) {
        assert a < i - 1 ==> succ[a].end <= succ[i - 1].start;
        assert b > k ==> pred[k].end <= pred[b].start;
      }
    }
  }
}
