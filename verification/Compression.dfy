/** Predictor's access vectors: Compress keeps the last access of every class, whenever it is called. */
module Compression {
  import opened Clocks
  import opened Program
  import opened Accesses
  import opened FlaggedLocks

  // An access with the locks held at it; the lock versions do not matter for its class.
  datatype MemAccess = MemAccess(kind: Kind, inst: Inst, ls: Versions, clk: nat)

  // The duplicate test: same type, same instruction, matching locksets.
  predicate SameClass(a: MemAccess, b: MemAccess) {
    a.kind == b.kind && a.inst == b.inst && a.ls.Keys == b.ls.Keys
  }

  predicate Covered(s: seq<MemAccess>, a: MemAccess) {
    exists i | 0 <= i < |s| :: SameClass(s[i], a)
  }

  function Compressed(s: seq<MemAccess>): (r: seq<MemAccess>)
    ensures |r| <= |s|
  {
    if s == [] then [] else
    var rest := Compressed(s[1..]);
    if Covered(rest, s[0]) then rest else [s[0]] + rest
  }

  // ---------- exactly the last occurrences, in order ----------

  ghost predicate LastOfClass(s: seq<MemAccess>, i: nat)
    requires i < |s|
  {
    forall j | i < j < |s| ::
      !(s[j].kind == s[i].kind && s[j].inst == s[i].inst && s[j].ls.Keys == s[i].ls.Keys)
  }

  lemma {:induction false} CoversTheSame(s: seq<MemAccess>, a: MemAccess)
    ensures Covered(Compressed(s), a) <==> Covered(s, a)
  {
    if s != [] {
      var rest := Compressed(s[1..]);
      CoversTheSame(s[1..], a);
      CoversTheSame(s[1..], s[0]);
      assert Covered(s, a) <==> SameClass(s[0], a) || Covered(s[1..], a) by {
        CoveredCons(s[0], s[1..], a);
        assert s == [s[0]] + s[1..];
      }
      CoveredCons(s[0], rest, a);
    }
  }

  lemma CoveredCons(x: MemAccess, s: seq<MemAccess>, a: MemAccess)
    ensures Covered([x] + s, a) <==> SameClass(x, a) || Covered(s, a)
  {
    var t := [x] + s;
    assert t[0] == x;
    assert forall i | 0 <= i < |s| :: t[i + 1] == s[i];
    if Covered(t, a) && !SameClass(x, a) {
      var i :| 0 <= i < |t| && SameClass(t[i], a);
      assert s[i - 1] == t[i];
    }
  }

  ghost predicate Picks(s: seq<MemAccess>, pos: seq<nat>, r: seq<MemAccess>) {
    && |pos| == |r|
    && (forall k | 0 <= k < |pos| :: pos[k] < |s| && r[k] == s[pos[k]])
    && (forall k, l | 0 <= k < l < |pos| :: pos[k] < pos[l])
    && (forall i | 0 <= i < |s| :: i in pos <==> LastOfClass(s, i))
  }

  function Shift(pos: seq<nat>): seq<nat> {
    seq(|pos|, i requires 0 <= i < |pos| => pos[i] + 1)
  }

  lemma LastInTail(s: seq<MemAccess>, i: nat)
    requires 0 < i < |s|
    ensures LastOfClass(s, i) <==> LastOfClass(s[1..], i - 1)
  {
    assert forall j | i < j < |s| :: s[j] == s[1..][j - 1];
    assert forall j | i - 1 < j < |s[1..]| :: s[1..][j] == s[j + 1];
  }

  lemma ShiftMember(pos: seq<nat>, i: nat)
    ensures i in Shift(pos) <==> i > 0 && i - 1 in pos
  {
    if i > 0 && i - 1 in pos {
      var k :| 0 <= k < |pos| && pos[k] == i - 1;
      assert Shift(pos)[k] == i;
    }
  }

  lemma HeadIsLast(s: seq<MemAccess>)
    requires s != []
    ensures LastOfClass(s, 0) <==> !Covered(s[1..], s[0])
  {
    assert forall j | 0 < j < |s| :: s[j] == s[1..][j - 1];
    assert forall j | 0 <= j < |s[1..]| :: s[1..][j] == s[j + 1];
  }

  lemma PicksShifted(s: seq<MemAccess>, tail: seq<nat>, r: seq<MemAccess>)
    requires s != [] && Picks(s[1..], tail, r) && Covered(s[1..], s[0])
    ensures Picks(s, Shift(tail), r)
  {
    HeadIsLast(s);
    forall i | 0 <= i < |s| ensures i in Shift(tail) <==> LastOfClass(s, i) {
      ShiftMember(tail, i);
      if i > 0 {
        LastInTail(s, i);
      }
    }
  }

  lemma PicksHead(s: seq<MemAccess>, tail: seq<nat>, r: seq<MemAccess>)
    requires s != [] && Picks(s[1..], tail, r) && !Covered(s[1..], s[0])
    ensures Picks(s, [0] + Shift(tail), [s[0]] + r)
  {
    HeadIsLast(s);
    forall i | 0 <= i < |s| ensures i in [0] + Shift(tail) <==> LastOfClass(s, i) {
      ShiftMember(tail, i);
      if i > 0 {
        LastInTail(s, i);
      }
    }
  }

  // The result is the subsequence of s at the positions that are the last of their class.
  lemma {:induction false} KeepsLastOccurrences(s: seq<MemAccess>) returns (pos: seq<nat>)
    ensures Picks(s, pos, Compressed(s))
  {
    if s == [] {
      pos := [];
    } else {
      var tail := KeepsLastOccurrences(s[1..]);
      CoversTheSame(s[1..], s[0]);
      if Covered(s[1..], s[0]) {
        PicksShifted(s, tail, Compressed(s[1..]));
        pos := Shift(tail);
      } else {
        PicksHead(s, tail, Compressed(s[1..]));
        pos := [0] + Shift(tail);
      }
    }
  }

  // ---------- compressing early makes no difference ----------

  // Compressing a prefix first gives the same final result: when Compress runs does not matter.
  lemma {:induction false} CompressEarly(s: seq<MemAccess>, t: seq<MemAccess>)
    ensures Compressed(Compressed(s) + t) == Compressed(s + t)
  {
    if s == [] {
      assert Compressed(s) + t == s + t;
    } else {
      var x, rest := s[0], s[1..];
      CompressEarly(rest, t);
      assert (s + t)[1..] == rest + t;
      CoversTheSame(rest, x);
      CoversTheSame(rest + t, x);
      if Covered(rest, x) {
        var i :| 0 <= i < |rest| && SameClass(rest[i], x);
        assert SameClass((rest + t)[i], x);
      } else {
        assert ([x] + Compressed(rest) + t)[1..] == Compressed(rest) + t;
      }
    }
  }

  lemma Idempotent(s: seq<MemAccess>)
    ensures Compressed(Compressed(s)) == Compressed(s)
  {
    CompressEarly(s, []);
    assert Compressed(s) + [] == Compressed(s) && s + [] == s;
  }

  lemma {:induction false} KeepsTheLast(s: seq<MemAccess>)
    requires s != []
    ensures Compressed(s) != [] && Compressed(s)[|Compressed(s)| - 1] == s[|s| - 1]
  {
    if |s| > 1 {
      KeepsTheLast(s[1..]);
    }
  }

  lemma SnocTail(s: seq<MemAccess>, a: MemAccess)
    requires s != []
    ensures (s + [a])[1..] == s[1..] + [a] && (s + [a])[0] == s[0]
  {
  }

  // One more access adds one entry exactly when its class is new.
  lemma {:induction false} CompressedSize(s: seq<MemAccess>, a: MemAccess)
    ensures |Compressed(s + [a])| == |Compressed(s)| + if Covered(s, a) then 0 else 1
  {
    if s == [] {
      assert s + [a] == [a] && [a][1..] == [];
    } else {
      var x, rest := s[0], s[1..];
      SnocTail(s, a);
      CompressedSize(rest, a);
      CoversTheSame(rest, x);
      CoversTheSame(rest + [a], x);
      CoveredCons(x, rest, a);
      assert s == [x] + rest;
      CoveredSnoc(rest, a, x);
      if Covered(rest, x) && SameClass(x, a) {
        var i :| 0 <= i < |rest| && SameClass(rest[i], x);
        assert SameClass(rest[i], a);
      }
      if SameClass(x, a) && Covered(rest, a) {
        var i :| 0 <= i < |rest| && SameClass(rest[i], a);
        assert SameClass(rest[i], x);
      }
    }
  }

  lemma CoveredSnoc(s: seq<MemAccess>, a: MemAccess, x: MemAccess)
    ensures Covered(s + [a], x) <==> Covered(s, x) || SameClass(a, x)
  {
    var t := s + [a];
    assert t[|s|] == a && forall i | 0 <= i < |s| :: t[i] == s[i];
    if i :| 0 <= i < |s| && SameClass(s[i], x) {
      assert SameClass(t[i], x);
    }
  }

  // ---------- the history of one thread for one location ----------

  // The accesses made in one clock value.
  datatype Timed = Timed(vc: VC, accesses: seq<MemAccess>)

  const COMPRESS_STEP := 70

  // The history when nothing is ever compressed.
  ghost function Logged(log: seq<Timed>, vc: VC, a: MemAccess): seq<Timed> {
    if log != [] && log[|log| - 1].vc == vc
    then log[|log| - 1 := Timed(vc, log[|log| - 1].accesses + [a])]
    else log + [Timed(vc, [a])]
  }

  // All accesses of a history, each with the clock it was made in.
  ghost function Flat(log: seq<Timed>): seq<(VC, MemAccess)> {
    if log == [] then [] else
    var v := log[|log| - 1];
    Flat(log[..|log| - 1]) + seq(|v.accesses|, i requires 0 <= i < |v.accesses| => (v.vc, v.accesses[i]))
  }

  // Nothing is lost or reordered, and neighbouring vectors are of different clocks.
  ghost predicate Groups(log: seq<Timed>, made: seq<(VC, MemAccess)>) {
    && Flat(log) == made
    && forall i | 0 <= i < |log| - 1 :: log[i].vc != log[i + 1].vc
  }

  lemma LoggedGroups(log: seq<Timed>, made: seq<(VC, MemAccess)>, vc: VC, a: MemAccess)
    requires Groups(log, made)
    ensures Groups(Logged(log, vc, a), made + [(vc, a)])
  {
    var log', last := Logged(log, vc, a), |log| - 1;
    if log != [] && log[last].vc == vc {
      assert log'[..last] == log[..last];
      assert Flat(log') == Flat(log) + [(vc, a)];
    } else {
      assert log'[..|log|] == log;
      assert Flat(log') == Flat(log) + [(vc, a)];
    }
  }

  ghost predicate StandsFor(v: Timed, full: Timed, closed: bool) {
    && v.vc == full.vc && v.accesses != [] && full.accesses != []
    && Compressed(v.accesses) == Compressed(full.accesses)
    && (closed ==> v.accesses == Compressed(full.accesses))
  }

  lemma CompressedStandsFor(v: Timed, full: Timed)
    requires StandsFor(v, full, false)
    ensures StandsFor(Timed(v.vc, Compressed(v.accesses)), full, true)
    ensures Compressed(v.accesses)[|Compressed(v.accesses)| - 1] == v.accesses[|v.accesses| - 1]
  {
    KeepsTheLast(v.accesses);
    Idempotent(v.accesses);
  }

  ghost predicate AllStandFor(accesses: seq<Timed>, log: seq<Timed>) {
    && |accesses| == |log|
    && forall i | 0 <= i < |log| :: StandsFor(accesses[i], log[i], i < |log| - 1)
  }

  function LastOf(accesses: seq<Timed>): Option<MemAccess> {
    if accesses == [] || accesses[|accesses| - 1].accesses == [] then None
    else
      var s := accesses[|accesses| - 1].accesses;
      Some(s[|s| - 1])
  }

  function CompressedLast(accesses: seq<Timed>): seq<Timed>
    requires accesses != []
  {
    var last := |accesses| - 1;
    accesses[last := Timed(accesses[last].vc, Compressed(accesses[last].accesses))]
  }

  lemma CompressedLastStands(accesses: seq<Timed>, log: seq<Timed>)
    requires accesses != [] && AllStandFor(accesses, log)
    ensures AllStandFor(CompressedLast(accesses), log)
    ensures StandsFor(CompressedLast(accesses)[|log| - 1], log[|log| - 1], true)
    ensures LastOf(CompressedLast(accesses)) == LastOf(accesses)
  {
    CompressedStandsFor(accesses[|log| - 1], log[|log| - 1]);
  }

  // Once the last vector is closed, a new one can be opened.
  lemma OpenStandsFor(accesses: seq<Timed>, log: seq<Timed>, v: Timed)
    requires AllStandFor(accesses, log) && v.accesses != []
    requires log != [] ==> StandsFor(accesses[|log| - 1], log[|log| - 1], true)
    ensures AllStandFor(accesses + [v], log + [v])
  {
    forall i | 0 <= i <= |log| ensures StandsFor((accesses + [v])[i], (log + [v])[i], i < |log|) {
      if i < |log| {
        assert StandsFor(accesses[i], log[i], i < |log| - 1);
      }
    }
  }

  // The open vector is never longer than its compressed form by the threshold or more.
  ghost predicate Bounded(accesses: seq<Timed>, lastSize: nat, log: seq<Timed>) {
    accesses != [] && log != [] ==>
      && lastSize <= |Compressed(log[|log| - 1].accesses)|
      && |accesses[|accesses| - 1].accesses| < lastSize + COMPRESS_STEP
  }

  class History {
    var accesses: seq<Timed>
    var lastSize: nat
    ghost var log: seq<Timed>
    ghost var made: seq<(VC, MemAccess)>

    // Every vector stands for the accesses of its clock: closed vectors are their compression, and the
    // open one compresses to the same.
    ghost predicate Valid()
      reads this
    {
      AllStandFor(accesses, log) && Bounded(accesses, lastSize, log) && Groups(log, made)
    }

    constructor ()
      ensures Valid() && made == []
    {
      accesses, lastSize, log, made := [], 0, [], [];
    }

    static method Compress(s: seq<MemAccess>) returns (results: seq<MemAccess>)
      ensures results == Compressed(s)
    {
      results := [];
      var i := |s|;
      while i > 0
        invariant 0 <= i <= |s| && results == Compressed(s[i..])
      {
        i := i - 1;
        var duplicate := false;
        var k := 0;
        while k < |results| && !duplicate
          invariant 0 <= k <= |results|
          invariant duplicate ==> Covered(results, s[i])
          invariant !duplicate ==> forall l | 0 <= l < k :: !SameClass(results[l], s[i])
        {
          duplicate := SameClass(results[k], s[i]);
          k := k + 1;
        }
        assert s[i..][1..] == s[i + 1..];
        if !duplicate {
          results := [s[i]] + results;
        }
      }
    }

    // Never changes what FindLastAccess returns, nor what the vectors stand for.
    method CompressLast()
      requires AllStandFor(accesses, log) && accesses != []
      modifies this`accesses
      ensures AllStandFor(accesses, log) && accesses == CompressedLast(old(accesses))
      ensures StandsFor(accesses[|log| - 1], log[|log| - 1], true)
      ensures LastAccess() == old(LastAccess())
    {
      CompressedLastStands(accesses, log);
      var last := |accesses| - 1;
      var results := Compress(accesses[last].accesses);
      accesses := accesses[last := Timed(accesses[last].vc, results)];
    }

    // The open vector is compressed when it has grown enough, the closed one always.
    method UpdateMemAccess(vc: VC, a: MemAccess)
      requires Valid()
      modifies this
      ensures Valid() && made == old(made) + [(vc, a)]
      ensures LastAccess() == Some(a)
      ensures accesses != [] && |accesses| == |log|
      ensures var last := |log| - 1; |accesses[last].accesses| < |Compressed(log[last].accesses)| + 70
    {
      LoggedGroups(log, made, vc, a);
      made := made + [(vc, a)];
      if accesses != [] && accesses[|accesses| - 1].vc == vc {
        Append(a);
        CheckCompress();
      } else {
        Renew(vc, a);
      }
    }

    // Closes the open vector and opens one for a new clock.
    method Renew(vc: VC, a: MemAccess)
      requires AllStandFor(accesses, log)
      requires accesses != [] ==> accesses[|accesses| - 1].vc != vc
      modifies this`accesses, this`log, this`lastSize
      ensures AllStandFor(accesses, log) && Bounded(accesses, lastSize, log) && log == Logged(old(log), vc, a)
      ensures LastAccess() == Some(a)
    {
      if accesses != [] {
        CompressLast();
      }
      Open(vc, a);
    }

    // The open vector is compressed exactly when it has grown by 70 since its last compression.
    method CheckCompress()
      requires AllStandFor(accesses, log) && accesses != []
      requires lastSize <= |Compressed(log[|log| - 1].accesses)|
      modifies this`accesses, this`lastSize
      ensures AllStandFor(accesses, log) && Bounded(accesses, lastSize, log) && LastAccess() == old(LastAccess())
      ensures var size := |old(accesses)[|old(accesses)| - 1].accesses|;
              if size >= old(lastSize) + 70
              then accesses == CompressedLast(old(accesses)) && lastSize == |accesses[|accesses| - 1].accesses|
              else accesses == old(accesses) && lastSize == old(lastSize)
    {
      var size := |accesses[|accesses| - 1].accesses|;
      if size < lastSize || size - lastSize < COMPRESS_STEP {
        return;
      }
      CompressLast();
      lastSize := |accesses[|accesses| - 1].accesses|;
    }

    method Open(vc: VC, a: MemAccess)
      requires AllStandFor(accesses, log)
      requires accesses != [] ==> StandsFor(accesses[|accesses| - 1], log[|log| - 1], true)
      requires accesses != [] ==> accesses[|accesses| - 1].vc != vc
      modifies this`accesses, this`log, this`lastSize
      ensures AllStandFor(accesses, log) && Bounded(accesses, lastSize, log) && log == Logged(old(log), vc, a)
      ensures LastAccess() == Some(a)
    {
      OpenStandsFor(accesses, log, Timed(vc, [a]));
      accesses := accesses + [Timed(vc, [a])];
      log := log + [Timed(vc, [a])];
      lastSize := 0;
    }

    method Append(a: MemAccess)
      requires AllStandFor(accesses, log) && Bounded(accesses, lastSize, log) && accesses != []
      modifies this`accesses, this`log
      ensures AllStandFor(accesses, log) && log != [] && lastSize <= |Compressed(log[|log| - 1].accesses)|
      ensures log == Logged(old(log), old(log)[|old(log)| - 1].vc, a)
      ensures LastAccess() == Some(a) && |accesses| == |old(accesses)|
    {
      var last := |accesses| - 1;
      AppendKeepsClass(accesses[last].accesses, log[last].accesses, a);
      CompressedSize(log[last].accesses, a);
      accesses := accesses[last := accesses[last].(accesses := accesses[last].accesses + [a])];
      log := log[last := Timed(log[last].vc, log[last].accesses + [a])];
    }

    function LastAccess(): Option<MemAccess>
      reads this
    {
      LastOf(accesses)
    }

    // The last access made, however much has been compressed.
    method FindLastAccess() returns (a: Option<MemAccess>)
      requires Valid()
      ensures a == LastAccess()
      ensures a == if made == [] then None else Some(made[|made| - 1].1)
    {
      LastMade(log);
      if accesses == [] {
        return None;
      }
      var s := accesses[|accesses| - 1].accesses;
      KeepsTheLast(s);
      KeepsTheLast(log[|log| - 1].accesses);
      return Some(s[|s| - 1]);
    }
  }

  lemma LastMade(log: seq<Timed>)
    ensures log == [] ==> Flat(log) == []
    ensures log != [] && log[|log| - 1].accesses != [] ==>
              var s := log[|log| - 1].accesses;
              Flat(log) != [] && Flat(log)[|Flat(log)| - 1] == (log[|log| - 1].vc, s[|s| - 1])
  {
  }

  lemma AppendKeepsClass(s: seq<MemAccess>, t: seq<MemAccess>, a: MemAccess)
    requires Compressed(s) == Compressed(t)
    ensures Compressed(s + [a]) == Compressed(t + [a])
  {
    CompressEarly(s, [a]);
    CompressEarly(t, [a]);
  }
}
