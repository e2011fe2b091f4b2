/** The monitoring units of an address range, and the loops that visit them. */
module MonitoringUnits {
  import opened Program

  function DownAlign(addr: Addr, unit: nat): Addr
    requires 0 < unit
  {
    addr - addr % unit
  }

  function UpAlign(addr: Addr, unit: nat): Addr
    requires 0 < unit
  {
    DownAlign(addr + unit - 1, unit)
  }

  function Units(start: Addr, end: Addr, unit: nat): (r: set<Addr>)
    requires 0 < unit
    decreases end - start
  {
    if start >= end then {} else {start} + Units(start + unit, end, unit)
  }

  // The units the loops over an access or a region visit.
  function Covered(addr: Addr, size: nat, unit: nat): set<Addr>
    requires 0 < unit
  {
    Units(DownAlign(addr, unit), UpAlign(addr + size, unit), unit)
  }

  lemma MulMonotone(a: nat, b: nat, u: nat)
    requires a <= b
    ensures u * a <= u * b
  {
    assert u * b == u * a + u * (b - a);
  }

  lemma MultipleMod(k: nat, u: nat)
    requires 0 < u
    ensures (u * k) % u == 0
  {
    var q, r := (u * k) / u, (u * k) % u;
    assert u * k == u * q + r;
    assert u * (q + 1) == u * q + u && u * (k + 1) == u * k + u;
    if q < k {
      MulMonotone(q + 1, k, u);
    } else if k < q {
      MulMonotone(k + 1, q, u);
    }
  }

  lemma NextMultiple(a: Addr, b: Addr, unit: nat)
    requires 0 < unit && a % unit == 0 && b % unit == 0
    ensures (a + unit) % unit == 0
    ensures a < b ==> a + unit <= b
  {
    var k, l := a / unit, b / unit;
    assert a == unit * k && b == unit * l;
    assert a + unit == unit * (k + 1);
    MultipleMod(k + 1, unit);
    if k < l {
      MulMonotone(k + 1, l, unit);
    } else {
      MulMonotone(l, k, unit);
    }
  }

  lemma {:induction false} UnitsAre(start: Addr, end: Addr, unit: nat, c: Addr)
    requires 0 < unit && start % unit == 0 && end % unit == 0
    ensures c in Units(start, end, unit) <==> start <= c < end && c % unit == 0
    decreases end - start
  {
    if start < end {
      NextMultiple(start, end, unit);
      UnitsAre(start + unit, end, unit, c);
      if c % unit == 0 {
        NextMultiple(start, c, unit);
      }
    }
  }

  lemma AlignedDown(addr: Addr, unit: nat)
    requires 0 < unit
    ensures DownAlign(addr, unit) % unit == 0 && DownAlign(addr, unit) <= addr < DownAlign(addr, unit) + unit
  {
    var k := addr / unit;
    assert addr == unit * k + addr % unit;
    MultipleMod(k, unit);
  }

  // They are exactly the aligned units that reach into the range, or hold an unaligned empty one.
  lemma CoveredAre(addr: Addr, size: nat, unit: nat, c: Addr)
    requires 0 < unit
    ensures c in Covered(addr, size, unit) <==> c % unit == 0 && c < addr + size && addr < c + unit
  {
    var start, end := DownAlign(addr, unit), UpAlign(addr + size, unit);
    AlignedDown(addr, unit);
    AlignedDown(addr + size + unit - 1, unit);
    UnitsAre(start, end, unit, c);
    if c % unit == 0 {
      NextMultiple(c, start, unit);
      NextMultiple(start, c, unit);
      NextMultiple(c, end, unit);
    }
  }

  lemma RemoveOneMore<V>(m: map<Addr, V>, start: Addr, end: Addr, unit: nat)
    requires 0 < unit && start < end
    ensures (m - {start}) - Units(start + unit, end, unit) == m - Units(start, end, unit)
  {
  }

  // Drops the visited units from a table.
  method EraseUnits<V>(table: map<Addr, V>, start: Addr, end: Addr, unit: nat) returns (kept: map<Addr, V>)
    requires 0 < unit
    ensures kept == table - Units(start, end, unit)
  {
    kept := table;
    var a := start;
    while a < end
      invariant kept - Units(a, end, unit) == table - Units(start, end, unit)
      decreases end - a
    {
      RemoveOneMore(kept, a, end, unit);
      if a in kept {
        kept := kept - {a};
      }
      a := a + unit;
    }
    assert kept - {} == kept;
  }
}
