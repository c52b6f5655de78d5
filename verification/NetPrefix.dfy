/** Address prefixes (netip.Prefix) over addresses as numbers. */
module NetPrefix {
  import opened NetAddr

  datatype Prefix = Prefix(family: Family, addr: nat, bits: nat)

  function Width(f: Family): nat {
    if f == FamilyIPv4 then 32 else 128
  }

  predicate ValidPrefix(p: Prefix) {
    p.bits <= Width(p.family) && p.addr < PowerOf2(Width(p.family))
  }

  /** The number without its k low bits. */
  function Shift(a: nat, k: nat): nat
    decreases k
  {
    if k == 0 then a else Shift(a / 2, k - 1)
  }

  predicate Contains(p: Prefix, family: Family, a: nat) {
    && p.family == family && p.bits <= Width(family)
    && Shift(a, Width(family) - p.bits) == Shift(p.addr, Width(family) - p.bits)
  }

  lemma {:induction false} ShiftTwice(a: nat, j: nat, k: nat)
    ensures Shift(a, j + k) == Shift(Shift(a, j), k)
    decreases j
  {
    if j > 0 {
      ShiftTwice(a / 2, j - 1, k);
    }
  }

  /** Two addresses that agree above bit j agree above every higher bit. */
  lemma ShiftAgrees(a: nat, b: nat, j: nat, k: nat)
    requires j <= k && Shift(a, j) == Shift(b, j)
    ensures Shift(a, k) == Shift(b, k)
  {
    ShiftTwice(a, j, k - j);
    ShiftTwice(b, j, k - j);
  }

  lemma {:induction false} ShiftOfMultiple(x: nat, k: nat)
    ensures Shift(x * PowerOf2(k), k) == x
    decreases k
  {
    if k > 0 {
      var half := PowerOf2(k - 1);
      assert x * PowerOf2(k) == 2 * (x * half);
      ShiftOfMultiple(x, k - 1);
    }
  }

  lemma {:induction false} ShiftBound(a: nat, j: nat, k: nat)
    requires a < PowerOf2(j + k)
    ensures Shift(a, j) < PowerOf2(k)
    decreases j
  {
    if j > 0 {
      ShiftBound(a / 2, j - 1, k);
    }
  }

  lemma {:induction false} PowerSum(j: nat, k: nat)
    ensures PowerOf2(j + k) == PowerOf2(j) * PowerOf2(k)
    decreases j
  {
    if j > 0 {
      PowerSum(j - 1, k);
      assert PowerOf2(j) * PowerOf2(k) == 2 * (PowerOf2(j - 1) * PowerOf2(k));
    }
  }

  // ---------------------------------------------------------------- prefixes as address intervals

  /** The addresses with v above bit k form an interval. */
  lemma {:induction false} ShiftRange(a: nat, k: nat, v: nat)
    ensures Shift(a, k) == v <==> v * PowerOf2(k) <= a < v * PowerOf2(k) + PowerOf2(k)
    decreases k
  {
    if k > 0 {
      ShiftRange(a / 2, k - 1, v);
      Doubled(v, PowerOf2(k - 1));
    }
  }

  lemma Doubled(v: nat, m: nat)
    ensures v * (2 * m) == 2 * (v * m)
  {}

  lemma ShiftIsDivision(a: nat, k: nat)
    ensures Shift(a, k) == a / PowerOf2(k)
  {
    ShiftRange(a, k, Shift(a, k));
    DivisionIs(a, PowerOf2(k), Shift(a, k));
  }

  lemma DivisionIs(a: nat, m: nat, q: nat)
    requires m > 0 && q * m <= a < q * m + m
    ensures a / m == q
  {
    var q', r' := a / m, a % m;
    assert a == m * q' + r';
    assert m * q' == q' * m;
    SameQuotient(m, q, a - q * m, q', r');
  }

  lemma SameQuotient(m: nat, q: nat, r: nat, q': nat, r': nat)
    requires q * m + r == q' * m + r' && r < m && r' < m
    ensures q == q'
  {
    if q < q' {
      MoreTimes(q + 1, q', m);
    } else if q' < q {
      MoreTimes(q' + 1, q, m);
    }
  }

  lemma MoreTimes(a: nat, b: nat, m: nat)
    requires a <= b
    ensures a * m <= b * m
  {}

  /** A prefix holds the 2^low addresses from its masked one on. */
  lemma ContainsExactly(p: Prefix, family: Family, a: nat)
    requires p.bits <= Width(p.family)
    ensures var size := PowerOf2(Width(p.family) - p.bits);
      Contains(p, family, a) <==> p.family == family && p.addr / size * size <= a < p.addr / size * size + size
  {
    var low := Width(p.family) - p.bits;
    ShiftIsDivision(p.addr, low);
    ShiftRange(a, low, p.addr / PowerOf2(low));
  }

  lemma Powers()
    ensures PowerOf2(8) == 0x100 && PowerOf2(16) == 0x1_0000 && PowerOf2(20) == 0x10_0000 && PowerOf2(24) == 0x100_0000
    ensures PowerOf2(28) == 0x1000_0000 && PowerOf2(32) == 0x1_0000_0000
  {
    FieldSizes();
    assert PowerOf2(4) == 16;
    PowerSum(16, 4);
    PowerSum(16, 8);
    PowerSum(24, 4);
    PowerSum(16, 16);
  }

  lemma HalfWidth()
    ensures PowerOf2(64) == 0x1_0000_0000_0000_0000
  {
    Powers();
    PowerSum(32, 32);
  }

  lemma ThreeQuarters()
    ensures PowerOf2(112) == 0x1_0000_0000_0000_0000_0000_0000_0000
  {
    Powers();
    HalfWidth();
    PowerSum(64, 32);
    PowerSum(96, 16);
  }

  lemma LargePowers()
    ensures PowerOf2(118) == 0x40_0000_0000_0000_0000_0000_0000_0000
    ensures PowerOf2(120) == 0x100_0000_0000_0000_0000_0000_0000_0000
  {
    ThreeQuarters();
    FieldSizes();
    assert PowerOf2(6) == 64;
    PowerSum(112, 6);
    PowerSum(112, 8);
  }
}
