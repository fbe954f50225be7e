/** Page sizes, alignment and the address spans of the page-table levels. */
module Arithmetic {
  const PAGE_4KB: nat := 4096
  const PAGE_64KB: nat := 65536
  const PAGE_2MB: nat := 2097152

  function Min(a: nat, b: nat): nat { if a <= b then a else b }

  function Max(a: nat, b: nat): nat { if a >= b then a else b }

  /** `x & ~(unit - 1)` for a power-of-two unit. */
  function RoundDown(x: nat, unit: nat): nat
    requires unit > 0
  {
    x / unit * unit
  }

  /** `(x + unit - 1) & ~(unit - 1)` for a power-of-two unit. */
  function RoundUp(x: nat, unit: nat): nat
    requires unit > 0
  {
    RoundDown(x + unit - 1, unit)
  }

  /** The first address after the page that holds x. */
  function PageEnd(x: nat, unit: nat): nat
    requires unit > 0
  {
    (x / unit + 1) * unit
  }

  lemma PageEndAfter(x: nat, unit: nat)
    requires unit > 0
    ensures x < PageEnd(x, unit) == x + (unit - x % unit)
  {
    assert x == x / unit * unit + x % unit;
  }

  lemma RoundDownBounds(x: nat, unit: nat)
    requires unit > 0
    ensures RoundDown(x, unit) <= x < RoundDown(x, unit) + unit
    ensures x == RoundDown(x, unit) + x % unit
    ensures RoundDown(x, unit) % unit == 0
  {
    assert x == x / unit * unit + x % unit;
    MultipleModulo(x / unit, unit);
  }

  lemma MultipleModulo(k: nat, unit: nat)
    requires unit > 0
    ensures k * unit % unit == 0
  {
    if k > 0 {
      MultipleModulo(k - 1, unit);
      var m := (k - 1) * unit;
      assert k * unit == m + unit;
      var q := m / unit;
      assert m == q * unit + m % unit;
      assert m + unit == (q + 1) * unit;
      DivisionUnique(m + unit, unit, q + 1, 0);
    }
  }

  lemma DivisionUnique(x: nat, unit: nat, q: nat, r: nat)
    requires unit > 0 && r < unit && x == q * unit + r
    ensures x / unit == q && x % unit == r
  {
    var d := x / unit - q;
    assert x == x / unit * unit + x % unit;
    assert d * unit == r - x % unit;
    if d >= 1 {
      MulAtLeast(d, unit);
      assert false;
    } else if d <= -1 {
      MulAtLeast(-d, unit);
      assert false;
    }
  }

  lemma MulAtLeast(d: int, unit: nat)
    requires d >= 1
    ensures d * unit >= unit
  {
    assert d * unit == (d - 1) * unit + unit;
  }

  lemma RoundUpBounds(x: nat, unit: nat)
    requires unit > 0
    ensures x <= RoundUp(x, unit) < x + unit
    ensures RoundUp(x, unit) % unit == 0
  {
    RoundDownBounds(x + unit - 1, unit);
  }

  /** Bytes of address space below one entry of the table at `level + 1`; a 4-level or 5-level root covers Span(4) or Span(5). */
  function Span(level: nat): (r: nat)
    requires level <= 5
    ensures r > 0
  {
    if level == 0 then 0x1000
    else if level == 1 then 0x20_0000
    else if level == 2 then 0x4000_0000
    else if level == 3 then 0x80_0000_0000
    else if level == 4 then 0x1_0000_0000_0000
    else 0x200_0000_0000_0000
  }

  lemma SpanStep(va: nat, level: nat)
    requires level <= 4
    ensures va / Span(level) / 512 == va / Span(level + 1)
    ensures va / Span(level + 1) * 512 + va / Span(level) % 512 == va / Span(level)
  {
  }

  /** A multiple of 64KB counted in 4KB pages. */
  lemma WholePages(x: nat, m: nat)
    requires x == m * PAGE_64KB
    ensures x % PAGE_64KB == 0 && x % PAGE_4KB == 0 && x / PAGE_4KB == m * 16
    ensures (x + PAGE_4KB - 1) / PAGE_4KB == m * 16
  {
    MultipleModulo(m, PAGE_64KB);
    assert x == m * 16 * PAGE_4KB;
    DivisionUnique(x, PAGE_4KB, m * 16, 0);
    DivisionUnique(x + PAGE_4KB - 1, PAGE_4KB, m * 16, PAGE_4KB - 1);
  }

  /** The end of a 64KB or 2MB page is a multiple of 64KB. */
  lemma LargePageEnds(x: nat, unit: nat)
    requires unit == PAGE_64KB || unit == PAGE_2MB
    ensures exists m: nat :: PageEnd(x, unit) == m * PAGE_64KB
  {
    var m := if unit == PAGE_64KB then x / unit + 1 else (x / unit + 1) * 32;
    assert PageEnd(x, unit) == m * PAGE_64KB;
  }

  lemma MultipleOfMultiple(x: nat, unit: nat, small: nat)
    requires unit > 0 && small > 0 && x % unit == 0 && unit % small == 0
    ensures x % small == 0
  {
    var k, j := x / unit, unit / small;
    assert x == k * unit && unit == j * small;
    assert k * (j * small) == (k * j) * small;
    MultipleModulo(k * j, small);
  }

  lemma DivideTwice(x: nat, a: nat, b: nat)
    requires a > 0 && b > 0
    ensures a * b > 0 && x / (a * b) == x / a / b
  {
    var q := x / a;
    MulAtLeast(a, b);
    assert x == q * a + x % a && q == q / b * b + q % b;
    assert x == q / b * (a * b) + (q % b * a + x % a) by {
      assert q * a == q / b * b * a + q % b * a;
      assert q / b * b * a == q / b * (a * b);
    }
    assert q % b * a + a <= a * b by { MulMono(q % b + 1, b, a); assert (q % b + 1) * a == q % b * a + a; }
    DivisionUnique(x, a * b, q / b, q % b * a + x % a);
  }

  lemma MulMono(x: nat, y: nat, z: nat)
    requires x <= y
    ensures x * z <= y * z
  {
    assert y * z == x * z + (y - x) * z;
  }
}
