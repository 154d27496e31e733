/** Rounding of buffer offsets up to the alignment of the backend. */
module Alignment {

  /** `offset` moved up to the first offset at which `base + offset` is a multiple of the
      alignment.  The two `ensures` determine the result: a window of `alignment`
      consecutive numbers holds exactly one multiple. */
  function AlignedOffset(base: nat, offset: nat, alignment: nat): (r: nat)
    requires alignment > 0
    ensures offset <= r < offset + alignment
    ensures (base + r) % alignment == 0
  {
    var align := (alignment - (base + offset) % alignment) % alignment;
    GapReachesMultiple(base + offset, alignment);
    assert base + (offset + align) == base + offset + align;
    offset + align
  }

  lemma GapReachesMultiple(x: nat, d: nat)
    requires d > 0
    ensures var gap := (d - x % d) % d; gap < d && (x + gap) % d == 0
  {
    var q, m := x / d, x % d;
    assert x == q * d + m;
    if m == 0 {
      DivModUnique(d, d, 1, 0);
    } else {
      DivModUnique(d - m, d, 0, d - m);
      assert x + (d - m) == (q + 1) * d;
      DivModUnique((q + 1) * d, d, q + 1, 0);
    }
  }

  lemma DivModUnique(x: int, d: nat, q: int, m: nat)
    requires d > 0 && x == q * d + m && m < d
    ensures x % d == m
  {
    var q', m' := x / d, x % d;
    assert x == q' * d + m';
    if q' < q {
      ProductsApart(q', q, d);
    } else if q < q' {
      ProductsApart(q, q', d);
    }
  }

  lemma ProductsApart(a: int, b: int, d: nat)
    requires a < b
    ensures a * d + d <= b * d
  {
    assert (b - a - 1) * d >= 0;
  }

  lemma SumOfMultiples(x: int, y: int, d: nat)
    requires d > 0 && x % d == 0 && y % d == 0
    ensures (x + y) % d == 0
  {
    var p, q := x / d, y / d;
    assert x == p * d && y == q * d;
    assert x + y == (p + q) * d;
    DivModUnique(x + y, d, p + q, 0);
  }

  lemma AlignedOffsetMonotone(m: nat, n: nat, alignment: nat)
    requires alignment > 0 && m <= n
    ensures AlignedOffset(0, m, alignment) <= AlignedOffset(0, n, alignment)
  {
    NextMultiple(m, AlignedOffset(0, m, alignment), AlignedOffset(0, n, alignment), alignment);
  }

  lemma NextMultiple(n: nat, a: nat, b: nat, d: nat)
    requires d > 0 && a < n + d && n <= b && a % d == 0 && b % d == 0
    ensures a <= b
  {
    var i, j := a / d, b / d;
    assert a == i * d && b == j * d;
    if j < i { ProductsApart(j, i, d); }
  }
}
