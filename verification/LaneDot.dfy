/** The integer part of the scalar dot-product kernels: eight accumulators, each taking every
    eighth element, and the sums of sixteen that stand in for the mins. */
module LaneDot {
  newtype int8 = x: int | -0x80 <= x < 0x80
  newtype uint8 = x: int | 0 <= x < 0x100
  newtype int16 = x: int | -0x8000 <= x < 0x8000
  newtype int32 = x: int | -0x8000_0000 <= x < 0x8000_0000

  /** The elements of a block. */
  const QK_K: nat := 256

  /** A block's worth of quants against a block's worth of 8-bit ones. The scale of an element is
      that of its group of width elements. */
  datatype Block = Block(quants: seq<int8>, q8: seq<int8>, scales: seq<int32>, width: nat) {
    predicate Valid() {
      && |quants| == |q8| == QK_K
      && (width == 16 || width == 32)
      && |scales| == QK_K / width
      && forall i :: 0 <= i < |scales| ==> -0x80 <= scales[i] < 0x100
    }

    /** What element e adds to the dot product. */
    function Term(e: nat): int
      requires Valid() && e < QK_K
    {
      scales[e / width] as int * (quants[e] as int * q8[e] as int)
    }
  }

  /** The plain sum over the first n elements. */
  function PlainSum(b: Block, n: nat): int
    requires b.Valid() && n <= QK_K
  {
    if n == 0 then 0 else PlainSum(b, n - 1) + b.Term(n - 1)
  }

  /** Lane l after n strips of eight elements. */
  function LaneSum(b: Block, l: nat, n: nat): int
    requires b.Valid() && l < 8 && 8 * n <= QK_K
  {
    if n == 0 then 0 else LaneSum(b, l, n - 1) + b.Term(8 * (n - 1) + l)
  }

  /** The first k lanes after n strips, together. */
  function LanesTogether(b: Block, k: nat, n: nat): int
    requires b.Valid() && k <= 8 && 8 * n <= QK_K
  {
    if k == 0 then 0 else LanesTogether(b, k - 1, n) + LaneSum(b, k - 1, n)
  }

  lemma {:induction false} StripAdded(b: Block, k: nat, n: nat)
    requires b.Valid() && k <= 8 && 8 * (n + 1) <= QK_K
    ensures LanesTogether(b, k, n + 1) - LanesTogether(b, k, n) == PlainSum(b, 8 * n + k) - PlainSum(b, 8 * n)
  {
    if k == 0 {
    } else {
      StripAdded(b, k - 1, n);
    }
  }

  /** The eight lanes together are the plain sum. */
  lemma {:induction false} LanesAreSum(b: Block, n: nat)
    requires b.Valid() && 8 * n <= QK_K
    ensures LanesTogether(b, 8, n) == PlainSum(b, 8 * n)
  {
    hide LaneSum, LanesTogether;
    if n == 0 {
      NothingYet(b, 8);
    } else {
      LanesAreSum(b, n - 1);
      StripAdded(b, 8, n - 1);
    }
  }

  lemma {:induction false} NothingYet(b: Block, k: nat)
    requires b.Valid() && k <= 8
    ensures LanesTogether(b, k, 0) == 0
  {
    if k == 0 {
    } else {
      NothingYet(b, k - 1);
    }
  }

  // ---------- No intermediate value overflows ----------

  predicate Within(x: int, bound: int) { -bound <= x <= bound }

  lemma ProductWithin(x: int, y: int, a: nat, b: nat)
    requires Within(x, a) && Within(y, b)
    ensures Within(x * y, a * b)
  {
    if x >= 0 {
      ScaledWithin(x, y, b);
      Grows(x, a, b);
    } else {
      ScaledWithin(-x, y, b);
      Grows(-x, a, b);
      assert x * y == -((-x) * y);
    }
  }

  lemma ScaledWithin(x: nat, y: int, b: nat)
    requires Within(y, b)
    ensures Within(x * y, x * b)
  {
    assert x * (b - y) >= 0 && x * (b + y) >= 0;
    assert x * (b - y) == x * b - x * y && x * (b + y) == x * b + x * y;
  }

  lemma Grows(x: nat, a: nat, b: nat)
    requires x <= a
    ensures x * b <= a * b
  {
  }

  lemma {:induction false} LaneWithin(b: Block, l: nat, n: nat)
    requires b.Valid() && l < 8 && 8 * n <= QK_K
    ensures Within(LaneSum(b, l, n), n * 0x40_0000)
  {
    if n == 0 {
    } else {
      LaneWithin(b, l, n - 1);
      TermWithin(b, 8 * (n - 1) + l);
    }
  }

  lemma TermWithin(b: Block, e: nat)
    requires b.Valid() && e < QK_K
    ensures Within(b.quants[e] as int * b.q8[e] as int, 0x4000) && Within(b.Term(e), 0x40_0000)
  {
    ProductWithin(b.quants[e] as int, b.q8[e] as int, 0x80, 0x80);
    ProductWithin(b.scales[e / b.width] as int, b.quants[e] as int * b.q8[e] as int, 0x100, 0x4000);
  }

  /** What a strip adds to lane l; neither the product, nor the scaled product, nor the lane
      leaves its type. */
  lemma LaneGrows(b: Block, l: nat, n: nat, scale: int, product: int)
    requires b.Valid() && l < 8 && 8 * (n + 1) <= QK_K && scale == b.scales[8 * n / b.width] as int
    requires product == b.quants[8 * n + l] as int * b.q8[8 * n + l] as int
    ensures LaneSum(b, l, n + 1) == LaneSum(b, l, n) + scale * product
    ensures Within(product, 0x4000) && Within(scale * product, 0x40_0000) && Within(LaneSum(b, l, n + 1), 0x800_0000)
  {
    SameGroup(b.width, n, l);
    TermWithin(b, 8 * n + l);
    LaneWithin(b, l, n + 1);
  }

  lemma SameGroup(width: nat, n: nat, l: nat)
    requires (width == 16 || width == 32) && l < 8
    ensures (8 * n + l) / width == 8 * n / width
  {
    if width == 16 {
      var q, r := n / 2, n % 2;
      assert 8 * n == 16 * q + 8 * r;
      assert (8 * n + l) / 16 == q && 8 * n / 16 == q;
    } else {
      var q, r := n / 4, n % 4;
      assert 8 * n == 32 * q + 8 * r;
      assert (8 * n + l) / 32 == q && 8 * n / 32 == q;
    }
  }

  /** The product of two 8-bit numbers fits sixteen bits. */
  function Product(x: int8, y: int8): (r: int16)
    ensures r as int == y as int * x as int
  {
    ProductWithin(x as int, y as int, 0x80, 0x80);
    (x as int32 * y as int32) as int16
  }

  function MultiplyAdd(sum: int32, x: int32, y: int16): (r: int32)
    requires Within(x as int * y as int, 0x40_0000) && Within(sum as int + x as int * y as int, 0x800_0000)
    ensures r as int == sum as int + x as int * y as int
  {
    sum + x * (y as int32)
  }

  /** Eight elements, one to a lane: products first, then the scaled products. */
  method TakeStrip(b: Block, n: nat, scale: int32, aux16: array<int16>, aux32: array<int32>)
    requires b.Valid() && 8 * (n + 1) <= QK_K && scale == b.scales[8 * n / b.width]
    requires aux16.Length == aux32.Length == 8
    requires forall l: nat :: l < 8 ==> aux32[l] as int == LaneSum(b, l, n)
    modifies aux16, aux32
    ensures forall l: nat :: l < 8 ==> aux32[l] as int == LaneSum(b, l, n + 1)
  {
    hide *;
    BlockSizes(b);
    for l := 0 to 8
      modifies aux16
      invariant forall k: nat :: k < l ==> aux16[k] as int == b.quants[8 * n + k] as int * b.q8[8 * n + k] as int
    {
      aux16[l] := Product(b.q8[8 * n + l], b.quants[8 * n + l]);
    }
    for l := 0 to 8
      modifies aux32
      invariant forall k: nat :: k < l ==> aux32[k] as int == LaneSum(b, k, n + 1)
      invariant forall k: nat :: l <= k < 8 ==> aux32[k] as int == LaneSum(b, k, n)
    {
      LaneGrows(b, l, n, scale as int, aux16[l] as int);
      aux32[l] := MultiplyAdd(aux32[l], scale, aux16[l]);
    }
  }

  lemma LaneStarts(b: Block, l: nat)
    requires b.Valid() && l < 8
    ensures LaneSum(b, l, 0) == 0
  {
  }

  lemma BlockSizes(b: Block)
    requires b.Valid()
    ensures |b.quants| == |b.q8| == QK_K && b.width > 0
    ensures FirstStrip(b.width, 0) == 0 && 8 * FirstStrip(b.width, |b.scales|) == QK_K
  {
  }

  /** The first strip of group j. */
  function FirstStrip(width: nat, j: nat): nat { j * (width / 8) }

  lemma StripsOfGroup(b: Block, j: nat)
    requires b.Valid() && j < |b.scales|
    ensures FirstStrip(b.width, j + 1) == FirstStrip(b.width, j) + b.width / 8
    ensures 8 * FirstStrip(b.width, j + 1) <= QK_K
    ensures forall n :: FirstStrip(b.width, j) <= n < FirstStrip(b.width, j + 1) ==> 8 * n / b.width == j
  {
    if b.width == 16 {
    } else {
    }
  }

  /** The lanes added up. */
  function Total(lanes: seq<int32>): int {
    if lanes == [] then 0 else Total(lanes[..|lanes| - 1]) + lanes[|lanes| - 1] as int
  }

  lemma {:induction false} TotalOfLanes(b: Block, lanes: seq<int32>, n: nat)
    requires b.Valid() && |lanes| <= 8 && 8 * n <= QK_K
    requires forall l: nat :: l < |lanes| ==> lanes[l] as int == LaneSum(b, l, n)
    ensures Total(lanes) == LanesTogether(b, |lanes|, n)
  {
    if lanes == [] {
    } else {
      TotalOfLanes(b, lanes[..|lanes| - 1], n);
    }
  }

  /** Takes the strips in turn, the scale changing at every group. */
  method Accumulate(b: Block) returns (aux32: array<int32>)
    requires b.Valid()
    ensures fresh(aux32) && aux32.Length == 8
    ensures Total(aux32[..]) == PlainSum(b, QK_K)
  {
    hide *;
    BlockSizes(b);
    aux32 := new int32[8](_ => 0);
    var aux16 := new int16[8](_ => 0);
    var n := 0;
    forall l: nat | l < 8 ensures LaneSum(b, l, 0) == 0 {
      LaneStarts(b, l);
    }
    for j := 0 to |b.scales|
      invariant n == FirstStrip(b.width, j) && 8 * n <= QK_K
      invariant forall l: nat :: l < 8 ==> aux32[l] as int == LaneSum(b, l, n)
    {
      var scale := b.scales[j];
      StripsOfGroup(b, j);
      for c := 0 to b.width / 8
        invariant n == FirstStrip(b.width, j) + c && 8 * n <= QK_K
        invariant forall l: nat :: l < 8 ==> aux32[l] as int == LaneSum(b, l, n)
      {
        TakeStrip(b, n, scale, aux16, aux32);
        n := n + 1;
      }
    }
    TotalOfLanes(b, aux32[..], n);
    LanesAreSum(b, n);
  }

  // ---------- Mins against sums of sixteen ----------

  /** The sum of the first k numbers of run j of sixteen. */
  function RunSum(q8: seq<int8>, j: nat, k: nat): int
    requires |q8| == QK_K && j < 16 && k <= 16
  {
    if k == 0 then 0 else RunSum(q8, j, k - 1) + q8[16 * j + k - 1] as int
  }

  predicate AreSums(q8: seq<int8>, bsums: seq<int16>)
    requires |q8| == QK_K
  {
    |bsums| == 16 && forall j: nat :: j < 16 ==> bsums[j] as int == RunSum(q8, j, 16)
  }

  lemma {:induction false} RunWithin(q8: seq<int8>, j: nat, k: nat)
    requires |q8| == QK_K && j < 16 && k <= 16
    ensures Within(RunSum(q8, j, k), 0x80 * k)
  {
    if k == 0 {
    } else {
      RunWithin(q8, j, k - 1);
    }
  }

  /** The sums of the runs of sixteen; each fits sixteen bits. */
  method SumRuns(q8: seq<int8>, bsums: array<int16>)
    requires |q8| == QK_K && bsums.Length == 16
    modifies bsums
    ensures AreSums(q8, bsums[..])
  {
    for j := 0 to 16
      invariant forall i: nat :: i < j ==> bsums[i] as int == RunSum(q8, i, 16)
    {
      var sum: int32 := 0;
      for ii := 0 to 16
        modifies {}
        invariant sum as int == RunSum(q8, j, ii)
      {
        RunWithin(q8, j, ii + 1);
        sum := sum + q8[16 * j + ii] as int32;
      }
      RunWithin(q8, j, 16);
      bsums[j] := sum as int16;
    }
  }

  /** Every element times the min of its group of thirty-two, over the first n elements. */
  function MinSum(q8: seq<int8>, mins: seq<int32>, n: nat): int
    requires |q8| == QK_K && |mins| == 8 && n <= QK_K
  {
    if n == 0 then 0 else MinSum(q8, mins, n - 1) + mins[(n - 1) / 32] as int * q8[n - 1] as int
  }

  lemma {:induction false} RunTimesMin(q8: seq<int8>, mins: seq<int32>, j: nat, k: nat)
    requires |q8| == QK_K && |mins| == 8 && j < 16 && k <= 16
    ensures MinSum(q8, mins, 16 * j + k) == MinSum(q8, mins, 16 * j) + mins[j / 2] as int * RunSum(q8, j, k)
  {
    if k == 0 {
    } else {
      RunTimesMin(q8, mins, j, k - 1);
      assert (16 * j + k - 1) / 32 == j / 2;
      Distributes(mins[j / 2] as int, RunSum(q8, j, k - 1), q8[16 * j + k - 1] as int);
    }
  }

  lemma Distributes(m: int, x: int, y: int)
    ensures m * (x + y) == m * x + m * y
  {
  }

  /** One product for sixteen elements: still every element times its min. */
  method SumMins(q8: seq<int8>, bsums: seq<int16>, mins: seq<int32>) returns (sumi: int32)
    requires |q8| == QK_K && AreSums(q8, bsums)
    requires |mins| == 8 && forall i :: 0 <= i < 8 ==> 0 <= mins[i] < 0x100
    ensures sumi as int == MinSum(q8, mins, QK_K)
  {
    hide MinSum, RunSum, MultiplyAdd;
    sumi := 0;
    NoMins(q8, mins);
    for j := 0 to 16
      invariant sumi as int == MinSum(q8, mins, 16 * j) && Within(sumi as int, 0x8_0000 * j)
    {
      RunTimesMin(q8, mins, j, 16);
      RunWithin(q8, j, 16);
      ProductWithin(mins[j / 2] as int, bsums[j] as int, 0x100, 0x800);
      sumi := MultiplyAdd(sumi, mins[j / 2], bsums[j]);
    }
  }

  lemma NoMins(q8: seq<int8>, mins: seq<int32>)
    requires |q8| == QK_K && |mins| == 8
    ensures MinSum(q8, mins, 0) == 0
  {
  }
}
