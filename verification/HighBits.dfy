/** The top bits of 5-bit and 3-bit quants: one bit plane of thirty-two bytes, written and read
    by a mask that moves up a bit with every thirty-two elements. */
module HighBits {
  import opened LaneDot
  import opened QuantPlanes

  /** The mask shifted up k times from 1; past the top bit it is gone. */
  function Mask(k: nat): bv8 {
    if k == 0 then 1 else if k == 1 then 2 else if k == 2 then 4 else if k == 3 then 8
    else if k == 4 then 16 else if k == 5 then 32 else if k == 6 then 64 else if k == 7 then 128
    else 0
  }

  predicate HasBit(x: bv8, k: nat) { x & Mask(k) != 0 }

  function Up(m: bv8): bv8 { m << 1 }

  function UpTwo(m: bv8): bv8 { m << 2 }

  lemma MaskMoves(k: nat)
    ensures Up(Mask(k)) == Mask(k + 1) && UpTwo(Mask(k)) == Mask(k + 2)
  {
  }

  lemma NoBits(k: nat)
    ensures !HasBit(0, k)
  {
  }

  lemma BitSet(x: bv8, g: nat, k: nat)
    requires g < 8 && k < 8
    ensures HasBit(x | Mask(g), k) <==> k == g || HasBit(x, k)
  {
    OtherBit(Mask(g), Mask(k), x);
    MaskMeets(g, k);
  }

  lemma OtherBit(m: bv8, n: bv8, x: bv8)
    ensures m & n == 0 ==> (x | m) & n == x & n
    ensures m == n ==> (x | m) & n == n
  {
  }

  lemma MaskMeets(g: nat, k: nat)
    requires g < 8 && k < 8
    ensures Mask(k) != 0 && (g != k ==> Mask(g) & Mask(k) == 0)
  {
  }

  /** Byte c of the plane when the top bits of the first n runs of thirty-two are in it. */
  function PlaneByte(l: seq<bv8>, top: bv8, c: nat, n: nat): bv8
    requires |l| == QK_K && c < 32 && n <= 8
  {
    if n == 0 then 0
    else if l[32 * (n - 1) + c] > top then PlaneByte(l, top, c, n - 1) | Mask(n - 1)
    else PlaneByte(l, top, c, n - 1)
  }

  function Plane(l: seq<bv8>, top: bv8): (r: seq<bv8>)
    requires |l| == QK_K
    ensures |r| == 32
  {
    seq(32, c requires 0 <= c < 32 => PlaneByte(l, top, c, 8))
  }

  /** A bit of the plane is set exactly when its element is above the top. */
  lemma {:induction false} PlaneBit(l: seq<bv8>, top: bv8, c: nat, n: nat, k: nat)
    requires |l| == QK_K && c < 32 && n <= 8 && k < 8
    ensures HasBit(PlaneByte(l, top, c, n), k) <==> k < n && l[32 * k + c] > top
  {
    hide HasBit, Mask;
    if n == 0 {
      NoBits(k);
    } else {
      PlaneBit(l, top, c, n - 1, k);
      BitSet(PlaneByte(l, top, c, n - 1), n - 1, k);
    }
  }

  /** What is left of a quant when its top bit has gone to the plane. */
  function Rest(x: bv8, top: bv8): bv8 { if x > top then x - top - 1 else x }

  function Rests(l: seq<bv8>, top: bv8): (r: seq<bv8>)
    ensures |r| == |l|
  {
    seq(|l|, e requires 0 <= e < |l| => Rest(l[e], top))
  }

  /** One quant's top bit taken off it and or-ed into its byte of the plane. */
  function SplitTop(x: bv8, top: bv8, byte: bv8, m: bv8): (bv8, bv8) {
    if x > top then (x - top - 1, byte | m) else (x, byte)
  }

  lemma TopSplit(l: seq<bv8>, top: bv8, c: nat, n: nat)
    requires |l| == QK_K && c < 32 && n < 8
    ensures SplitTop(l[32 * n + c], top, PlaneByte(l, top, c, n), Mask(n))
            == (Rest(l[32 * n + c], top), PlaneByte(l, top, c, n + 1))
  {
    hide Mask;
  }

  // ---------- Five bits: q5_K ----------

  lemma FivePlaces(l: seq<bv8>, n: nat, j: nat)
    requires |l| == QK_K && n < 4 && j < 32
    ensures NibbleByte(Rests(l, 15), 32 * n + j) == Join(Rest(l[64 * n + j], 15), Rest(l[64 * n + j + 32], 15))
  {
    hide Join, Rest;
  }

  method PackFives(l: seq<bv8>, ql: array<bv8>, qh: array<bv8>)
    requires |l| == QK_K && ql.Length == 128 && qh.Length == 32 && ql != qh
    modifies ql, qh
    ensures ql[..] == seq(128, k requires 0 <= k < 128 => NibbleByte(Rests(l, 15), k))
    ensures qh[..] == Plane(l, 15)
  {
    hide Join, Mask, PlaneByte, NibbleByte, SplitTop, Rest, UpTwo;
    for c := 0 to 32
      invariant forall k: nat :: k < c ==> qh[k] == PlaneByte(l, 15, k, 0)
    {
      EmptyPlane(l, 15, c);
      qh[c] := 0;
    }
    var m1: bv8, m2: bv8 := 1, 2;
    FirstMasks();
    for n := 0 to 4
      invariant m1 == Mask(2 * n) && m2 == Mask(2 * n + 1)
      invariant forall k: nat :: k < 32 * n ==> ql[k] == NibbleByte(Rests(l, 15), k)
      invariant forall c: nat :: c < 32 ==> qh[c] == PlaneByte(l, 15, c, 2 * n)
    {
      for j := 0 to 32
        invariant forall k: nat :: k < 32 * n + j ==> ql[k] == NibbleByte(Rests(l, 15), k)
        invariant forall c: nat :: c < j ==> qh[c] == PlaneByte(l, 15, c, 2 * n + 2)
        invariant forall c: nat :: j <= c < 32 ==> qh[c] == PlaneByte(l, 15, c, 2 * n)
      {
        FivePlaces(l, n, j);
        TopSplit(l, 15, j, 2 * n);
        TopSplit(l, 15, j, 2 * n + 1);
        var (l1, byte) := SplitTop(l[64 * n + j], 15, qh[j], m1);
        qh[j] := byte;
        var (l2, byte') := SplitTop(l[64 * n + j + 32], 15, qh[j], m2);
        qh[j] := byte';
        ql[32 * n + j] := Join(l1, l2);
      }
      MaskMoves(2 * n);
      MaskMoves(2 * n + 1);
      m1, m2 := UpTwo(m1), UpTwo(m2);
    }
  }

  lemma FirstMasks()
    ensures Mask(0) == 1 && Mask(1) == 2
  {
  }

  lemma EmptyPlane(l: seq<bv8>, top: bv8, c: nat)
    requires |l| == QK_K && c < 32
    ensures PlaneByte(l, top, c, 0) == 0
  {
  }

  /** The 5-bit quant of element e. */
  function FiveAt(ql: seq<bv8>, qh: seq<bv8>, e: nat): bv8
    requires |ql| == 128 && |qh| == 32 && e < QK_K
  {
    NibbleAt(ql, e) + if HasBit(qh[e % 32], e / 32) then 16 else 0
  }

  /** Every 5-bit quant comes back. */
  lemma FivesKept(l: seq<bv8>, ql: seq<bv8>, qh: seq<bv8>, e: nat)
    requires |l| == QK_K && AtMost(l, 31) && e < QK_K
    requires ql == seq(128, k requires 0 <= k < 128 => NibbleByte(Rests(l, 15), k)) && qh == Plane(l, 15)
    ensures FiveAt(ql, qh, e) == l[e]
  {
    hide NibbleAt, HasBit, NibbleByte, Rest, PlaneByte;
    RestsSmall(l);
    NibblesKept(Rests(l, 15), ql, e);
    PlaneBit(l, 15, e % 32, 8, e / 32);
    assert 32 * (e / 32) + e % 32 == e;
    RestBack(l[e]);
  }

  lemma RestsSmall(l: seq<bv8>)
    requires AtMost(l, 31)
    ensures AtMost(Rests(l, 15), 15)
  {
  }

  lemma RestBack(x: bv8)
    ensures Rest(x, 15) + (if x > 15 then 16 else 0) == x
  {
  }

  // ---------- Three bits: q3_K ----------

  /** Byte k of the low pairs: four elements 32 apart share one. */
  function LowPairs(l: seq<bv8>, k: nat): bv8
    requires |l| == QK_K && k < 64
  {
    var e := 128 * (k / 32) + k % 32;
    JoinPairs(l[e], l[e + 32], l[e + 64], l[e + 96])
  }

  /** Takes the top bit off every quant in place, run after run of thirty-two with one mask each,
      then joins the low pairs. */
  method PackThrees(l: array<bv8>, hmask: array<bv8>, qs: array<bv8>)
    requires l.Length == QK_K && hmask.Length == 32 && qs.Length == 64
    requires l != hmask && l != qs && hmask != qs
    modifies l, hmask, qs
    ensures l[..] == Rests(old(l[..]), 3) && hmask[..] == Plane(old(l[..]), 3)
    ensures qs[..] == seq(64, k requires 0 <= k < 64 => LowPairs(Rests(old(l[..]), 3), k))
  {
    hide Mask, PlaneByte, JoinPairs, LowPairs, SplitTop, Rest, Up;
    ghost var was := l[..];
    for c := 0 to 32
      modifies hmask
      invariant forall k: nat :: k < c ==> hmask[k] == PlaneByte(was, 3, k, 0)
    {
      EmptyPlane(was, 3, c);
      hmask[c] := 0;
    }
    var m, hm: bv8 := 0, 1;
    ghost var n: nat := 0;
    FirstMasks();
    for j := 0 to QK_K
      modifies l, hmask
      invariant j == 32 * n + m && m < 32 && hm == Mask(n)
      invariant forall e: nat :: e < j ==> l[e] == Rest(was[e], 3)
      invariant forall e: nat :: j <= e < QK_K ==> l[e] == was[e]
      invariant forall c: nat :: c < m ==> hmask[c] == PlaneByte(was, 3, c, n + 1)
      invariant forall c: nat :: m <= c < 32 ==> hmask[c] == PlaneByte(was, 3, c, n)
    {
      TopSplit(was, 3, m, n);
      var (rest, byte) := SplitTop(l[j], 3, hmask[m], hm);
      hmask[m] := byte;
      l[j] := rest;
      m := m + 1;
      if m == 32 {
        MaskMoves(n);
        m, hm, n := 0, Up(hm), n + 1;
      }
    }
    assert n == 8;
    assert l[..] == Rests(was, 3);
    for h := 0 to 2
      modifies qs
      invariant forall k: nat :: k < 32 * h ==> qs[k] == LowPairs(l[..], k)
    {
      for i := 0 to 32
        modifies qs
        invariant forall k: nat :: k < 32 * h + i ==> qs[k] == LowPairs(l[..], k)
      {
        LowPairsPlace(l[..], h, i);
        var j := 128 * h;
        qs[32 * h + i] := JoinPairs(l[j + i], l[j + i + 32], l[j + i + 64], l[j + i + 96]);
      }
    }
  }

  lemma LowPairsPlace(l: seq<bv8>, h: nat, i: nat)
    requires |l| == QK_K && h < 2 && i < 32
    ensures var j := 128 * h + i;
            LowPairs(l, 32 * h + i) == JoinPairs(l[j], l[j + 32], l[j + 64], l[j + 96])
  {
    hide JoinPairs;
  }

  /** The 3-bit quant of element e, taken as -4..3. */
  function ThreeAt(qs: seq<bv8>, hmask: seq<bv8>, e: nat): int
    requires |qs| == 64 && |hmask| == 32 && e < QK_K
  {
    PairAt(qs[32 * (e / 128) + e % 32], e % 128 / 32) as int - if HasBit(hmask[e % 32], e / 32) then 0 else 4
  }

  /** Every 3-bit quant comes back, less the 4 that was added before packing. */
  lemma ThreesKept(l: seq<bv8>, qs: seq<bv8>, e: nat)
    requires |l| == QK_K && AtMost(l, 7) && e < QK_K
    requires qs == seq(64, k requires 0 <= k < 64 => LowPairs(Rests(l, 3), k))
    ensures ThreeAt(qs, Plane(l, 3), e) == l[e] as int - 4
  {
    hide PairAt, HasBit, LowPairs, Rest, PlaneByte;
    LowPairKept(l, e);
    PlaneBit(l, 3, e % 32, 8, e / 32);
    assert 32 * (e / 32) + e % 32 == e;
    TopBack(l[e]);
  }

  lemma LowPairKept(l: seq<bv8>, e: nat)
    requires |l| == QK_K && AtMost(l, 7) && e < QK_K
    ensures PairAt(LowPairs(Rests(l, 3), 32 * (e / 128) + e % 32), e % 128 / 32) == Rest(l[e], 3)
  {
    hide Rest, JoinPairs, PairAt;
    var k := 32 * (e / 128) + e % 32;
    assert k / 32 == e / 128 && k % 32 == e % 32;
    var f := 128 * (k / 32) + k % 32;
    RestOfThree(l[f]);
    RestOfThree(l[f + 32]);
    RestOfThree(l[f + 64]);
    RestOfThree(l[f + 96]);
    PairsKept(Rest(l[f], 3), Rest(l[f + 32], 3), Rest(l[f + 64], 3), Rest(l[f + 96], 3));
  }

  lemma RestOfThree(x: bv8)
    requires x <= 7
    ensures Rest(x, 3) <= 3
  {
  }

  lemma TopBack(x: bv8)
    requires x <= 7
    ensures Rest(x, 3) as int - (if x > 3 then 0 else 4) == x as int - 4
  {
  }
}
