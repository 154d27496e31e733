/** Where the bits of every quant, scale and min lie in the packed bytes. */
module QuantLayout {
  import opened LaneDot
  import opened QuantPlanes
  import opened ScalePacking
  import opened HighBits
  import opened HighWord

  /** A byte without its s lowest bits. */
  function From(b: bv8, s: nat): bv8
    requires s < 8
  {
    if s == 0 then b else if s == 1 then b >> 1 else if s == 2 then b >> 2 else if s == 3 then b >> 3
    else if s == 4 then b >> 4 else if s == 5 then b >> 5 else if s == 6 then b >> 6 else b >> 7
  }

  // ---------- Bytes ----------

  lemma JoinLies(x: bv8, y: bv8)
    requires x <= 15 && y <= 15
    ensures From(Join(x, y), 0) & 0xF == x && From(Join(x, y), 4) & 0xF == y
  {
  }

  lemma PairsLie(a: bv8, b: bv8, c: bv8, d: bv8)
    requires a <= 3 && b <= 3 && c <= 3 && d <= 3
    ensures var x := JoinPairs(a, b, c, d);
            From(x, 0) & 3 == a && From(x, 2) & 3 == b && From(x, 4) & 3 == c && From(x, 6) & 3 == d
  {
  }

  lemma HalvesAre(x: bv8)
    ensures QuantPlanes.Low(x) == x & 0xF <= 15 && QuantPlanes.High(x) == x >> 4 && (x <= 63 ==> x >> 4 <= 3)
  {
  }

  lemma BitLies(x: bv8, k: nat)
    requires k < 8
    ensures From(x, k) & 1 == if HasBit(x, k) then 1 else 0
  {
  }

  // ---------- Four, five and six bits ----------

  /** A 4-bit quant: 64 elements in 32 bytes, the first half of them in the low halves. */
  lemma NibbleLies(l: seq<bv8>, e: nat)
    requires |l| == QK_K && AtMost(l, 15) && e < QK_K
    ensures From(NibbleByte(l, 32 * (e / 64) + e % 32), if e % 64 < 32 then 0 else 4) & 0xF == l[e]
  {
    hide Join, From;
    var k := 32 * (e / 64) + e % 32;
    assert k / 32 == e / 64 && k % 32 == e % 32;
    JoinLies(l[64 * (k / 32) + k % 32], l[64 * (k / 32) + k % 32 + 32]);
  }

  /** The low four bits of a 6-bit quant: 128 elements in 64 bytes; its high two: 128 elements in 32. */
  lemma SixLies(l: seq<bv8>, e: nat)
    requires |l| == QK_K && AtMost(l, 63) && e < QK_K
    ensures From(LowPlane(l, 64 * (e / 128) + e % 64), if e % 128 < 64 then 0 else 4) & 0xF == l[e] & 0xF
    ensures From(HighPlane(l, 32 * (e / 128) + e % 32), 2 * (e % 128 / 32)) & 3 == l[e] >> 4
  {
    hide LowPlane, HighPlane, From;
    SixLowLies(l, e);
    SixTopLies(l, e);
  }

  lemma LowsLie(x: bv8, y: bv8)
    ensures var b := Join(QuantPlanes.Low(x), QuantPlanes.Low(y));
            From(b, 0) & 0xF == x & 0xF && From(b, 4) & 0xF == y & 0xF
  {
  }

  lemma SixLowLies(l: seq<bv8>, e: nat)
    requires |l| == QK_K && e < QK_K
    ensures From(LowPlane(l, 64 * (e / 128) + e % 64), if e % 128 < 64 then 0 else 4) & 0xF == l[e] & 0xF
  {
    hide Join, From, QuantPlanes.Low;
    var k := 64 * (e / 128) + e % 64;
    assert k / 64 == e / 128 && k % 64 == e % 64;
    LowsLie(l[128 * (k / 64) + k % 64], l[128 * (k / 64) + k % 64 + 64]);
  }

  lemma SixTopLies(l: seq<bv8>, e: nat)
    requires |l| == QK_K && AtMost(l, 63) && e < QK_K
    ensures From(HighPlane(l, 32 * (e / 128) + e % 32), 2 * (e % 128 / 32)) & 3 == l[e] >> 4
  {
    hide JoinPairs, From, QuantPlanes.High;
    var k := 32 * (e / 128) + e % 32;
    assert k / 32 == e / 128 && k % 32 == e % 32;
    var f := 128 * (k / 32) + k % 32;
    HalvesAre(l[f]);
    HalvesAre(l[f + 32]);
    HalvesAre(l[f + 64]);
    HalvesAre(l[f + 96]);
    PairsLie(QuantPlanes.High(l[f]), QuantPlanes.High(l[f + 32]), QuantPlanes.High(l[f + 64]),
             QuantPlanes.High(l[f + 96]));
  }

  lemma RestIs(x: bv8)
    ensures x <= 31 ==> Rest(x, 15) == x & 0xF && (x > 15 <==> x >> 4 == 1) && (x <= 15 <==> x >> 4 == 0)
    ensures x <= 7 ==> Rest(x, 3) == x & 3 && (x > 3 <==> x >> 2 == 1) && (x <= 3 <==> x >> 2 == 0)
    ensures x & 0xF <= 15 && x & 3 <= 3
  {
  }

  lemma TopLies(l: seq<bv8>, top: bv8, e: nat)
    requires |l| == QK_K && e < QK_K
    ensures From(Plane(l, top)[e % 32], e / 32) & 1 == if l[e] > top then 1 else 0
  {
    hide HasBit, PlaneByte, From;
    PlaneBit(l, top, e % 32, 8, e / 32);
    assert 32 * (e / 32) + e % 32 == e;
    BitLies(PlaneByte(l, top, e % 32, 8), e / 32);
  }

  /** The low four bits of a 5-bit quant lie as a 4-bit quant does; bit e / 32 of byte e % 32 is its
      fifth. */
  lemma FiveLies(l: seq<bv8>, e: nat)
    requires |l| == QK_K && AtMost(l, 31) && e < QK_K
    ensures From(NibbleByte(Rests(l, 15), 32 * (e / 64) + e % 32), if e % 64 < 32 then 0 else 4) & 0xF == l[e] & 0xF
    ensures From(Plane(l, 15)[e % 32], e / 32) & 1 == l[e] >> 4
  {
    hide From, NibbleByte, Plane, Rest;
    forall i | 0 <= i < QK_K ensures Rest(l[i], 15) == l[i] & 0xF && l[i] & 0xF <= 15 { RestIs(l[i]); }
    NibbleLies(Rests(l, 15), e);
    TopLies(l, 15, e);
    RestIs(l[e]);
  }

  /** The low two bits of a 3-bit quant lie as the high ones of a 6-bit quant do; bit e / 32 of byte
      e % 32 is its third. */
  lemma ThreeLies(l: seq<bv8>, e: nat)
    requires |l| == QK_K && AtMost(l, 7) && e < QK_K
    ensures From(LowPairs(Rests(l, 3), 32 * (e / 128) + e % 32), 2 * (e % 128 / 32)) & 3 == l[e] & 3
    ensures From(Plane(l, 3)[e % 32], e / 32) & 1 == l[e] >> 2
  {
    hide From, LowPairs, Plane, Rest;
    forall i: nat | i < QK_K ensures Rests(l, 3)[i] == l[i] & 3 { RestIs(l[i]); }
    RestsAreSmall(l);
    LowPairsLie(Rests(l, 3), e);
    TopLies(l, 3, e);
    RestIs(l[e]);
  }

  lemma RestsAreSmall(l: seq<bv8>)
    requires AtMost(l, 7)
    ensures AtMost(Rests(l, 3), 3)
  {
    forall i: nat | i < |l| ensures Rests(l, 3)[i] <= 3 { RestIs(l[i]); }
  }

  lemma LowPairsLie(r: seq<bv8>, e: nat)
    requires |r| == QK_K && AtMost(r, 3) && e < QK_K
    ensures From(LowPairs(r, 32 * (e / 128) + e % 32), 2 * (e % 128 / 32)) & 3 == r[e]
  {
    hide From, JoinPairs, AtMost;
    var k := 32 * (e / 128) + e % 32;
    assert k / 32 == e / 128 && k % 32 == e % 32;
    var f, p := 128 * (e / 128) + e % 32, e % 128 / 32;
    assert e == f + 32 * p && p < 4;
    FourAtMost(r, f);
    PairsLie(r[f], r[f + 32], r[f + 64], r[f + 96]);
  }

  lemma FourAtMost(r: seq<bv8>, f: nat)
    requires AtMost(r, 3) && f + 96 < |r|
    ensures r[f] <= 3 && r[f + 32] <= 3 && r[f + 64] <= 3 && r[f + 96] <= 3
  {
  }

  // ---------- Scales and mins ----------

  /** The first four scales and mins lie in the low six bits of the first eight bytes, two bits of the
      last four above them; the low halves of these share the last four bytes. */
  lemma ScaleLies(ls: seq<bv8>, lm: seq<bv8>, j: nat)
    requires |ls| == |lm| == 8 && SixBits(ls) && SixBits(lm) && j < 4
    ensures var q := Packed(ls, lm);
            && q[j] & 0x3F == ls[j] && q[j] >> 6 == ls[j + 4] >> 4
            && q[j + 4] & 0x3F == lm[j] && q[j + 4] >> 6 == lm[j + 4] >> 4
            && q[j + 8] & 0xF == ls[j + 4] & 0xF && q[j + 8] >> 4 == lm[j + 4] & 0xF
  {
    hide OnTop, LowHalves;
    OnTopLies(ls[j], ls[j + 4]);
    OnTopLies(lm[j], lm[j + 4]);
    LowHalvesLie(ls[j + 4], lm[j + 4]);
  }

  lemma OnTopLies(x: bv8, y: bv8)
    requires x <= 63 && y <= 63
    ensures OnTop(x, y) & 0x3F == x && OnTop(x, y) >> 6 == y >> 4
  {
  }

  lemma LowHalvesLie(x: bv8, y: bv8)
    ensures LowHalves(x, y) & 0xF == x & 0xF && LowHalves(x, y) >> 4 == y & 0xF
  {
  }

  // ---------- A block with a word of fifth bits ----------

  /** Elements k and k + 16 share byte k; bit k of the word is the fifth bit of element k. */
  lemma BlockLies(l: seq<bv8>, qh: bv32, k: nat)
    requires |l| == QK5_0 && AtMost(l, 31) && Holds(l, qh, 16) && k < QK5_0
    ensures From(PairByte(l, k % 16), if k < 16 then 0 else 4) & 0xF == l[k] & 0xF
    ensures Shr(qh, k) & 1 == 1 <==> l[k] >> 4 == 1
  {
    hide From, PairByte, Shr;
    PairLies(l, k);
    assert BitAt(qh, k) <==> l[k] > 15;
    RestIs(l[k]);
  }

  lemma PairLies(l: seq<bv8>, k: nat)
    requires |l| == QK5_0 && k < QK5_0
    ensures From(PairByte(l, k % 16), if k < 16 then 0 else 4) & 0xF == l[k] & 0xF
  {
    hide Join, From, QuantPlanes.Low;
    LowsLie(l[k % 16], l[k % 16 + 16]);
  }
}
