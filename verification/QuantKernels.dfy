/** The scalar q4_K and q6_K dot products from packed block to accumulators, and what they come
    to on the quants, scales and mins that were packed. */
module QuantKernels {
  import opened LaneDot
  import opened QuantPlanes
  import opened ScalePacking

  function AsInts(xs: seq<bv8>): (r: seq<int32>)
    ensures |r| == |xs| && forall i :: 0 <= i < |r| ==> 0 <= r[i] < 0x100
  {
    seq(|xs|, i requires 0 <= i < |xs| => xs[i] as int as int32)
  }

  /** A q4_K block beside a q8_K block. */
  function Q4Block(qs: seq<bv8>, scales: seq<bv8>, q8: seq<int8>): (b: Block)
    requires |qs| == 128 && |scales| == 12 && |q8| == QK_K
    ensures b.Valid()
  {
    Block(NibbleQuants(qs), q8, AsInts(seq(8, k requires 0 <= k < 8 => ScaleAt(k, scales))), 32)
  }

  function Q4Mins(scales: seq<bv8>): (r: seq<int32>)
    requires |scales| == 12
    ensures |r| == 8 && forall i :: 0 <= i < 8 ==> 0 <= r[i] < 0x100
  {
    AsInts(seq(8, k requires 0 <= k < 8 => MinAt(k, scales)))
  }

  /** The integer work of one block of the q4_K kernel. */
  method DotQ4K(qs: seq<bv8>, scales: seq<bv8>, q8: seq<int8>, bsums: seq<int16>)
    returns (aux32: array<int32>, sumi: int32)
    requires |qs| == 128 && |scales| == 12 && |q8| == QK_K && AreSums(q8, bsums)
    ensures aux32.Length == 8 && Total(aux32[..]) == PlainSum(Q4Block(qs, scales, q8), QK_K)
    ensures sumi as int == MinSum(q8, Q4Mins(scales), QK_K)
  {
    hide *;
    var aux8 := new int8[QK_K];
    UnpackNibbles(qs, aux8);
    var u0, u1, u2, u3 := UnpackWords(scales);
    var s, m := AsInts(Bytes(u0) + Bytes(u1)), AsInts(Bytes(u2) + Bytes(u3));
    Q4Parts(qs, scales, q8);
    sumi := SumMins(q8, bsums, m);
    aux32 := Accumulate(Block(aux8[..], q8, s, 32));
  }

  lemma Q4Parts(qs: seq<bv8>, scales: seq<bv8>, q8: seq<int8>)
    requires |qs| == 128 && |scales| == 12 && |q8| == QK_K
    ensures Q4Block(qs, scales, q8)
            == Block(NibbleQuants(qs), q8, AsInts(seq(8, k requires 0 <= k < 8 => ScaleAt(k, scales))), 32)
    ensures Q4Mins(scales) == AsInts(seq(8, k requires 0 <= k < 8 => MinAt(k, scales)))
  {
  }

  lemma Q4Term(qs: seq<bv8>, scales: seq<bv8>, q8: seq<int8>, e: nat)
    requires |qs| == 128 && |scales| == 12 && |q8| == QK_K && e < QK_K
    ensures Q4Block(qs, scales, q8).Term(e)
            == seq(8, k requires 0 <= k < 8 => ScaleAt(k, scales))[e / 32] as int
               * (ToInt8(NibbleAt(qs, e) as int) as int * q8[e] as int)
  {
    hide ToInt8, NibbleAt, ScaleAt;
  }

  /** On a block packed from quants l, scales ls and mins lm, every element adds its scale times
      its quant times the 8-bit number beside it, and the mins are those that were packed. */
  lemma PackedQ4Dot(l: seq<bv8>, ls: seq<bv8>, lm: seq<bv8>, qs: seq<bv8>, q8: seq<int8>, e: nat)
    requires |l| == |q8| == QK_K && AtMost(l, 15) && e < QK_K
    requires |ls| == |lm| == 8 && SixBits(ls) && SixBits(lm)
    requires qs == seq(128, k requires 0 <= k < 128 => NibbleByte(l, k))
    ensures Q4Block(qs, Packed(ls, lm), q8).Term(e) == ls[e / 32] as int * (l[e] as int * q8[e] as int)
    ensures Q4Mins(Packed(ls, lm)) == AsInts(lm)
    ensures var b, m := Q4Block(qs, Packed(ls, lm), q8), Q4Mins(Packed(ls, lm));
            && PlainSum(b, 0) == 0 == MinSum(q8, m, 0)
            && PlainSum(b, e + 1) == PlainSum(b, e) + ls[e / 32] as int * (l[e] as int * q8[e] as int)
            && MinSum(q8, m, e + 1) == MinSum(q8, m, e) + lm[e / 32] as int * q8[e] as int
  {
    hide *;
    SumSteps(Q4Block(qs, Packed(ls, lm), q8), e);
    MinSteps(q8, lm, e);
    Q4Parts(qs, Packed(ls, lm), q8);
    Q4Term(qs, Packed(ls, lm), q8, e);
    PackedIsReadInFull(ls, lm);
    NibblesKept(l, qs, e);
    AllAtMost(l, 15, e);
    NibbleStays(l[e]);
  }

  lemma SumSteps(b: Block, e: nat)
    requires b.Valid() && e < QK_K
    ensures PlainSum(b, 0) == 0 && PlainSum(b, e + 1) == PlainSum(b, e) + b.Term(e)
  {
  }

  lemma MinSteps(q8: seq<int8>, lm: seq<bv8>, e: nat)
    requires |q8| == QK_K && |lm| == 8 && e < QK_K
    ensures MinSum(q8, AsInts(lm), 0) == 0
    ensures MinSum(q8, AsInts(lm), e + 1) == MinSum(q8, AsInts(lm), e) + lm[e / 32] as int * q8[e] as int
  {
  }

  lemma AllAtMost(xs: seq<bv8>, bound: bv8, e: nat)
    requires AtMost(xs, bound) && e < |xs|
    ensures xs[e] <= bound
  {
  }

  lemma NibbleStays(x: bv8)
    requires x <= 15
    ensures ToInt8(x as int) as int == x as int
  {
  }

  lemma SixCentred(x: bv8)
    requires x <= 63
    ensures Centred(x) as int == x as int - 32
  {
  }

  // ---------- q6_K ----------

  function Widened(xs: seq<int8>): (r: seq<int32>)
    ensures |r| == |xs| && forall i :: 0 <= i < |r| ==> r[i] as int == xs[i] as int
  {
    seq(|xs|, i requires 0 <= i < |xs| => xs[i] as int32)
  }

  /** A q6_K block beside a q8_K block. */
  function Q6Block(ql: seq<bv8>, qh: seq<bv8>, scales: seq<int8>, q8: seq<int8>): (b: Block)
    requires |ql| == 128 && |qh| == 64 && |scales| == 16 && |q8| == QK_K
    ensures b.Valid()
  {
    Block(SixQuants(ql, qh), q8, Widened(scales), 16)
  }

  /** The integer work of one block of the q6_K kernel. */
  method DotQ6K(ql: seq<bv8>, qh: seq<bv8>, scales: seq<int8>, q8: seq<int8>) returns (aux32: array<int32>)
    requires |ql| == 128 && |qh| == 64 && |scales| == 16 && |q8| == QK_K
    ensures aux32.Length == 8 && Total(aux32[..]) == PlainSum(Q6Block(ql, qh, scales, q8), QK_K)
  {
    hide *;
    var aux8 := new int8[QK_K];
    UnpackSixes(ql, qh, aux8);
    Q6Parts(ql, qh, scales, q8);
    aux32 := Accumulate(Block(aux8[..], q8, Widened(scales), 16));
  }

  lemma Q6Parts(ql: seq<bv8>, qh: seq<bv8>, scales: seq<int8>, q8: seq<int8>)
    requires |ql| == 128 && |qh| == 64 && |scales| == 16 && |q8| == QK_K
    ensures Q6Block(ql, qh, scales, q8) == Block(SixQuants(ql, qh), q8, Widened(scales), 16)
  {
  }

  lemma Q6Term(ql: seq<bv8>, qh: seq<bv8>, scales: seq<int8>, q8: seq<int8>, e: nat)
    requires |ql| == 128 && |qh| == 64 && |scales| == 16 && |q8| == QK_K && e < QK_K
    ensures Q6Block(ql, qh, scales, q8).Term(e)
            == scales[e / 16] as int * (Centred(SixAt(ql, qh, e)) as int * q8[e] as int)
  {
    hide Centred, SixAt;
  }

  /** On a block packed from 6-bit quants l, every element adds its scale times its quant less 32
      times the 8-bit number beside it. */
  lemma PackedQ6Dot(l: seq<bv8>, ql: seq<bv8>, qh: seq<bv8>, scales: seq<int8>, q8: seq<int8>, e: nat)
    requires |l| == |q8| == QK_K && AtMost(l, 63) && |scales| == 16 && e < QK_K
    requires ql == seq(128, k requires 0 <= k < 128 => LowPlane(l, k))
    requires qh == seq(64, k requires 0 <= k < 64 => HighPlane(l, k))
    ensures Q6Block(ql, qh, scales, q8).Term(e)
            == scales[e / 16] as int * ((l[e] as int - 32) * q8[e] as int)
    ensures var b := Q6Block(ql, qh, scales, q8);
            && PlainSum(b, 0) == 0
            && PlainSum(b, e + 1) == PlainSum(b, e) + scales[e / 16] as int * ((l[e] as int - 32) * q8[e] as int)
  {
    hide *;
    SumSteps(Q6Block(ql, qh, scales, q8), e);
    Q6Term(ql, qh, scales, q8, e);
    SixesKept(l, ql, qh, e);
    AllAtMost(l, 63, e);
    SixCentred(l[e]);
  }
}
