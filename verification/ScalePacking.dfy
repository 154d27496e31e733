/** Eight 6-bit scales and eight 6-bit mins in twelve bytes: how they are packed, and that
    reading them one by one and reading them four at a time give the same. */
module ScalePacking {
  /** The packed form: the last four pairs lie over the first eight bytes, their low halves
      in the last four. */
  function Packed(ls: seq<bv8>, lm: seq<bv8>): (q: seq<bv8>)
    requires |ls| == |lm| == 8
    ensures |q| == 12
  {
    seq(4, k requires 0 <= k < 4 => OnTop(ls[k], ls[k + 4]))
    + seq(4, k requires 0 <= k < 4 => OnTop(lm[k], lm[k + 4]))
    + seq(4, k requires 0 <= k < 4 => LowHalves(ls[k + 4], lm[k + 4]))
  }

  /** Six bits of x, with the high two of y above them. */
  function OnTop(x: bv8, y: bv8): bv8 { x | ((y >> 4) << 6) }

  function LowHalves(x: bv8, y: bv8): bv8 { (x & 0xF) | ((y & 0xF) << 4) }

  predicate SixBits(xs: seq<bv8>) { forall i :: 0 <= i < |xs| ==> xs[i] <= 63 }

  /** Byte k when the first j pairs have been packed over the bytes was. */
  function PackedUpTo(ls: seq<bv8>, lm: seq<bv8>, was: seq<bv8>, j: nat, k: nat): bv8
    requires |ls| == |lm| == 8 && |was| == 12 && j <= 8 && k < 12
  {
    if k < 4 then (if j <= k then was[k] else if j <= k + 4 then ls[k] else OnTop(ls[k], ls[k + 4]))
    else if k < 8 then (if j <= k - 4 then was[k] else if j <= k then lm[k - 4] else OnTop(lm[k - 4], lm[k]))
    else (if j <= k - 4 then was[k] else LowHalves(ls[k - 4], lm[k - 4]))
  }

  /** The byte at k, x before pair j is packed, afterwards. */
  function ByteAfter(ls: seq<bv8>, lm: seq<bv8>, j: nat, k: nat, x: bv8): bv8
    requires |ls| == |lm| == 8 && j < 8
  {
    if j < 4 then (if k == j then ls[j] else if k == j + 4 then lm[j] else x)
    else if k == j + 4 then LowHalves(ls[j], lm[j])
    else if k == j - 4 then OnTop(x, ls[j])
    else if k == j then OnTop(x, lm[j])
    else x
  }

  lemma OnePair(ls: seq<bv8>, lm: seq<bv8>, was: seq<bv8>, j: nat, k: nat)
    requires |ls| == |lm| == 8 && |was| == 12 && j < 8 && k < 12
    ensures PackedUpTo(ls, lm, was, j + 1, k) == ByteAfter(ls, lm, j, k, PackedUpTo(ls, lm, was, j, k))
  {
    hide OnTop, LowHalves;
  }

  lemma PairPacked(ls: seq<bv8>, lm: seq<bv8>, was: seq<bv8>, j: nat, p: seq<bv8>, q: seq<bv8>)
    requires |ls| == |lm| == 8 && |was| == 12 && j < 8 && |p| == |q| == 12
    requires forall k: nat :: k < 12 ==> p[k] == PackedUpTo(ls, lm, was, j, k)
    requires forall k: nat :: k < 12 ==> q[k] == ByteAfter(ls, lm, j, k, p[k])
    ensures forall k: nat :: k < 12 ==> q[k] == PackedUpTo(ls, lm, was, j + 1, k)
  {
    hide *;
    forall k: nat | k < 12 ensures q[k] == PackedUpTo(ls, lm, was, j + 1, k) {
      OnePair(ls, lm, was, j, k);
    }
  }

  lemma AllPairs(ls: seq<bv8>, lm: seq<bv8>, was: seq<bv8>, k: nat)
    requires |ls| == |lm| == 8 && |was| == 12 && k < 12
    ensures PackedUpTo(ls, lm, was, 0, k) == was[k] && PackedUpTo(ls, lm, was, 8, k) == Packed(ls, lm)[k]
  {
    hide OnTop, LowHalves;
  }

  /** Packs pair after pair: the last four put their high bits on top of the first eight bytes.
      Nothing of what the bytes held before is left. */
  method PackScales(ls: seq<bv8>, lm: seq<bv8>, scales: array<bv8>)
    requires |ls| == |lm| == 8 && scales.Length == 12
    modifies scales
    ensures scales[..] == Packed(ls, lm)
  {
    hide OnTop, LowHalves, PackedUpTo, Packed;
    ghost var was := scales[..];
    forall k: nat | k < 12
      ensures PackedUpTo(ls, lm, was, 0, k) == was[k] && PackedUpTo(ls, lm, was, 8, k) == Packed(ls, lm)[k]
    {
      AllPairs(ls, lm, was, k);
    }
    for j := 0 to 8
      invariant forall k: nat :: k < 12 ==> scales[..][k] == PackedUpTo(ls, lm, was, j, k)
    {
      ghost var p := scales[..];
      if j < 4 {
        scales[j] := ls[j];
        scales[j + 4] := lm[j];
      } else {
        scales[j + 4] := LowHalves(ls[j], lm[j]);
        scales[j - 4] := OnTop(scales[j - 4], ls[j]);
        scales[j - 0] := OnTop(scales[j - 0], lm[j]);
      }
      PairPacked(ls, lm, was, j, p, scales[..]);
    }
  }

  function LowSix(x: bv8): bv8 { x & 63 }

  /** The low half of x under the high two bits of y. */
  function LowUnder(x: bv8, y: bv8): bv8 { (x & 0xF) | ((y >> 6) << 4) }

  /** The high half of x under the high two bits of y. */
  function HighUnder(x: bv8, y: bv8): bv8 { (x >> 4) | ((y >> 6) << 4) }

  function ScaleAt(j: nat, q: seq<bv8>): bv8
    requires j < 8 && |q| == 12
  {
    if j < 4 then LowSix(q[j]) else LowUnder(q[j + 4], q[j - 4])
  }

  function MinAt(j: nat, q: seq<bv8>): bv8
    requires j < 8 && |q| == 12
  {
    if j < 4 then LowSix(q[j + 4]) else HighUnder(q[j + 4], q[j - 0])
  }

  lemma LowSixKept(x: bv8, y: bv8)
    requires x <= 63
    ensures LowSix(OnTop(x, y)) == x
  {
  }

  lemma LowKept(x: bv8, y: bv8, z: bv8)
    requires x <= 63 && y <= 63 && z <= 63
    ensures LowUnder(LowHalves(x, y), OnTop(z, x)) == x
  {
  }

  lemma HighKept(x: bv8, y: bv8, z: bv8)
    requires x <= 63 && y <= 63 && z <= 63
    ensures HighUnder(LowHalves(x, y), OnTop(z, y)) == y
  {
  }

  /** Reading a pair gives back what was packed, for all scales and mins of six bits. */
  lemma PackedIsRead(ls: seq<bv8>, lm: seq<bv8>, j: nat)
    requires |ls| == |lm| == 8 && SixBits(ls) && SixBits(lm) && j < 8
    ensures ScaleAt(j, Packed(ls, lm)) == ls[j] && MinAt(j, Packed(ls, lm)) == lm[j]
  {
    hide OnTop, LowHalves, LowSix, LowUnder, HighUnder;
    if j < 4 {
      LowSixKept(ls[j], ls[j + 4]);
      LowSixKept(lm[j], lm[j + 4]);
    } else {
      LowKept(ls[j], lm[j], ls[j - 4]);
      HighKept(ls[j], lm[j], lm[j - 4]);
    }
  }

  lemma PackedIsReadInFull(ls: seq<bv8>, lm: seq<bv8>)
    requires |ls| == |lm| == 8 && SixBits(ls) && SixBits(lm)
    ensures seq(8, k requires 0 <= k < 8 => ScaleAt(k, Packed(ls, lm))) == ls
    ensures seq(8, k requires 0 <= k < 8 => MinAt(k, Packed(ls, lm))) == lm
  {
    hide *;
    forall k: nat | k < 8 ensures ScaleAt(k, Packed(ls, lm)) == ls[k] && MinAt(k, Packed(ls, lm)) == lm[k] {
      PackedIsRead(ls, lm, k);
    }
  }

  // ---------- Four at a time ----------

  const KMASK1: bv32 := 0x3f3f3f3f
  const KMASK2: bv32 := 0x0f0f0f0f
  const KMASK3: bv32 := 0x03030303

  /** Four bytes as a little-endian word. */
  function Word(a: bv8, b: bv8, c: bv8, d: bv8): bv32 {
    (a as bv32) | ((b as bv32) << 8) | ((c as bv32) << 16) | ((d as bv32) << 24)
  }

  function Byte0(w: bv32): bv8 { (w & 0xFF) as bv8 }
  function Byte1(w: bv32): bv8 { ((w >> 8) & 0xFF) as bv8 }
  function Byte2(w: bv32): bv8 { ((w >> 16) & 0xFF) as bv8 }
  function Byte3(w: bv32): bv8 { ((w >> 24) & 0xFF) as bv8 }

  /** The four bytes of a word. */
  function Bytes(w: bv32): (r: seq<bv8>)
    ensures |r| == 4
  {
    [Byte0(w), Byte1(w), Byte2(w), Byte3(w)]
  }

  function SixesOf(w: bv32): bv32 { w & KMASK1 }

  function LowsUnder(w: bv32, v: bv32): bv32 { (w & KMASK2) | (((v >> 6) & KMASK3) << 4) }

  function HighsUnder(w: bv32, v: bv32): bv32 { ((w >> 4) & KMASK2) | (((v >> 6) & KMASK3) << 4) }

  /** The words of the scales (u0, u1) and of the mins (u2, u3), unpacked in place. */
  method UnpackWords(q: seq<bv8>) returns (u0: bv32, u1: bv32, u2: bv32, u3: bv32)
    requires |q| == 12
    ensures Bytes(u0) + Bytes(u1) == seq(8, k requires 0 <= k < 8 => ScaleAt(k, q))
    ensures Bytes(u2) + Bytes(u3) == seq(8, k requires 0 <= k < 8 => MinAt(k, q))
  {
    hide *;
    u0, u1, u2 := Word(q[0], q[1], q[2], q[3]), Word(q[4], q[5], q[6], q[7]), Word(q[8], q[9], q[10], q[11]);
    UnpackedIsRead(q);
    u3 := HighsUnder(u2, u1);
    var uaux := SixesOf(u1);
    u1 := LowsUnder(u2, u0);
    u2 := uaux;
    u0 := SixesOf(u0);
  }

  /** Unpacking four bytes at a time gives what reading one by one gives, for all twelve bytes. */
  lemma UnpackedIsRead(q: seq<bv8>)
    requires |q| == 12
    ensures var u0, u1, u2 := Word(q[0], q[1], q[2], q[3]), Word(q[4], q[5], q[6], q[7]),
            Word(q[8], q[9], q[10], q[11]);
            && Bytes(SixesOf(u0)) + Bytes(LowsUnder(u2, u0)) == seq(8, k requires 0 <= k < 8 => ScaleAt(k, q))
            && Bytes(SixesOf(u1)) + Bytes(HighsUnder(u2, u1)) == seq(8, k requires 0 <= k < 8 => MinAt(k, q))
  {
    hide *;
    WordBytes(q[0], q[1], q[2], q[3]);
    WordBytes(q[4], q[5], q[6], q[7]);
    WordBytes(q[8], q[9], q[10], q[11]);
    var u0, u1, u2 := Word(q[0], q[1], q[2], q[3]), Word(q[4], q[5], q[6], q[7]), Word(q[8], q[9], q[10], q[11]);
    SixesLanes(u0);
    SixesLanes(u1);
    LowsLanes(u2, u0);
    HighsLanes(u2, u1);
    ReadInTurn(q);
  }

  lemma ReadInTurn(q: seq<bv8>)
    requires |q| == 12
    ensures seq(8, k requires 0 <= k < 8 => ScaleAt(k, q))
            == [LowSix(q[0]), LowSix(q[1]), LowSix(q[2]), LowSix(q[3])]
               + [LowUnder(q[8], q[0]), LowUnder(q[9], q[1]), LowUnder(q[10], q[2]), LowUnder(q[11], q[3])]
    ensures seq(8, k requires 0 <= k < 8 => MinAt(k, q))
            == [LowSix(q[4]), LowSix(q[5]), LowSix(q[6]), LowSix(q[7])]
               + [HighUnder(q[8], q[4]), HighUnder(q[9], q[5]), HighUnder(q[10], q[6]), HighUnder(q[11], q[7])]
  {
    hide LowSix, LowUnder, HighUnder;
  }

  lemma WordBytes(a: bv8, b: bv8, c: bv8, d: bv8)
    ensures Bytes(Word(a, b, c, d)) == [a, b, c, d]
  {
    hide Byte0, Byte1, Byte2, Byte3, Word;
    Word0(a, b, c, d);
    Word1(a, b, c, d);
    Word2(a, b, c, d);
    Word3(a, b, c, d);
  }

  lemma Word0(a: bv8, b: bv8, c: bv8, d: bv8)
    ensures Byte0(Word(a, b, c, d)) == a
  {
  }

  lemma Word1(a: bv8, b: bv8, c: bv8, d: bv8)
    ensures Byte1(Word(a, b, c, d)) == b
  {
  }

  lemma Word2(a: bv8, b: bv8, c: bv8, d: bv8)
    ensures Byte2(Word(a, b, c, d)) == c
  {
  }

  lemma Word3(a: bv8, b: bv8, c: bv8, d: bv8)
    ensures Byte3(Word(a, b, c, d)) == d
  {
  }

  /** No lane of the word form spills into another. */
  lemma SixesLanes(w: bv32)
    ensures var b := Bytes(w);
            Bytes(SixesOf(w)) == [LowSix(b[0]), LowSix(b[1]), LowSix(b[2]), LowSix(b[3])]
  {
    hide Byte0, Byte1, Byte2, Byte3, SixesOf, LowSix;
    Sixes0(w);
    Sixes1(w);
    Sixes2(w);
    Sixes3(w);
  }

  lemma Sixes0(w: bv32)
    ensures Byte0(SixesOf(w)) == LowSix(Byte0(w))
  {
  }

  lemma Sixes1(w: bv32)
    ensures Byte1(SixesOf(w)) == LowSix(Byte1(w))
  {
  }

  lemma Sixes2(w: bv32)
    ensures Byte2(SixesOf(w)) == LowSix(Byte2(w))
  {
  }

  lemma Sixes3(w: bv32)
    ensures Byte3(SixesOf(w)) == LowSix(Byte3(w))
  {
  }

  /** No lane of the word form spills into another. */
  lemma LowsLanes(w: bv32, v: bv32)
    ensures var b, c := Bytes(w), Bytes(v);
            Bytes(LowsUnder(w, v))
              == [LowUnder(b[0], c[0]), LowUnder(b[1], c[1]), LowUnder(b[2], c[2]), LowUnder(b[3], c[3])]
  {
    hide Byte0, Byte1, Byte2, Byte3, LowsUnder, LowUnder;
    Lows0(w, v);
    Lows1(w, v);
    Lows2(w, v);
    Lows3(w, v);
  }

  lemma Lows0(w: bv32, v: bv32)
    ensures Byte0(LowsUnder(w, v)) == LowUnder(Byte0(w), Byte0(v))
  {
  }

  lemma Lows1(w: bv32, v: bv32)
    ensures Byte1(LowsUnder(w, v)) == LowUnder(Byte1(w), Byte1(v))
  {
  }

  lemma Lows2(w: bv32, v: bv32)
    ensures Byte2(LowsUnder(w, v)) == LowUnder(Byte2(w), Byte2(v))
  {
  }

  lemma Lows3(w: bv32, v: bv32)
    ensures Byte3(LowsUnder(w, v)) == LowUnder(Byte3(w), Byte3(v))
  {
  }

  /** No lane of the word form spills into another. */
  lemma HighsLanes(w: bv32, v: bv32)
    ensures var b, c := Bytes(w), Bytes(v);
            Bytes(HighsUnder(w, v))
              == [HighUnder(b[0], c[0]), HighUnder(b[1], c[1]), HighUnder(b[2], c[2]), HighUnder(b[3], c[3])]
  {
    hide Byte0, Byte1, Byte2, Byte3, HighsUnder, HighUnder;
    Highs0(w, v);
    Highs1(w, v);
    Highs2(w, v);
    Highs3(w, v);
  }

  lemma Highs0(w: bv32, v: bv32)
    ensures Byte0(HighsUnder(w, v)) == HighUnder(Byte0(w), Byte0(v))
  {
  }

  lemma Highs1(w: bv32, v: bv32)
    ensures Byte1(HighsUnder(w, v)) == HighUnder(Byte1(w), Byte1(v))
  {
  }

  lemma Highs2(w: bv32, v: bv32)
    ensures Byte2(HighsUnder(w, v)) == HighUnder(Byte2(w), Byte2(v))
  {
  }

  lemma Highs3(w: bv32, v: bv32)
    ensures Byte3(HighsUnder(w, v)) == HighUnder(Byte3(w), Byte3(v))
  {
  }
}
