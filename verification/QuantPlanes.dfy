/** How 4-bit and 6-bit quants of a block are laid out in bytes, and that unpacking a block
    gives back what was packed. */
module QuantPlanes {
  import opened LaneDot

  // ---------- Bytes ----------

  function Low(x: bv8): bv8 { x & 0xF }

  function High(x: bv8): bv8 { x >> 4 }

  function Join(x: bv8, y: bv8): bv8 { x | (y << 4) }

  /** Four pairs of bits, the first lowest. */
  function JoinPairs(a: bv8, b: bv8, c: bv8, d: bv8): bv8 { a | (b << 2) | (c << 4) | (d << 6) }

  function PairAt(x: bv8, p: nat): bv8
    requires p < 4
  {
    if p == 0 then (x >> 0) & 3 else if p == 1 then (x >> 2) & 3 else if p == 2 then (x >> 4) & 3 else (x >> 6) & 3
  }

  lemma JoinKept(x: bv8, y: bv8)
    requires x <= 15 && y <= 15
    ensures Low(Join(x, y)) == x && High(Join(x, y)) == y
  {
  }

  lemma LowIsSmall(x: bv8)
    ensures Low(x) <= 15 && (x <= 63 ==> High(x) <= 3) && Join(Low(x), High(x)) == x
  {
  }

  lemma PairsKept(a: bv8, b: bv8, c: bv8, d: bv8)
    requires a <= 3 && b <= 3 && c <= 3 && d <= 3
    ensures PairAt(JoinPairs(a, b, c, d), 0) == a && PairAt(JoinPairs(a, b, c, d), 1) == b
    ensures PairAt(JoinPairs(a, b, c, d), 2) == c && PairAt(JoinPairs(a, b, c, d), 3) == d
  {
  }

  /** The conversion of an int to int8_t. */
  function ToInt8(x: int): int8 { ((x + 0x80) % 0x100 - 0x80) as int8 }

  /** A 6-bit quant converted and moved into -32..31. */
  function Centred(x: bv8): int8 { ToInt8(ToInt8(x as int) as int - 32) }

  predicate AtMost(xs: seq<bv8>, bound: bv8) { forall i :: 0 <= i < |xs| ==> xs[i] <= bound }

  // ---------- Four bits: q4_K ----------

  /** Byte k of a block of 4-bit quants. */
  function NibbleByte(qs: seq<bv8>, k: nat): bv8
    requires |qs| == QK_K && k < 128
  {
    Join(qs[64 * (k / 32) + k % 32], qs[64 * (k / 32) + k % 32 + 32])
  }

  /** The quant of element e. */
  function NibbleAt(bytes: seq<bv8>, e: nat): bv8
    requires |bytes| == 128 && e < QK_K
  {
    if e % 64 < 32 then Low(bytes[32 * (e / 64) + e % 32]) else High(bytes[32 * (e / 64) + e % 32])
  }

  method PackNibbles(l: seq<bv8>, q: array<bv8>)
    requires |l| == QK_K && q.Length == 128
    modifies q
    ensures q[..] == seq(128, k requires 0 <= k < 128 => NibbleByte(l, k))
  {
    hide Join;
    for j := 0 to 4
      invariant forall k: nat :: k < 32 * j ==> q[k] == NibbleByte(l, k)
    {
      for i := 0 to 32
        invariant forall k: nat :: k < 32 * j + i ==> q[k] == NibbleByte(l, k)
      {
        q[32 * j + i] := Join(l[64 * j + i], l[64 * j + i + 32]);
      }
    }
  }

  /** The quant of element e as the kernel takes it. */
  function NibbleQuant(bytes: seq<bv8>, e: nat): int8
    requires |bytes| == 128 && e < QK_K
  {
    ToInt8(NibbleAt(bytes, e) as int)
  }

  lemma NibblePlace(bytes: seq<bv8>, j: nat, i: nat)
    requires |bytes| == 128 && j < 4 && i < 32
    ensures NibbleQuant(bytes, 64 * j + i) == ToInt8(Low(bytes[32 * j + i]) as int)
    ensures NibbleQuant(bytes, 64 * j + 32 + i) == ToInt8(High(bytes[32 * j + i]) as int)
  {
    hide Low, High, ToInt8;
  }

  method UnpackNibbles(q4: seq<bv8>, a: array<int8>)
    requires |q4| == 128 && a.Length == QK_K
    modifies a
    ensures a[..] == NibbleQuants(q4)
  {
    hide Low, High, ToInt8, NibbleQuant;
    for j := 0 to 4
      invariant forall e: nat :: e < 64 * j ==> a[e] == NibbleQuant(q4, e)
    {
      for i := 0 to 32
        invariant forall e: nat :: e < 64 * j + i ==> a[e] == NibbleQuant(q4, e)
      {
        NibblePlace(q4, j, i);
        a[64 * j + i] := ToInt8(Low(q4[32 * j + i]) as int);
      }
      for i := 0 to 32
        invariant forall e: nat :: e < 64 * j + 32 + i ==> a[e] == NibbleQuant(q4, e)
      {
        NibblePlace(q4, j, i);
        a[64 * j + 32 + i] := ToInt8(High(q4[32 * j + i]) as int);
      }
    }
  }

  function NibbleQuants(bytes: seq<bv8>): (r: seq<int8>)
    requires |bytes| == 128
    ensures |r| == QK_K
  {
    seq(QK_K, e requires 0 <= e < QK_K => NibbleQuant(bytes, e))
  }

  /** Every 4-bit quant comes back. */
  lemma NibblesKept(l: seq<bv8>, bytes: seq<bv8>, e: nat)
    requires |l| == QK_K && AtMost(l, 15) && e < QK_K
    requires bytes == seq(128, k requires 0 <= k < 128 => NibbleByte(l, k))
    ensures NibbleAt(bytes, e) == l[e]
  {
    hide Join, Low, High;
    var k := 32 * (e / 64) + e % 32;
    assert k / 32 == e / 64 && k % 32 == e % 32;
    JoinKept(l[64 * (k / 32) + k % 32], l[64 * (k / 32) + k % 32 + 32]);
  }

  // ---------- Six bits: q6_K ----------

  /** Byte k of the low halves of a block of 6-bit quants: halves 64 elements apart share one. */
  function LowPlane(qs: seq<bv8>, k: nat): bv8
    requires |qs| == QK_K && k < 128
  {
    Join(Low(qs[128 * (k / 64) + k % 64]), Low(qs[128 * (k / 64) + k % 64 + 64]))
  }

  /** Byte k of the high pairs: four elements 32 apart share one. */
  function HighPlane(qs: seq<bv8>, k: nat): bv8
    requires |qs| == QK_K && k < 64
  {
    var e := 128 * (k / 32) + k % 32;
    JoinPairs(High(qs[e]), High(qs[e + 32]), High(qs[e + 64]), High(qs[e + 96]))
  }

  /** The 6-bit quant of element e, before 32 is taken off. */
  function SixAt(ql: seq<bv8>, qh: seq<bv8>, e: nat): bv8
    requires |ql| == 128 && |qh| == 64 && e < QK_K
  {
    var lows := ql[64 * (e / 128) + e % 64];
    Join(if e % 128 < 64 then Low(lows) else High(lows), PairAt(qh[32 * (e / 128) + e % 32], e % 128 / 32))
  }

  function SixQuants(ql: seq<bv8>, qh: seq<bv8>): (r: seq<int8>)
    requires |ql| == 128 && |qh| == 64
    ensures |r| == QK_K
  {
    seq(QK_K, e requires 0 <= e < QK_K => SixQuant(ql, qh, e))
  }

  lemma PlanePlaces(l: seq<bv8>, h: nat, i: nat)
    requires |l| == QK_K && h < 2 && i < 32
    ensures var j := 128 * h + i;
            && LowPlane(l, 64 * h + i) == Join(Low(l[j]), Low(l[j + 64]))
            && LowPlane(l, 64 * h + i + 32) == Join(Low(l[j + 32]), Low(l[j + 96]))
            && HighPlane(l, 32 * h + i) == JoinPairs(High(l[j]), High(l[j + 32]), High(l[j + 64]), High(l[j + 96]))
  {
    hide Join, Low, High, JoinPairs;
  }

  method PackSixes(l: seq<bv8>, ql: array<bv8>, qh: array<bv8>)
    requires |l| == QK_K && ql.Length == 128 && qh.Length == 64 && ql != qh
    modifies ql, qh
    ensures ql[..] == seq(128, k requires 0 <= k < 128 => LowPlane(l, k))
    ensures qh[..] == seq(64, k requires 0 <= k < 64 => HighPlane(l, k))
  {
    hide Join, Low, High, JoinPairs, LowPlane, HighPlane;
    for h := 0 to 2
      invariant forall k: nat :: k < 64 * h ==> ql[k] == LowPlane(l, k)
      invariant forall k: nat :: k < 32 * h ==> qh[k] == HighPlane(l, k)
    {
      var j := 128 * h;
      for i := 0 to 32
        invariant forall k: nat :: k < 64 * h + i || 64 * h + 32 <= k < 64 * h + 32 + i ==> ql[k] == LowPlane(l, k)
        invariant forall k: nat :: k < 32 * h + i ==> qh[k] == HighPlane(l, k)
      {
        PlanePlaces(l, h, i);
        var q1, q2, q3, q4 := Low(l[j + i]), Low(l[j + i + 32]), Low(l[j + i + 64]), Low(l[j + i + 96]);
        ql[64 * h + i] := Join(q1, q3);
        ql[64 * h + i + 32] := Join(q2, q4);
        qh[32 * h + i] := JoinPairs(High(l[j + i]), High(l[j + i + 32]), High(l[j + i + 64]), High(l[j + i + 96]));
      }
    }
  }

  /** The quant of element e as the kernel takes it: 32 taken off. */
  function SixQuant(ql: seq<bv8>, qh: seq<bv8>, e: nat): int8
    requires |ql| == 128 && |qh| == 64 && e < QK_K
  {
    Centred(SixAt(ql, qh, e))
  }

  /** Where the quant of quarter p of half h lies. */
  lemma SixPlace(ql: seq<bv8>, qh: seq<bv8>, h: nat, p: nat, i: nat)
    requires |ql| == 128 && |qh| == 64 && h < 2 && p < 4 && i < 32
    ensures SixQuant(ql, qh, 128 * h + 32 * p + i)
            == Centred(Join(if p < 2 then Low(ql[64 * h + 32 * p + i]) else High(ql[64 * h + 32 * (p - 2) + i]),
                            PairAt(qh[32 * h + i], p)))
  {
    hide Join, Low, High, PairAt, Centred;
    var e := 128 * h + 32 * p + i;
    assert e / 128 == h && e % 128 == 32 * p + i;
    assert e % 64 == 32 * (p % 2) + i && e % 32 == i;
  }

  method UnpackSixes(ql: seq<bv8>, qh: seq<bv8>, a: array<int8>)
    requires |ql| == 128 && |qh| == 64 && a.Length == QK_K
    modifies a
    ensures a[..] == SixQuants(ql, qh)
  {
    hide Join, Low, High, PairAt, Centred, SixQuant;
    for h := 0 to 2
      invariant forall e: nat :: e < 128 * h ==> a[e] == SixQuant(ql, qh, e)
    {
      var j := 128 * h;
      for i := 0 to 32
        invariant forall e: nat ::
                    (e < j + i || j + 32 <= e < j + 32 + i || j + 64 <= e < j + 64 + i
                     || j + 96 <= e < j + 96 + i) ==>
                      a[e] == SixQuant(ql, qh, e)
      {
        SixPlace(ql, qh, h, 0, i);
        SixPlace(ql, qh, h, 1, i);
        SixPlace(ql, qh, h, 2, i);
        SixPlace(ql, qh, h, 3, i);
        var top := qh[32 * h + i];
        var x, y := ql[64 * h + i], ql[64 * h + i + 32];
        a[j + i] := Centred(Join(Low(x), PairAt(top, 0)));
        a[j + i + 32] := Centred(Join(Low(y), PairAt(top, 1)));
        a[j + i + 64] := Centred(Join(High(x), PairAt(top, 2)));
        a[j + i + 96] := Centred(Join(High(y), PairAt(top, 3)));
      }
    }
  }

  /** Every 6-bit quant comes back. */
  lemma SixesKept(l: seq<bv8>, ql: seq<bv8>, qh: seq<bv8>, e: nat)
    requires |l| == QK_K && AtMost(l, 63) && e < QK_K
    requires ql == seq(128, k requires 0 <= k < 128 => LowPlane(l, k))
    requires qh == seq(64, k requires 0 <= k < 64 => HighPlane(l, k))
    ensures SixAt(ql, qh, e) == l[e]
  {
    hide Join, Low, High, PairAt, LowPlane, HighPlane;
    LowsKept(l, e);
    PairKept(l, e);
    LowIsSmall(l[e]);
  }

  lemma LowsKept(l: seq<bv8>, e: nat)
    requires |l| == QK_K && e < QK_K
    ensures var lows := LowPlane(l, 64 * (e / 128) + e % 64);
            (if e % 128 < 64 then Low(lows) else High(lows)) == Low(l[e])
  {
    hide Join, Low, High;
    var k := 64 * (e / 128) + e % 64;
    assert k / 64 == e / 128 && k % 64 == e % 64;
    var f := 128 * (k / 64) + k % 64;
    LowIsSmall(l[f]);
    LowIsSmall(l[f + 64]);
    JoinKept(Low(l[f]), Low(l[f + 64]));
  }

  lemma PairKept(l: seq<bv8>, e: nat)
    requires |l| == QK_K && AtMost(l, 63) && e < QK_K
    ensures PairAt(HighPlane(l, 32 * (e / 128) + e % 32), e % 128 / 32) == High(l[e])
  {
    hide High, JoinPairs, PairAt;
    var k := 32 * (e / 128) + e % 32;
    assert k / 32 == e / 128 && k % 32 == e % 32;
    var f := 128 * (k / 32) + k % 32;
    LowIsSmall(l[f]);
    LowIsSmall(l[f + 32]);
    LowIsSmall(l[f + 64]);
    LowIsSmall(l[f + 96]);
    PairsKept(High(l[f]), High(l[f + 32]), High(l[f + 64]), High(l[f + 96]));
  }
}
