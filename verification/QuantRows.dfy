/** Whole rows: blocks packed one after the other, and every quant of the row read back. */
module QuantRows {
  import opened LaneDot
  import opened QuantPlanes
  import opened HighBits
  import opened HighWord

  /** Quants i * size to (i + 1) * size of a row. */
  function BlockOf(l: seq<bv8>, size: nat, i: nat): (r: seq<bv8>)
    requires size * i + size <= |l|
    ensures |r| == size
  {
    l[size * i..size * i + size]
  }

  /** A block in two planes: the low bits, several quants to a byte, and the high bits. */
  datatype TwoPlanes = TwoPlanes(low: seq<bv8>, high: seq<bv8>)

  /** A q5_0 block: the low halves, and the word with the fifth bits. */
  datatype WordBlock = WordBlock(low: seq<bv8>, word: bv32)

  method PackNibbleRow(l: seq<bv8>) returns (row: seq<seq<bv8>>)
    requires |l| % QK_K == 0 && AtMost(l, 15)
    ensures |row| == |l| / QK_K && forall i :: 0 <= i < |row| ==> |row[i]| == 128
    ensures forall e: nat :: e < |l| ==> NibbleAt(row[e / QK_K], e % QK_K) == l[e]
  {
    hide NibbleAt, NibbleByte;
    row := [];
    for n := 0 to |l| / QK_K
      invariant |row| == n && forall i :: 0 <= i < n ==> |row[i]| == 128
      invariant forall e: nat :: e < QK_K * n ==> NibbleAt(row[e / QK_K], e % QK_K) == l[e]
    {
      var b, q := BlockOf(l, QK_K, n), new bv8[128];
      PackNibbles(b, q);
      forall e: nat | e < QK_K ensures NibbleAt(q[..], e) == l[QK_K * n + e] {
        NibblesKept(b, q[..], e);
      }
      row := row + [q[..]];
    }
  }

  method PackSixRow(l: seq<bv8>) returns (row: seq<TwoPlanes>)
    requires |l| % QK_K == 0 && AtMost(l, 63)
    ensures |row| == |l| / QK_K && forall i :: 0 <= i < |row| ==> |row[i].low| == 128 && |row[i].high| == 64
    ensures forall e: nat :: e < |l| ==> SixAt(row[e / QK_K].low, row[e / QK_K].high, e % QK_K) == l[e]
  {
    hide SixAt, LowPlane, HighPlane;
    row := [];
    for n := 0 to |l| / QK_K
      invariant |row| == n && forall i :: 0 <= i < n ==> |row[i].low| == 128 && |row[i].high| == 64
      invariant forall e: nat :: e < QK_K * n ==> SixAt(row[e / QK_K].low, row[e / QK_K].high, e % QK_K) == l[e]
    {
      var b, ql, qh := BlockOf(l, QK_K, n), new bv8[128], new bv8[64];
      PackSixes(b, ql, qh);
      forall e: nat | e < QK_K ensures SixAt(ql[..], qh[..], e) == l[QK_K * n + e] {
        SixesKept(b, ql[..], qh[..], e);
      }
      row := row + [TwoPlanes(ql[..], qh[..])];
    }
  }

  method PackFiveRow(l: seq<bv8>) returns (row: seq<TwoPlanes>)
    requires |l| % QK_K == 0 && AtMost(l, 31)
    ensures |row| == |l| / QK_K && forall i :: 0 <= i < |row| ==> |row[i].low| == 128 && |row[i].high| == 32
    ensures forall e: nat :: e < |l| ==> FiveAt(row[e / QK_K].low, row[e / QK_K].high, e % QK_K) == l[e]
  {
    hide FiveAt, NibbleByte, HighBits.Rest, PlaneByte;
    row := [];
    for n := 0 to |l| / QK_K
      invariant |row| == n && forall i :: 0 <= i < n ==> |row[i].low| == 128 && |row[i].high| == 32
      invariant forall e: nat :: e < QK_K * n ==> FiveAt(row[e / QK_K].low, row[e / QK_K].high, e % QK_K) == l[e]
    {
      var b, ql, qh := BlockOf(l, QK_K, n), new bv8[128], new bv8[32];
      PackFives(b, ql, qh);
      forall e: nat | e < QK_K ensures FiveAt(ql[..], qh[..], e) == l[QK_K * n + e] {
        FivesKept(b, ql[..], qh[..], e);
      }
      row := row + [TwoPlanes(ql[..], qh[..])];
    }
  }

  /** The source packs a copy of the block's quants, which loses its top bits on the way. */
  method PackThreeRow(l: seq<bv8>) returns (row: seq<TwoPlanes>)
    requires |l| % QK_K == 0 && AtMost(l, 7)
    ensures |row| == |l| / QK_K && forall i :: 0 <= i < |row| ==> |row[i].low| == 64 && |row[i].high| == 32
    ensures forall e: nat :: e < |l| ==>
                               ThreeAt(row[e / QK_K].low, row[e / QK_K].high, e % QK_K) == l[e] as int - 4
  {
    hide ThreeAt, LowPairs, HighBits.Rest, PlaneByte;
    row := [];
    for n := 0 to |l| / QK_K
      invariant |row| == n && forall i :: 0 <= i < n ==> |row[i].low| == 64 && |row[i].high| == 32
      invariant forall e: nat :: e < QK_K * n ==>
                                   ThreeAt(row[e / QK_K].low, row[e / QK_K].high, e % QK_K) == l[e] as int - 4
    {
      var b, hmask, qs := BlockOf(l, QK_K, n), new bv8[32], new bv8[64];
      var quants := new bv8[QK_K](e requires 0 <= e < QK_K => b[e]);
      assert quants[..] == b;
      PackThrees(quants, hmask, qs);
      forall e: nat | e < QK_K ensures ThreeAt(qs[..], hmask[..], e) == l[QK_K * n + e] as int - 4 {
        ThreesKept(b, qs[..], e);
      }
      row := row + [TwoPlanes(qs[..], hmask[..])];
    }
  }

  method PackWordRow(l: seq<bv8>) returns (row: seq<WordBlock>)
    requires |l| % QK5_0 == 0 && AtMost(l, 31)
    ensures |row| == |l| / QK5_0 && forall i :: 0 <= i < |row| ==> |row[i].low| == 16
    ensures forall e: nat :: e < |l| ==> QuantAt(row[e / QK5_0].low, row[e / QK5_0].word, e % QK5_0) == l[e]
  {
    hide QuantAt, PairByte, Holds;
    row := [];
    for n := 0 to |l| / QK5_0
      invariant |row| == n && forall i :: 0 <= i < n ==> |row[i].low| == 16
      invariant forall e: nat :: e < QK5_0 * n ==>
                                   QuantAt(row[e / QK5_0].low, row[e / QK5_0].word, e % QK5_0) == l[e]
    {
      var b, qs := BlockOf(l, QK5_0, n), new bv8[16];
      var qh := PackBlock(b, qs);
      forall e: nat | e < QK5_0 ensures QuantAt(qs[..], qh, e) == l[QK5_0 * n + e] {
        BlockKept(b, qs[..], qh, e);
      }
      row := row + [WordBlock(qs[..], qh)];
    }
  }
}
