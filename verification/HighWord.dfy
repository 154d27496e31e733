/** The top bits of a q5_0 block: one 32-bit word that collects them, element after element. */
module HighWord {
  import opened QuantPlanes

  /** A block is thirty-two quants, two to a byte. */
  const QK5_0: nat := 32

  /** w shifted right by k. */
  function Shr(w: bv32, k: nat): bv32 { if k == 0 then w else Shr(w, k - 1) >> 1 }

  /** w shifted left by k. */
  function Shl(w: bv32, k: nat): bv32 { if k == 0 then w else Shl(w, k - 1) << 1 }

  predicate BitAt(w: bv32, k: nat) { Shr(w, k) & 1 == 1 }

  function Top(k: nat): bv32 { Shl(1, k) }

  lemma {:induction false} ShrOr(a: bv32, b: bv32, k: nat)
    ensures Shr(a | b, k) == Shr(a, k) | Shr(b, k)
  {
    if k > 0 {
      ShrOr(a, b, k - 1);
      HalfOr(Shr(a, k - 1), Shr(b, k - 1));
    }
  }

  lemma HalfOr(a: bv32, b: bv32)
    ensures (a | b) >> 1 == (a >> 1) | (b >> 1)
  {
  }

  lemma {:induction false} ShrTwice(w: bv32, j: nat, k: nat)
    ensures Shr(w, j + k) == Shr(Shr(w, j), k)
  {
    if k > 0 {
      ShrTwice(w, j, k - 1);
    }
  }

  /** No bit shifted up to place 30 has left the word. */
  lemma TopInWord(k: nat)
    requires k <= 30
    ensures Top(k) <= 0x4000_0000
  {
    assert Top(0) == 0x1;
    assert Top(1) == 0x2;
    assert Top(2) == 0x4;
    assert Top(3) == 0x8;
    assert Top(4) == 0x10;
    assert Top(5) == 0x20;
    assert Top(6) == 0x40;
    assert Top(7) == 0x80;
    assert Top(8) == 0x100;
    assert Top(9) == 0x200;
    assert Top(10) == 0x400;
    assert Top(11) == 0x800;
    assert Top(12) == 0x1000;
    assert Top(13) == 0x2000;
    assert Top(14) == 0x4000;
    assert Top(15) == 0x8000;
    assert Top(16) == 0x10000;
    assert Top(17) == 0x20000;
    assert Top(18) == 0x40000;
    assert Top(19) == 0x80000;
    assert Top(20) == 0x100000;
    assert Top(21) == 0x200000;
    assert Top(22) == 0x400000;
    assert Top(23) == 0x800000;
    assert Top(24) == 0x1000000;
    assert Top(25) == 0x2000000;
    assert Top(26) == 0x4000000;
    assert Top(27) == 0x8000000;
    assert Top(28) == 0x10000000;
    assert Top(29) == 0x20000000;
    assert Top(30) == 0x40000000;
  }

  lemma TopHalves(k: nat)
    requires k < 31
    ensures Top(k + 1) >> 1 == Top(k) && Top(k + 1) & 1 == 0
  {
    TopInWord(k);
    UpAndDown(Top(k));
  }

  lemma UpAndDown(x: bv32)
    requires x <= 0x4000_0000
    ensures (x << 1) >> 1 == x && (x << 1) & 1 == 0
  {
  }

  lemma {:induction false} TopShifted(j: nat, k: nat)
    requires k <= j < 32
    ensures Shr(Top(j), k) == Top(j - k)
  {
    hide Top;
    if k > 0 {
      TopShifted(j, k - 1);
      TopHalves(j - k);
    }
  }

  lemma {:induction false} NothingAbove(n: nat)
    ensures Shr(1, n + 1) == 0 && Shr(0, n) == 0
  {
    if n > 0 {
      NothingAbove(n - 1);
    }
  }

  lemma TopBit(j: nat, k: nat)
    requires j < 32 && k < 32
    ensures BitAt(Top(j), k) <==> k == j
  {
    if k < j {
      TopShifted(j, k);
      TopHalves(j - k - 1);
    } else {
      TopShifted(j, j);
      ShrTwice(Top(j), j, k - j);
      if k > j {
        NothingAbove(k - j - 1);
      }
    }
  }

  /** A bit shifted to place j and or-ed in. */
  function Collected(w: bv32, b: bv32, j: nat): bv32 { w | Shl(b, j) }

  lemma {:induction false} ShlZero(k: nat)
    ensures Shl(0, k) == 0
  {
    if k > 0 {
      ShlZero(k - 1);
    }
  }

  lemma OrBit(x: bv32, y: bv32)
    ensures (x | y) & 1 == 1 <==> x & 1 == 1 || y & 1 == 1
    ensures x | 0 == x
  {
  }

  lemma CollectedBit(w: bv32, b: bv32, j: nat, k: nat)
    requires b <= 1 && j < 32 && k < 32
    ensures BitAt(Collected(w, b, j), k) <==> BitAt(w, k) || (k == j && b == 1)
  {
    ShrOr(w, Shl(b, j), k);
    OrBit(Shr(w, k), Shr(Shl(b, j), k));
    OrBit(w, Shl(b, j));
    if b == 0 {
      ShlZero(j);
    } else {
      TopBit(j, k);
    }
  }

  // ---------- Packing and reading a block ----------

  /** The fifth bit of a quant. */
  function Fifth(x: bv8): bv32 { ((x & 0x10) >> 4) as bv32 }

  lemma FifthIs(x: bv8)
    requires x <= 31
    ensures Fifth(x) <= 1 && (Fifth(x) == 1 <==> x > 15)
  {
  }

  /** The word holds the fifth bits of the first n quants of each half. */
  ghost predicate Holds(l: seq<bv8>, w: bv32, n: nat)
    requires |l| == QK5_0
  {
    forall k: nat :: k < 32 ==> (BitAt(w, k) <==> k % 16 < n && l[k] > 15)
  }

  function PairByte(l: seq<bv8>, k: nat): bv8
    requires |l| == QK5_0 && k < 16
  {
    Join(Low(l[k]), Low(l[k + 16]))
  }

  lemma TwoCollected(l: seq<bv8>, w: bv32, j: nat)
    requires |l| == QK5_0 && AtMost(l, 31) && j < 16 && Holds(l, w, j)
    ensures Holds(l, Collected(Collected(w, Fifth(l[j]), j), Fifth(l[j + 16]), j + 16), j + 1)
  {
    hide BitAt, Collected, Fifth;
    FifthIs(l[j]);
    FifthIs(l[j + 16]);
    var w1 := Collected(w, Fifth(l[j]), j);
    var w2 := Collected(w1, Fifth(l[j + 16]), j + 16);
    var n := j + 1;
    forall k: nat | k < 32 ensures BitAt(w2, k) <==> k % 16 < n && l[k] > 15 {
      CollectedBit(w, Fifth(l[j]), j, k);
      CollectedBit(w1, Fifth(l[j + 16]), j + 16, k);
    }
  }

  lemma NoBit(k: nat)
    ensures !BitAt(0, k)
  {
    NothingAbove(k);
  }

  lemma NothingCollected(l: seq<bv8>)
    requires |l| == QK5_0
    ensures Holds(l, 0, 0)
  {
    hide BitAt;
    forall k: nat | k < 32 ensures BitAt(0, k) <==> k % 16 < 0 && l[k] > 15 {
      NoBit(k);
    }
  }

  /** Packs element j and element j + 16 into one byte and two bits of the word. */
  method PackBlock(l: seq<bv8>, qs: array<bv8>) returns (qh: bv32)
    requires |l| == QK5_0 && AtMost(l, 31) && qs.Length == 16
    modifies qs
    ensures qs[..] == seq(16, k requires 0 <= k < 16 => PairByte(l, k))
    ensures Holds(l, qh, 16)
  {
    hide Join, Low, Collected, Fifth, Holds;
    qh := 0;
    NothingCollected(l);
    for j := 0 to 16
      invariant forall k: nat :: k < j ==> qs[k] == PairByte(l, k)
      invariant Holds(l, qh, j)
    {
      TwoCollected(l, qh, j);
      qs[j] := Join(Low(l[j]), Low(l[j + 16]));
      qh := Collected(qh, Fifth(l[j]), j);
      qh := Collected(qh, Fifth(l[j + 16]), j + 16);
    }
  }

  function ToByte(w: bv32): bv8 { (w & 0xFF) as bv8 }

  /** The quant of element k before 16 is taken off; the second half reads its bit, four places
      down, where it is wanted. */
  function QuantAt(qs: seq<bv8>, qh: bv32, k: nat): bv8
    requires |qs| == 16 && k < QK5_0
  {
    if k < 16 then Low(qs[k]) | ToByte((Shr(qh, k) << 4) & 0x10)
    else High(qs[k - 16]) | ToByte(Shr(qh, k - 16 + 12) & 0x10)
  }

  /** Both ways of reading the fifth bit give it, or nothing. */
  lemma FifthRead(qh: bv32, k: nat)
    ensures ToByte((Shr(qh, k) << 4) & 0x10) == if BitAt(qh, k) then 0x10 else 0
    ensures k >= 4 ==> ToByte(Shr(qh, k - 4) & 0x10) == if BitAt(qh, k) then 0x10 else 0
  {
    LowBitUp(Shr(qh, k));
    if k >= 4 {
      ShrTwice(qh, k - 4, 4);
      FourDown(Shr(qh, k - 4));
    }
  }

  lemma LowBitUp(x: bv32)
    ensures ToByte((x << 4) & 0x10) == if x & 1 == 1 then 0x10 else 0
  {
  }

  lemma FourDown(x: bv32)
    ensures ToByte(x & 0x10) == if Shr(x, 4) & 1 == 1 then 0x10 else 0
  {
    hide ToByte;
    ShrFour(x);
    HalvedFourTimes(x);
  }

  lemma ShrFour(x: bv32)
    ensures Shr(x, 4) == Halve(Halve(Halve(Halve(x))))
  {
    hide Halve;
    ShrOne(x, 3);
    ShrOne(x, 2);
    ShrOne(x, 1);
    ShrOne(x, 0);
  }

  function Halve(x: bv32): bv32 { x >> 1 }

  lemma ShrOne(x: bv32, k: nat)
    ensures Shr(x, 0) == x && Shr(x, k + 1) == Halve(Shr(x, k))
  {
  }

  lemma HalvedFourTimes(x: bv32)
    ensures ToByte(x & 0x10) == if Halve(Halve(Halve(Halve(x)))) & 1 == 1 then 0x10 else 0
  {
  }

  lemma FifthBack(x: bv8)
    requires x <= 31
    ensures Low(x) | (if x > 15 then 0x10 else 0) == x
  {
  }

  /** Every 5-bit quant comes back. */
  lemma BlockKept(l: seq<bv8>, qs: seq<bv8>, qh: bv32, k: nat)
    requires |l| == QK5_0 && AtMost(l, 31) && Holds(l, qh, 16) && k < QK5_0
    requires qs == seq(16, i requires 0 <= i < 16 => PairByte(l, i))
    ensures QuantAt(qs, qh, k) == l[k]
  {
    hide Join, Low, High, BitAt, Shr, ToByte;
    var i := k % 16;
    FifthRead(qh, k);
    FifthBack(l[k]);
    LowIsSmall(l[i]);
    LowIsSmall(l[i + 16]);
    JoinKept(Low(l[i]), Low(l[i + 16]));
  }
}
