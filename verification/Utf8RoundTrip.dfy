/** Which code points survive encoding and decoding. */
module Utf8RoundTrip {
  import opened Wrappers
  import opened Utf8

  /** What the decoder makes of a code point: the first byte of four keeps only two bits. */
  function Reduced(cp: bv32): bv32 { if cp > 0xFFFF then cp & 0xFFFFF else cp }

  lemma FirstOfOne(cp: bv32)
    requires cp <= 0x7F
    ensures FirstByteSize(FirstByte(cp, 1)) == Some(1)
    ensures FirstBits(FirstByte(cp, 1), 1) == Shifted(Reduced(cp), 0)
  {
  }

  lemma FirstOfTwo(cp: bv32)
    requires 0x7F < cp <= 0x7FF
    ensures FirstByteSize(FirstByte(cp, 2)) == Some(2)
    ensures FirstBits(FirstByte(cp, 2), 2) == Shifted(Reduced(cp), 1)
  {
  }

  lemma FirstOfThree(cp: bv32)
    requires 0x7FF < cp <= 0xFFFF
    ensures FirstByteSize(FirstByte(cp, 3)) == Some(3)
    ensures FirstBits(FirstByte(cp, 3), 3) == Shifted(Reduced(cp), 2)
  {
  }

  lemma FirstOfFour(cp: bv32)
    requires 0xFFFF < cp <= 0x10FFFF
    ensures FirstByteSize(FirstByte(cp, 4)) == Some(4)
    ensures FirstBits(FirstByte(cp, 4), 4) == Shifted(Reduced(cp), 3)
  {
  }

  lemma FirstByteRead(cp: bv32, size: nat)
    requires EncodedSize(cp) == Some(size)
    ensures FirstByteSize(FirstByte(cp, size)) == Some(size)
    ensures FirstBits(FirstByte(cp, size), size) == Shifted(Reduced(cp), size - 1)
  {
    hide FirstByte, FirstByteSize, FirstBits, Shifted, Reduced;
    if size == 1 {
      FirstOfOne(cp);
    } else if size == 2 {
      FirstOfTwo(cp);
    } else if size == 3 {
      FirstOfThree(cp);
    } else {
      FirstOfFour(cp);
    }
  }

  /** A trailing byte carries the low six bits. */
  lemma SixBits(x: bv32)
    ensures (((Low(x) & TRAILING_MASK) | TRAILING_MARKER) & TRAILING_MASK) as bv32 == x & 0x3F
  {
    var b := Low(x);
    assert ((b & 0x3F) | 0x80) & 0x3F == b & 0x3F;
    assert (b & 0x3F) as bv32 == x & 0x3F;
  }

  lemma JoinSix(x: bv32)
    ensures ((x >> 6) << 6) + (x & 0x3F) == x
  {
  }

  lemma NextGroup(cp: bv32, k: nat)
    requires k < 3
    ensures Shifted(cp, k + 1) == Shifted(cp, k) >> 6
  {
    if k == 1 {
      assert cp >> 12 == (cp >> 6) >> 6;
    } else if k == 2 {
      assert cp >> 18 == (cp >> 12) >> 6;
    }
  }

  lemma ReducedLow(cp: bv32, k: nat)
    requires k < 3 && (cp <= 0xFFFF || cp <= 0x10FFFF)
    ensures Shifted(Reduced(cp), k) & 0x3F == Shifted(cp, k) & 0x3F
  {
  }

  lemma TrailingByteRead(cp: bv32, size: nat, i: nat)
    requires EncodedSize(cp) == Some(size) && 1 <= i < size
    ensures Joined(Shifted(Reduced(cp), size - i), TrailingByte(cp, size, i)) ==
            Shifted(Reduced(cp), size - 1 - i)
  {
    hide Shifted, Low, Reduced;
    var k := size - 1 - i;
    SixBits(Shifted(cp, k));
    ReducedLow(cp, k);
    NextGroup(Reduced(cp), k);
    JoinSix(Shifted(Reduced(cp), k));
  }

  lemma StepsMore(st: State, s: seq<bv8>, b: bv8)
    requires Ok(st)
    ensures Steps(st, s + [b]) == match Steps(st, s) case None => None case Some(st') => Step(st', b)
  {
    assert (s + [b])[..|s|] == s;
  }

  lemma FirstStep(st: State, cp: bv32, size: nat)
    requires st.remaining == 0 && EncodedSize(cp) == Some(size)
    ensures Steps(st, [FirstByte(cp, size)]) == Finish(State(size - 1, size, Shifted(Reduced(cp), size - 1), st.out))
  {
    hide Finish, FirstByte, FirstByteSize, Shifted, Reduced;
    FirstByteRead(cp, size);
    StepsMore(st, [], FirstByte(cp, size));
    assert [] + [FirstByte(cp, size)] == [FirstByte(cp, size)];
  }

  lemma TrailingStep(st: State, cp: bv32, size: nat, i: nat)
    requires EncodedSize(cp) == Some(size) && 1 <= i < size
    requires st.remaining == size - i && st.size == size && st.cp == Shifted(Reduced(cp), size - i)
    ensures Step(st, TrailingByte(cp, size, i))
            == Finish(State(size - 1 - i, size, Shifted(Reduced(cp), size - 1 - i), st.out))
  {
    hide Finish, TrailingByte, Shifted, Reduced;
    TrailingByteRead(cp, size, i);
  }

  /** Part of a code point read: the first i of its bytes. */
  lemma {:induction false} PartRead(st: State, cp: bv32, size: nat, i: nat)
    requires st.remaining == 0 && EncodedSize(cp) == Some(size) && 1 <= i <= size
    ensures Steps(st, EncodeFirst(cp, size, i)) == Finish(State(size - i, size, Shifted(Reduced(cp), size - i), st.out))
  {
    hide Steps, Step, Shifted, FirstByte, TrailingByte, Reduced, EncodedSize;
    if i == 1 {
      FirstStep(st, cp, size);
    } else {
      PartRead(st, cp, size, i - 1);
      var now := State(size - i + 1, size, Shifted(Reduced(cp), size - i + 1), st.out);
      StepsMore(st, EncodeFirst(cp, size, i - 1), TrailingByte(cp, size, i - 1));
      TrailingStep(now, cp, size, i - 1);
    }
  }

  /** Below 0x100000 a code point is read back as it was; from there on the form is rejected. */
  lemma ReducedFinishes(cp: bv32, size: nat, out: seq<bv32>)
    requires EncodedSize(cp) == Some(size)
    ensures Finish(State(0, size, Reduced(cp), out)) ==
            if cp < 0x100000 then Some(State(0, size, cp, out + [cp])) else None
  {
    if cp < 0x100000 {
      assert cp & 0xFFFFF == cp;
    } else {
      assert cp & 0xFFFFF <= 0xFFFF;
    }
  }

  lemma {:induction false} StepsInTwo(st: State, a: seq<bv8>, b: seq<bv8>)
    requires Ok(st)
    ensures Steps(st, a + b) == match Steps(st, a) case None => None case Some(st') => Steps(st', b)
    decreases |b|
  {
    if b == [] {
      assert a + b == a;
    } else {
      var init := b[..|b| - 1];
      assert (a + b)[..|a + b| - 1] == a + init;
      StepsInTwo(st, a, init);
    }
  }

  predicate Survives(cp: bv32) { cp < 0x100000 }

  ghost predicate AllSurvive(cps: seq<bv32>) { forall cp :: cp in cps ==> Survives(cp) }

  ghost predicate AllInRange(cps: seq<bv32>) { forall cp :: cp in cps ==> cp <= 0x10FFFF }

  lemma OneMore(init: seq<bv32>, cp: bv32)
    ensures AllSurvive(init + [cp]) <==> AllSurvive(init) && Survives(cp)
    ensures AllInRange(init + [cp]) <==> AllInRange(init) && cp <= 0x10FFFF
  {
    assert cp in init + [cp] && forall x :: x in init + [cp] <==> x in init || x == cp;
  }

  /** What is decoded from an encoding: the same code points, unless one does not survive. */
  lemma {:induction false} DecodeEncoded(cps: seq<bv32>)
    requires Encode(cps).Some?
    ensures match Steps(START, Encode(cps).value)
            case None => !AllSurvive(cps)
            case Some(st) => st.remaining == 0 && st.out == cps && AllSurvive(cps)
    decreases |cps|
  {
    hide Steps, EncodedSize, Finish, AllSurvive, AllInRange;
    if cps == [] {
      NothingEncoded();
    } else {
      var init, cp := cps[..|cps| - 1], cps[|cps| - 1];
      assert cps == init + [cp];
      OneMore(init, cp);
      DecodeEncoded(init);
      EncodedOneMore(init, cp);
      var size := EncodedSize(cp).value;
      StepsInTwo(START, Encode(init).value, EncodeFirst(cp, size, size));
      if Steps(START, Encode(init).value).Some? {
        var st := Steps(START, Encode(init).value).value;
        PartRead(st, cp, size, size);
        WholeShift(cp);
        ReducedFinishes(cp, size, st.out);
      }
    }
  }

  lemma NothingEncoded()
    ensures Encode([]) == Some([]) && AllSurvive([]) && AllInRange([])
    ensures Steps(START, []) == Some(START)
  {
    var none: seq<bv8> := [];
    assert Steps(START, none) == Some(START);
  }

  lemma EncodedOneMore(init: seq<bv32>, cp: bv32)
    ensures Encode(init + [cp]) ==
            match Encode(init)
            case None => None
            case Some(s) => match EncodedSize(cp) case None => None case Some(size) => Some(s
              + EncodeFirst(cp, size, size))
  {
    assert (init + [cp])[..|init|] == init;
  }

  lemma WholeShift(cp: bv32)
    ensures Shifted(Reduced(cp), 0) == Reduced(cp)
  {
  }

  lemma {:induction false} EncodesIff(cps: seq<bv32>)
    ensures Encode(cps).Some? <==> AllInRange(cps)
    decreases |cps|
  {
    hide AllSurvive, AllInRange;
    if cps == [] {
      NothingEncoded();
    } else {
      var init, cp := cps[..|cps| - 1], cps[|cps| - 1];
      assert cps == init + [cp];
      OneMore(init, cp);
      EncodesIff(init);
      EncodedOneMore(init, cp);
    }
  }

  /** Decoding an encoding gives the code points back if and only if all are below 0x100000.
      RFC 3629 allows them up to 0x10FFFF. */
  lemma RoundTripIff(cps: seq<bv32>)
    ensures GetCodePoints(GetUtf8String(cps)) == cps <==> forall cp :: cp in cps ==> Survives(cp)
  {
    EncodesIff(cps);
    assert AllSurvive(cps) ==> AllInRange(cps);
    NothingEncoded();
    if Encode(cps).Some? {
      DecodeEncoded(cps);
      assert cps == [] ==> AllSurvive(cps);
    } else {
      assert cps != [];
    }
  }

  /** The first code point that is encoded and then rejected. */
  lemma FirstRejected()
    ensures GetUtf8String([0x100000]) == [0xF4, 0x80, 0x80, 0x80]
    ensures GetCodePoints([0xF4, 0x80, 0x80, 0x80]) == []
  {
    var cp: bv32 := 0x100000;
    assert [cp][..0] == [];
    assert FirstByte(cp, 4) == 0xF4 && TrailingByte(cp, 4, 1) == 0x80;
    assert TrailingByte(cp, 4, 2) == 0x80 && TrailingByte(cp, 4, 3) == 0x80;
    assert EncodeFirst(cp, 4, 1) == [0xF4] && EncodeFirst(cp, 4, 2) == [0xF4, 0x80];
    assert EncodeFirst(cp, 4, 3) == [0xF4, 0x80, 0x80] && EncodeFirst(cp, 4, 4) == [0xF4, 0x80, 0x80, 0x80];
    assert EncodedSize(cp) == Some(4);
    assert Encode([]) == Some([]) && [] + EncodeOne(cp).value == EncodeOne(cp).value;
    DecodeEncoded([cp]);
    assert !Survives(cp);
  }

  // ---------- No longer form is accepted ----------

  /** A state reached in the middle of a code point knows how large it can get. */
  ghost predicate Bounded(st: State) {
    && Ok(st) && (st.remaining > 0 ==> st.cp <= PartMax(st.size, st.remaining))
  }

  /** What the bytes read so far of a form of `size` bytes can come to. */
  function PartMax(size: nat, remaining: nat): bv32
    requires remaining < size <= 4
  {
    if size == 2 then (if remaining == 1 then 0x1F else 0x7FF)
    else if size == 3 then (if remaining == 2 then 0xF else if remaining == 1 then 0x3FF else 0xFFFF)
    else if size == 4 then (if remaining == 3 then 0x3 else if remaining == 2 then 0xFF else if remaining == 1
                            then 0x3FFF else 0xFFFFF)
    else 0x7F
  }

  lemma FirstBound(b: bv8, size: nat)
    requires 1 <= size <= 4
    ensures FirstBits(b, size) <= PartMax(size, size - 1)
  {
  }

  lemma SixMore(cp: bv32, b: bv8, m: bv32)
    requires cp <= m <= 0xFFFF
    ensures Joined(cp, b) <= (m << 6) + 0x3F
  {
    assert (b & TRAILING_MASK) as bv32 <= 0x3F;
    assert cp << 6 <= m << 6 <= 0x3FFFC0;
  }

  lemma PartMaxNext(size: nat, remaining: nat)
    requires 0 < remaining < size <= 4
    ensures PartMax(size, remaining) <= 0xFFFF
    ensures (PartMax(size, remaining) << 6) + 0x3F == PartMax(size, remaining - 1)
  {
  }

  lemma TrailingBound(st: State, b: bv8)
    requires Bounded(st) && st.remaining > 0
    ensures Joined(st.cp, b) <= PartMax(st.size, st.remaining - 1)
  {
    hide PartMax, Joined;
    PartMaxNext(st.size, st.remaining);
    SixMore(st.cp, b, PartMax(st.size, st.remaining));
  }

  /** A code point that is accepted after `size` bytes needs that many. */
  lemma FinishShortest(st: State)
    requires st.remaining == 0 && 1 <= st.size <= 4 && st.cp <= PartMax(st.size, 0) && Finish(st).Some?
    ensures EncodedSize(st.cp) == Some(st.size) && Survives(st.cp)
    ensures Finish(st).value == st.(out := st.out + [st.cp])
  {
  }

  lemma FinishCases(n: State)
    requires n.remaining < n.size <= 4 && n.cp <= PartMax(n.size, n.remaining) && Finish(n).Some?
    ensures var r := Finish(n).value;
            && Bounded(r) && r.size == n.size && r.remaining == n.remaining && r.cp == n.cp
            && (if r.remaining > 0 then r.out == n.out
                else r.out == n.out + [r.cp] && EncodedSize(r.cp) == Some(r.size) && Survives(r.cp))
  {
    if n.remaining == 0 { FinishShortest(n); }
  }

  /** What one byte does to a state: it begins a code point, goes on with one, or ends one. */
  lemma StepBounded(st: State, b: bv8)
    requires Ok(st) && Bounded(st) && Step(st, b).Some?
    ensures var r := Step(st, b).value;
            && Bounded(r) && 1 <= r.size <= 4 && r.remaining < r.size
            && (st.remaining > 0 ==> r.size == st.size && r.remaining == st.remaining - 1)
            && (st.remaining == 0 ==> r.remaining == r.size - 1)
            && (if r.remaining > 0 then r.out == st.out
                else r.out == st.out + [r.cp] && EncodedSize(r.cp) == Some(r.size) && Survives(r.cp))
  {
    hide PartMax, EncodedSize, Taken, Finish, Survives, Bounded;
    TakenBounded(st, b);
    FinishCases(Taken(st, b).value);
  }

  lemma TakenBounded(st: State, b: bv8)
    requires Bounded(st) && Taken(st, b).Some?
    ensures var n := Taken(st, b).value;
            && n.remaining < n.size <= 4 && n.cp <= PartMax(n.size, n.remaining)
            && (if st.remaining > 0 then n.size == st.size && n.remaining == st.remaining - 1
                else n.remaining == n.size - 1)
  {
    hide PartMax, FirstByteSize, FirstBits, Joined;
    if st.remaining == 0 {
      FirstBound(b, FirstByteSize(b).value);
    } else {
      TrailingBound(st, b);
    }
  }

  /** The number of bytes that the shortest forms of the code points take. */
  function ShortestLength(cps: seq<bv32>): nat {
    if cps == [] then 0
    else ShortestLength(cps[..|cps| - 1]) + match EncodedSize(cps[|cps| - 1]) case None => 0 case Some(size) => size
  }

  /** Whatever is accepted was in shortest form: the bytes read are those of the shortest forms,
      apart from a code point still being read; and nothing accepted reaches 0x100000. */
  lemma {:induction false} AcceptedIsShortest(s: seq<bv8>)
    requires Steps(START, s).Some?
    ensures var st := Steps(START, s).value;
            && Bounded(st) && AllSurvive(st.out)
            && |s| == ShortestLength(st.out) + if st.remaining > 0 then st.size - st.remaining else 0
    decreases |s|
  {
    hide Step, Bounded, AllSurvive, EncodedSize;
    if s == [] {
      StartBounded();
    } else {
      var init, b := s[..|s| - 1], s[|s| - 1];
      AcceptedIsShortest(init);
      var st := Steps(START, init).value;
      StepBounded(st, b);
      BoundedSize(st);
      var r := Step(st, b).value;
      if r.remaining == 0 {
        assert r.out[..|r.out| - 1] == st.out;
        OneMore(st.out, r.cp);
      }
    }
  }

  lemma StartBounded()
    ensures Bounded(START) && AllSurvive(START.out)
  {
  }

  lemma BoundedSize(st: State)
    requires Bounded(st)
    ensures st.remaining > 0 ==> st.remaining < st.size
  {
  }
}
