/** Which byte strings survive decoding and encoding.  The decoder tests neither the marker of a
    trailing byte nor the third payload bit of the first byte of four. */
module Utf8Reencoding {
  import opened Wrappers
  import opened Utf8
  import opened Utf8RoundTrip

  // ---------- Well marked bytes ----------

  /** The trailing bytes still due after s, as its first bytes announce them. */
  function Due(s: seq<bv8>): nat {
    if s == [] then 0
    else
      var due := Due(s[..|s| - 1]);
      if due > 0 then due - 1
      else match FirstByteSize(s[|s| - 1]) case None => 0 case Some(size) => size - 1
  }

  /** A trailing byte is 10xxxxxx, a first byte of four is 111100xx. */
  predicate WellMarked(due: nat, b: bv8) {
    if due > 0 then b & 0xC0 == 0x80 else b & 0xF8 == 0xF0 ==> b & 0x04 == 0
  }

  ghost predicate Marked(s: seq<bv8>) {
    forall i :: 0 <= i < |s| ==> WellMarked(Due(s[..i]), s[i])
  }

  lemma MarkedMore(s: seq<bv8>, b: bv8)
    ensures Marked(s + [b]) <==> Marked(s) && WellMarked(Due(s), b)
  {
    assert forall i :: 0 <= i <= |s| ==> (s + [b])[..i] == s[..i];
    assert s[..|s|] == s && (s + [b])[|s|] == b;
    if Marked(s + [b]) {
      forall i | 0 <= i < |s| ensures WellMarked(Due(s[..i]), s[i]) {
        assert (s + [b])[i] == s[i];
      }
    }
  }

  // ---------- The bytes of a code point still being read ----------

  /** The byte that encoding puts where b was read. */
  function Remarked(st: State, b: bv8): bv8 {
    if st.remaining > 0 then (b & TRAILING_MASK) | TRAILING_MARKER
    else match FirstByteSize(b) case None => b case Some(size) => Low(FirstBits(b, size)) | Marker(size)
  }

  lemma RemarkedIff(st: State, b: bv8)
    ensures Remarked(st, b) == b <==> WellMarked(st.remaining, b)
  {
    if st.remaining > 0 {
      TrailingKept(b);
    } else {
      match FirstByteSize(b)
      case None => FirstKept(b, 1);
      case Some(size) => FirstKept(b, size);
    }
  }

  lemma TrailingKept(b: bv8)
    ensures (b & 0x3F) | 0x80 == b <==> b & 0xC0 == 0x80
  {
  }

  lemma FirstKept(b: bv8, size: nat)
    requires 1 <= size <= 4
    ensures FirstByteSize(b) == Some(size) ==> (Low(FirstBits(b, size)) | Marker(size) == b <==> WellMarked(0, b))
    ensures FirstByteSize(b).None? ==> WellMarked(0, b)
  {
  }

  /** The first k bytes of a form of `size` bytes, from the bits that are in them. */
  function PartBytes(cp: bv32, size: nat, k: nat): (r: seq<bv8>)
    requires 1 <= k <= size <= 4
    ensures |r| == k
  {
    if k == 1 then [Low(cp) | Marker(size)]
    else PartBytes(cp >> 6, size, k - 1) + [(Low(cp) & TRAILING_MASK) | TRAILING_MARKER]
  }

  lemma {:induction false} WholeInParts(cp: bv32, size: nat, k: nat)
    requires 1 <= k <= size <= 4
    ensures EncodeFirst(cp, size, k) == PartBytes(Shifted(cp, size - k), size, k)
  {
    hide Shifted, Low, Marker;
    if k == 1 {
    } else {
      WholeInParts(cp, size, k - 1);
      NextGroup(cp, size - k);
    }
  }

  lemma JoinedParts(cp: bv32, b: bv8)
    requires cp <= 0xFFFF
    ensures Joined(cp, b) >> 6 == cp && Low(Joined(cp, b)) & TRAILING_MASK == b & TRAILING_MASK
  {
  }

  lemma PartBytesMore(cp: bv32, size: nat, k: nat, b: bv8)
    requires 1 <= k < size <= 4 && cp <= 0xFFFF
    ensures PartBytes(Joined(cp, b), size, k + 1) == PartBytes(cp, size, k) + [(b & TRAILING_MASK) | TRAILING_MARKER]
  {
    hide Joined, Low;
    JoinedParts(cp, b);
  }

  /** The bytes of the code point being read, as encoding would write them. */
  function Current(st: State): seq<bv8>
    requires st.remaining > 0 ==> st.remaining < st.size <= 4
  {
    if st.remaining > 0 then PartBytes(st.cp, st.size, st.size - st.remaining) else []
  }

  /** What encoding makes of what has been read. */
  function Reencoded(st: State): seq<bv8>
    requires st.remaining > 0 ==> st.remaining < st.size <= 4
  {
    GetUtf8String(st.out) + Current(st)
  }

  lemma TakenParts(st: State, b: bv8)
    requires Ok(st) && Bounded(st) && Taken(st, b).Some?
    ensures var n := Taken(st, b).value;
            PartBytes(n.cp, n.size, n.size - n.remaining) == Current(st) + [Remarked(st, b)]
  {
    hide PartMax, Joined, FirstBits, Low, Marker;
    if st.remaining > 0 {
      PartMaxNext(st.size, st.remaining);
      PartBytesMore(st.cp, st.size, st.size - st.remaining, b);
    }
  }

  lemma EncodedMore(out: seq<bv32>, cp: bv32, size: nat)
    requires AllSurvive(out) && EncodedSize(cp) == Some(size)
    ensures GetUtf8String(out + [cp]) == GetUtf8String(out) + PartBytes(cp, size, size)
  {
    hide EncodeFirst, PartBytes;
    EncodesIff(out);
    EncodedOneMore(out, cp);
    WholeInParts(cp, size, size);
  }

  /** Reading a byte and encoding again writes that byte, its marker put right. */
  lemma StepReencoded(st: State, b: bv8)
    requires Ok(st) && Bounded(st) && AllSurvive(st.out) && Step(st, b).Some?
    ensures Reencoded(Step(st, b).value) == Reencoded(st) + [Remarked(st, b)]
  {
    hide EncodedSize, PartBytes, Current, Remarked, GetUtf8String, AllSurvive, Taken, Bounded, Redundant, Survives;
    TakenParts(st, b);
    StepBounded(st, b);
    var n := Taken(st, b).value;
    CurrentIs(n);
    CurrentIs(Step(st, b).value);
    if n.remaining == 0 { EncodedMore(st.out, n.cp, n.size); }
  }

  lemma CurrentIs(st: State)
    requires st.remaining > 0 ==> st.remaining < st.size <= 4
    ensures st.remaining > 0 ==> Current(st) == PartBytes(st.cp, st.size, st.size - st.remaining)
    ensures st.remaining == 0 ==> Current(st) == []
  {
  }

  // ---------- Whole strings ----------

  lemma DueMore(s: seq<bv8>, b: bv8, st: State)
    requires Ok(st) && st.remaining == Due(s) && Step(st, b).Some?
    ensures Step(st, b).value.remaining == Due(s + [b])
  {
    hide FirstByteSize, FirstBits, Joined;
    assert (s + [b])[..|s|] == s;
  }

  /** Decoding accepted bytes and encoding them again gives as many bytes, and the same ones
      exactly if all are well marked. */
  lemma {:induction false} AcceptedReencoded(s: seq<bv8>)
    requires Steps(START, s).Some?
    ensures var st := Steps(START, s).value;
            && st.remaining == Due(s) && |Reencoded(st)| == |s| && (Reencoded(st) == s <==> Marked(s))
    decreases |s|
  {
    hide Step, Marked, Due, WellMarked, Remarked;
    if s == [] {
      NothingReencoded();
    } else {
      var init, b := s[..|s| - 1], s[|s| - 1];
      assert s == init + [b];
      var st := Steps(START, init).value;
      AcceptedReencoded(init);
      AcceptedIsShortest(init);
      StepReencoded(st, b);
      DueMore(init, b, st);
      MarkedMore(init, b);
      RemarkedIff(st, b);
      var e := Reencoded(st);
      assert (e + [Remarked(st, b)])[..|init|] == e && s[..|init|] == init;
    }
  }

  lemma NothingReencoded()
    ensures Reencoded(START) == [] && Due([]) == 0 && Marked([])
  {
  }

  /** Decoding and encoding gives a string back if and only if it is accepted, ends with a
      finished code point, and every byte carries the marker that encoding writes. */
  lemma ReencodingIff(s: seq<bv8>)
    ensures GetUtf8String(GetCodePoints(s)) == s <==> Steps(START, s).Some? && Due(s) == 0 && Marked(s)
  {
    hide Marked, Due;
    if Steps(START, s).Some? {
      AcceptedReencoded(s);
      CurrentIs(Steps(START, s).value);
    } else {
      assert s != [];
    }
  }

  /** A trailing byte without its marker is accepted and comes back with it. */
  lemma MarkerPutRight()
    ensures GetCodePoints([0xC4, 0x00]) == [0x100] && GetUtf8String([0x100]) == [0xC4, 0x80]
  {
    var cp: bv32 := 0x100;
    var st := State(1, 2, 4, []);
    assert [0xC4, 0x00][..1] == [0xC4] && [0xC4][..0] == [] && [cp][..0] == [];
    assert FirstByteSize(0xC4) == Some(2) && FirstBits(0xC4, 2) == 4 && Joined(4, 0) == cp;
    assert Steps(START, []) == Some(START) && Steps(START, [0xC4]) == Some(st);
    assert st.out + [cp] == [cp];
    assert Step(st, 0) == Some(State(0, 2, cp, [cp]));
    assert FirstByte(cp, 2) == 0xC4 && TrailingByte(cp, 2, 1) == 0x80;
    assert EncodeFirst(cp, 2, 1) == [0xC4] && EncodeFirst(cp, 2, 2) == [0xC4, 0x80];
    assert EncodedSize(cp) == Some(2);
    assert Encode([]) == Some([]) && [] + EncodeOne(cp).value == EncodeOne(cp).value;
  }
}
