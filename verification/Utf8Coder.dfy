/** The coder's loops. */
module Utf8Coder {
  import opened Wrappers
  import opened Utf8
  import opened Utf8RoundTrip

  method GetSequenceSizeByCheckingFirstByte(b: bv8) returns (r: int)
    ensures r == match FirstByteSize(b) case None => -1 case Some(size) => size
  {
    for i := 1 to 5
      invariant forall k :: 1 <= k < i ==> b & MarkerMask(k) != Marker(k)
    {
      if b & MarkerMask(i) == Marker(i) {
        return i;
      }
    }
    r := -1;
  }

  lemma FirstFit(cp: bv32, i: nat)
    requires 1 <= i <= 4 && !Negative(cp) && cp <= MaxEncoded(i) && forall k :: 1 <= k < i ==> cp > MaxEncoded(k)
    ensures EncodedSize(cp) == Some(i)
  {
    if i == 1 {
    } else if i == 2 {
      assert cp > MaxEncoded(1);
    } else if i == 3 {
      assert cp > MaxEncoded(1) && cp > MaxEncoded(2);
    } else {
      assert cp > MaxEncoded(1) && cp > MaxEncoded(2) && cp > MaxEncoded(3);
    }
  }

  lemma NegativeHasNone(cp: bv32)
    ensures Negative(cp) ==> EncodedSize(cp) == None
  {
  }

  lemma NoFit(cp: bv32)
    requires forall k :: 1 <= k < 5 ==> cp > MaxEncoded(k)
    ensures EncodedSize(cp) == None
  {
    assert cp > MaxEncoded(4);
  }

  method GetSequenceSizeToEncodeCodePoint(cp: bv32) returns (r: int)
    ensures r == match EncodedSize(cp) case None => -1 case Some(size) => size
  {
    hide MaxEncoded;
    NegativeHasNone(cp);
    if Negative(cp) {
      return -1;
    }
    for i := 1 to 5
      invariant forall k :: 1 <= k < i ==> cp > MaxEncoded(k)
    {
      if cp <= MaxEncoded(i) {
        FirstFit(cp, i);
        return i;
      }
    }
    NoFit(cp);
    r := -1;
  }

  /** Begins a code point with its first byte, or adds a trailing byte to one. */
  method TakeByte(remaining: nat, size: nat, codePoint: bv32, b: bv8, ghost out: seq<bv32>)
    returns (ok: bool, remaining': nat, size': nat, codePoint': bv32)
    requires remaining > 0 ==> remaining < size <= 4
    ensures Taken(State(remaining, size, codePoint, out), b) ==
            if ok then Some(State(remaining', size', codePoint', out)) else None
  {
    hide FirstBits, Joined, FirstByteSize;
    ok, remaining', size', codePoint' := true, remaining, size, codePoint;
    if remaining == 0 {
      var first := GetSequenceSizeByCheckingFirstByte(b);
      if first <= 0 {
        return false, 0, 0, 0;
      }
      size', remaining' := first, first;
      codePoint' := FirstBits(b, first);
    } else {
      codePoint' := Joined(codePoint, b);
    }
    remaining' := remaining' - 1;
  }

  method DecodeUtf8(s: seq<bv8>) returns (codePoints: seq<bv32>)
    ensures codePoints == GetCodePoints(s)
  {
    hide Taken, Redundant, Steps;
    codePoints := [];
    var remaining: nat, size: nat, codePoint: bv32 := 0, 0, 0;
    StartsEmpty(s);
    for i := 0 to |s|
      invariant remaining > 0 ==> remaining < size <= 4
      invariant Steps(START, s[..i]) == Some(State(remaining, size, codePoint, codePoints))
    {
      StepsPrefix(s, i, State(remaining, size, codePoint, codePoints));
      var ok;
      ok, remaining, size, codePoint := TakeByte(remaining, size, codePoint, s[i], codePoints);
      if !ok {
        RejectedStays(s, i + 1);
        return [];
      }
      if remaining == 0 {
        if Redundant(size, codePoint) {
          RejectedStays(s, i + 1);
          return [];
        }
        codePoints := codePoints + [codePoint];
      }
    }
    assert s[..|s|] == s;
  }

  lemma StartsEmpty(s: seq<bv8>)
    ensures Steps(START, s[..0]) == Some(START)
  {
    assert s[..0] == [];
  }

  lemma StepsPrefix(s: seq<bv8>, i: nat, st: State)
    requires i < |s| && Ok(st) && Steps(START, s[..i]) == Some(st)
    ensures Steps(START, s[..i + 1]) == Step(st, s[i])
  {
    assert s[..i + 1][..i] == s[..i];
  }

  lemma {:induction false} RejectedStays(s: seq<bv8>, i: nat)
    requires i <= |s| && Steps(START, s[..i]).None?
    ensures Steps(START, s).None?
    decreases |s| - i
  {
    if i == |s| {
      assert s[..i] == s;
    } else {
      assert s[..i + 1][..i] == s[..i];
      RejectedStays(s, i + 1);
    }
  }

  method EncodeUtf8(cps: seq<bv32>) returns (s: seq<bv8>)
    ensures s == GetUtf8String(cps)
  {
    hide FirstByte, TrailingByte, EncodedSize;
    s := [];
    assert cps[..0] == [];
    for i := 0 to |cps|
      invariant Encode(cps[..i]) == Some(s)
    {
      assert cps[..i + 1] == cps[..i] + [cps[i]];
      EncodedOneMore(cps[..i], cps[i]);
      var size := GetSequenceSizeToEncodeCodePoint(cps[i]);
      if size <= 0 {
        UnencodableStays(cps, i + 1);
        return [];
      }
      var bytes := [FirstByte(cps[i], size)];
      for j := 1 to size
        invariant bytes == EncodeFirst(cps[i], size, j)
      {
        bytes := bytes + [TrailingByte(cps[i], size, j)];
      }
      s := s + bytes;
    }
    assert cps[..|cps|] == cps;
  }

  lemma {:induction false} UnencodableStays(cps: seq<bv32>, i: nat)
    requires i <= |cps| && Encode(cps[..i]).None?
    ensures Encode(cps).None?
    decreases |cps| - i
  {
    if i == |cps| {
      assert cps[..i] == cps;
    } else {
      assert cps[..i + 1][..i] == cps[..i];
      UnencodableStays(cps, i + 1);
    }
  }
}
