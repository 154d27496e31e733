/** The coder against the table of RFC 3629, section 3, read code point by code point. */
module Utf8Form {
  import opened Wrappers
  import opened Utf8
  import opened Utf8RoundTrip

  // ---------- The table ----------

  /** The payload of a trailing byte. */
  function Six(b: bv8): bv32 { (b & 0x3F) as bv32 }

  function Join2(a: bv32, b: bv32): bv32 { (a << 6) | b }

  function Join3(a: bv32, b: bv32, c: bv32): bv32 { (a << 12) | (b << 6) | c }

  function Join4(a: bv32, b: bv32, c: bv32, d: bv32): bv32 { (a << 18) | (b << 12) | (c << 6) | d }

  /** The bits b0 of the first byte and those of the trailing bytes, put together. */
  function Together(b0: bv32, s: seq<bv8>): bv32
    requires 1 <= |s| <= 4
  {
    if |s| == 1 then b0
    else if |s| == 2 then Join2(b0, Six(s[1]))
    else if |s| == 3 then Join3(b0, Six(s[1]), Six(s[2]))
    else Join4(b0, Six(s[1]), Six(s[2]), Six(s[3]))
  }

  ghost predicate IsTrailing(b: bv8) { b & 0xC0 == 0x80 }

  /** The first byte of n, by its value. */
  predicate Leads(b: bv8, n: nat)
    requires 1 <= n <= 4
  {
    if n == 1 then b < 0x80
    else if n == 2 then 0xC0 <= b < 0xE0
    else if n == 3 then 0xE0 <= b < 0xF0
    else 0xF0 <= b < 0xF8
  }

  /** What it says of the code point. */
  function LeadBits(b: bv8, n: nat): bv32
    requires 1 <= n <= 4
  {
    if n == 1 then b as bv32 else if n == 2 then (b & 0x1F) as bv32 else if n == 3 then (b & 0x0F) as bv32
    else (b & 0x07) as bv32
  }

  /** The smallest code point that needs n bytes. */
  function Least(n: nat): bv32
    requires 1 <= n <= 4
  {
    if n == 1 then 0 else if n == 2 then 0x80 else if n == 3 then 0x800 else 0x1_0000
  }

  predicate InRow(n: nat, cp: bv32)
    requires 1 <= n <= 4
  {
    Least(n) <= cp && (if n < 4 then cp < Least(n + 1) else cp <= 0x10FFFF)
  }

  /** The row of the table: s is the form of cp. */
  ghost predicate Form(s: seq<bv8>, cp: bv32) {
    && 1 <= |s| <= 4 && InRow(|s|, cp) && Leads(s[0], |s|)
    && (forall i :: 1 <= i < |s| ==> IsTrailing(s[i]))
    && cp == Together(LeadBits(s[0], |s|), s)
  }

  // ---------- Encoding ----------

  lemma FirstForm(cp: bv32, n: nat)
    requires 1 <= n <= 4 && InRow(n, cp)
    ensures Leads(FirstByte(cp, n), n) && LeadBits(FirstByte(cp, n), n) == Shifted(cp, n - 1)
  {
  }

  lemma SizeIsRow(cp: bv32, n: nat)
    requires 1 <= n <= 4
    ensures EncodedSize(cp) == Some(n) <==> InRow(n, cp)
  {
  }

  lemma TrailingForm(cp: bv32, size: nat, i: nat)
    requires 1 <= i < size <= 4
    ensures IsTrailing(TrailingByte(cp, size, i))
    ensures Six(TrailingByte(cp, size, i)) == Group(cp, size - 1 - i)
  {
    hide Shifted, Low;
    var x := Shifted(cp, size - 1 - i);
    SixBits(x);
    Marked(Low(x));
  }

  lemma Marked(b: bv8)
    ensures ((b & 0x3F) | 0x80) & 0xC0 == 0x80
  {
  }

  /** The k-th group of six bits from the right. */
  function Group(cp: bv32, k: nat): bv32
    requires k <= 3
  {
    Shifted(cp, k) & 0x3F
  }

  /** All bits of a code point, in groups of six. */
  lemma Groups(cp: bv32)
    ensures Join2(Shifted(cp, 1), Group(cp, 0)) == cp
    ensures Join3(Shifted(cp, 2), Group(cp, 1), Group(cp, 0)) == cp
    ensures Join4(Shifted(cp, 3), Group(cp, 2), Group(cp, 1), Group(cp, 0)) == cp
  {
    hide Join2, Join3, Join4, Group;
    TwoGroups(cp);
    ThreeGroups(cp);
    FourGroups(cp);
    assert Shifted(cp, 1) == cp >> 6 && Shifted(cp, 2) == cp >> 12 && Shifted(cp, 3) == cp >> 18;
    GroupValues(cp);
  }

  lemma GroupValues(cp: bv32)
    ensures Group(cp, 0) == cp & 0x3F && Group(cp, 1) == (cp >> 6) & 0x3F && Group(cp, 2) == (cp >> 12) & 0x3F
  {
  }

  lemma TwoGroups(cp: bv32)
    ensures Join2(cp >> 6, cp & 0x3F) == cp
  {
  }

  lemma ThreeGroups(cp: bv32)
    ensures Join3(cp >> 12, (cp >> 6) & 0x3F, cp & 0x3F) == cp
  {
  }

  lemma FourGroups(cp: bv32)
    ensures Join4(cp >> 18, (cp >> 12) & 0x3F, (cp >> 6) & 0x3F, cp & 0x3F) == cp
  {
  }

  lemma {:induction false} EncodedAt(cp: bv32, size: nat, i: nat)
    requires 1 <= i <= size <= 4
    ensures EncodeFirst(cp, size, i)[0] == FirstByte(cp, size)
    ensures forall j :: 1 <= j < i ==> EncodeFirst(cp, size, i)[j] == TrailingByte(cp, size, j)
  {
    hide FirstByte, TrailingByte;
    if i > 1 { EncodedAt(cp, size, i - 1); }
  }

  /** Bytes whose payloads are the groups of a code point put it together. */
  lemma GroupsTogether(cp: bv32, b0: bv32, s: seq<bv8>)
    requires 1 <= |s| <= 4 && b0 == Shifted(cp, |s| - 1)
    requires forall i :: 1 <= i < |s| ==> Six(s[i]) == Group(cp, |s| - 1 - i)
    ensures Together(b0, s) == cp
  {
    hide Six, Join2, Join3, Join4, Group, Shifted;
    Groups(cp);
    ShiftedNot(cp);
    if |s| == 4 {
      assert Six(s[1]) == Group(cp, 2) && Six(s[2]) == Group(cp, 1) && Six(s[3]) == Group(cp, 0);
    } else if |s| == 3 {
      assert Six(s[1]) == Group(cp, 1) && Six(s[2]) == Group(cp, 0);
    } else if |s| == 2 {
      assert Six(s[1]) == Group(cp, 0);
    }
  }

  lemma ShiftedNot(cp: bv32)
    ensures Shifted(cp, 0) == cp
  {
  }

  lemma EncodedForm(cp: bv32, size: nat)
    requires 1 <= size <= 4 && InRow(size, cp)
    ensures Form(EncodeFirst(cp, size, size), cp)
  {
    hide FirstByte, TrailingByte, Six, EncodeFirst, Shifted, Together, IsTrailing, Leads, LeadBits, InRow, Group;
    var s := EncodeFirst(cp, size, size);
    EncodedAt(cp, size, size);
    forall i | 1 <= i < size
      ensures IsTrailing(s[i]) && Six(s[i]) == Group(cp, size - 1 - i)
    {
      TrailingForm(cp, size, i);
    }
    FirstForm(cp, size);
    GroupsTogether(cp, LeadBits(s[0], size), s);
  }

  // ---------- The form is unique ----------

  lemma SameSix(b: bv8, c: bv8)
    requires IsTrailing(b) && IsTrailing(c) && Six(b) == Six(c)
    ensures b == c
  {
  }

  lemma SameLead(b: bv8, c: bv8, n: nat)
    requires 1 <= n <= 4 && Leads(b, n) && Leads(c, n) && LeadBits(b, n) == LeadBits(c, n)
    ensures b == c
  {
  }

  lemma Parted2(a: bv32, b: bv32)
    requires a <= 0xFF && b <= 0x3F
    ensures Shifted(Join2(a, b), 1) == a && Group(Join2(a, b), 0) == b
  {
  }

  lemma Parted3(a: bv32, b: bv32, c: bv32)
    requires a <= 0xFF && b <= 0x3F && c <= 0x3F
    ensures var cp := Join3(a, b, c); Shifted(cp, 2) == a && Group(cp, 1) == b && Group(cp, 0) == c
  {
  }

  lemma Parted4(a: bv32, b: bv32, c: bv32, d: bv32)
    requires a <= 0xFF && b <= 0x3F && c <= 0x3F && d <= 0x3F
    ensures var cp := Join4(a, b, c, d);
            Shifted(cp, 3) == a && Group(cp, 2) == b && Group(cp, 1) == c && Group(cp, 0) == d
  {
  }

  lemma Payloads(b: bv8, n: nat)
    requires 1 <= n <= 4
    ensures Six(b) <= 0x3F && LeadBits(b, n) <= 0xFF
  {
  }

  /** The payloads of a form are the groups of its code point. */
  lemma FormParts(s: seq<bv8>, cp: bv32)
    requires Form(s, cp)
    ensures LeadBits(s[0], |s|) == Shifted(cp, |s| - 1)
    ensures forall i :: 1 <= i < |s| ==> Six(s[i]) == Group(cp, |s| - 1 - i)
  {
    hide Six, Join2, Join3, Join4, Group, Shifted, LeadBits, Leads, IsTrailing, InRow;
    var n := |s|;
    forall b ensures Six(b) <= 0x3F && LeadBits(b, n) <= 0xFF { Payloads(b, n); }
    ShiftedNot(cp);
    if n == 2 {
      Parted2(LeadBits(s[0], n), Six(s[1]));
    } else if n == 3 {
      Parted3(LeadBits(s[0], n), Six(s[1]), Six(s[2]));
    } else if n == 4 {
      Parted4(LeadBits(s[0], n), Six(s[1]), Six(s[2]), Six(s[3]));
    }
  }

  lemma FormUnique(s: seq<bv8>, t: seq<bv8>, cp: bv32)
    requires Form(s, cp) && Form(t, cp) && |s| == |t|
    ensures s == t
  {
    hide Six, Group, Shifted, LeadBits, Leads, IsTrailing, InRow, Together;
    FormParts(s, cp);
    FormParts(t, cp);
    SameLead(s[0], t[0], |s|);
    forall i | 1 <= i < |s| ensures s[i] == t[i] { SameSix(s[i], t[i]); }
  }

  lemma OneRow(m: nat, n: nat, cp: bv32)
    requires 1 <= m <= 4 && 1 <= n <= 4 && InRow(m, cp) && InRow(n, cp)
    ensures m == n
  {
  }

  /** A code point is encoded as the table says, and not at all if the table has no row for it. */
  lemma EncodesByTable(cp: bv32, s: seq<bv8>)
    ensures EncodeOne(cp) == Some(s) <==> Form(s, cp)
  {
    hide EncodeFirst, InRow, Leads, LeadBits, IsTrailing, Together, EncodedSize;
    if EncodedSize(cp).Some? {
      var n := EncodedSize(cp).value;
      SizeIsRow(cp, n);
      EncodedForm(cp, n);
      if Form(s, cp) {
        OneRow(|s|, n, cp);
        FormUnique(s, EncodeFirst(cp, n, n), cp);
      }
    } else if Form(s, cp) {
      SizeIsRow(cp, |s|);
    }
  }

  /** s is the forms of the code points one after the other. */
  ghost predicate Forms(s: seq<bv8>, cps: seq<bv32>)
    decreases |cps|
  {
    if cps == [] then s == []
    else exists k :: 0 <= k <= |s| && Forms(s[..k], cps[..|cps| - 1]) && Form(s[k..], cps[|cps| - 1])
  }

  lemma {:induction false} EncodesByTables(s: seq<bv8>, cps: seq<bv32>)
    ensures Encode(cps) == Some(s) <==> Forms(s, cps)
    decreases |cps|
  {
    hide Form, EncodeOne;
    if cps != [] {
      var init, cp := cps[..|cps| - 1], cps[|cps| - 1];
      if Encode(cps) == Some(s) {
        var a, b := Encode(init).value, EncodeOne(cp).value;
        EncodesByTables(a, init);
        EncodesByTable(cp, b);
        assert s[..|a|] == a && s[|a|..] == b;
      }
      if Forms(s, cps) {
        var k :| 0 <= k <= |s| && Forms(s[..k], init) && Form(s[k..], cp);
        EncodesByTables(s[..k], init);
        EncodesByTable(cp, s[k..]);
        assert s[..k] + s[k..] == s;
      }
    }
  }

  // ---------- Decoding ----------

  /** How many bytes b begins. */
  function LeadSize(b: bv8): (r: Option<nat>)
    ensures r.Some? ==> 1 <= r.value <= 4
  {
    if Leads(b, 1) then Some(1) else if Leads(b, 2) then Some(2) else if Leads(b, 3) then Some(3)
    else if Leads(b, 4) then Some(4) else None
  }

  /** What the decoder reads of a first byte: in four bytes it leaves out a bit. */
  function ReadBits(b: bv8, n: nat): bv32
    requires 1 <= n <= 4
  {
    if n == 4 then LeadBits(b, 4) & 0x03 else LeadBits(b, n)
  }

  predicate TooSmall(cp: bv32, n: nat)
    requires 1 <= n <= 4
  {
    cp < Least(n)
  }

  /** What a byte string says, code point by code point: None if some group of bytes has no first byte,
      or comes to less than needs so many; a group that is cut short is left out. */
  function Reading(s: seq<bv8>): Option<seq<bv32>>
    decreases |s|
  {
    if s == [] then Some([])
    else match LeadSize(s[0])
      case None => None
      case Some(n) =>
        if |s| < n then Some([])
        else
          var cp := Together(ReadBits(s[0], n), s[..n]);
          if TooSmall(cp, n) then None
          else match Reading(s[n..])
            case None => None
            case Some(cps) => Some([cp] + cps)
  }

  lemma LeadIsFirst(b: bv8)
    ensures FirstByteSize(b) == LeadSize(b)
    ensures LeadSize(b).Some? ==> FirstBits(b, LeadSize(b).value) == ReadBits(b, LeadSize(b).value) <= 0x7F
    ensures LeadSize(b).Some? && LeadSize(b).value > 1 ==> ReadBits(b, LeadSize(b).value) <= 0x1F
    ensures LeadSize(b).Some? && LeadSize(b).value > 2 ==> ReadBits(b, LeadSize(b).value) <= 0x0F
  {
  }

  /** The first i bytes of a group joined one by one. */
  function Part(g: seq<bv8>, n: nat, i: nat): bv32
    requires 1 <= i <= |g| && 1 <= n <= 4
  {
    if i == 1 then FirstBits(g[0], n) else Joined(Part(g, n, i - 1), g[i - 1])
  }

  lemma {:induction false} GroupRead(st: State, g: seq<bv8>, n: nat, i: nat)
    requires st.remaining == 0 && 1 <= i <= |g| && i <= n && FirstByteSize(g[0]) == Some(n)
    ensures Steps(st, g[..i]) == Finish(State(n - i, n, Part(g, n, i), st.out))
  {
    hide FirstByteSize, FirstBits, Joined, Redundant;
    if i == 1 {
      assert g[..1] == [] + [g[0]];
      StepsMore(st, [], g[0]);
    } else {
      GroupRead(st, g, n, i - 1);
      assert g[..i] == g[..i - 1] + [g[i - 1]];
      StepsMore(st, g[..i - 1], g[i - 1]);
    }
  }

  lemma JoinedOnce(a: bv32, b: bv8)
    requires a <= 0x1F
    ensures Joined(a, b) == Join2(a, Six(b)) <= 0x7FF
  {
  }

  lemma JoinedTwice(a: bv32, b: bv8, c: bv8)
    requires a <= 0x0F
    ensures Joined(Joined(a, b), c) == Join3(a, Six(b), Six(c)) <= 0xFFFF
  {
  }

  lemma JoinedMore(a: bv32, b: bv32, c: bv32, d: bv8)
    requires a <= 0x0F && b <= 0x3F && c <= 0x3F
    ensures Joined(Join3(a, b, c), d) == Join4(a, b, c, Six(d))
  {
  }

  lemma WholePart(g: seq<bv8>, n: nat)
    requires |g| == n && 1 <= n <= 4 && LeadSize(g[0]) == Some(n)
    ensures Part(g, n, n) == Together(ReadBits(g[0], n), g)
  {
    hide FirstBits, Joined, Join2, Join3, Join4, Six, LeadSize, ReadBits, LeadBits;
    LeadIsFirst(g[0]);
    assert Part(g, n, 1) == FirstBits(g[0], n);
    assert n > 1 ==> Part(g, n, 2) == Joined(Part(g, n, 1), g[1]);
    assert n > 2 ==> Part(g, n, 3) == Joined(Part(g, n, 2), g[2]);
    if n == 2 {
      JoinedOnce(ReadBits(g[0], n), g[1]);
    } else if n == 3 {
      JoinedTwice(ReadBits(g[0], n), g[1], g[2]);
    } else if n == 4 {
      JoinedTwice(ReadBits(g[0], n), g[1], g[2]);
      Payloads(g[1], n);
      Payloads(g[2], n);
      JoinedMore(ReadBits(g[0], n), Six(g[1]), Six(g[2]), g[3]);
    }
  }

  lemma FinishIff(n: nat, cp: bv32, out: seq<bv32>)
    requires 1 <= n <= 4
    ensures Finish(State(0, n, cp, out)) == if TooSmall(cp, n) then None else Some(State(0, n, cp, out + [cp]))
  {
  }

  lemma CutShort(st: State)
    requires st.remaining > 0
    ensures Finish(st) == Some(st)
  {
  }

  /** The decoder's bytewise steps read just that. */
  lemma {:induction false} StepsRead(st: State, s: seq<bv8>)
    requires st.remaining == 0
    ensures match Reading(s)
            case None => Steps(st, s).None?
            case Some(cps) => Steps(st, s).Some? && Steps(st, s).value.out == st.out + cps
    decreases |s|
  {
    hide FirstByteSize, FirstBits, Joined, Together, LeadSize, ReadBits, TooSmall, Finish, Part, Steps;
    if s == [] {
      assert Steps(st, []) == Some(st) by { NothingRead(st); }
    } else {
      LeadIsFirst(s[0]);
      match LeadSize(s[0])
      case None => NoGroup(st, s);
      case Some(n) =>
        if |s| < n {
          PartOfGroup(st, s, n);
        } else {
          WholeGroup(st, s, n);
          var cp := Together(ReadBits(s[0], n), s[..n]);
          if !TooSmall(cp, n) {
            StepsRead(State(0, n, cp, st.out + [cp]), s[n..]);
            if Reading(s[n..]).Some? {
              assert st.out + [cp] + Reading(s[n..]).value == st.out + ([cp] + Reading(s[n..]).value);
            }
          }
        }
    }
  }

  lemma NothingRead(st: State)
    requires Ok(st)
    ensures Steps(st, []) == Some(st)
  {
  }

  lemma NoGroup(st: State, s: seq<bv8>)
    requires st.remaining == 0 && s != [] && FirstByteSize(s[0]).None?
    ensures Steps(st, s).None?
  {
    hide FirstByteSize, FirstBits, Joined, Finish;
    assert s[..1] == [] + [s[0]] && s == s[..1] + s[1..];
    StepsMore(st, [], s[0]);
    StepsInTwo(st, s[..1], s[1..]);
  }

  lemma PartOfGroup(st: State, s: seq<bv8>, n: nat)
    requires st.remaining == 0 && 0 < |s| < n && FirstByteSize(s[0]) == Some(n)
    ensures Steps(st, s).Some? && Steps(st, s).value.out == st.out
  {
    hide FirstByteSize, FirstBits, Joined, Finish, Steps, Part;
    assert s[..|s|] == s;
    GroupRead(st, s, n, |s|);
    CutShort(State(n - |s|, n, Part(s, n, |s|), st.out));
  }

  lemma WholeGroup(st: State, s: seq<bv8>, n: nat)
    requires st.remaining == 0 && 1 <= n <= |s| && n <= 4 && LeadSize(s[0]) == Some(n)
    ensures var cp := Together(ReadBits(s[0], n), s[..n]);
            Steps(st, s) == if TooSmall(cp, n) then None else Steps(State(0, n, cp, st.out + [cp]), s[n..])
  {
    hide FirstByteSize, FirstBits, Joined, Together, LeadSize, ReadBits, TooSmall, Finish, Steps, Part;
    var g, cp := s[..n], Together(ReadBits(s[0], n), s[..n]);
    LeadIsFirst(s[0]);
    assert g[..n] == g;
    GroupRead(st, g, n, n);
    WholePart(g, n);
    FinishIff(n, cp, st.out);
    assert s == g + s[n..];
    StepsInTwo(st, g, s[n..]);
  }

  /** Decoding a string gives what its groups of bytes say, or nothing if one of them is wrong. */
  lemma DecodesByGroups(s: seq<bv8>)
    ensures GetCodePoints(s) == match Reading(s) case None => [] case Some(cps) => cps
  {
    hide Reading, Steps;
    StepsRead(START, s);
    if Reading(s).Some? { assert [] + Reading(s).value == Reading(s).value; }
  }
}
