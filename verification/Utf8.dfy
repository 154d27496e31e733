/** The dictionary toolkit's UTF-8 coder: RFC 3629, section 3, up to a mask that is a bit short. */
module Utf8 {
  import opened Wrappers

  /** Tables by sequence size. */
  function MarkerMask(i: nat): bv8
    requires 1 <= i <= 4 { if i == 1 then 0x80 else if i == 2 then 0xE0 else if i == 3 then 0xF0 else 0xF8 }

  function Marker(i: nat): bv8
    requires 1 <= i <= 4 { if i == 1 then 0x00 else if i == 2 then 0xC0 else if i == 3 then 0xE0 else 0xF0 }

  function CodePointMask(i: nat): bv8
    requires 1 <= i <= 4 { if i == 1 then 0x7F else if i == 2 then 0x1F else if i == 3 then 0x0F else 0x03 }

  /** The largest code point of i bytes; all values are larger than that of 0 bytes. */
  function MaxEncoded(i: nat): bv32
    requires 1 <= i <= 4 { if i == 1 then 0x7F else if i == 2 then 0x7FF else if i == 3 then 0xFFFF else 0x10FFFF }

  const TRAILING_MASK: bv8 := 0x3F
  const TRAILING_MARKER: bv8 := 0x80

  /** A 32-bit value with the sign bit set is negative. */
  predicate Negative(cp: bv32) { cp >= 0x8000_0000 }

  function EncodedSize(cp: bv32): (r: Option<nat>)
    ensures r.Some? ==> 1 <= r.value <= 4 && cp <= MaxEncoded(r.value) && (r.value > 1 ==> cp > MaxEncoded(r.value - 1))
    ensures r.None? <==> cp > 0x10FFFF
  {
    if Negative(cp) then None
    else if cp <= MaxEncoded(1) then Some(1)
    else if cp <= MaxEncoded(2) then Some(2)
    else if cp <= MaxEncoded(3) then Some(3)
    else if cp <= MaxEncoded(4) then Some(4)
    else None
  }

  /** cp without its last k groups of six bits. */
  function Shifted(cp: bv32, k: nat): bv32
    requires k <= 3
  {
    if k == 0 then cp else if k == 1 then cp >> 6 else if k == 2 then cp >> 12 else cp >> 18
  }

  function Low(x: bv32): bv8 { (x & 0xFF) as bv8 }

  function FirstByte(cp: bv32, size: nat): bv8
    requires 1 <= size <= 4
  {
    Low(Shifted(cp, size - 1)) | Marker(size)
  }

  function TrailingByte(cp: bv32, size: nat, i: nat): bv8
    requires 1 <= i < size <= 4
  {
    (Low(Shifted(cp, size - 1 - i)) & TRAILING_MASK) | TRAILING_MARKER
  }

  /** The first i bytes of the encoding. */
  function EncodeFirst(cp: bv32, size: nat, i: nat): (r: seq<bv8>)
    requires 1 <= i <= size <= 4
    ensures |r| == i
  {
    if i == 1 then [FirstByte(cp, size)] else EncodeFirst(cp, size, i - 1) + [TrailingByte(cp, size, i - 1)]
  }

  function EncodeOne(cp: bv32): Option<seq<bv8>> {
    match EncodedSize(cp)
    case None => None
    case Some(size) => Some(EncodeFirst(cp, size, size))
  }

  /** None: some code point cannot be encoded, and the result is the empty string. */
  function Encode(cps: seq<bv32>): Option<seq<bv8>> {
    if cps == [] then Some([])
    else match Encode(cps[..|cps| - 1])
      case None => None
      case Some(s) =>
        match EncodeOne(cps[|cps| - 1])
        case None => None
        case Some(b) => Some(s + b)
  }

  function GetUtf8String(cps: seq<bv32>): seq<bv8> {
    match Encode(cps) case None => [] case Some(s) => s
  }

  // ---------- Decoding ----------

  function FirstByteSize(b: bv8): (r: Option<nat>)
    ensures r.Some? ==> 1 <= r.value <= 4
  {
    if b & MarkerMask(1) == Marker(1) then Some(1)
    else if b & MarkerMask(2) == Marker(2) then Some(2)
    else if b & MarkerMask(3) == Marker(3) then Some(3)
    else if b & MarkerMask(4) == Marker(4) then Some(4)
    else None
  }

  datatype State = State(remaining: nat, size: nat, cp: bv32, out: seq<bv32>)

  ghost predicate Ok(st: State) { st.remaining > 0 ==> st.remaining < st.size <= 4 }

  /** Fewer bytes would have done. */
  predicate Redundant(size: nat, cp: bv32)
    requires 1 <= size <= 4
  {
    size > 1 && cp <= MaxEncoded(size - 1)
  }

  /** A finished code point is added unless fewer bytes would have done. */
  function Finish(st: State): Option<State>
    requires st.remaining == 0 ==> 1 <= st.size <= 4
  {
    if st.remaining > 0 then Some(st)
    else if Redundant(st.size, st.cp) then None
    else Some(st.(out := st.out + [st.cp]))
  }

  /** The bits of a code point in its first byte. */
  function FirstBits(b: bv8, size: nat): bv32
    requires 1 <= size <= 4
  {
    (b & CodePointMask(size)) as bv32
  }

  /** The bits so far and those of a trailing byte. */
  function Joined(cp: bv32, b: bv8): bv32 { (cp << 6) + (b & TRAILING_MASK) as bv32 }

  /** The code point with one byte more.  None: the byte cannot begin one. */
  function Taken(st: State, b: bv8): (r: Option<State>)
    requires Ok(st)
    ensures r.Some? ==> 1 <= r.value.size <= 4 && r.value.remaining < r.value.size && r.value.out == st.out
  {
    if st.remaining == 0 then
      match FirstByteSize(b)
      case None => None
      case Some(size) => Some(State(size - 1, size, FirstBits(b, size), st.out))
    else
      Some(State(st.remaining - 1, st.size, Joined(st.cp, b), st.out))
  }

  /** One byte.  None: the input is rejected. */
  function Step(st: State, b: bv8): (r: Option<State>)
    requires Ok(st)
    ensures r.Some? ==> Ok(r.value)
  {
    match Taken(st, b) case None => None case Some(n) => Finish(n)
  }

  function Steps(st: State, s: seq<bv8>): (r: Option<State>)
    requires Ok(st)
    ensures r.Some? ==> Ok(r.value)
  {
    if s == [] then Some(st)
    else match Steps(st, s[..|s| - 1])
      case None => None
      case Some(st') => Step(st', s[|s| - 1])
  }

  const START: State := State(0, 0, 0, [])

  /** Rejected input gives no code points at all; an unfinished last one is dropped. */
  function GetCodePoints(s: seq<bv8>): seq<bv32> {
    match Steps(START, s) case None => [] case Some(st) => st.out
  }
}
