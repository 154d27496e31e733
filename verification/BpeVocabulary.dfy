/** The vocabulary of a byte-pair model and how a text falls into its first symbols. */
module BpeVocabulary {
  import opened Wrappers
  import Utf8

  type Octet = x: int | 0 <= x < 256 witness 0
  type Bytes = seq<Octet>

  datatype PieceKind = Normal | UserDefined | Unused | Unknown | Control | Byte

  datatype SentencePiece = SentencePiece(piece: Bytes, score: real, kind: PieceKind)

  predicate IsNormal(k: PieceKind) { k == Normal || k == UserDefined || k == Unused }

  /** What `InitializePieces` leaves behind when it succeeds. */
  datatype Vocabulary = Vocabulary(proto: seq<SentencePiece>, pieces: map<Bytes, nat>, reserved: map<Bytes, nat>,
                                   unkId: nat) {
    /** The maps hold exactly the pieces, each under its own text, and one piece is the unknown one. */
    ghost predicate Valid() {
      && (forall i: nat :: i < |proto| ==> Listed(i))
      && (forall w :: w in pieces ==> pieces[w] < |proto| && IsNormal(proto[pieces[w]].kind) && Spells(pieces[w], w))
      && (forall w :: w in reserved ==>
            reserved[w] < |proto| && !IsNormal(proto[reserved[w]].kind) && Spells(reserved[w], w))
      && unkId < |proto| && forall i :: 0 <= i < |proto| ==> (proto[i].kind == Unknown <==> i == unkId)
    }

    ghost predicate Spells(i: nat, w: Bytes) { i < |proto| && proto[i].piece == w }

    ghost predicate Listed(i: nat) {
      && i < |proto| && proto[i].piece != []
      && var m := if IsNormal(proto[i].kind) then pieces else reserved;
         proto[i].piece in m && m[proto[i].piece] == i
    }

    /** id is what w is known by: a reserved piece of that text, or else another one of that text, or
        else, as there is none, the unknown piece. */
    ghost predicate Names(id: int, w: Bytes) {
      && 0 <= id < |proto|
      && if exists i: nat :: Spells(i, w) && !IsNormal(proto[i].kind) then
           Spells(id, w) && !IsNormal(proto[id].kind)
         else if exists i: nat :: Spells(i, w) then Spells(id, w)
         else proto[id].kind == Unknown
    }

    predicate IsUnused(id: int) { 0 <= id < |proto| && proto[id].kind == Unused }

    function Score(id: nat): real requires id < |proto| { proto[id].score }

    function PieceToId(w: Bytes): (id: int)
      requires Valid()
      ensures 0 <= id < |proto| && Names(id, w)
      ensures IsUnused(id) ==> w in pieces && w !in reserved && id == pieces[w]
    {
      assert w in reserved ==> Spells(reserved[w], w);
      assert w in pieces ==> Spells(pieces[w], w);
      assert forall i: nat :: Spells(i, w) ==> Listed(i);
      if w in reserved then reserved[w] else if w in pieces then pieces[w] else unkId
    }

    /** No other id is what w is known by. */
    lemma OneName(id: int, w: Bytes)
      requires Valid() && Names(id, w)
      ensures id == PieceToId(w)
    {
      var j := PieceToId(w);
      assert Listed(id) && Listed(j);
      if exists i: nat :: Spells(i, w) {
        var i: nat :| Spells(i, w);
        assert Listed(i);
      }
    }

    predicate IsUserDefined(w: Bytes)
      ensures Valid() ==> (IsUserDefined(w) <==> exists i: nat :: Spells(i, w) && proto[i].kind == UserDefined)
    {
      assert Valid() && w in pieces ==> Spells(pieces[w], w);
      assert Valid() ==> forall i: nat :: Spells(i, w) ==> Listed(i);
      w in pieces && pieces[w] < |proto| && proto[pieces[w]].kind == UserDefined
    }

    /** The length of the longest user-defined prefix of w up to n bytes, 0 if there is none. */
    function LongestUserDefined(w: Bytes, n: nat): (r: nat)
      requires n <= |w|
      ensures r <= n && (r > 0 ==> IsUserDefined(w[..r]))
      ensures forall m :: r < m <= n ==> !IsUserDefined(w[..m])
    {
      if n == 0 then 0 else if IsUserDefined(w[..n]) then n else LongestUserDefined(w, n - 1)
    }

    /** The first symbol of w: the longest user-defined piece that w begins with, which is frozen, or
        else one character. */
    function PrefixMatch(w: Bytes): (r: (nat, bool))
      requires w != []
      ensures 0 < r.0 <= |w|
      ensures r.1 <==> exists m :: 0 < m <= |w| && IsUserDefined(w[..m])
      ensures r.1 ==> IsUserDefined(w[..r.0]) && forall m :: r.0 < m <= |w| ==> !IsUserDefined(w[..m])
      ensures !r.1 ==> r.0 == |w| < OneCharLen(w[0]) || r.0 == OneCharLen(w[0])
    {
      var n := LongestUserDefined(w, |w|);
      if n > 0 then (n, true) else (if |w| < OneCharLen(w[0]) then |w| else OneCharLen(w[0]), false)
    }
  }

  /** The length of a UTF-8 character by its first byte; 1 for a stray trailing byte. */
  function OneCharLen(b: Octet): (r: nat)
    ensures 0 < r <= 4
  {
    if b < 0xC0 then 1 else if b < 0xE0 then 2 else if b < 0xF0 then 3 else 4
  }

  /** The first byte of an encoded code point tells how many bytes there are. */
  lemma CharLenIsEncodedSize(cp: bv32)
    requires Utf8.EncodedSize(cp).Some?
    ensures OneCharLen(Utf8.FirstByte(cp, Utf8.EncodedSize(cp).value) as int) == Utf8.EncodedSize(cp).value
  {
  }

  // ---------- Building the vocabulary ----------

  function Digit(x: nat): Octet
    requires x < 16
  {
    if x < 10 then 0x30 + x else 0x37 + x
  }

  /** "<0x", two digits, ">". */
  function ByteToPiece(x: Octet): Bytes {
    [0x3C, 0x30, 0x78, Digit(x / 16), Digit(x % 16), 0x3E]
  }

  /** The byte that w is the piece of, -1 if it is none's. */
  function PieceToByte(w: Bytes, n: nat): (r: int)
    requires n <= 256
    ensures r == -1 ==> forall x: Octet :: x < n ==> ByteToPiece(x) != w
    ensures r != -1 ==> 0 <= r < n && ByteToPiece(r) == w
  {
    if n == 0 then -1 else if ByteToPiece(n - 1) == w then n - 1 else PieceToByte(w, n - 1)
  }

  ghost predicate IsBytePiece(w: Bytes) { exists x: Octet :: ByteToPiece(x) == w }

  /** Piece i is no reason to refuse the vocabulary: it has a text, no earlier piece of its sort has the
      same, it is not a second unknown one, and it is for a byte only if bytes are asked for. */
  ghost predicate Acceptable(proto: seq<SentencePiece>, byteFallback: bool, i: nat)
    requires i < |proto|
  {
    && proto[i].piece != []
    && (forall j :: 0 <= j < i && proto[j].piece == proto[i].piece ==>
          IsNormal(proto[j].kind) != IsNormal(proto[i].kind))
    && (forall j :: 0 <= j < i && proto[j].kind == Unknown ==> proto[i].kind != Unknown)
    && (proto[i].kind == Byte ==> byteFallback && IsBytePiece(proto[i].piece))
  }

  ghost predicate HasByte(proto: seq<SentencePiece>, x: Octet) {
    exists i :: 0 <= i < |proto| && proto[i].kind == Byte && proto[i].piece == ByteToPiece(x)
  }

  /** What a list of pieces must be to become a vocabulary. */
  ghost predicate WellMade(proto: seq<SentencePiece>, byteFallback: bool) {
    && (forall i: nat :: i < |proto| ==> Acceptable(proto, byteFallback, i))
    && (exists i :: 0 <= i < |proto| && proto[i].kind == Unknown)
    && (byteFallback ==> forall x: Octet :: HasByte(proto, x))
  }

  /** The first n pieces are entered. */
  ghost predicate Entered(v: Vocabulary, n: nat) {
    && n <= |v.proto| && (forall i: nat :: i < n ==> v.Listed(i))
    && (forall w :: w in v.pieces ==>
          v.pieces[w] < n && IsNormal(v.proto[v.pieces[w]].kind) && v.Spells(v.pieces[w], w))
    && (forall w :: w in v.reserved ==>
          v.reserved[w] < n && !IsNormal(v.proto[v.reserved[w]].kind) && v.Spells(v.reserved[w], w))
  }

  /** The next piece entered. */
  function Enter(v: Vocabulary, n: nat): Vocabulary
    requires n < |v.proto|
  {
    if IsNormal(v.proto[n].kind) then v.(pieces := v.pieces[v.proto[n].piece := n])
    else v.(reserved := v.reserved[v.proto[n].piece := n])
  }

  ghost predicate OnlyUnknown(proto: seq<SentencePiece>, n: nat, unkId: int) {
    n <= |proto| && -1 <= unkId < n && forall j :: 0 <= j < n ==> (proto[j].kind == Unknown <==> j == unkId)
  }

  /** Whether piece n is acceptable, from the maps so far; if it is, it can be entered. */
  lemma EnterNext(v: Vocabulary, byteFallback: bool, unkId: int, n: nat)
    requires Entered(v, n) && n < |v.proto| && OnlyUnknown(v.proto, n, unkId)
    ensures var sp := v.proto[n];
            Acceptable(v.proto, byteFallback, n) <==>
            && sp.piece != [] && sp.piece !in (if IsNormal(sp.kind) then v.pieces else v.reserved)
            && (sp.kind == Unknown ==> unkId < 0)
            && (sp.kind == Byte ==> byteFallback && PieceToByte(sp.piece, 256) != -1)
    ensures Acceptable(v.proto, byteFallback, n) ==>
              Entered(Enter(v, n), n + 1)
              && OnlyUnknown(v.proto, n + 1, if v.proto[n].kind == Unknown then n else unkId)
  {
    var sp := v.proto[n];
    EnterApart(v, n);
    assert unkId >= 0 ==> v.proto[unkId].kind == Unknown;
    if sp.piece !in (if IsNormal(sp.kind) then v.pieces else v.reserved) && sp.piece != [] {
      EnterKeeps(v, n);
    }
  }

  lemma EnterApart(v: Vocabulary, n: nat)
    requires Entered(v, n) && n < |v.proto|
    ensures v.proto[n].piece !in (if IsNormal(v.proto[n].kind) then v.pieces else v.reserved) <==>
            forall j :: 0 <= j < n && v.proto[j].piece == v.proto[n].piece ==>
              IsNormal(v.proto[j].kind) != IsNormal(v.proto[n].kind)
  {
    var sp := v.proto[n];
    var m := if IsNormal(sp.kind) then v.pieces else v.reserved;
    if sp.piece in m {
      var j := m[sp.piece];
      assert v.Spells(j, sp.piece) && j < n;
      assert v.proto[j].piece == sp.piece && IsNormal(v.proto[j].kind) == IsNormal(sp.kind);
    } else {
      forall j | 0 <= j < n && v.proto[j].piece == sp.piece ensures IsNormal(v.proto[j].kind) != IsNormal(sp.kind) {
        assert v.Listed(j);
      }
    }
  }

  lemma EnterKeeps(v: Vocabulary, n: nat)
    requires Entered(v, n) && n < |v.proto| && v.proto[n].piece != []
    requires v.proto[n].piece !in (if IsNormal(v.proto[n].kind) then v.pieces else v.reserved)
    ensures Entered(Enter(v, n), n + 1)
  {
    var v' := Enter(v, n);
    forall i: nat | i < n ensures v'.Listed(i) { assert v.Listed(i); }
    forall w | w in v'.pieces ensures v'.Spells(v'.pieces[w], w) {
      assert w in v.pieces ==> v.Spells(v.pieces[w], w);
    }
    forall w | w in v'.reserved ensures v'.Spells(v'.reserved[w], w) {
      assert w in v.reserved ==> v.Spells(v.reserved[w], w);
    }
  }

  ghost predicate Found(proto: seq<SentencePiece>, n: nat, byteFound: seq<bool>) {
    n <= |proto| && |byteFound| == 256 && forall x: Octet :: byteFound[x] <==> HasByte(proto[..n], x)
  }

  lemma FindNext(proto: seq<SentencePiece>, n: nat, byteFound: seq<bool>)
    requires Found(proto, n, byteFound) && n < |proto| && (proto[n].kind == Byte ==> IsBytePiece(proto[n].piece))
    ensures var b := PieceToByte(proto[n].piece, 256);
            Found(proto, n + 1, if proto[n].kind == Byte && 0 <= b < 256 then byteFound[b := true] else byteFound)
  {
    var b, sp := PieceToByte(proto[n].piece, 256), proto[n];
    assert proto[..n + 1] == proto[..n] + [sp];
    forall x: Octet
      ensures HasByte(proto[..n + 1], x) <==> HasByte(proto[..n], x) || (sp.kind == Byte && sp.piece == ByteToPiece(x))
    {
      if HasByte(proto[..n], x) {
        var i :| 0 <= i < n && proto[..n][i].kind == Byte && proto[..n][i].piece == ByteToPiece(x);
        assert proto[..n + 1][i] == proto[..n][i];
      }
      assert proto[..n + 1][n] == sp;
    }
    if sp.kind == Byte {
      forall x: Octet ensures ByteToPiece(x) == ByteToPiece(b) <==> x == b { ByteNamesDiffer(x, b); }
    }
  }

  lemma ByteNamesDiffer(x: Octet, y: Octet)
    ensures ByteToPiece(x) == ByteToPiece(y) <==> x == y
  {
    assert ByteToPiece(x)[3] == Digit(x / 16) && ByteToPiece(x)[4] == Digit(x % 16);
    assert ByteToPiece(y)[3] == Digit(y / 16) && ByteToPiece(y)[4] == Digit(y % 16);
  }

  lemma VocabularyBuilt(v: Vocabulary, byteFallback: bool, unkId: int)
    requires Entered(v, |v.proto|) && OnlyUnknown(v.proto, |v.proto|, unkId)
    requires forall j: nat :: j < |v.proto| ==> Acceptable(v.proto, byteFallback, j)
    ensures WellMade(v.proto, byteFallback) <==>
            unkId >= 0 && (byteFallback ==> forall x: Octet :: HasByte(v.proto, x))
    ensures unkId >= 0 ==> v.(unkId := unkId).Valid()
  {
    assert unkId >= 0 ==> v.proto[unkId].kind == Unknown;
    var v' := if unkId >= 0 then v.(unkId := unkId) else v;
    forall i: nat | i < |v.proto| ensures v'.Listed(i) { assert v.Listed(i); }
    forall w | w in v.pieces ensures v'.Spells(v.pieces[w], w) { assert v.Spells(v.pieces[w], w); }
    forall w | w in v.reserved ensures v'.Spells(v.reserved[w], w) { assert v.Spells(v.reserved[w], w); }
  }

  /** None: the list is refused. */
  method InitializePieces(proto: seq<SentencePiece>, byteFallback: bool) returns (v: Option<Vocabulary>)
    ensures v.Some? <==> WellMade(proto, byteFallback)
    ensures v.Some? ==> v.value.proto == proto && v.value.Valid()
  {
    hide Acceptable, Entered, OnlyUnknown, Found, HasByte, PieceToByte, Vocabulary.Valid;
    var pieces: map<Bytes, nat>, reserved: map<Bytes, nat>, unkId := map[], map[], -1;
    var byteFound := new bool[256](_ => false);
    NothingEntered(proto, byteFound[..]);
    for i := 0 to |proto|
      invariant Entered(Vocabulary(proto, pieces, reserved, 0), i) && OnlyUnknown(proto, i, unkId)
      invariant forall j: nat :: j < i ==> Acceptable(proto, byteFallback, j)
      invariant Found(proto, i, byteFound[..])
    {
      var sp := proto[i];
      EnterNext(Vocabulary(proto, pieces, reserved, 0), byteFallback, unkId, i);
      ByteOf(sp.piece);
      if sp.piece == [] || sp.piece in (if IsNormal(sp.kind) then pieces else reserved) {
        return None;
      }
      if IsNormal(sp.kind) {
        pieces := pieces[sp.piece := i];
      } else {
        reserved := reserved[sp.piece := i];
      }
      if sp.kind == Unknown {
        if unkId >= 0 {
          return None;
        }
        unkId := i;
      }
      if sp.kind != Byte || (byteFallback && PieceToByte(sp.piece, 256) != -1) {
        FindNext(proto, i, byteFound[..]);
      }
      if sp.kind == Byte {
        if !byteFallback {
          return None;
        }
        var x := PieceToByte(sp.piece, 256);
        if x == -1 {
          return None;
        }
        byteFound[x] := true;
      }
    }
    VocabularyBuilt(Vocabulary(proto, pieces, reserved, 0), byteFallback, unkId);
    if unkId == -1 {
      return None;
    }
    if byteFallback {
      var all := AllFound(proto, byteFound);
      if !all {
        return None;
      }
    }
    v := Some(Vocabulary(proto, pieces, reserved, unkId));
  }

  lemma NothingEntered(proto: seq<SentencePiece>, byteFound: seq<bool>)
    requires |byteFound| == 256 && forall x :: 0 <= x < 256 ==> !byteFound[x]
    ensures Entered(Vocabulary(proto, map[], map[], 0), 0) && OnlyUnknown(proto, 0, -1) && Found(proto, 0, byteFound)
  {
  }

  lemma ByteOf(w: Bytes)
    ensures PieceToByte(w, 256) == -1 <==> !IsBytePiece(w)
    ensures -1 <= PieceToByte(w, 256) < 256
  {
  }

  /** Whether there is a piece for every byte. */
  method AllFound(proto: seq<SentencePiece>, byteFound: array<bool>) returns (all: bool)
    requires byteFound.Length == 256 && Found(proto, |proto|, byteFound[..])
    ensures all <==> forall x: Octet :: HasByte(proto, x)
  {
    assert proto[..|proto|] == proto;
    all := true;
    for x := 0 to 256
      invariant forall y: Octet :: y < x ==> HasByte(proto, y)
    {
      assert byteFound[..][x] == byteFound[x];
      if !byteFound[x] {
        return false;
      }
    }
  }
}
