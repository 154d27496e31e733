/** Byte-pair encoding as it is defined: a text is a row of segments, and adjacent segments
    that together spell a piece of the vocabulary are merged, the best pair first. */
module BpeMerging {
  import opened Wrappers
  import opened BpeVocabulary

  // ---------- Segmentations ----------

  /** The piece of the text from `at` on; a frozen one takes no part in merges. */
  datatype Segment = Segment(at: nat, size: nat, freeze: bool) {
    function End(): nat { at + size }
  }

  function Spelled(t: Bytes, at: nat, end: nat): Bytes {
    if at <= end <= |t| then t[at..end] else []
  }

  function Text(t: Bytes, g: Segment): Bytes { Spelled(t, g.at, g.End()) }

  /** The symbols the text falls into from position `at` on. */
  function Split(v: Vocabulary, t: Bytes, at: nat): (r: seq<Segment>)
    requires at <= |t|
    decreases |t| - at
  {
    if at == |t| then []
    else
      var m := v.PrefixMatch(t[at..]);
      [Segment(at, m.0, m.1)] + Split(v, t, at + m.0)
  }

  ghost predicate Contiguous(t: Bytes, segs: seq<Segment>, at: nat) {
    && (forall k :: 0 <= k < |segs| ==> segs[k].size > 0)
    && (forall k :: 0 < k < |segs| ==> segs[k].at == segs[k - 1].End())
    && (if segs == [] then at == |t| else segs[0].at == at && segs[|segs| - 1].End() == |t|)
  }

  lemma ContiguousCons(t: Bytes, g: Segment, segs: seq<Segment>)
    requires g.size > 0 && g.End() <= |t| && Contiguous(t, segs, g.End())
    ensures Contiguous(t, [g] + segs, g.at)
  {
    var r := [g] + segs;
    forall k | 0 < k < |r| ensures r[k].at == r[k - 1].End() && r[k].size > 0 {
      assert r[k] == segs[k - 1] && (k > 1 ==> r[k - 1] == segs[k - 2]);
    }
    assert segs != [] ==> r[|r| - 1] == segs[|segs| - 1];
  }

  lemma {:induction false} SplitContiguous(v: Vocabulary, t: Bytes, at: nat)
    requires at <= |t|
    ensures Contiguous(t, Split(v, t, at), at)
    decreases |t| - at
  {
    if at == |t| {
    } else {
      hide Contiguous;
      var m := v.PrefixMatch(t[at..]);
      SplitContiguous(v, t, at + m.0);
      ContiguousCons(t, Segment(at, m.0, m.1), Split(v, t, at + m.0));
    }
  }

  /** The first symbol of w has that size and is frozen or not: the longest user-defined piece that w
      begins with is, and if there is none, one character is not. */
  ghost predicate FirstSymbol(v: Vocabulary, w: Bytes, size: nat, freeze: bool) {
    && 0 < size <= |w| && (freeze <==> exists m :: 0 < m <= |w| && v.IsUserDefined(w[..m]))
    && if freeze then v.IsUserDefined(w[..size]) && forall m :: size < m <= |w| ==> !v.IsUserDefined(w[..m])
       else size == OneCharLen(w[0]) || size == |w| < OneCharLen(w[0])
  }

  /** Every symbol that the text falls into is the first of what is left of the text. */
  lemma {:induction false} SplitIntoFirsts(v: Vocabulary, t: Bytes, at: nat, i: nat)
    requires at <= |t| && i < |Split(v, t, at)|
    ensures var g := Split(v, t, at)[i]; g.at <= |t| && FirstSymbol(v, t[g.at..], g.size, g.freeze)
    decreases |t| - at
  {
    if i > 0 {
      SplitIntoFirsts(v, t, at + v.PrefixMatch(t[at..]).0, i - 1);
    }
  }

  lemma {:induction false} SegmentsWithin(t: Bytes, segs: seq<Segment>, at: nat, k: nat, m: nat)
    requires Contiguous(t, segs, at) && k <= m < |segs|
    ensures segs[k].at <= segs[m].at && segs[m].End() <= |t|
    ensures k < m ==> segs[k].End() <= segs[m].at
    decreases |segs| - k
  {
    if k < m {
      SegmentsWithin(t, segs, at, k + 1, m);
    } else if m < |segs| - 1 {
      SegmentsWithin(t, segs, at, m + 1, |segs| - 1);
    }
  }

  // ---------- Merging ----------

  /** What segments k and k + 1 spell together. */
  function PairText(t: Bytes, segs: seq<Segment>, k: nat): Bytes
    requires k + 1 < |segs|
  {
    Spelled(t, segs[k].at, segs[k].End() + segs[k + 1].size)
  }

  predicate Mergeable(v: Vocabulary, t: Bytes, segs: seq<Segment>, k: int) {
    0 <= k && k + 1 < |segs| && !segs[k].freeze && !segs[k + 1].freeze && PairText(t, segs, k) in v.pieces
  }

  function PairScore(v: Vocabulary, t: Bytes, segs: seq<Segment>, k: nat): real
    requires v.Valid() && Mergeable(v, t, segs, k)
  {
    v.Score(v.pieces[PairText(t, segs, k)])
  }

  function Merged(segs: seq<Segment>, k: nat): seq<Segment>
    requires k + 1 < |segs|
  {
    segs[..k] + [Segment(segs[k].at, segs[k].size + segs[k + 1].size, segs[k].freeze)] + segs[k + 2..]
  }

  /** A segmentation, and for unused pieces the two halves they were last seen as. */
  datatype State = State(segs: seq<Segment>, rev: map<Bytes, (Bytes, Bytes)>)

  /** Remembers the halves of pair k if the two may be merged into an unused piece. */
  function Note(v: Vocabulary, t: Bytes, segs: seq<Segment>, rev: map<Bytes, (Bytes, Bytes)>, k: int)
    : map<Bytes, (Bytes, Bytes)>
  {
    if Mergeable(v, t, segs, k) && v.IsUnused(v.pieces[PairText(t, segs, k)])
    then rev[PairText(t, segs, k) := (Text(t, segs[k]), Text(t, segs[k + 1]))]
    else rev
  }

  /** The first n pairs noted. */
  function NoteFirst(v: Vocabulary, t: Bytes, segs: seq<Segment>, n: nat): map<Bytes, (Bytes, Bytes)> {
    if n == 0 then map[] else Note(v, t, segs, NoteFirst(v, t, segs, n - 1), n - 1)
  }

  function Start(v: Vocabulary, t: Bytes): State {
    State(Split(v, t, 0), NoteFirst(v, t, Split(v, t, 0), |Split(v, t, 0)|))
  }

  /** Merges pair k; the two pairs the new segment is part of are noted. */
  function MergeAt(v: Vocabulary, t: Bytes, s: State, k: nat): State
    requires k + 1 < |s.segs|
  {
    var segs := Merged(s.segs, k);
    State(segs, Note(v, t, segs, Note(v, t, segs, s.rev, k - 1), k))
  }

  /** The state after merging at these places in turn.  None: one of them is not mergeable. */
  function Replay(v: Vocabulary, t: Bytes, merges: seq<nat>): Option<State> {
    if merges == [] then Some(Start(v, t))
    else match Replay(v, t, merges[..|merges| - 1])
      case None => None
      case Some(s) =>
        var k := merges[|merges| - 1];
        if Mergeable(v, t, s.segs, k) then Some(MergeAt(v, t, s, k)) else None
  }

  // ---------- The best pair first ----------

  /** The pair with the highest score, the leftmost of several. */
  ghost predicate Best(v: Vocabulary, t: Bytes, segs: seq<Segment>, k: nat)
    requires v.Valid()
  {
    && Mergeable(v, t, segs, k)
    && forall j: nat :: Mergeable(v, t, segs, j) ==> Preferred(v, t, segs, k, j)
  }

  predicate Preferred(v: Vocabulary, t: Bytes, segs: seq<Segment>, k: nat, j: nat)
    requires v.Valid() && Mergeable(v, t, segs, k) && Mergeable(v, t, segs, j)
  {
    PairScore(v, t, segs, j) < PairScore(v, t, segs, k)
      || (PairScore(v, t, segs, j) == PairScore(v, t, segs, k) && k <= j)
  }

  function BestPair(v: Vocabulary, t: Bytes, segs: seq<Segment>, n: nat): (r: Option<nat>)
    requires v.Valid()
    ensures r.None? ==> forall k :: 0 <= k < n ==> !Mergeable(v, t, segs, k)
    ensures r.Some? ==> r.value < n && Mergeable(v, t, segs, r.value)
    ensures r.Some? ==> forall j :: 0 <= j < n && Mergeable(v, t, segs, j) ==> Preferred(v, t, segs, r.value, j)
  {
    if n == 0 then None
    else
      var r := BestPair(v, t, segs, n - 1);
      if Mergeable(v, t, segs, n - 1) && (r.None? || PairScore(v, t, segs, n - 1) > PairScore(v, t, segs, r.value))
      then Some(n - 1)
      else r
  }

  /** The encoding by definition: while any pair can be merged, merge the best one. */
  function Greedy(v: Vocabulary, t: Bytes, s: State): (r: State)
    requires v.Valid()
    ensures forall k :: !Mergeable(v, t, r.segs, k)
    decreases |s.segs|
  {
    match BestPair(v, t, s.segs, |s.segs|)
    case None => s
    case Some(k) => Greedy(v, t, MergeAt(v, t, s, k))
  }

  lemma BestIsNext(v: Vocabulary, t: Bytes, s: State, k: nat)
    requires v.Valid() && Best(v, t, s.segs, k)
    ensures Greedy(v, t, s) == Greedy(v, t, MergeAt(v, t, s, k))
  {
    var j := BestPair(v, t, s.segs, |s.segs|).value;
    assert Preferred(v, t, s.segs, j, k) && Preferred(v, t, s.segs, k, j);
  }

  // ---------- What merging keeps ----------

  ghost predicate Halves(rev: map<Bytes, (Bytes, Bytes)>) {
    forall w :: w in rev ==> rev[w].0 != [] && rev[w].1 != [] && w == rev[w].0 + rev[w].1
  }

  /** w can be taken apart if it is unused, or it is one of the symbols the text fell into. */
  ghost predicate Explained(v: Vocabulary, t: Bytes, rev: map<Bytes, (Bytes, Bytes)>, w: Bytes)
    requires v.Valid()
  {
    v.IsUnused(v.PieceToId(w)) ==> w in rev || IsSymbol(v, t, w)
  }

  ghost predicate IsSymbol(v: Vocabulary, t: Bytes, w: Bytes) {
    exists i :: 0 <= i < |Split(v, t, 0)| && Text(t, Split(v, t, 0)[i]) == w
  }

  ghost predicate PairNoted(v: Vocabulary, t: Bytes, s: State, k: nat) {
    Mergeable(v, t, s.segs, k) && v.IsUnused(v.pieces[PairText(t, s.segs, k)]) ==> PairText(t, s.segs, k) in s.rev
  }

  ghost predicate Sound(v: Vocabulary, t: Bytes, s: State)
    requires v.Valid()
  {
    && Contiguous(t, s.segs, 0) && Halves(s.rev)
    && (forall k: nat :: PairNoted(v, t, s, k))
    && (forall k :: 0 <= k < |s.segs| ==> Explained(v, t, s.rev, Text(t, s.segs[k])))
    && (forall w :: w in s.rev ==> Explained(v, t, s.rev, s.rev[w].0) && Explained(v, t, s.rev, s.rev[w].1))
  }

  /** What two adjacent segments spell together is what they spell one after the other. */
  lemma HalvesOfPair(t: Bytes, segs: seq<Segment>, k: nat)
    requires Contiguous(t, segs, 0) && k + 1 < |segs|
    ensures Text(t, segs[k]) != [] && Text(t, segs[k + 1]) != []
    ensures PairText(t, segs, k) == Text(t, segs[k]) + Text(t, segs[k + 1])
  {
    SegmentsWithin(t, segs, 0, k, k + 1);
    assert segs[k + 1].at == segs[k].End();
  }

  lemma NoteHalves(v: Vocabulary, t: Bytes, segs: seq<Segment>, rev: map<Bytes, (Bytes, Bytes)>, k: int)
    requires v.Valid() && Contiguous(t, segs, 0) && Halves(rev)
    ensures Halves(Note(v, t, segs, rev, k))
  {
    hide Contiguous, Text, PairText;
    if 0 <= k && k + 1 < |segs| {
      HalvesOfPair(t, segs, k);
    }
  }

  /** Noting pair k keeps every half in reach. */
  lemma NoteExplained(v: Vocabulary, t: Bytes, segs: seq<Segment>, rev: map<Bytes, (Bytes, Bytes)>, k: int)
    requires v.Valid()
    requires forall j :: 0 <= j < |segs| ==> Explained(v, t, rev, Text(t, segs[j]))
    requires forall w :: w in rev ==> Explained(v, t, rev, rev[w].0) && Explained(v, t, rev, rev[w].1)
    ensures var r := Note(v, t, segs, rev, k);
            forall w :: w in r ==> Explained(v, t, r, r[w].0) && Explained(v, t, r, r[w].1)
  {
    var r := Note(v, t, segs, rev, k);
    forall w ensures Explained(v, t, rev, w) ==> Explained(v, t, r, w) {}
  }

  lemma {:induction false} NoteFirstSound(v: Vocabulary, t: Bytes, n: nat)
    requires v.Valid() && n <= |Split(v, t, 0)|
    ensures var rev := NoteFirst(v, t, Split(v, t, 0), n);
            && Halves(rev)
            && (forall w :: w in rev ==> Explained(v, t, rev, rev[w].0) && Explained(v, t, rev, rev[w].1))
            && (forall k :: 0 <= k < n ==> PairNoted(v, t, State(Split(v, t, 0), rev), k))
  {
    if n == 0 {
    } else {
      var segs := Split(v, t, 0);
      var rev := NoteFirst(v, t, segs, n - 1);
      NoteFirstSound(v, t, n - 1);
      SplitContiguous(v, t, 0);
      NoteHalves(v, t, segs, rev, n - 1);
      NoteExplained(v, t, segs, rev, n - 1);
      forall k | 0 <= k < n ensures PairNoted(v, t, State(segs, NoteFirst(v, t, segs, n)), k) {
        assert k < n - 1 ==> PairNoted(v, t, State(segs, rev), k);
      }
    }
  }

  lemma StartSound(v: Vocabulary, t: Bytes)
    requires v.Valid()
    ensures Sound(v, t, Start(v, t))
  {
    var segs := Split(v, t, 0);
    SplitContiguous(v, t, 0);
    NoteFirstSound(v, t, |segs|);
    forall k: nat ensures PairNoted(v, t, Start(v, t), k) {}
  }

  lemma MergedContiguous(t: Bytes, segs: seq<Segment>, k: nat)
    requires Contiguous(t, segs, 0) && k + 1 < |segs|
    ensures Contiguous(t, Merged(segs, k), 0)
  {
    var r := Merged(segs, k);
    forall j | 0 < j < |r| ensures r[j].at == r[j - 1].End() {
      if j > k + 1 { assert r[j] == segs[j + 1] && r[j - 1] == segs[j]; }
      if j == k + 1 { assert r[j] == segs[j + 1]; }
    }
    assert r[0].at == 0 && r[|r| - 1].End() == |t|;
  }

  /** Merging brings two new pairs about; the other pairs stay. */
  lemma PairsAfterMerge(v: Vocabulary, t: Bytes, segs: seq<Segment>, k: nat, j: nat)
    requires k + 1 < |segs| && j != k && j + 1 != k
    ensures Mergeable(v, t, Merged(segs, k), j) <==> Mergeable(v, t, segs, if j < k then j else j + 1)
    ensures j + 1 < |Merged(segs, k)| ==>
              PairText(t, Merged(segs, k), j) == PairText(t, segs, if j < k then j else j + 1)
  {
    var r := Merged(segs, k);
    if j + 1 < |r| {
      assert r[j] == segs[if j < k then j else j + 1] && r[j + 1] == segs[if j < k then j + 1 else j + 2];
    }
  }

  lemma MergedExplained(v: Vocabulary, t: Bytes, s: State, k: nat, rev: map<Bytes, (Bytes, Bytes)>)
    requires v.Valid() && Sound(v, t, s) && Mergeable(v, t, s.segs, k) && s.rev.Keys <= rev.Keys
    ensures forall j :: 0 <= j < |Merged(s.segs, k)| ==> Explained(v, t, rev, Text(t, Merged(s.segs, k)[j]))
  {
    var r := Merged(s.segs, k);
    forall j | 0 <= j < |r| ensures Explained(v, t, rev, Text(t, r[j])) {
      if j == k {
        SegmentsWithin(t, s.segs, 0, k, k + 1);
        assert PairNoted(v, t, s, k) && Text(t, r[k]) == PairText(t, s.segs, k);
      } else {
        assert r[j] == s.segs[if j < k then j else j + 1];
        assert Explained(v, t, s.rev, Text(t, s.segs[if j < k then j else j + 1]));
      }
    }
  }

  lemma MergePairsNoted(v: Vocabulary, t: Bytes, s: State, k: nat)
    requires v.Valid() && Sound(v, t, s) && Mergeable(v, t, s.segs, k)
    ensures forall j: nat :: PairNoted(v, t, MergeAt(v, t, s, k), j)
  {
    var s' := MergeAt(v, t, s, k);
    forall j: nat ensures PairNoted(v, t, s', j) {
      if j != k && j + 1 != k {
        PairsAfterMerge(v, t, s.segs, k, j);
        assert PairNoted(v, t, s, if j < k then j else j + 1);
      }
    }
  }

  lemma MergeSound(v: Vocabulary, t: Bytes, s: State, k: nat)
    requires v.Valid() && Sound(v, t, s) && Mergeable(v, t, s.segs, k)
    ensures Sound(v, t, MergeAt(v, t, s, k))
  {
    hide Contiguous, Halves, Explained, PairNoted;
    var segs := Merged(s.segs, k);
    MergedContiguous(t, s.segs, k);
    MergePairsNoted(v, t, s, k);
    var rev1 := Note(v, t, segs, s.rev, k - 1);
    NoteHalves(v, t, segs, s.rev, k - 1);
    NoteHalves(v, t, segs, rev1, k);
    MergedExplained(v, t, s, k, s.rev);
    MergedExplained(v, t, s, k, rev1);
    MergedExplained(v, t, s, k, Note(v, t, segs, rev1, k));
    NoteExplained(v, t, segs, s.rev, k - 1);
    NoteExplained(v, t, segs, rev1, k);
  }

  /** Whatever is merged in whatever order, the segments cover the text, and every unused
      piece that a merge formed can be taken apart again. */
  lemma {:induction false} ReplaySound(v: Vocabulary, t: Bytes, merges: seq<nat>)
    requires v.Valid() && Replay(v, t, merges).Some?
    ensures Sound(v, t, Replay(v, t, merges).value)
    decreases |merges|
  {
    if merges == [] {
      StartSound(v, t);
    } else {
      var s := Replay(v, t, merges[..|merges| - 1]).value;
      ReplaySound(v, t, merges[..|merges| - 1]);
      MergeSound(v, t, s, merges[|merges| - 1]);
    }
  }

  // ---------- What the best pair is, over the scores of the pieces ----------

  /** i is a piece that merging may form, spelled w. */
  ghost predicate IsPiece(v: Vocabulary, i: nat, w: Bytes) {
    i < |v.proto| && v.proto[i].piece == w && IsNormal(v.proto[i].kind)
  }

  /** Segments k and k + 1 are not frozen and together spell the piece i. */
  ghost predicate Forms(v: Vocabulary, t: Bytes, segs: seq<Segment>, k: nat, i: nat)
    ensures Forms(v, t, segs, k, i) ==> i < |v.proto|
  {
    && k + 1 < |segs| && !segs[k].freeze && !segs[k + 1].freeze
    && IsPiece(v, i, Text(t, segs[k]) + Text(t, segs[k + 1]))
  }

  /** Of all pairs that form a piece, pair k forms the one with the highest score, and is the leftmost
      of several. */
  ghost predicate Foremost(v: Vocabulary, t: Bytes, segs: seq<Segment>, k: nat) {
    exists i: nat :: Forms(v, t, segs, k, i) &&
      forall j: nat, i': nat :: Forms(v, t, segs, j, i') ==>
        v.proto[i'].score < v.proto[i].score || (v.proto[i'].score == v.proto[i].score && k <= j)
  }

  /** Every merge was of the foremost pair. */
  ghost predicate AllForemost(v: Vocabulary, t: Bytes, merges: seq<nat>) {
    forall n :: 0 <= n < |merges| ==> ForemostAt(v, t, merges, n)
  }

  ghost predicate ForemostAt(v: Vocabulary, t: Bytes, merges: seq<nat>, n: nat) {
    && n < |merges| && Replay(v, t, merges[..n]).Some?
    && Foremost(v, t, Replay(v, t, merges[..n]).value.segs, merges[n])
  }

  /** Which pairs can be merged, and what their scores are. */
  lemma MergeableForms(v: Vocabulary, t: Bytes, segs: seq<Segment>, k: nat)
    requires v.Valid() && Contiguous(t, segs, 0)
    ensures Mergeable(v, t, segs, k) <==> exists i: nat :: Forms(v, t, segs, k, i)
    ensures forall i: nat :: Forms(v, t, segs, k, i) ==> PairScore(v, t, segs, k) == v.proto[i].score
  {
    if k + 1 < |segs| {
      HalvesOfPair(t, segs, k);
      var w := PairText(t, segs, k);
      if w in v.pieces {
        assert v.Spells(v.pieces[w], w) && IsPiece(v, v.pieces[w], w);
      }
      forall i: nat | IsPiece(v, i, w) ensures w in v.pieces && v.pieces[w] == i { assert v.Listed(i); }
      assert Mergeable(v, t, segs, k) ==> Forms(v, t, segs, k, v.pieces[w]);
    }
  }

  lemma BestIsForemost(v: Vocabulary, t: Bytes, segs: seq<Segment>, k: nat)
    requires v.Valid() && Contiguous(t, segs, 0)
    ensures Best(v, t, segs, k) <==> Foremost(v, t, segs, k)
  {
    hide Mergeable, PairScore, Contiguous, Forms;
    MergeableForms(v, t, segs, k);
    if Best(v, t, segs, k) {
      var i: nat :| Forms(v, t, segs, k, i);
      forall j: nat, i': nat | Forms(v, t, segs, j, i')
        ensures v.proto[i'].score < v.proto[i].score || (v.proto[i'].score == v.proto[i].score && k <= j)
      {
        MergeableForms(v, t, segs, j);
        assert Preferred(v, t, segs, k, j);
      }
    }
    if Foremost(v, t, segs, k) {
      forall j: nat | Mergeable(v, t, segs, j) ensures Mergeable(v, t, segs, k) && Preferred(v, t, segs, k, j) {
        MergeableForms(v, t, segs, j);
        var i': nat :| Forms(v, t, segs, j, i');
      }
    }
  }

  /** One more merge. */
  lemma ForemostNext(v: Vocabulary, t: Bytes, merges: seq<nat>, k: nat)
    requires v.Valid() && AllForemost(v, t, merges) && Replay(v, t, merges).Some?
    requires Best(v, t, Replay(v, t, merges).value.segs, k)
    ensures AllForemost(v, t, merges + [k])
  {
    hide Contiguous, Best, Foremost;
    var more := merges + [k];
    ReplaySound(v, t, merges);
    BestIsForemost(v, t, Replay(v, t, merges).value.segs, k);
    assert more[..|merges|] == merges;
    forall n | 0 <= n < |more| ensures ForemostAt(v, t, more, n) {
      if n < |merges| {
        assert ForemostAt(v, t, merges, n) && more[..n] == merges[..n];
      }
    }
  }

  // ---------- How unused pieces are remembered ----------

  /** Segments k and k + 1 may be merged into w, which is unused. */
  ghost predicate MakesUnused(v: Vocabulary, t: Bytes, segs: seq<Segment>, k: int, w: Bytes) {
    Mergeable(v, t, segs, k) && PairText(t, segs, k) == w && v.IsUnused(v.pieces[w])
  }

  ghost predicate RememberedAs(rev: map<Bytes, (Bytes, Bytes)>, w: Bytes, t: Bytes, segs: seq<Segment>, k: int) {
    0 <= k && k + 1 < |segs| && w in rev && rev[w] == (Text(t, segs[k]), Text(t, segs[k + 1]))
  }

  /** At the start each unused piece is remembered as the last pair that makes it. */
  lemma {:induction false} StartRemembers(v: Vocabulary, t: Bytes, segs: seq<Segment>, n: nat, w: Bytes)
    requires v.Valid()
    ensures w in NoteFirst(v, t, segs, n) <==> exists k :: 0 <= k < n && MakesUnused(v, t, segs, k, w)
    ensures forall k :: 0 <= k < n && MakesUnused(v, t, segs, k, w)
                        && (forall j :: k < j < n ==> !MakesUnused(v, t, segs, j, w)) ==>
              RememberedAs(NoteFirst(v, t, segs, n), w, t, segs, k)
  {
    hide Mergeable, PairText;
    if n > 0 {
      StartRemembers(v, t, segs, n - 1, w);
      NoteRemembers(v, t, segs, NoteFirst(v, t, segs, n - 1), n - 1, w);
    }
  }

  lemma NoteRemembers(v: Vocabulary, t: Bytes, segs: seq<Segment>, rev: map<Bytes, (Bytes, Bytes)>, k: int, w: Bytes)
    ensures var rev' := Note(v, t, segs, rev, k);
            if MakesUnused(v, t, segs, k, w) then RememberedAs(rev', w, t, segs, k)
            else (w in rev' <==> w in rev) && (w in rev ==> rev'[w] == rev[w])
  {
  }

  /** After a merge an unused piece that the new segment makes with a neighbour is remembered as that
      pair, with the one behind it before the one in front; any other one as before. */
  lemma MergeRemembers(v: Vocabulary, t: Bytes, s: State, k: nat, w: Bytes)
    requires k + 1 < |s.segs|
    ensures var s' := MergeAt(v, t, s, k);
            if MakesUnused(v, t, s'.segs, k, w) then RememberedAs(s'.rev, w, t, s'.segs, k)
            else if MakesUnused(v, t, s'.segs, k - 1, w) then RememberedAs(s'.rev, w, t, s'.segs, k - 1)
            else (w in s'.rev <==> w in s.rev) && (w in s.rev ==> s'.rev[w] == s.rev[w])
  {
    var segs := Merged(s.segs, k);
    NoteRemembers(v, t, segs, s.rev, k - 1, w);
    NoteRemembers(v, t, segs, Note(v, t, segs, s.rev, k - 1), k, w);
  }

  // ---------- The output ----------

  datatype EncodedPiece = EncodedPiece(piece: Bytes, id: int)

  /** w as output: an unused piece is taken apart as far as it can be. */
  function Resegmented(v: Vocabulary, rev: map<Bytes, (Bytes, Bytes)>, w: Bytes): seq<EncodedPiece>
    requires v.Valid() && Halves(rev)
    decreases |w|
  {
    if !v.IsUnused(v.PieceToId(w)) || w !in rev then [EncodedPiece(w, v.PieceToId(w))]
    else Resegmented(v, rev, rev[w].0) + Resegmented(v, rev, rev[w].1)
  }

  /** The output for the segments from k on. */
  function Output(v: Vocabulary, t: Bytes, s: State, k: nat): seq<EncodedPiece>
    requires v.Valid() && Halves(s.rev) && k <= |s.segs|
    decreases |s.segs| - k
  {
    if k == |s.segs| then [] else Resegmented(v, s.rev, Text(t, s.segs[k])) + Output(v, t, s, k + 1)
  }

  function Joined(out: seq<EncodedPiece>): Bytes {
    if out == [] then [] else out[0].piece + Joined(out[1..])
  }

  lemma {:induction false} JoinedAppend(a: seq<EncodedPiece>, b: seq<EncodedPiece>)
    ensures Joined(a + b) == Joined(a) + Joined(b)
  {
    if a == [] {
      assert a + b == b;
    } else {
      assert (a + b)[1..] == a[1..] + b;
      JoinedAppend(a[1..], b);
    }
  }

  lemma {:induction false} ResegmentedJoins(v: Vocabulary, rev: map<Bytes, (Bytes, Bytes)>, w: Bytes)
    requires v.Valid() && Halves(rev)
    ensures Joined(Resegmented(v, rev, w)) == w
    decreases |w|
  {
    if !v.IsUnused(v.PieceToId(w)) || w !in rev {
      assert Joined([EncodedPiece(w, v.PieceToId(w))]) == w + [];
    } else {
      ResegmentedJoins(v, rev, rev[w].0);
      ResegmentedJoins(v, rev, rev[w].1);
      JoinedAppend(Resegmented(v, rev, rev[w].0), Resegmented(v, rev, rev[w].1));
    }
  }

  /** A segment stays whole if and only if its piece is in use or no merge made it. */
  lemma {:induction false} WholeIff(v: Vocabulary, rev: map<Bytes, (Bytes, Bytes)>, w: Bytes)
    requires v.Valid() && Halves(rev)
    ensures |Resegmented(v, rev, w)| >= 1
    ensures Resegmented(v, rev, w) == [EncodedPiece(w, v.PieceToId(w))] <==> !v.IsUnused(v.PieceToId(w)) || w !in rev
    decreases |w|
  {
    if v.IsUnused(v.PieceToId(w)) && w in rev {
      WholeIff(v, rev, rev[w].0);
      WholeIff(v, rev, rev[w].1);
    }
  }

  lemma SpelledFrom(t: Bytes, segs: seq<Segment>, k: nat)
    requires Contiguous(t, segs, 0) && k < |segs|
    ensures Spelled(t, segs[k].at, |t|) ==
            Text(t, segs[k]) + if k + 1 < |segs| then Spelled(t, segs[k + 1].at, |t|) else []
  {
    SegmentsWithin(t, segs, 0, k, |segs| - 1);
    SegmentsWithin(t, segs, 0, k, k);
    var e := segs[k].End();
    assert t[segs[k].at..|t|] == t[segs[k].at..e] + t[e..|t|];
    if k + 1 < |segs| {
      assert segs[k + 1].at == segs[k + 1 - 1].End();
    }
  }

  lemma {:induction false} OutputJoins(v: Vocabulary, t: Bytes, s: State, k: nat)
    requires v.Valid() && Halves(s.rev) && Contiguous(t, s.segs, 0) && k <= |s.segs|
    ensures Joined(Output(v, t, s, k)) == if k < |s.segs| then Spelled(t, s.segs[k].at, |t|) else []
    decreases |s.segs| - k
  {
    hide Contiguous, Halves, Resegmented, Spelled;
    if k < |s.segs| {
      ResegmentedJoins(v, s.rev, Text(t, s.segs[k]));
      OutputJoins(v, t, s, k + 1);
      JoinedAppend(Resegmented(v, s.rev, Text(t, s.segs[k])), Output(v, t, s, k + 1));
      SpelledFrom(t, s.segs, k);
    }
  }

  /** Every encoding spells the text it encodes, whatever was merged. */
  lemma EncodingConserves(v: Vocabulary, t: Bytes, merges: seq<nat>)
    requires v.Valid() && Replay(v, t, merges).Some?
    ensures Halves(Replay(v, t, merges).value.rev)
    ensures Joined(Output(v, t, Replay(v, t, merges).value, 0)) == t
  {
    ReplaySound(v, t, merges);
    OutputJoins(v, t, Replay(v, t, merges).value, 0);
    assert t[0..|t|] == t;
  }

  /** An unused piece in the output is one of the symbols the text fell into at the start. */
  lemma {:induction false} ResegmentedExplained(v: Vocabulary, t: Bytes, rev: map<Bytes, (Bytes, Bytes)>, w: Bytes)
    requires v.Valid() && Halves(rev) && Explained(v, t, rev, w)
    requires forall u :: u in rev ==> Explained(v, t, rev, rev[u].0) && Explained(v, t, rev, rev[u].1)
    ensures forall p :: p in Resegmented(v, rev, w) && v.IsUnused(p.id) ==> IsSymbol(v, t, p.piece)
    decreases |w|
  {
    if v.IsUnused(v.PieceToId(w)) && w in rev {
      ResegmentedExplained(v, t, rev, rev[w].0);
      ResegmentedExplained(v, t, rev, rev[w].1);
    }
  }

  lemma {:induction false} OutputExplained(v: Vocabulary, t: Bytes, s: State, k: nat)
    requires v.Valid() && Sound(v, t, s) && k <= |s.segs|
    ensures forall p :: p in Output(v, t, s, k) && v.IsUnused(p.id) ==> IsSymbol(v, t, p.piece)
    decreases |s.segs| - k
  {
    if k < |s.segs| {
      ResegmentedExplained(v, t, s.rev, Text(t, s.segs[k]));
      OutputExplained(v, t, s, k + 1);
    }
  }

  // ---------- Which unused pieces can be left over ----------

  /** w is one symbol by itself. */
  predicate SingleSymbol(v: Vocabulary, w: Bytes) {
    w != [] && v.PrefixMatch(w).0 == |w|
  }

  lemma FirstSymbolAlone(v: Vocabulary, t: Bytes)
    requires t != []
    ensures SingleSymbol(v, t[..v.PrefixMatch(t).0])
  {
    var n := v.PrefixMatch(t).0;
    var w := t[..n];
    assert forall m :: 0 <= m <= n ==> w[..m] == t[..m];
    assert w[..|w|] == w;
  }

  lemma {:induction false} SymbolsAlone(v: Vocabulary, t: Bytes, at: nat, i: nat)
    requires at <= |t| && i < |Split(v, t, at)|
    ensures SingleSymbol(v, Text(t, Split(v, t, at)[i]))
    decreases |t| - at
  {
    var m := v.PrefixMatch(t[at..]);
    if i == 0 {
      FirstSymbolAlone(v, t[at..]);
      assert t[at..][..m.0] == t[at..at + m.0];
    } else {
      SymbolsAlone(v, t, at + m.0, i - 1);
    }
  }

  lemma LoneSymbolStays(v: Vocabulary, w: Bytes)
    requires v.Valid() && SingleSymbol(v, w)
    ensures Halves(Start(v, w).rev) && Output(v, w, Start(v, w), 0) == [EncodedPiece(w, v.PieceToId(w))]
  {
    assert w[0..] == w;
    var s := Start(v, w);
    assert Split(v, w, |w|) == [];
    assert s.segs == [Segment(0, |w|, v.PrefixMatch(w).1)] + [];
    assert s.rev == Note(v, w, s.segs, NoteFirst(v, w, s.segs, 0), 0) == map[];
    assert Text(w, s.segs[0]) == w;
    assert Output(v, w, s, 0) == Resegmented(v, s.rev, w) + Output(v, w, s, 1);
  }

  lemma {:induction false} ResegmentedIds(v: Vocabulary, rev: map<Bytes, (Bytes, Bytes)>, w: Bytes)
    requires v.Valid() && Halves(rev)
    ensures forall p :: p in Resegmented(v, rev, w) ==> p.id == v.PieceToId(p.piece)
    decreases |w|
  {
    if v.IsUnused(v.PieceToId(w)) && w in rev {
      ResegmentedIds(v, rev, rev[w].0);
      ResegmentedIds(v, rev, rev[w].1);
    }
  }

  lemma {:induction false} OutputIds(v: Vocabulary, t: Bytes, s: State, k: nat)
    requires v.Valid() && Halves(s.rev) && k <= |s.segs|
    ensures forall p :: p in Output(v, t, s, k) ==> p.id == v.PieceToId(p.piece)
    decreases |s.segs| - k
  {
    if k < |s.segs| {
      ResegmentedIds(v, s.rev, Text(t, s.segs[k]));
      OutputIds(v, t, s, k + 1);
    }
  }

  ghost predicate NoneUnused(v: Vocabulary, t: Bytes, merges: seq<nat>)
    requires v.Valid() && Replay(v, t, merges).Some?
  {
    ReplaySound(v, t, merges);
    forall p :: p in Output(v, t, Replay(v, t, merges).value, 0) ==> !v.IsUnused(p.id)
  }

  lemma NoneUnusedLeft(v: Vocabulary, t: Bytes, merges: seq<nat>)
    requires v.Valid() && Replay(v, t, merges).Some?
    requires forall w :: SingleSymbol(v, w) ==> !v.IsUnused(v.PieceToId(w))
    ensures NoneUnused(v, t, merges)
  {
    ReplaySound(v, t, merges);
    var s := Replay(v, t, merges).value;
    OutputExplained(v, t, s, 0);
    OutputIds(v, t, s, 0);
    forall p | p in Output(v, t, s, 0) && v.IsUnused(p.id) ensures false {
      var i :| 0 <= i < |Split(v, t, 0)| && Text(t, Split(v, t, 0)[i]) == p.piece;
      SymbolsAlone(v, t, 0, i);
    }
  }

  /** No encoding of any text has an unused piece in its output, if and only if no unused
      piece is a symbol by itself. */
  lemma UnusedNeverLeftIff(v: Vocabulary)
    requires v.Valid()
    ensures (forall w :: SingleSymbol(v, w) ==> !v.IsUnused(v.PieceToId(w))) <==>
            (forall t, merges | Replay(v, t, merges).Some? :: NoneUnused(v, t, merges))
  {
    if forall w :: SingleSymbol(v, w) ==> !v.IsUnused(v.PieceToId(w)) {
      forall t, merges | Replay(v, t, merges).Some? ensures NoneUnused(v, t, merges) {
        NoneUnusedLeft(v, t, merges);
      }
    }
    forall w | SingleSymbol(v, w) && forall t, merges | Replay(v, t, merges).Some? :: NoneUnused(v, t, merges)
      ensures !v.IsUnused(v.PieceToId(w))
    {
      LoneSymbolStays(v, w);
      assert Replay(v, w, []).Some? && NoneUnused(v, w, []);
      assert EncodedPiece(w, v.PieceToId(w)) in Output(v, w, Start(v, w), 0);
    }
  }

  /** A vocabulary with an unused piece that is a symbol by itself, and a text of that symbol. */
  lemma UnusedSymbolIsLeft()
    ensures var v := Vocabulary([SentencePiece([63], 0.0, Unknown), SentencePiece([97], 0.0, Unused)],
                                map[[97] := 1], map[[63] := 0], 0);
            && v.Valid() && Replay(v, [97], []).Some? && Halves(Start(v, [97]).rev)
            && Output(v, [97], Start(v, [97]), 0) == [EncodedPiece([97], 1)] && v.IsUnused(1)
  {
    var v := Vocabulary([SentencePiece([63], 0.0, Unknown), SentencePiece([97], 0.0, Unused)], map[[97] := 1],
                        map[[63] := 0], 0);
    var w: Bytes := [97];
    assert v.Listed(0) && v.Listed(1) && v.Spells(0, [63]) && v.Spells(1, w);
    assert !v.IsUserDefined(w[..1]) by { assert w[..1] == w; }
    assert v.LongestUserDefined(w, 0) == 0 && v.LongestUserDefined(w, 1) == 0;
    LoneSymbolStays(v, w);
  }
}
