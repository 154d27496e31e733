/** How the encoder represents a segmentation: symbols linked by indices, and an agenda of
    pairs that may have become stale since they were pushed. */
module BpeAgenda {
  import opened Wrappers
  import opened BpeVocabulary
  import opened BpeMerging

  /** A symbol spells `size` bytes from `at` on; a symbol that was merged into its left
      neighbour has size 0.  prev and next are indices, -1 at the ends. */
  datatype Symbol = Symbol(prev: int, next: int, freeze: bool, at: nat, size: nat) {
    function End(): nat { at + size }
  }

  datatype SymbolPair = SymbolPair(left: nat, right: nat, score: real, size: nat)

  // ---------- The linked symbols ----------

  ghost predicate InRange(symbols: seq<Symbol>, live: seq<nat>) {
    forall k :: 0 <= k < |live| ==> live[k] < |symbols|
  }

  /** The segments of the live symbols, in order. */
  ghost function Row(symbols: seq<Symbol>, live: seq<nat>): (r: seq<Segment>)
    requires InRange(symbols, live)
    ensures |r| == |live|
  {
    seq(|live|, k requires 0 <= k < |live| =>
      Segment(symbols[live[k]].at, symbols[live[k]].size, symbols[live[k]].freeze))
  }

  function At(live: seq<nat>, k: int): int {
    if 0 <= k < |live| then live[k] else -1
  }

  ghost predicate Chained(symbols: seq<Symbol>, live: seq<nat>, k: nat) {
    && k < |live| && live[k] < |symbols|
    && symbols[live[k]].prev == At(live, k - 1) && symbols[live[k]].next == At(live, k + 1)
  }

  /** `live` lists the live symbols: linked in order, and together they spell the text. */
  ghost predicate Linked(t: Bytes, symbols: seq<Symbol>, live: seq<nat>) {
    && InRange(symbols, live) && live != [] && live[0] == 0
    && (forall k, m :: 0 <= k < m < |live| ==> live[k] < live[m])
    && (forall k :: 0 <= k < |live| ==> Chained(symbols, live, k))
    && (forall i :: 0 <= i < |symbols| && symbols[i].size > 0 ==> i in live)
    && Contiguous(t, Row(symbols, live), 0)
  }

  /** The symbols after `r`, the right neighbour of `l`, was merged into it. */
  function Absorb(symbols: seq<Symbol>, l: nat, r: nat): (s: seq<Symbol>)
    requires l < |symbols| && r < |symbols|
    ensures |s| == |symbols|
  {
    var next := symbols[r].next;
    var s1 := symbols[l := symbols[l].(size := symbols[l].size + symbols[r].size, next := next)];
    var s2 := if 0 <= next < |s1| then s1[next := s1[next].(prev := l)] else s1;
    s2[r := s2[r].(size := 0)]
  }

  ghost function Without(live: seq<nat>, k: nat): seq<nat>
    requires k + 1 < |live|
  {
    live[..k + 1] + live[k + 2..]
  }

  lemma AbsorbAt(symbols: seq<Symbol>, l: nat, r: nat, i: nat)
    requires l < |symbols| && r < |symbols| && l != r && i < |symbols|
    requires symbols[r].next != l && symbols[r].next != r
    ensures var s := Absorb(symbols, l, r)[i];
            && s.at == symbols[i].at && s.freeze == symbols[i].freeze
            && s.size == (if i == l then symbols[l].size + symbols[r].size else if i == r then 0 else symbols[i].size)
            && s.next == (if i == l then symbols[r].next else symbols[i].next)
            && s.prev == (if i == symbols[r].next then l else symbols[i].prev)
  {
  }

  /** The places of k and its neighbours in the chain are different symbols. */
  lemma Apart(t: Bytes, symbols: seq<Symbol>, live: seq<nat>, k: nat)
    requires Linked(t, symbols, live) && k + 1 < |live|
    ensures live[k] < live[k + 1] < |symbols| && symbols[live[k + 1]].next == At(live, k + 2)
    ensures At(live, k + 2) != live[k] && At(live, k + 2) != live[k + 1]
  {
    assert Chained(symbols, live, k + 1);
  }

  lemma AbsorbRow(t: Bytes, symbols: seq<Symbol>, live: seq<nat>, k: nat)
    requires Linked(t, symbols, live) && k + 1 < |live|
    ensures InRange(Absorb(symbols, live[k], live[k + 1]), Without(live, k))
    ensures Row(Absorb(symbols, live[k], live[k + 1]), Without(live, k)) == Merged(Row(symbols, live), k)
  {
    hide Absorb;
    var s', live' := Absorb(symbols, live[k], live[k + 1]), Without(live, k);
    Apart(t, symbols, live, k);
    forall j | 0 <= j < |live'| ensures live'[j] < |s'| && Row(s', live')[j] == Merged(Row(symbols, live), k)[j] {
      assert live'[j] == live[if j <= k then j else j + 1];
      AbsorbAt(symbols, live[k], live[k + 1], live'[j]);
    }
  }

  lemma WithoutAt(live: seq<nat>, k: nat, j: int)
    requires k + 1 < |live|
    ensures At(Without(live, k), j) == At(live, if j <= k then j else j + 1)
  {
  }

  lemma DistinctLive(t: Bytes, symbols: seq<Symbol>, live: seq<nat>, i: nat, j: int)
    requires Linked(t, symbols, live) && i < |live|
    ensures Chained(symbols, live, i)
    ensures j != i ==> At(live, j) != live[i]
  {
  }

  lemma AbsorbChained(t: Bytes, symbols: seq<Symbol>, live: seq<nat>, k: nat, j: nat)
    requires Linked(t, symbols, live) && k + 1 < |live| && j + 1 < |live|
    ensures Chained(Absorb(symbols, live[k], live[k + 1]), Without(live, k), j)
  {
    hide Absorb, Linked, Without;
    var i := if j <= k then j else j + 1;
    Apart(t, symbols, live, k);
    DistinctLive(t, symbols, live, i, k);
    DistinctLive(t, symbols, live, i, k + 2);
    AbsorbAt(symbols, live[k], live[k + 1], live[i]);
    WithoutAt(live, k, j - 1);
    WithoutAt(live, k, j);
    WithoutAt(live, k, j + 1);
    WithoutLength(live, k);
  }

  lemma WithoutLength(live: seq<nat>, k: nat)
    requires k + 1 < |live|
    ensures |Without(live, k)| == |live| - 1
  {
  }

  lemma AbsorbCovers(t: Bytes, symbols: seq<Symbol>, live: seq<nat>, k: nat, i: nat)
    requires Linked(t, symbols, live) && k + 1 < |live| && i < |symbols|
    requires Absorb(symbols, live[k], live[k + 1])[i].size > 0
    ensures i in Without(live, k)
  {
    hide Absorb;
    Apart(t, symbols, live, k);
    AbsorbAt(symbols, live[k], live[k + 1], i);
    var j :| 0 <= j < |live| && live[j] == i;
    assert Without(live, k)[if j <= k then j else j - 1] == i;
  }

  lemma WithoutIncreasing(live: seq<nat>, k: nat)
    requires k + 1 < |live| && forall j, m :: 0 <= j < m < |live| ==> live[j] < live[m]
    ensures var r := Without(live, k);
            && |r| == |live| - 1 && r[0] == live[0]
            && forall j, m :: 0 <= j < m < |r| ==> r[j] < r[m]
  {
  }

  lemma AbsorbLinked(t: Bytes, symbols: seq<Symbol>, live: seq<nat>, k: nat)
    requires Linked(t, symbols, live) && k + 1 < |live|
    ensures Linked(t, Absorb(symbols, live[k], live[k + 1]), Without(live, k))
    ensures Row(Absorb(symbols, live[k], live[k + 1]), Without(live, k)) == Merged(Row(symbols, live), k)
  {
    hide Absorb, Chained, Without, Contiguous;
    var s', live' := Absorb(symbols, live[k], live[k + 1]), Without(live, k);
    WithoutIncreasing(live, k);
    AbsorbRow(t, symbols, live, k);
    MergedContiguous(t, Row(symbols, live), k);
    forall j: nat | j < |live'| ensures Chained(s', live', j) { AbsorbChained(t, symbols, live, k, j); }
    forall i: nat | i < |s'| && s'[i].size > 0 ensures i in live' { AbsorbCovers(t, symbols, live, k, i); }
  }

  // ---------- The agenda ----------

  /** The pair of the live symbols k and k + 1. */
  ghost function PairAt(v: Vocabulary, t: Bytes, symbols: seq<Symbol>, live: seq<nat>, k: nat): SymbolPair
    requires v.Valid() && InRange(symbols, live) && Mergeable(v, t, Row(symbols, live), k)
  {
    SymbolPair(live[k], live[k + 1], PairScore(v, t, Row(symbols, live), k),
               symbols[live[k]].size + symbols[live[k + 1]].size)
  }

  /** The pair at k if it can be merged. */
  ghost function Listing(v: Vocabulary, t: Bytes, symbols: seq<Symbol>, live: seq<nat>, k: int): multiset<SymbolPair>
    requires v.Valid() && InRange(symbols, live)
  {
    if Mergeable(v, t, Row(symbols, live), k) then multiset{PairAt(v, t, symbols, live, k)} else multiset{}
  }

  /** What is true of a pair from when it is pushed: where its piece lay, that it is in the
      vocabulary with this score, and that live symbols only grow. */
  ghost predicate Recorded(v: Vocabulary, t: Bytes, symbols: seq<Symbol>, h: SymbolPair)
    requires v.Valid()
  {
    && h.left < h.right < |symbols| && !symbols[h.left].freeze && !symbols[h.right].freeze
    && (symbols[h.left].size > 0 ==> symbols[h.left].End() >= symbols[h.right].at)
    && (symbols[h.right].size > 0 ==> symbols[h.right].End() >= symbols[h.left].at + h.size)
    && Spelled(t, symbols[h.left].at, symbols[h.left].at + h.size) in v.pieces
    && h.score == v.Score(v.pieces[Spelled(t, symbols[h.left].at, symbols[h.left].at + h.size)])
  }

  /** The test a popped pair has to pass. */
  predicate Passes(symbols: seq<Symbol>, h: SymbolPair)
    requires h.left < |symbols| && h.right < |symbols|
  {
    && symbols[h.left].size != 0 && symbols[h.right].size != 0
    && symbols[h.left].size + symbols[h.right].size == h.size
  }

  /** The pair is what it was when it was pushed: two live neighbours that spell its piece. */
  ghost predicate Current(symbols: seq<Symbol>, live: seq<nat>, h: SymbolPair, k: nat)
    requires InRange(symbols, live)
  {
    && k + 1 < |live| && h.left == live[k] && h.right == live[k + 1]
    && symbols[live[k + 1]].End() == symbols[live[k]].at + h.size
  }

  lemma GapBetween(t: Bytes, row: seq<Segment>, k: nat, m: nat)
    requires Contiguous(t, row, 0) && k < m < |row|
    ensures if m == k + 1 then row[k].End() == row[m].at else row[k].End() < row[m].at
  {
    assert row[k + 1].at == row[k + 1 - 1].End();
    SegmentsWithin(t, row, 0, k + 1, m);
  }

  /** The test is exact: a pair passes if and only if it is still current. */
  lemma StaleTestExact(v: Vocabulary, t: Bytes, symbols: seq<Symbol>, live: seq<nat>, h: SymbolPair)
    requires v.Valid() && Linked(t, symbols, live) && Recorded(v, t, symbols, h)
    ensures Passes(symbols, h) <==> exists k: nat :: Current(symbols, live, h, k)
    ensures forall k: nat :: Current(symbols, live, h, k) ==>
              Mergeable(v, t, Row(symbols, live), k) && PairAt(v, t, symbols, live, k) == h
  {
    var row := Row(symbols, live);
    if Passes(symbols, h) {
      var k: nat :| k < |live| && live[k] == h.left;
      var m: nat :| m < |live| && live[m] == h.right;
      assert k < m;
      GapBetween(t, row, k, m);
      assert Current(symbols, live, h, k);
    }
    forall k: nat | Current(symbols, live, h, k)
      ensures Passes(symbols, h) && Mergeable(v, t, row, k) && PairAt(v, t, symbols, live, k) == h
    {
      assert row[k + 1].at == row[k + 1 - 1].End();
    }
  }

  lemma PairRecorded(v: Vocabulary, t: Bytes, symbols: seq<Symbol>, live: seq<nat>, k: nat)
    requires v.Valid() && Linked(t, symbols, live) && Mergeable(v, t, Row(symbols, live), k)
    ensures Recorded(v, t, symbols, PairAt(v, t, symbols, live, k))
    ensures Current(symbols, live, PairAt(v, t, symbols, live, k), k)
  {
    var row := Row(symbols, live);
    assert row[k + 1].at == row[k + 1 - 1].End();
  }

  lemma ListingRecorded(v: Vocabulary, t: Bytes, symbols: seq<Symbol>, live: seq<nat>, k: int)
    requires v.Valid() && Linked(t, symbols, live)
    ensures forall h :: h in Listing(v, t, symbols, live, k) ==> Recorded(v, t, symbols, h)
  {
    if Mergeable(v, t, Row(symbols, live), k) {
      PairRecorded(v, t, symbols, live, k);
    }
  }

  lemma AbsorbKeepsRecorded(v: Vocabulary, t: Bytes, symbols: seq<Symbol>, live: seq<nat>, k: nat, h: SymbolPair)
    requires v.Valid() && Linked(t, symbols, live) && k + 1 < |live| && Recorded(v, t, symbols, h)
    ensures Recorded(v, t, Absorb(symbols, live[k], live[k + 1]), h)
  {
    hide Absorb, Linked;
    Apart(t, symbols, live, k);
    AbsorbAt(symbols, live[k], live[k + 1], h.left);
    AbsorbAt(symbols, live[k], live[k + 1], h.right);
    assert symbols[live[k]].size > 0 by { LiveSize(t, symbols, live, k); }
  }

  lemma LiveSize(t: Bytes, symbols: seq<Symbol>, live: seq<nat>, k: nat)
    requires Linked(t, symbols, live) && k < |live|
    ensures live[k] < |symbols| && symbols[live[k]].size > 0
  {
    assert Row(symbols, live)[k].size > 0;
  }

  /** Every pair that can be merged is on the agenda. */
  ghost predicate Complete(v: Vocabulary, t: Bytes, symbols: seq<Symbol>, live: seq<nat>, agenda: multiset<SymbolPair>)
    requires v.Valid() && InRange(symbols, live)
  {
    forall k: nat :: Mergeable(v, t, Row(symbols, live), k) ==> PairAt(v, t, symbols, live, k) in agenda
  }

  /** Dropping a pair that is no longer current loses nothing. */
  lemma DropStale(v: Vocabulary, t: Bytes, symbols: seq<Symbol>, live: seq<nat>, agenda: multiset<SymbolPair>,
                  h: SymbolPair)
    requires v.Valid() && Linked(t, symbols, live) && Recorded(v, t, symbols, h) && !Passes(symbols, h)
    requires Complete(v, t, symbols, live, agenda)
    ensures Complete(v, t, symbols, live, agenda - multiset{h})
  {
    forall k: nat | Mergeable(v, t, Row(symbols, live), k)
      ensures PairAt(v, t, symbols, live, k) in agenda - multiset{h}
    {
      PairRecorded(v, t, symbols, live, k);
      StaleTestExact(v, t, symbols, live, h);
    }
  }

  /** a is popped before b. */
  predicate Precedes(a: SymbolPair, b: SymbolPair) {
    b.score < a.score || (b.score == a.score && a.left < b.left)
  }

  /** Of a complete agenda, the current pair on top is the best pair there is. */
  lemma TopIsBest(v: Vocabulary, t: Bytes, symbols: seq<Symbol>, live: seq<nat>, agenda: multiset<SymbolPair>, k: nat)
    requires v.Valid() && Linked(t, symbols, live) && Complete(v, t, symbols, live, agenda)
    requires Mergeable(v, t, Row(symbols, live), k)
    requires forall h :: h in agenda ==> !Precedes(h, PairAt(v, t, symbols, live, k))
    ensures Best(v, t, Row(symbols, live), k)
  {
    forall j: nat | Mergeable(v, t, Row(symbols, live), j) ensures Preferred(v, t, Row(symbols, live), k, j) {
      assert PairAt(v, t, symbols, live, j) in agenda;
    }
  }

  /** The pairs away from a merge stay on the agenda. */
  lemma OthersStay(v: Vocabulary, t: Bytes, symbols: seq<Symbol>, live: seq<nat>, agenda: multiset<SymbolPair>,
                   k: nat, j: nat)
    requires v.Valid() && Linked(t, symbols, live) && Complete(v, t, symbols, live, agenda)
    requires InRange(symbols, live) && k + 1 < |live| && Mergeable(v, t, Row(symbols, live), k) && j != k && j + 1 != k
    requires InRange(Absorb(symbols, live[k], live[k + 1]), Without(live, k))
    requires Row(Absorb(symbols, live[k], live[k + 1]), Without(live, k)) == Merged(Row(symbols, live), k)
    requires Mergeable(v, t, Merged(Row(symbols, live), k), j)
    ensures PairAt(v, t, Absorb(symbols, live[k], live[k + 1]), Without(live, k), j) in
            agenda - multiset{PairAt(v, t, symbols, live, k)}
  {
    hide Absorb, Linked, Without, Recorded;
    var s', live' := Absorb(symbols, live[k], live[k + 1]), Without(live, k);
    var i := if j < k then j else j + 1;
    PairsAfterMerge(v, t, Row(symbols, live), k, j);
    assert PairAt(v, t, symbols, live, i) in agenda;
    WithoutAt(live, k, j);
    WithoutAt(live, k, j + 1);
    WithoutLength(live, k);
    assert Row(s', live')[j] == Row(symbols, live)[i] && Row(s', live')[j + 1] == Row(symbols, live)[i + 1];
    DistinctLive(t, symbols, live, i, k);
  }
}
