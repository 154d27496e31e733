/** The encoder: linked symbols and a priority queue of pairs, some of them stale, that carry
    out byte-pair merging without ever scanning the text again. */
module BpeEncoder {
  import opened Wrappers
  import opened BpeVocabulary
  import opened BpeMerging
  import opened BpeAgenda

  lemma {:induction false} HasTop(agenda: multiset<SymbolPair>) returns (top: SymbolPair)
    requires agenda != multiset{}
    ensures top in agenda && IsTop(agenda, top)
    decreases |agenda|
  {
    var h :| h in agenda;
    var rest := agenda - multiset{h};
    assert agenda == rest + multiset{h};
    if rest == multiset{} {
      top := h;
    } else {
      hide Precedes;
      top := HasTop(rest);
      PrecedesIsOrder(rest, top, h);
      top := if Precedes(h, top) then h else top;
    }
  }

  lemma PrecedesIsOrder(rest: multiset<SymbolPair>, top: SymbolPair, h: SymbolPair)
    requires IsTop(rest, top)
    ensures !Precedes(h, h) && (Precedes(h, top) ==> IsTop(rest, h))
  {
  }

  predicate IsTop(agenda: multiset<SymbolPair>, top: SymbolPair) {
    forall h :: h in agenda ==> !Precedes(h, top)
  }

  lemma ReplayOne(v: Vocabulary, t: Bytes, merges: seq<nat>, s: State, k: nat)
    requires Replay(v, t, merges) == Some(s) && Mergeable(v, t, s.segs, k)
    ensures Replay(v, t, merges + [k]) == Some(MergeAt(v, t, s, k))
  {
    assert (merges + [k])[..|merges|] == merges;
  }

  lemma OutputNext(v: Vocabulary, t: Bytes, s: State, k: nat, output: seq<EncodedPiece>)
    requires v.Valid() && Halves(s.rev) && k < |s.segs|
    ensures output + Output(v, t, s, k) == output + Resegmented(v, s.rev, Text(t, s.segs[k])) + Output(v, t, s, k + 1)
  {
  }

  class Encoder {
    const v: Vocabulary
    const t: Bytes
    var symbols: seq<Symbol>
    var agenda: multiset<SymbolPair>
    var revMerge: map<Bytes, (Bytes, Bytes)>
    ghost var live: seq<nat>

    constructor (v: Vocabulary, t: Bytes)
      ensures this.v == v && this.t == t && symbols == [] && live == []
      ensures agenda == multiset{} && revMerge == map[]
    {
      this.v, this.t := v, t;
      symbols, agenda, revMerge, live := [], multiset{}, map[], [];
    }

    ghost predicate Valid()
      reads this
    {
      v.Valid() && InRange(symbols, live) && Linked(t, symbols, live)
    }

    ghost function S(): State
      requires Valid()
      reads this
    {
      State(Row(symbols, live), revMerge)
    }

    // ---------- The first symbols ----------

    /** The first symbols, up to text position `at`. */
    ghost predicate SplitUpTo(at: nat)
      reads this
    {
      && at <= |t| && |live| == |symbols| && (forall i :: 0 <= i < |live| ==> live[i] == i)
      && Row(symbols, live) + Split(v, t, at) == Split(v, t, 0)
      && (forall i :: 0 <= i < |symbols| ==>
            && symbols[i].size > 0 && symbols[i].prev == i - 1
            && symbols[i].next == if i + 1 == |symbols| && at == |t| then -1 else i + 1)
      && (at > 0 ==> symbols != [])
    }

    method SplitText()
      requires v.Valid() && t != [] && symbols == [] && live == []
      modifies this`symbols, this`live
      ensures Valid() && Row(symbols, live) == Split(v, t, 0) && |live| == |symbols|
      ensures forall i :: 0 <= i < |live| ==> live[i] == i
    {
      var at := 0;
      while at < |t|
        invariant SplitUpTo(at)
      {
        at := AddSymbol(at);
      }
      SplitIsLinked();
    }

    lemma SplitIsLinked()
      requires t != [] && SplitUpTo(|t|)
      ensures Linked(t, symbols, live) && Row(symbols, live) == Split(v, t, 0)
    {
      assert Row(symbols, live) == Split(v, t, 0);
      SplitContiguous(v, t, 0);
      forall k: nat | k < |live| ensures Chained(symbols, live, k) {}
      forall i | 0 <= i < |symbols| ensures i in live { assert live[i] == i; }
    }

    method AddSymbol(at: nat) returns (next: nat)
      requires v.Valid() && at < |t| && SplitUpTo(at)
      modifies this`symbols, this`live
      ensures at < next && SplitUpTo(next)
    {
      var m := v.PrefixMatch(t[at..]);
      next := at + m.0;
      var index := |symbols|;
      ghost var row := Row(symbols, live);
      symbols := symbols + [Symbol(index - 1, if next == |t| then -1 else index + 1, m.1, at, m.0)];
      live := live + [index];
      assert Row(symbols, live) == row + [Segment(at, m.0, m.1)];
      assert row + Split(v, t, at) == Row(symbols, live) + Split(v, t, next);
    }

    // ---------- The agenda ----------

    /** Puts the pair of symbols on the agenda if they can be merged. */
    method MaybeAddNewSymbolPair(left: int, right: int, ghost k: int)
      requires Valid() && -1 <= k < |live| && left == At(live, k) && right == At(live, k + 1)
      modifies this`agenda, this`revMerge
      ensures Valid() && revMerge == Note(v, t, Row(symbols, live), old(revMerge), k)
      ensures agenda == old(agenda) + Listing(v, t, symbols, live, k)
    {
      hide Linked, Row, Mergeable, PairText, PairScore, Contiguous, Text;
      LookUp(k);
      if left == -1 || right == -1 || symbols[left].freeze || symbols[right].freeze {
        return;
      }
      var piece := Spelled(t, symbols[left].at, symbols[left].End() + symbols[right].size);
      if piece !in v.pieces {
        return;
      }
      var size := symbols[left].size + symbols[right].size;
      agenda := agenda + multiset{SymbolPair(left, right, v.Score(v.pieces[piece]), size)};
      if v.IsUnused(v.pieces[piece]) {
        revMerge := revMerge[piece := (Spelled(t, symbols[left].at, symbols[left].End()),
                                       Spelled(t, symbols[right].at, symbols[right].End()))];
      }
    }

    /** What a pair is in terms of the symbols. */
    lemma LookUp(k: int)
      requires Valid() && -1 <= k < |live|
      ensures Mergeable(v, t, Row(symbols, live), k) ==> 0 <= k && k + 1 < |live|
      ensures 0 <= k && k + 1 < |live| ==>
                live[k] < |symbols| && live[k + 1] < |symbols| &&
                var l, r := symbols[live[k]], symbols[live[k + 1]];
                var piece := Spelled(t, l.at, l.End() + r.size);
                && PairText(t, Row(symbols, live), k) == piece
                && (Mergeable(v, t, Row(symbols, live), k) <==> !l.freeze && !r.freeze && piece in v.pieces)
                && Text(t, Row(symbols, live)[k]) == Spelled(t, l.at, l.End())
                && Text(t, Row(symbols, live)[k + 1]) == Spelled(t, r.at, r.End())
                && (Mergeable(v, t, Row(symbols, live), k) ==>
                      PairAt(v, t, symbols, live, k) ==
                      SymbolPair(live[k], live[k + 1], v.Score(v.pieces[piece]), l.size + r.size))
    {
    }

    ghost predicate AllRecorded()
      requires v.Valid()
      reads this
    {
      forall h :: h in agenda ==> Recorded(v, t, symbols, h)
    }

    /** The first n pairs are on the agenda if they can be merged. */
    ghost predicate ListedUpTo(n: nat)
      requires Valid()
      reads this
    {
      forall k: nat :: k < n && Mergeable(v, t, Row(symbols, live), k) ==> PairAt(v, t, symbols, live, k) in agenda
    }

    method ListPairs()
      requires Valid() && Row(symbols, live) == Split(v, t, 0) && agenda == multiset{} && revMerge == map[]
      requires |live| == |symbols| && forall i :: 0 <= i < |live| ==> live[i] == i
      modifies this`agenda, this`revMerge
      ensures Valid() && S() == Start(v, t) && AllRecorded() && Complete(v, t, symbols, live, agenda)
    {
      for i := 1 to |symbols|
        invariant AllRecorded() && ListedUpTo(i - 1)
        invariant revMerge == NoteFirst(v, t, Row(symbols, live), i - 1)
      {
        ListPair(i);
      }
      ghost var n := |symbols|;
      assert revMerge == Note(v, t, Split(v, t, 0), revMerge, n - 1);
    }

    method ListPair(i: nat)
      requires Valid() && 0 < i < |live| && live[i - 1] == i - 1 && live[i] == i
      requires AllRecorded() && ListedUpTo(i - 1) && revMerge == NoteFirst(v, t, Row(symbols, live), i - 1)
      modifies this`agenda, this`revMerge
      ensures Valid() && AllRecorded() && ListedUpTo(i) && revMerge == NoteFirst(v, t, Row(symbols, live), i)
    {
      hide Mergeable, Recorded, Row;
      MaybeAddNewSymbolPair(i - 1, i, i - 1);
      ListingRecorded(v, t, symbols, live, i - 1);
    }

    /** A pair that no other precedes. */
    method Pop() returns (top: SymbolPair)
      requires agenda != multiset{}
      modifies this`agenda
      ensures top in old(agenda) && IsTop(old(agenda), top) && agenda == old(agenda) - multiset{top}
    {
      ghost var best := HasTop(agenda);
      top :| top in agenda && IsTop(agenda, top);
      agenda := agenda - multiset{top};
    }

    // ---------- Merging ----------

    /** The merges so far, and nothing made up on the agenda. */
    ghost predicate After(merges: seq<nat>)
      reads this
    {
      Valid() && Replay(v, t, merges) == Some(S()) && AllRecorded()
    }

    /** Nothing is missing from the agenda, and greedy merging from here on still leads to
        what it leads to from the start. */
    ghost predicate OnGreedyPath()
      requires Valid()
      reads this
    {
      Complete(v, t, symbols, live, agenda) && Greedy(v, t, S()) == Greedy(v, t, Start(v, t))
    }

    /** Merges the live symbols k and k + 1 and lists the two new pairs. */
    method Merge(top: SymbolPair, ghost k: nat, ghost merges: seq<nat>)
      requires After(merges) && Current(symbols, live, top, k) && Mergeable(v, t, Row(symbols, live), k)
      modifies this`symbols, this`agenda, this`revMerge, this`live
      ensures After(merges + [k]) && |live| == old(|live|) - 1
      ensures S() == MergeAt(v, t, old(S()), k)
      ensures agenda == old(agenda) + Listing(v, t, symbols, live, k - 1) + Listing(v, t, symbols, live, k)
      ensures symbols == Absorb(old(symbols), old(live)[k], old(live)[k + 1]) && live == Without(old(live), k)
    {
      hide Linked, Recorded, Row, Mergeable, Absorb, Replay, Contiguous, Listing;
      ghost var s0 := S();
      AbsorbLinked(t, symbols, live, k);
      forall h | h in agenda ensures Recorded(v, t, Absorb(symbols, live[k], live[k + 1]), h) {
        AbsorbKeepsRecorded(v, t, symbols, live, k, h);
      }
      Link(top.left, top.right, k);
      LiveSymbol(k);
      MaybeAddNewSymbolPair(symbols[top.left].prev, top.left, k - 1);
      MaybeAddNewSymbolPair(top.left, symbols[top.left].next, k);
      ListingRecorded(v, t, symbols, live, k - 1);
      ListingRecorded(v, t, symbols, live, k);
      ReplayOne(v, t, merges, s0, k);
    }

    /** The left symbol takes over the right one's bytes and its next symbol. */
    method Link(left: nat, right: nat, ghost k: nat)
      requires Valid() && k + 1 < |live| && left == live[k] && right == live[k + 1]
      modifies this`symbols, this`live
      ensures symbols == Absorb(old(symbols), left, right) && live == Without(old(live), k) && k < |live|
              && left == live[k]
    {
      assert Chained(symbols, live, k + 1);
      symbols := symbols[left := symbols[left].(size := symbols[left].size + symbols[right].size)];
      symbols := symbols[left := symbols[left].(next := symbols[right].next)];
      if symbols[right].next >= 0 {
        symbols := symbols[symbols[right].next := symbols[symbols[right].next].(prev := left)];
      }
      symbols := symbols[right := symbols[right].(size := 0)];
      live := Without(live, k);
    }

    /** One turn of the main loop. */
    method Turn(alpha: real, ghost merges: seq<nat>) returns (ghost merges': seq<nat>)
      requires After(merges) && agenda != multiset{}
      modifies this`symbols, this`agenda, this`revMerge, this`live
      ensures After(merges')
      ensures |live| < old(|live|) || (|live| == old(|live|) && |agenda| < old(|agenda|))
      ensures alpha <= 0.0 && old(OnGreedyPath()) ==> OnGreedyPath()
      ensures old(OnGreedyPath()) && AllForemost(v, t, merges) ==> AllForemost(v, t, merges') || alpha > 0.0
      ensures alpha >= 1.0 ==> merges' == merges
    {
      hide Linked, Row, Mergeable, Greedy, Contiguous, Replay, Complete, AllForemost;
      merges' := merges;
      var top := Pop();
      if symbols[top.left].size == 0 || symbols[top.right].size == 0
         || symbols[top.left].size + symbols[top.right].size != top.size {
        if old(OnGreedyPath()) { DropStale(v, t, symbols, live, old(agenda), top); }
        return;
      }
      StaleTestExact(v, t, symbols, live, top);
      ghost var k: nat :| Current(symbols, live, top, k);
      var skip := Skips(alpha);
      if !skip {
        merges' := merges + [k];
        UsePair(top, k, merges, old(agenda));
        assert !(alpha >= 1.0);
      }
    }

    /** A current pair on top is merged. */
    method UsePair(top: SymbolPair, ghost k: nat, ghost merges: seq<nat>, ghost agenda0: multiset<SymbolPair>)
      requires After(merges) && Current(symbols, live, top, k) && Mergeable(v, t, Row(symbols, live), k)
      requires PairAt(v, t, symbols, live, k) == top && agenda == agenda0 - multiset{top} && IsTop(agenda0, top)
      modifies this`symbols, this`agenda, this`revMerge, this`live
      ensures After(merges + [k]) && |live| < old(|live|)
      ensures Complete(v, t, old(symbols), old(live), agenda0) ==>
                Greedy(v, t, old(S())) == Greedy(v, t, Start(v, t)) ==> OnGreedyPath()
      ensures Complete(v, t, old(symbols), old(live), agenda0) && AllForemost(v, t, merges) ==>
                AllForemost(v, t, merges + [k])
    {
      hide Linked, Mergeable, Recorded, Row, Greedy, Current, Start, Replay, AllForemost;
      ghost var s0, s, l := S(), symbols, live;
      Merge(top, k, merges);
      if Complete(v, t, s, l, agenda0) && AllForemost(v, t, merges) {
        TopIsBest(v, t, s, l, agenda0, k);
        ForemostNext(v, t, merges, k);
      }
      if Complete(v, t, s, l, agenda0) && Greedy(v, t, s0) == Greedy(v, t, Start(v, t)) {
        TopIsBest(v, t, s, l, agenda0, k);
        BestIsNext(v, t, s0, k);
        MergeKeepsComplete(s, l, agenda0, k);
      }
    }

    method Skips(alpha: real) returns (skip: bool)
      ensures alpha <= 0.0 ==> !skip
      ensures alpha >= 1.0 ==> skip
    {
      if alpha <= 0.0 {
        return false;
      }
      if alpha >= 1.0 {
        return true;
      }
      skip := *;  // a random number falls below alpha
    }

    lemma MergeKeepsComplete(s: seq<Symbol>, l: seq<nat>, a: multiset<SymbolPair>, k: nat)
      requires v.Valid() && Linked(t, s, l) && Complete(v, t, s, l, a) && Mergeable(v, t, Row(s, l), k)
      requires symbols == Absorb(s, l[k], l[k + 1]) && live == Without(l, k) && Valid()
      requires agenda == a - multiset{PairAt(v, t, s, l, k)} + Listing(v, t, symbols, live, k - 1)
               + Listing(v, t, symbols, live, k)
      ensures Complete(v, t, symbols, live, agenda)
    {
      AbsorbRow(t, s, l, k);
      forall j: nat | Mergeable(v, t, Row(symbols, live), j) ensures PairAt(v, t, symbols, live, j) in agenda {
        if j != k && j + 1 != k {
          OthersStay(v, t, s, l, a, k, j);
        }
      }
    }

    method MergeAll(alpha: real) returns (ghost merges: seq<nat>)
      requires After([]) && OnGreedyPath()
      modifies this`symbols, this`agenda, this`revMerge, this`live
      ensures Valid() && Replay(v, t, merges) == Some(S())
      ensures alpha <= 0.0 ==> S() == Greedy(v, t, Start(v, t)) && AllForemost(v, t, merges)
      ensures alpha >= 1.0 ==> merges == []
    {
      merges := [];
      while agenda != multiset{}
        invariant After(merges)
        invariant alpha <= 0.0 ==> OnGreedyPath() && AllForemost(v, t, merges)
        invariant alpha >= 1.0 ==> merges == []
        decreases |live|, |agenda|
      {
        merges := Turn(alpha, merges);
      }
      if alpha <= 0.0 {
        assert BestPair(v, t, Row(symbols, live), |live|).None?;
      }
    }

    // ---------- The output ----------

    method Resegment(w: Bytes, output: seq<EncodedPiece>) returns (output': seq<EncodedPiece>)
      requires v.Valid() && Halves(revMerge)
      ensures output' == output + Resegmented(v, revMerge, w)
      decreases |w|
    {
      var id := v.PieceToId(w);
      if id == -1 || !v.IsUnused(id) {
        return output + [EncodedPiece(w, id)];
      }
      if w !in revMerge {
        return output + [EncodedPiece(w, id)];
      }
      output' := Resegment(revMerge[w].0, output);
      output' := Resegment(revMerge[w].1, output');
    }

    method Collect() returns (output: seq<EncodedPiece>)
      requires Valid() && Halves(revMerge)
      ensures output == Output(v, t, S(), 0)
    {
      output := [];
      var index := 0;
      ghost var k := 0;
      while index != -1
        invariant 0 <= k <= |live| && index == At(live, k)
        invariant output + Output(v, t, S(), k) == Output(v, t, S(), 0)
        decreases |live| - k
      {
        LiveSymbol(k);
        OutputNext(v, t, S(), k, output);
        output := Resegment(Spelled(t, symbols[index].at, symbols[index].End()), output);
        index := symbols[index].next;
        k := k + 1;
      }
    }

    lemma LiveSymbol(k: nat)
      requires Valid() && k < |live|
      ensures live[k] < |symbols| && symbols[live[k]].prev == At(live, k - 1)
              && symbols[live[k]].next == At(live, k + 1)
      ensures Spelled(t, symbols[live[k]].at, symbols[live[k]].End()) == Text(t, Row(symbols, live)[k])
    {
      assert Chained(symbols, live, k);
    }
  }

  lemma NoneForemost(v: Vocabulary, t: Bytes)
    ensures AllForemost(v, t, [])
  {
  }

  /** When no pair can be merged, none forms a piece. */
  lemma NothingForms(v: Vocabulary, t: Bytes, merges: seq<nat>)
    requires v.Valid() && Replay(v, t, merges).Some?
    ensures var segs := Replay(v, t, merges).value.segs;
            (forall k: nat :: !Mergeable(v, t, segs, k)) ==> forall k: nat, i: nat :: !Forms(v, t, segs, k, i)
  {
    hide Mergeable, Forms, Contiguous;
    ReplaySound(v, t, merges);
    var segs := Replay(v, t, merges).value.segs;
    forall k: nat, i: nat | Forms(v, t, segs, k, i) ensures Mergeable(v, t, segs, k) {
      MergeableForms(v, t, segs, k);
    }
  }

  /** Encodes t.  With 0 < alpha < 1 each merge is skipped with that probability.  `merges`
      are the merges carried out. */
  method SampleEncode(v: Vocabulary, t: Bytes, alpha: real) returns (output: seq<EncodedPiece>, ghost merges: seq<nat>)
    requires v.Valid()
    ensures Replay(v, t, merges).Some? && Halves(Replay(v, t, merges).value.rev)
    ensures output == Output(v, t, Replay(v, t, merges).value, 0) && Joined(output) == t
    ensures forall p :: p in output ==> v.Names(p.id, p.piece)
    ensures alpha <= 0.0 ==>
              && Replay(v, t, merges).value == Greedy(v, t, Start(v, t)) && AllForemost(v, t, merges)
              && forall k: nat, i: nat :: !Forms(v, t, Replay(v, t, merges).value.segs, k, i)
    ensures alpha >= 1.0 ==> merges == []
  {
    hide AllForemost, Vocabulary.Valid, Vocabulary.Names, Forms;
    merges := [];
    NoneForemost(v, t);
    EncodingConserves(v, t, merges);
    if t == [] {
      assert BestPair(v, t, [], 0).None?;
      NothingForms(v, t, merges);
      return [], merges;
    }
    var encoder := new Encoder(v, t);
    encoder.SplitText();
    encoder.ListPairs();
    merges := encoder.MergeAll(alpha);
    EncodingConserves(v, t, merges);
    OutputIds(v, t, encoder.S(), 0);
    NothingForms(v, t, merges);
    output := encoder.Collect();
  }
}
