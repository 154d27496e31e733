/** The language model in place: prompts are decoded into sequence 0, and searches run from it. */
module PromptDecoder {
  import opened BeamCells
  import opened BeamLeftovers
  import opened BeamOutputs
  import opened BeamPrompt
  import opened BeamRounds
  import opened BeamRuns
  import opened BeamSearch
  import opened BeamTraces
  import opened CacheCoherence
  import opened CacheRuns
  import opened PromptCache
  import opened SharedCells
  import opened Wrappers

  /** What the answer to a prompt leads to: it is not a number, it shows that the cache is
      broken, or it gives the tokens to begin with. */
  datatype Answer = NotANumber | Bugged | Chosen(first: seq<(int, real)>)

  class LanguageModelState {
    const nBatch: nat
    const xbc: int
    var cells: seq<SharedCell>
    var activeContext: seq<int>
    var pastMixes: seq<MixPoint>

    constructor (nBatch: nat, xbc: int)
      ensures this.nBatch == nBatch && this.xbc == xbc && S() == FRESH && Alone(cells) && Valid()
    {
      this.nBatch, this.xbc := nBatch, xbc;
      cells, activeContext, pastMixes := [], [], [];
    }

    /** Every cell belongs to some sequence. */
    ghost predicate Valid()
      reads this
    {
      Occupied(cells)
    }

    /** What sequence 0 holds. */
    function Kv(): seq<Cell>
      reads this
    {
      View(cells, 0)
    }

    function S(): Cache
      reads this
    {
      Cache(Kv(), activeContext, pastMixes)
    }

    /** The tokens still to be computed and how many are kept. */
    method FastForward(next: seq<int>, allowEmpty: bool) returns (suffix: seq<int>, npast: int)
      ensures npast == Kept(activeContext, next, allowEmpty) && suffix == next[npast..]
    {
      npast := 0;
      var i := 0;
      while i < Min(|activeContext|, |next|)
        invariant npast == i <= Min(|activeContext|, |next|)
        invariant Shared(activeContext, next) == i + Shared(activeContext[i..], next[i..])
      {
        if activeContext[i] != next[i] {
          break;
        }
        npast := i + 1;
        assert activeContext[i..][1..] == activeContext[i + 1..] && next[i..][1..] == next[i + 1..];
        i := i + 1;
      }
      if !allowEmpty && npast == |next| && |next| <= |activeContext| {
        npast := npast - 1;
      }
      if npast < 0 {
        npast := 0;
      }
      suffix := next[npast..];
    }

    method ApplyContext(suffix: seq<int>, npast: nat)
      requires npast <= |activeContext|
      modifies this`activeContext
      ensures activeContext == old(activeContext)[..npast] + suffix
    {
      activeContext := activeContext[..npast];
      ghost var kept := activeContext;
      for i := 0 to |suffix|
        invariant activeContext == kept + suffix[..i]
      {
        activeContext := activeContext + [suffix[i]];
      }
      assert suffix[..|suffix|] == suffix;
    }

    method GetCachedMixAmount(mixes: seq<MixPoint>) returns (n: nat)
      ensures n == CachedMixes(pastMixes, mixes)
    {
      n := 0;
      while n < Min(|pastMixes|, |mixes|)
        invariant n <= Min(|pastMixes|, |mixes|)
        invariant CachedMixes(pastMixes, mixes) == n + CachedMixes(pastMixes[n..], mixes[n..])
      {
        if Abs(pastMixes[n].x - mixes[n].x) >= EPS {
          break;
        }
        if Abs(pastMixes[n].y - mixes[n].y) >= EPS {
          break;
        }
        assert pastMixes[n..][1..] == pastMixes[n + 1..] && mixes[n..][1..] == mixes[n + 1..];
        n := n + 1;
      }
    }

    /** Sequence q loses its cells from p0 on, and the others nothing. */
    method SeqRm(q: nat, p0: int)
      requires Valid()
      modifies this`cells
      ensures Valid() && cells == RmSeq(old(cells), q, p0)
      ensures View(cells, q) == Rm(View(old(cells), q), p0)
      ensures forall r: nat :: r != q ==> View(cells, r) == View(old(cells), r)
    {
      hide RmSeq, View, Rm;
      var kept := [];
      ghost var all := RmSeq(cells, q, p0);
      NothingRemoved(cells, q, p0);
      for i := 0 to |cells|
        modifies {}
        invariant kept + RmSeq(cells[i..], q, p0) == all
        invariant forall c :: c in kept ==> c.ids != {} && c.cell.pos >= 0
      {
        RmSeqFrom(cells, q, p0, i);
        var c := RmCell(cells[i], q, p0);
        assert cells[i] in cells;
        if c.ids != {} {
          kept := kept + [c];
        }
      }
      assert kept + [] == kept;
      RmSeqView(cells, q, p0);
      forall r: nat | r != q ensures View(RmSeq(cells, q, p0), r) == View(cells, r) {
        RmSeqOthers(cells, q, p0, r);
      }
      cells := kept;
    }

    /** A batch for sequence 0. */
    method DecodeCells0(batch: seq<Cell>)
      requires Valid() && forall c :: c in batch ==> c.pos >= 0
      modifies this`cells
      ensures Valid() && Kv() == old(Kv()) + batch && Untouched(old(cells), cells)
    {
      var own := Own(batch, 0);
      forall c | c in own ensures c.ids != {} && c.cell.pos >= 0 {
        var i :| 0 <= i < |own| && own[i] == c;
        assert batch[i] in batch;
      }
      forall q: nat ensures View(cells + own, q) == View(cells, q) + if q == 0 then batch else [] {
        ViewAppend(cells, own, q);
        OwnView(batch, 0, q);
      }
      assert forall q: nat :: View(cells, q) + [] == View(cells, q);
      cells := cells + own;
    }

    method BuildBatch(tokens: seq<int>, at: nat) returns (batch: seq<Cell>)
      ensures batch == TokenCells(tokens, at)
    {
      batch := [];
      for i := 0 to |tokens|
        invariant batch == TokenCells(tokens, at)[..i]
      {
        batch := batch + [Cell(at + i, Token(tokens[i]))];
      }
    }

    /** Batch b of the suffix.  head: the index of its last token. */
    method DecodeOne(suffix: seq<int>, start: nat, b: nat) returns (head: int)
      requires nBatch > 0 && nBatch * b < |suffix| && Valid()
      modifies this`cells
      ensures Valid() && Kv() == DecodeBatch(old(Kv()), suffix, start, nBatch, b) && Untouched(old(cells), cells)
      ensures head == Min(nBatch, |suffix| - nBatch * b) - 1
    {
      hide View, Rm, RmSeq, Occupied;
      var first := nBatch * b;
      var nTokens := Min(nBatch, |suffix| - first);
      assert first + nTokens == Min(first + nBatch, |suffix|);
      var batch := BuildBatch(suffix[first..first + nTokens], start + first);
      head := nTokens - 1;
      SeqRm(0, start);
      forall c | c in batch ensures c.pos >= 0 {
        var i :| 0 <= i < |batch| && batch[i] == c;
      }
      DecodeCells0(batch);
      assert Kv() == Rm(old(Kv()), start) + batch;
    }

    /** The suffix of the prompt, a batch at a time.  Each batch first removes everything from
        the start of the suffix on. */
    method DecodeSuffix(suffix: seq<int>, start: nat) returns (head: int)
      requires nBatch > 0 && Valid()
      modifies this`cells
      ensures Valid() && Untouched(old(cells), cells) && head == Head(suffix, nBatch)
      ensures Kv() == DecodeBatches(old(Kv()), suffix, start, nBatch, Batches(suffix, nBatch))
    {
      hide DecodeBatch, View, TokenCells, Rm;
      head := -1;
      NoBatchOfNone(suffix, nBatch);
      for b := 0 to Batches(suffix, nBatch)
        invariant Valid() && Untouched(old(cells), cells)
        invariant Kv() == DecodeBatches(old(Kv()), suffix, start, nBatch, b)
        invariant b == 0 ==> head == -1
        invariant b > 0 ==> nBatch * (b - 1) < |suffix| && head == Min(nBatch, |suffix| - nBatch * (b - 1)) - 1
      {
        BatchInRange(suffix, nBatch, b);
        head := DecodeOne(suffix, start, b);
      }
      LastBatchIsRest(suffix, nBatch);
    }

    method DecodeMixes(at: nat, mixes: seq<MixPoint>, nPast: nat)
      requires nPast <= |mixes| && Valid()
      modifies this`cells
      ensures Valid() && Kv() == old(Kv()) + MixCells(mixes[nPast..], at + nPast) && Untouched(old(cells), cells)
    {
      for h := nPast to |mixes|
        invariant Valid() && Untouched(old(cells), cells)
        invariant Kv() == old(Kv()) + MixCells(mixes[nPast..], at + nPast)[..h - nPast]
      {
        DecodeCells0([Cell(at + h, Mixed(mixes[h]))]);
      }
    }

    /** Decodes the prompt, the mixes that are not cached, and the closing token.  head: where in
        the last batch the answer is. */
    method DecodePromptAndMixes(prompt: seq<int>, mixes: seq<MixPoint>) returns (head: int, size: nat)
      requires nBatch > 0 && Valid()
      modifies this`cells, this`activeContext, this`pastMixes
      ensures Valid() && S() == Decode(old(S()), prompt, mixes, nBatch, xbc) && size == Size(prompt, mixes)
      ensures Untouched(old(cells), cells) && forall d :: d in Kv() ==> d.pos < size
      ensures head == AnswerAt(old(activeContext), prompt, mixes, nBatch)
    {
      hide Rm, RmSeq, View, TokenCells, MixCells, DecodeBatches, Shared, CachedMixes, Kept, Head, Occupied, Batches;
      ghost var s := S();
      var suffix, npast := FastForward(prompt, mixes != []);
      head := DecodeSuffix(suffix, npast);
      assert Kv() == AfterPrompt(s, prompt, mixes, nBatch);
      ApplyContext(suffix, npast);
      assert activeContext == prompt by { assert s.active[..npast] == prompt[..npast]; }
      size := |prompt| + |mixes|;
      var nPast := GetCachedMixAmount(mixes);
      pastMixes := mixes;
      if suffix != [] {
        nPast := 0;
      }
      assert nPast == Reused(s, prompt, mixes);
      SeqRm(0, |prompt| + nPast);
      ghost var kept := Kv();
      if mixes != [] {
        DecodeMixes(|prompt|, mixes, nPast);
        size := size + 1;
        DecodeCells0([Cell(|prompt| + |mixes|, Token(xbc))]);
        head := 0;
      }
      assert Kv() == kept + Tail(prompt, mixes, nPast, xbc);
      assert Kv() == DecodedCells(s, prompt, mixes, nBatch, xbc);
      SeqRm(0, size);
    }

    /** A search from the answer to a prompt of that size.  A search that breaks off skips the
        removal at the end. */
    method Sample(size: nat, answer: Answer, e: Endings, pick: seq<Beam> -> Option<seq<Pick>>)
      returns (outs: seq<Output>, ghost trace: Trace)
      requires Valid() && Picker(pick)
      modifies this`cells, this`activeContext
      ensures Valid()
      ensures match answer
              case NotANumber => cells == old(cells) && activeContext == old(activeContext) && outs == []
              case Bugged => cells == [] && activeContext == [] && outs == []
              case Chosen(first) =>
                activeContext == old(activeContext) && Searched(e, size, old(cells), first, trace, cells, outs)
    {
      hide Searched;
      outs, trace := [], Trace([], Finished);
      match answer {
        case NotANumber => return;
        case Bugged =>
          cells, activeContext := [], [];
        case Chosen(first) =>
          ghost var origins;
          outs, trace, origins := RunSearch(size, first, e, pick);
      }
    }

    method RunSearch(size: nat, first: seq<(int, real)>, e: Endings, pick: seq<Beam> -> Option<seq<Pick>>)
      returns (outs: seq<Output>, ghost trace: Trace, ghost origins: seq<Origin>)
      requires Valid() && Picker(pick)
      modifies this`cells
      ensures Valid() && Searched(e, size, old(cells), first, trace, cells, outs)
      ensures if trace.stop == Broken then outs == []
              else Traced(Beginning(e, size, old(cells), first), trace.rounds, Seen(trace), outs, origins)
      ensures PickedBy(Beginning(e, size, old(cells), first), trace.rounds, pick)
      ensures StopsRight(Beginning(e, size, old(cells), first), trace, pick)
    {
      hide AllFair, Rounds, Next, Sound, Fair, RmOthers, RmSeq, Live, Done, DecodeBeams, Start, Occupied, View, Parted,
        Bred, Traced, PickedBy, BeamsAfter;
      ghost var b := Beginning(e, size, cells, first);
      NonePicked(b, pick);
      origins := [];
      ghost var cells0, rounds: seq<seq<Pick>> := cells, [];
      NoRounds(e, size, cells0, first);
      var search := new Search(size, e, cells, first);
      var progress := Continued;
      for tok := 0 to 10
        modifies search
        invariant search.n == |first| && search.size == size && search.e == e && progress == Continued
        invariant fresh(search) && search.Valid() && search.tok == tok == |rounds|
        invariant FairSearch(e, size, cells0, first, rounds) && PickedBy(b, rounds, pick)
        invariant search.S() == After(e, size, cells0, first, rounds)
      {
        search.LiveKeeps();
        ReachedBeams(b, rounds);
        ghost var picks := pick(Live(e, search.beams));
        ghost var live;
        progress, live := search.Round(pick);
        if progress != Continued {
          break;
        }
        OneMoreRound(e, size, cells0, first, rounds, picks.value);
        OneMorePicked(b, rounds, pick, picks.value);
        rounds := rounds + [picks.value];
      }
      trace, cells, outs := Trace(rounds, progress), search.cells, [];
      ReachedBeams(b, rounds);
      if progress == Continued { search.LiveKeeps(); }
      if progress == Broken {
        SearchedOccupied(e, size, cells0, first, trace, cells, outs);
        return;
      }
      outs := search.outputs;
      AfterOccupied(e, size, cells0, first, rounds);
      NothingEmptied(cells);
      ghost var last := cells;
      if |first| > 1 {
        for i := 1 to |first|
          invariant Valid() && cells == RmOthers(last, i)
        {
          SeqRm(i, 0);
          OneMoreEmptied(last, i);
        }
      }
      origins := SearchOutputs(e, size, cells0, first, trace, cells, outs);
    }

    /** Decodes a prompt and searches from it.  before: the cells when the search begins.  What the
        call does to sequence 0 is a run of the calls that the prompt cache is specified by, and a
        proper one if and only if the search brings no left-overs of an earlier one to sequence 0. */
    method Predict(prompt: seq<int>, mixes: seq<MixPoint>, answers: int -> Answer, e: Endings,
                   pick: seq<Beam> -> Option<seq<Pick>>)
      returns (outs: seq<Output>, ghost calls: seq<Call>, ghost trace: Trace, ghost before: seq<SharedCell>)
      requires nBatch > 0 && Valid() && Picker(pick) && prompt != []
      modifies this`cells, this`activeContext, this`pastMixes
      ensures Valid()
      ensures calls != [] && calls[0] == Prompt(prompt, mixes) && forall c :: c in calls[1..] ==> !c.Prompt?
      ensures S() == Run(old(S()), calls, nBatch, xbc)
      ensures View(before, 0) == Decode(old(S()), prompt, mixes, nBatch, xbc).kv && Untouched(old(cells), before)
      ensures var answer, size := answers(AnswerAt(old(activeContext), prompt, mixes, nBatch)), Size(prompt, mixes);
              if answer.Chosen? then
                && Searched(e, size, before, answer.first, trace, cells, outs)
                && (AllProper(old(S()), calls, nBatch, xbc) <==>
                    KeepsPrompt(e, size, before, answer.first, trace.rounds))
                && (old(Alone(cells)) ==>
                      && KeepsPrompt(e, size, before, answer.first, trace.rounds)
                      && (before != [] ==> (Alone(cells) <==> !(trace.stop.Broken? && |answer.first| >= 2))))
              else AllProper(old(S()), calls, nBatch, xbc) && (old(Alone(cells)) ==> Alone(cells))
    {
      hide DecodedCells, Rm, Searched, Occupied, View, Size, KeepsPrompt, FairSearch, Alone, Run, AllProper;
      ghost var s, was := S(), cells;
      var head, size := DecodePromptAndMixes(prompt, mixes);
      before := cells;
      if Alone(was) {
        StillAlone(was, before);
      }
      var answer := answers(head);
      outs, trace := Sample(size, answer, e, pick);
      calls := [Prompt(prompt, mixes)];
      match answer {
        case NotANumber =>
          OneCall(s, calls[0], nBatch, xbc);
        case Bugged =>
          calls := calls + [Cleared];
          TwoCalls(s, calls[0], Cleared, nBatch, xbc);
          NothingLeft();
        case Chosen(first) =>
          calls := calls + [Beams(Kv())];
          SearchIsACall(s, prompt, mixes, nBatch, xbc, e, before, first, trace, cells, outs);
          if Alone(was) {
            SearchAlone(e, size, before, first, trace, cells, outs);
          }
      }
    }
  }

  /** A prompt and a search from it as two calls. */
  lemma SearchIsACall(s: Cache, prompt: seq<int>, mixes: seq<MixPoint>, nBatch: nat, closing: int, e: Endings,
                      before: seq<SharedCell>, first: seq<(int, real)>, trace: Trace, after: seq<SharedCell>,
                      outs: seq<Output>)
    requires nBatch > 0 && prompt != [] && Occupied(before)
    requires View(before, 0) == Decode(s, prompt, mixes, nBatch, closing).kv
    requires Searched(e, Size(prompt, mixes), before, first, trace, after, outs)
    ensures FairSearch(e, Size(prompt, mixes), before, first, trace.rounds)
    ensures var calls := [Prompt(prompt, mixes)] + [Beams(View(after, 0))];
            && Run(s, calls, nBatch, closing) == Cache(View(after, 0), prompt, mixes)
            && (AllProper(s, calls, nBatch, closing) <==>
                KeepsPrompt(e, Size(prompt, mixes), before, first, trace.rounds))
  {
    hide Searched, View, KeepsPrompt, DecodedCells, Occupied, FairSearch;
    DecodedFront(s, prompt, mixes, nBatch, closing);
    SearchedFair(e, Size(prompt, mixes), before, first, trace, after, outs);
    PromptStaysIff(e, Size(prompt, mixes), before, first, trace, after, outs);
    TwoCalls(s, Prompt(prompt, mixes), Beams(View(after, 0)), nBatch, closing);
  }

  /** A search from a cache without left-overs brings none along, and leaves some exactly if it
      breaks off with more than one beam. */
  lemma SearchAlone(e: Endings, size: nat, before: seq<SharedCell>, first: seq<(int, real)>, trace: Trace,
                    after: seq<SharedCell>, outs: seq<Output>)
    requires Alone(before) && Occupied(before) && (forall d :: d in View(before, 0) ==> d.pos < size)
    requires Searched(e, size, before, first, trace, after, outs)
    ensures FairSearch(e, size, before, first, trace.rounds) && KeepsPrompt(e, size, before, first, trace.rounds)
    ensures before != [] ==> (Alone(after) <==> !(trace.stop.Broken? && |first| >= 2))
  {
    hide Searched, Alone, KeepsPrompt, FairSearch;
    OwnedByZero(before, size);
    SearchedFair(e, size, before, first, trace, after, outs);
    var gained := SearchLeavesPrompt(e, size, before, first, trace, after, outs);
    AloneKeepsPrompt(e, size, before, first, trace.rounds);
  }

  lemma SearchedFair(e: Endings, size: nat, cells: seq<SharedCell>, first: seq<(int, real)>, trace: Trace,
                     after: seq<SharedCell>, outs: seq<Output>)
    requires Searched(e, size, cells, first, trace, after, outs)
    ensures FairSearch(e, size, cells, first, trace.rounds)
  {
  }

  /** After a prompt sequence 0 holds nothing behind it. */
  lemma DecodedFront(s: Cache, prompt: seq<int>, mixes: seq<MixPoint>, nBatch: nat, closing: int)
    requires nBatch > 0
    ensures var d := Decode(s, prompt, mixes, nBatch, closing);
            && Rm(d.kv, Size(prompt, mixes)) == d.kv && d.active == prompt && d.past == mixes
            && forall c :: c in d.kv ==> c.pos < Size(prompt, mixes)
  {
    hide DecodedCells;
    RmNone(Decode(s, prompt, mixes, nBatch, closing).kv, Size(prompt, mixes));
  }

  lemma StillAlone(before: seq<SharedCell>, after: seq<SharedCell>)
    requires Alone(before) && Untouched(before, after)
    ensures Alone(after)
  {
  }

  lemma NothingLeft()
    ensures Alone([]) && View([], 0) == []
  {
  }

  lemma OneCall(s: Cache, call: Call, nBatch: nat, closing: int)
    requires nBatch > 0 && Proper(s, call)
    ensures AllProper(s, [call], nBatch, closing) && Run(s, [call], nBatch, closing) == Step(s, call, nBatch, closing)
  {
    assert [call][1..] == [];
  }

  lemma TwoCalls(s: Cache, a: Call, b: Call, nBatch: nat, closing: int)
    requires nBatch > 0 && Proper(s, a)
    ensures AllProper(s, [a] + [b], nBatch, closing) <==> Proper(Step(s, a, nBatch, closing), b)
    ensures Run(s, [a] + [b], nBatch, closing) == Step(Step(s, a, nBatch, closing), b, nBatch, closing)
  {
    var s' := Step(s, a, nBatch, closing);
    assert ([a] + [b])[1..] == [b] && [b][1..] == [];
    assert AllProper(s', [b], nBatch, closing) <==> Proper(s', b);
    assert Run(s', [b], nBatch, closing) == Step(s', b, nBatch, closing);
  }
}
