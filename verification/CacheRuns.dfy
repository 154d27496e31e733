/** The prompt cache over any sequence of calls. */
module CacheRuns {
  import opened CacheCoherence
  import opened PromptCache

  /** A prompt is decoded; beam search leaves sequence 0 with other cells; or the search finds
      the cache broken and clears it, which leaves the mixes of the last call standing. */
  datatype Call = Prompt(prompt: seq<int>, mixes: seq<MixPoint>) | Beams(kv: seq<Cell>) | Cleared

  const FRESH := Cache([], [], [])

  function Step(s: Cache, call: Call, nBatch: nat, closing: int): Cache
    requires nBatch > 0
  {
    match call
    case Prompt(prompt, mixes) => Decode(s, prompt, mixes, nBatch, closing)
    case Beams(kv) => s.(kv := kv)
    case Cleared => Cache([], [], s.past)
  }

  function Run(s: Cache, calls: seq<Call>, nBatch: nat, closing: int): Cache
    requires nBatch > 0
    decreases |calls|
  {
    if calls == [] then s else Run(Step(s, calls[0], nBatch, closing), calls[1..], nBatch, closing)
  }

  /** A prompt begins with a token of its own, which the code sees to itself; and a search leaves
      sequence 0 as it is at the positions of the prompt. */
  ghost predicate Proper(s: Cache, call: Call) {
    match call
    case Prompt(prompt, mixes) => prompt != []
    case Beams(kv) => Rm(kv, Size(s.active, s.past)) == Rm(s.kv, Size(s.active, s.past))
    case Cleared => true
  }

  ghost predicate AllProper(s: Cache, calls: seq<Call>, nBatch: nat, closing: int)
    requires nBatch > 0
    decreases |calls|
  {
    calls != [] ==> Proper(s, calls[0]) && AllProper(Step(s, calls[0], nBatch, closing), calls[1..], nBatch, closing)
  }

  /** What the code leaves to its callers. */
  predicate Fitting(s: Cache, call: Call, nBatch: nat) {
    call.Prompt? ==> FitsCall(s, call.prompt, call.mixes, nBatch)
  }

  predicate AllFit(s: Cache, calls: seq<Call>, nBatch: nat, closing: int)
    requires nBatch > 0
    decreases |calls|
  {
    calls != [] ==>
      Fitting(s, calls[0], nBatch) && AllFit(Step(s, calls[0], nBatch, closing), calls[1..], nBatch, closing)
  }

  /** After every prompt sequence 0 holds that prompt, its mixes and the closing token. */
  ghost predicate AllRight(s: Cache, calls: seq<Call>, nBatch: nat, closing: int)
    requires nBatch > 0
    decreases |calls|
  {
    calls != [] ==>
      && (calls[0].Prompt? ==>
            RightCells(Step(s, calls[0], nBatch, closing), calls[0].prompt, calls[0].mixes, closing))
      && AllRight(Step(s, calls[0], nBatch, closing), calls[1..], nBatch, closing)
  }

  /** The cache is coherent, and unless the context is empty the cells of all mixes of the last
      call are there. */
  ghost predicate Known(s: Cache, e: seq<MixPoint>, ages: seq<nat>) {
    Coherent(s, e, ages) && (s.active == [] || |e| == |s.past|)
  }

  /** For a prompt that is not empty, a known cache has the cells of all mixes that are reused. */
  lemma FitsKnown(s: Cache, e: seq<MixPoint>, ages: seq<nat>, prompt: seq<int>, mixes: seq<MixPoint>, nBatch: nat)
    requires Known(s, e, ages) && prompt != []
    ensures FitsCall(s, prompt, mixes, nBatch) <==> Fits(s, |e|, prompt, mixes, nBatch)
  {
    hide Coherent, CachedMixes, Shared;
  }

  lemma BeamsCoherent(s: Cache, e: seq<MixPoint>, ages: seq<nat>, kv: seq<Cell>)
    requires Coherent(s, e, ages) && Rm(kv, Size(s.active, s.past)) == Rm(s.kv, Size(s.active, s.past))
    ensures Coherent(s.(kv := kv), e, ages)
  {
    hide Rm, Layout;
    RmTwice(kv, |s.active| + |e|, Size(s.active, s.past));
    RmTwice(s.kv, |s.active| + |e|, Size(s.active, s.past));
  }

  /** What is known of the cache after a call that fits; after a prompt, its exact cells. */
  lemma StepKnown(s: Cache, e: seq<MixPoint>, ages: seq<nat>, call: Call, nBatch: nat, closing: int)
    returns (e': seq<MixPoint>, ages': seq<nat>)
    requires nBatch > 0 && Known(s, e, ages) && Proper(s, call) && Fitting(s, call, nBatch)
    ensures Known(Step(s, call, nBatch, closing), e', ages')
    ensures call.Prompt? ==> LastPrompt(Step(s, call, nBatch, closing), e', call, closing)
  {
    match call {
      case Prompt(prompt, mixes) =>
        FitsKnown(s, e, ages, prompt, mixes, nBatch);
        DecodeCoherent(s, e, ages, prompt, mixes, nBatch, closing);
        e', ages' := Kepts(s, e, prompt, mixes), Ages(s, ages, prompt, mixes);
      case Beams(kv) =>
        BeamsCoherent(s, e, ages, kv);
        e', ages' := e, ages;
      case Cleared =>
        e', ages' := [], [];
    }
  }

  /** Sequence 0 holds exactly the prompt, cells computed for e, and the closing token. */
  ghost predicate LastPrompt(s: Cache, e: seq<MixPoint>, call: Call, closing: int)
    requires call.Prompt?
  {
    && s.active == call.prompt && s.past == call.mixes && |e| == |call.mixes|
    && s.kv == Layout(call.prompt, e) + Closing(call.prompt, call.mixes, closing)
  }

  /** However calls follow each other, as long as each fits: the cache stays coherent, and after
      every prompt sequence 0 holds exactly that prompt, a cell for each mix that has drifted
      by less than EPS for each reuse, and the closing token. */
  lemma {:induction false} RunCoherent(s: Cache, e: seq<MixPoint>, ages: seq<nat>, calls: seq<Call>, nBatch: nat,
                                       closing: int)
    returns (e': seq<MixPoint>, ages': seq<nat>)
    requires nBatch > 0 && Known(s, e, ages)
    requires AllProper(s, calls, nBatch, closing) && AllFit(s, calls, nBatch, closing)
    ensures Known(Run(s, calls, nBatch, closing), e', ages')
    ensures calls != [] && calls[|calls| - 1].Prompt? ==>
              LastPrompt(Run(s, calls, nBatch, closing), e', calls[|calls| - 1], closing)
    decreases |calls|
  {
    hide Known, Step, Proper, Fitting;
    if calls == [] {
      e', ages' := e, ages;
    } else {
      e', ages' := StepKnown(s, e, ages, calls[0], nBatch, closing);
      if |calls| > 1 {
        e', ages' := RunCoherent(Step(s, calls[0], nBatch, closing), e', ages', calls[1..], nBatch, closing);
        assert calls[1..][|calls| - 2] == calls[|calls| - 1];
      }
    }
  }

  lemma StepRightIff(s: Cache, e: seq<MixPoint>, ages: seq<nat>, call: Call, nBatch: nat, closing: int)
    requires nBatch > 0 && Known(s, e, ages) && Proper(s, call) && call.Prompt?
    ensures RightCells(Step(s, call, nBatch, closing), call.prompt, call.mixes, closing) <==> Fitting(s, call, nBatch)
  {
    hide Coherent, RightCells, Decode, FitsCall, Fits;
    FitsKnown(s, e, ages, call.prompt, call.mixes, nBatch);
    RightCellsIff(s, e, ages, call.prompt, call.mixes, nBatch, closing);
  }

  /** Over a whole run every prompt leaves the right cells if and only if every prompt fits. */
  lemma {:induction false} RunRightIff(s: Cache, e: seq<MixPoint>, ages: seq<nat>, calls: seq<Call>, nBatch: nat,
                                       closing: int)
    requires nBatch > 0 && Known(s, e, ages) && AllProper(s, calls, nBatch, closing)
    ensures AllRight(s, calls, nBatch, closing) <==> AllFit(s, calls, nBatch, closing)
    decreases |calls|
  {
    hide Known, Step, Proper, RightCells, FitsCall;
    if calls == [] {
    } else {
      if calls[0].Prompt? {
        StepRightIff(s, e, ages, calls[0], nBatch, closing);
      }
      if Fitting(s, calls[0], nBatch) {
        var e', ages' := StepKnown(s, e, ages, calls[0], nBatch, closing);
        RunRightIff(Step(s, calls[0], nBatch, closing), e', ages', calls[1..], nBatch, closing);
      }
    }
  }

  lemma FreshKnown()
    ensures Known(FRESH, [], [])
  {
  }

  /** From an empty cache, whatever calls follow each other. */
  lemma FreshRunRightIff(calls: seq<Call>, nBatch: nat, closing: int)
    requires nBatch > 0 && AllProper(FRESH, calls, nBatch, closing)
    ensures AllRight(FRESH, calls, nBatch, closing) <==> AllFit(FRESH, calls, nBatch, closing)
  {
    hide Known;
    FreshKnown();
    RunRightIff(FRESH, [], [], calls, nBatch, closing);
  }

  // ---------- Calls that do not fit ----------

  /** A shorter prompt with the mixes of the last call: the mixes are reused although the rest
      of the old prompt still stands before them. */
  lemma ShorterPromptIsWrong(m: MixPoint, closing: int)
    ensures var calls := [Prompt([1, 2], [m]), Prompt([1], [m])];
            && AllProper(FRESH, calls, 8, closing) && AllFit(FRESH, calls[..1], 8, closing)
            && !AllFit(FRESH, calls, 8, closing) && !AllRight(FRESH, calls, 8, closing)
  {
    hide DecodedCells, Rm, RightCells;
    var calls := [Prompt([1, 2], [m]), Prompt([1], [m])];
    var s := Step(FRESH, calls[0], 8, closing);
    assert calls[1..] == [calls[1]] && calls[..1] == [calls[0]] && calls[1..][1..] == [] && calls[..1][1..] == [];
    assert AllProper(s, calls[1..], 8, closing);
    assert Kept([], [1, 2], true) == 0;
    assert Shared([1, 2], [1]) == 1 by { assert [1, 2][1..] == [2] && [1][1..] == []; }
    assert CachedMixes([m], [m]) == 1 by { assert Near(m, m); }
    assert !Fitting(s, calls[1], 8);
    FreshRunRightIff(calls, 8, closing);
  }

  /** A first prompt of two batches: the second batch removes what the first one decoded. */
  lemma TwoBatchesAreWrong(closing: int)
    ensures var calls := [Prompt([1, 2], [])];
            AllProper(FRESH, calls, 1, closing) && !AllFit(FRESH, calls, 1, closing)
              && !AllRight(FRESH, calls, 1, closing)
  {
    hide DecodedCells, Rm, RightCells;
    var calls := [Prompt([1, 2], [])];
    assert calls[1..] == [];
    assert Kept([], [1, 2], false) == 0;
    assert !Fitting(FRESH, calls[0], 1);
    FreshRunRightIff(calls, 1, closing);
  }
}
