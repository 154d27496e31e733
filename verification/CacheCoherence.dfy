/** When sequence 0 holds what the language model believes it holds. */
module CacheCoherence {
  import opened PromptCache

  /** Sequence 0 holds the active context and cells for the mixes e, and nothing else at their
      positions. */
  ghost predicate Holds(s: Cache, e: seq<MixPoint>) {
    Rm(s.kv, |s.active| + |e|) == Layout(s.active, e)
  }

  /** From position p on there are only tokens. */
  ghost predicate OnlyTokens(kv: seq<Cell>, p: nat) {
    forall c :: c in kv && c.pos >= p ==> c.entry.Token?
  }

  /** The cells of mix i were computed for coordinates that ages[i] reuses have moved away from. */
  ghost predicate DriftAt(e: MixPoint, age: nat, m: MixPoint) {
    if age == 0 then e == m else Abs(e.x - m.x) < age as real * EPS && Abs(e.y - m.y) < age as real * EPS
  }

  ghost predicate Drift(e: seq<MixPoint>, ages: seq<nat>, past: seq<MixPoint>) {
    |e| == |ages| <= |past| && forall i :: 0 <= i < |e| ==> DriftAt(e[i], ages[i], past[i])
  }

  ghost predicate Coherent(s: Cache, e: seq<MixPoint>, ages: seq<nat>) {
    Holds(s, e) && |e| == |ages| && Drift(e, ages, s.past)
  }

  /** What the code silently relies on: the rest of the prompt fits in one batch, and mixes are
      reused only if the prompt is the whole active context. */
  predicate FitsCall(s: Cache, prompt: seq<int>, mixes: seq<MixPoint>, nBatch: nat) {
    && |prompt| - Kept(s.active, prompt, mixes != []) <= nBatch
    && (Reused(s, prompt, mixes) > 0 ==> |prompt| == |s.active|)
  }

  /** The call fits and the cells of the reused mixes are still there. */
  predicate Fits(s: Cache, held: nat, prompt: seq<int>, mixes: seq<MixPoint>, nBatch: nat) {
    FitsCall(s, prompt, mixes, nBatch) && Reused(s, prompt, mixes) <= held
  }

  // ---------- Removing from cells that lie at their positions ----------

  ghost predicate Placed(cells: seq<Cell>) {
    forall i :: 0 <= i < |cells| ==> cells[i].pos == i
  }

  lemma {:induction false} RmPlaced(cells: seq<Cell>, rest: seq<Cell>, p: nat)
    requires Placed(cells) && p <= |cells| && forall c :: c in rest ==> c.pos >= |cells|
    ensures Rm(cells + rest, p) == cells[..p]
  {
    assert cells + rest == cells[..p] + (cells[p..] + rest);
    RmAppend(cells[..p], cells[p..] + rest, p);
    forall c | c in cells[..p] ensures c.pos < p {
      var i :| 0 <= i < p && cells[..p][i] == c;
    }
    forall c | c in cells[p..] + rest ensures c.pos >= p {
      if c in cells[p..] { var i :| 0 <= i < |cells[p..]| && cells[p..][i] == c; assert cells[p + i] == c; }
    }
    RmNone(cells[..p], p);
    RmAll(cells[p..] + rest, p);
  }

  lemma RmHeld(s: Cache, e: seq<MixPoint>, p: nat)
    requires Holds(s, e) && p <= |s.active| + |e|
    ensures Rm(s.kv, p) == Layout(s.active, e)[..p]
  {
    hide Rm;
    var l := Layout(s.active, e);
    RmTwice(s.kv, p, |l|);
    RmPlaced(l, [], p);
    assert l + [] == l;
  }

  lemma RmPrefix(s: Cache, e: seq<MixPoint>, p: nat)
    requires Holds(s, e) && p <= |s.active|
    ensures Rm(s.kv, p) == TokenCells(s.active[..p], 0)
  {
    RmHeld(s, e, p);
    assert Layout(s.active, e)[..p] == TokenCells(s.active[..p], 0);
  }

  // ---------- The prompt ----------

  lemma OneBatch(suffix: seq<int>, nBatch: nat)
    requires nBatch > 0 && 0 < |suffix| <= nBatch
    ensures Batches(suffix, nBatch) == 1
  {
    var n := |suffix| + nBatch - 1;
    assert nBatch <= n < 2 * nBatch;
  }

  /** A suffix of one batch completes the prompt. */
  lemma PromptDecoded(s: Cache, e: seq<MixPoint>, prompt: seq<int>, mixes: seq<MixPoint>, nBatch: nat)
    requires nBatch > 0 && Holds(s, e) && Kept(s.active, prompt, mixes != []) < |prompt|
    requires |prompt| - Kept(s.active, prompt, mixes != []) <= nBatch
    ensures AfterPrompt(s, prompt, mixes, nBatch) == TokenCells(prompt, 0)
  {
    var start := Kept(s.active, prompt, mixes != []);
    var suffix := prompt[start..];
    OneBatch(suffix, nBatch);
    RmPrefix(s, e, start);
    assert suffix[0..|suffix|] == suffix;
    assert DecodeBatches(s.kv, suffix, start, nBatch, 0) == s.kv;
    assert DecodeBatch(s.kv, suffix, start, nBatch, 0) == TokenCells(s.active[..start], 0) + TokenCells(suffix, start);
    assert TokenCells(prompt, 0) == TokenCells(prompt[..start], 0) + TokenCells(suffix, start);
  }

  function Closing(prompt: seq<int>, mixes: seq<MixPoint>, closing: int): seq<Cell> {
    if mixes == [] then [] else [Cell(|prompt| + |mixes|, Token(closing))]
  }

  /** The mixes whose cells end up behind the prompt: the reused ones as they were computed. */
  function Kepts(s: Cache, e: seq<MixPoint>, prompt: seq<int>, mixes: seq<MixPoint>): (r: seq<MixPoint>)
    requires Reused(s, prompt, mixes) <= |e|
    ensures |r| == |mixes|
  {
    var n := Reused(s, prompt, mixes);
    e[..n] + mixes[n..]
  }

  function Ages(s: Cache, ages: seq<nat>, prompt: seq<int>, mixes: seq<MixPoint>): (r: seq<nat>)
    requires Reused(s, prompt, mixes) <= |ages|
    ensures |r| == |mixes|
  {
    var n := Reused(s, prompt, mixes);
    seq(|mixes|, i requires 0 <= i < |mixes| => if i < n then ages[i] + 1 else 0)
  }

  lemma LayoutInTwo(prompt: seq<int>, a: seq<MixPoint>, b: seq<MixPoint>)
    ensures Layout(prompt, a + b) == Layout(prompt, a) + MixCells(b, |prompt| + |a|)
  {
    assert MixCells(a + b, |prompt|) == MixCells(a, |prompt|) + MixCells(b, |prompt| + |a|);
  }

  /** Behind the prompt come the mixes and the closing token. */
  lemma Finished(prompt: seq<int>, e: seq<MixPoint>, mixes: seq<MixPoint>, n: nat, closing: int)
    requires n <= |mixes| && n <= |e|
    ensures Layout(prompt, e[..n]) + Tail(prompt, mixes, n, closing) ==
            Layout(prompt, e[..n] + mixes[n..]) + Closing(prompt, mixes, closing)
  {
    hide Layout, MixCells;
    LayoutInTwo(prompt, e[..n], mixes[n..]);
    assert mixes == [] ==> e[..n] + mixes[n..] == e[..n];
  }

  lemma HoldsLayout(prompt: seq<int>, e: seq<MixPoint>, mixes: seq<MixPoint>, closing: int)
    requires |e| == |mixes|
    ensures Holds(Cache(Layout(prompt, e) + Closing(prompt, mixes, closing), prompt, mixes), e)
  {
    var l := Layout(prompt, e);
    RmPlaced(l, Closing(prompt, mixes, closing), |l|);
    assert l[..|l|] == l;
  }

  /** After a call that fits, sequence 0 holds exactly the prompt, one cell for each mix, and
      the closing token if there are mixes; the cells are those of coherent drift. */
  lemma DecodeCoherent(s: Cache, e: seq<MixPoint>, ages: seq<nat>, prompt: seq<int>, mixes: seq<MixPoint>,
                       nBatch: nat, closing: int)
    requires nBatch > 0 && Coherent(s, e, ages) && Fits(s, |e|, prompt, mixes, nBatch)
    ensures Reused(s, prompt, mixes) <= |e| == |ages|
    ensures var s', e' := Decode(s, prompt, mixes, nBatch, closing), Kepts(s, e, prompt, mixes);
            && s'.kv == Layout(prompt, e') + Closing(prompt, mixes, closing)
            && s'.active == prompt && s'.past == mixes
            && Coherent(s', e', Ages(s, ages, prompt, mixes))
  {
    hide AfterPrompt, Rm, Layout, Tail, Closing, Holds, Drift, Reused, FitsCall, Kept;
    var n := Reused(s, prompt, mixes);
    CellsBeforeMixes(s, e, prompt, mixes, nBatch);
    Finished(prompt, e, mixes, n, closing);
    DecodeCells(s, prompt, mixes, nBatch, closing);
    DriftKept(s, e, ages, prompt, mixes);
    HoldsLayout(prompt, Kepts(s, e, prompt, mixes), mixes, closing);
  }

  lemma NothingReused(s: Cache, e: seq<MixPoint>, prompt: seq<int>, mixes: seq<MixPoint>, nBatch: nat)
    requires nBatch > 0 && Holds(s, e) && FitsCall(s, prompt, mixes, nBatch)
    ensures Rm(AfterPrompt(s, prompt, mixes, nBatch), |prompt|) == Layout(prompt, [])
  {
    hide AfterPrompt, Rm, TokenCells, Kept, Holds, Reused;
    assert Layout(prompt, []) == TokenCells(prompt, 0);
    if Kept(s.active, prompt, mixes != []) < |prompt| {
      PromptDecoded(s, e, prompt, mixes, nBatch);
      RmWhole(prompt);
    } else {
      NoneDecoded(s, prompt, mixes, nBatch);
      RmPrefix(s, e, |prompt|);
      assert prompt == s.active[..|prompt|];
    }
  }

  lemma SomeReused(s: Cache, e: seq<MixPoint>, prompt: seq<int>, mixes: seq<MixPoint>, nBatch: nat, n: nat)
    requires nBatch > 0 && Holds(s, e) && Kept(s.active, prompt, mixes != []) == |prompt| == |s.active| && n <= |e|
    ensures Rm(AfterPrompt(s, prompt, mixes, nBatch), |prompt| + n) == Layout(prompt, e[..n])
  {
    hide AfterPrompt, Rm, Layout, Kept, Holds;
    NoneDecoded(s, prompt, mixes, nBatch);
    RmHeld(s, e, |prompt| + n);
    assert prompt == s.active[..|prompt|] == s.active;
    LayoutInTwo(prompt, e[..n], e[n..]);
    assert e[..n] + e[n..] == e;
  }

  lemma ReuseFits(s: Cache, held: nat, prompt: seq<int>, mixes: seq<MixPoint>, nBatch: nat)
    requires Fits(s, held, prompt, mixes, nBatch)
    ensures FitsCall(s, prompt, mixes, nBatch) && Reused(s, prompt, mixes) <= held
    ensures Reused(s, prompt, mixes) > 0 ==> Kept(s.active, prompt, mixes != []) == |prompt| == |s.active|
  {
    hide Kept, CachedMixes;
  }

  lemma CellsBeforeMixes(s: Cache, e: seq<MixPoint>, prompt: seq<int>, mixes: seq<MixPoint>, nBatch: nat)
    requires nBatch > 0 && Holds(s, e) && Fits(s, |e|, prompt, mixes, nBatch)
    ensures var n := Reused(s, prompt, mixes);
            n <= |e| && Rm(AfterPrompt(s, prompt, mixes, nBatch), |prompt| + n) == Layout(prompt, e[..n])
  {
    hide AfterPrompt, Rm, Layout, Kept, Holds, Reused, Fits, FitsCall;
    var n := Reused(s, prompt, mixes);
    ReuseFits(s, |e|, prompt, mixes, nBatch);
    if n == 0 {
      NothingReused(s, e, prompt, mixes, nBatch);
      assert e[..0] == [];
    } else {
      SomeReused(s, e, prompt, mixes, nBatch, n);
    }
  }

  lemma RmWhole(prompt: seq<int>)
    ensures Rm(TokenCells(prompt, 0), |prompt|) == TokenCells(prompt, 0)
  {
    RmPlaced(TokenCells(prompt, 0), [], |prompt|);
    assert TokenCells(prompt, 0) + [] == TokenCells(prompt, 0);
  }

  lemma NoneDecoded(s: Cache, prompt: seq<int>, mixes: seq<MixPoint>, nBatch: nat)
    requires nBatch > 0 && Kept(s.active, prompt, mixes != []) == |prompt|
    ensures AfterPrompt(s, prompt, mixes, nBatch) == s.kv
  {
    assert Batches(prompt[|prompt|..], nBatch) == 0;
  }

  /** A reused cell drifts by less than one EPS more. */
  lemma DriftKept(s: Cache, e: seq<MixPoint>, ages: seq<nat>, prompt: seq<int>, mixes: seq<MixPoint>)
    requires Drift(e, ages, s.past) && Reused(s, prompt, mixes) <= |e|
    ensures Drift(Kepts(s, e, prompt, mixes), Ages(s, ages, prompt, mixes), mixes)
  {
    var n := Reused(s, prompt, mixes);
    forall i | 0 <= i < |mixes|
      ensures DriftAt(Kepts(s, e, prompt, mixes)[i], Ages(s, ages, prompt, mixes)[i], mixes[i]) {
      if i < n {
        assert Near(s.past[i], mixes[i]) && DriftAt(e[i], ages[i], s.past[i]);
        assert (ages[i] + 1) as real * EPS == ages[i] as real * EPS + EPS;
      }
    }
  }

  // ---------- Where a call does not fit ----------

  /** Sequence 0 holds the prompt, a cell for each mix, and the closing token. */
  ghost predicate RightCells(s: Cache, prompt: seq<int>, mixes: seq<MixPoint>, closing: int) {
    exists e: seq<MixPoint> :: |e| == |mixes| && s.kv == Layout(prompt, e) + Closing(prompt, mixes, closing)
  }

  ghost predicate NoneAt(kv: seq<Cell>, p: int) { forall c :: c in kv ==> c.pos != p }

  lemma FarBatch(kv: seq<Cell>, ts: seq<int>, start: nat, off: nat)
    requires off > 0
    ensures NoneAt(Rm(kv, start) + TokenCells(ts, start + off), start)
  {
    var cs := TokenCells(ts, start + off);
    forall c | c in cs ensures c.pos > start { var i :| 0 <= i < |cs| && cs[i] == c; }
  }

  lemma LastBatch(kv: seq<Cell>, suffix: seq<int>, start: nat, nBatch: nat, b: nat)
    requires nBatch > 0 && 0 < b <= Batches(suffix, nBatch)
    ensures nBatch * (b - 1) < |suffix|
    ensures DecodeBatches(kv, suffix, start, nBatch, b) ==
            Rm(DecodeBatches(kv, suffix, start, nBatch, b - 1), start) +
            TokenCells(suffix[nBatch * (b - 1)..Min(nBatch * (b - 1) + nBatch, |suffix|)], start + nBatch * (b - 1))
  {
    BatchInRange(suffix, nBatch, b - 1);
  }

  lemma Multiple(n: nat, b: nat)
    requires n > 0 && b > 0
    ensures n * b >= n
  {
  }

  /** Each batch removes what the batches before it decoded. */
  lemma FirstTokenLost(kv: seq<Cell>, suffix: seq<int>, start: nat, nBatch: nat)
    requires nBatch > 0 && |suffix| > nBatch
    ensures NoneAt(DecodeBatches(kv, suffix, start, nBatch, Batches(suffix, nBatch)), start)
  {
    hide DecodeBatches, Rm, NoneAt, Batches;
    var b := Batches(suffix, nBatch);
    TwoBatches(suffix, nBatch);
    LastBatch(kv, suffix, start, nBatch, b);
    Multiple(nBatch, b - 1);
    var off := nBatch * (b - 1);
    FarBatch(DecodeBatches(kv, suffix, start, nBatch, b - 1), suffix[off..Min(off + nBatch, |suffix|)], start, off);
  }

  lemma TwoBatches(suffix: seq<int>, nBatch: nat)
    requires nBatch > 0 && |suffix| > nBatch
    ensures Batches(suffix, nBatch) >= 2
  {
    var n := |suffix| + nBatch - 1;
    assert n >= 2 * nBatch;
    assert n / nBatch >= 2;
  }

  /** What comes after the prompt does not bring a lost position back. */
  lemma StaysLost(s: Cache, prompt: seq<int>, mixes: seq<MixPoint>, nBatch: nat, closing: int, p: nat)
    requires nBatch > 0 && p < |prompt| && NoneAt(AfterPrompt(s, prompt, mixes, nBatch), p)
    ensures NoneAt(Decode(s, prompt, mixes, nBatch, closing).kv, p)
  {
    hide AfterPrompt, Tail, Decode, Reused;
    DecodeCells(s, prompt, mixes, nBatch, closing);
    TailBelow(prompt, mixes, Reused(s, prompt, mixes), closing);
  }

  lemma LostIsWrong(s: Cache, prompt: seq<int>, mixes: seq<MixPoint>, closing: int, p: nat)
    requires p < |prompt| && NoneAt(s.kv, p)
    ensures !RightCells(s, prompt, mixes, closing)
  {
    forall e: seq<MixPoint> ensures s.kv != Layout(prompt, e) + Closing(prompt, mixes, closing) {
      var l := Layout(prompt, e) + Closing(prompt, mixes, closing);
      assert l[p].pos == p && l[p] in l;
    }
  }

  lemma LargeSuffixIsWrong(s: Cache, prompt: seq<int>, mixes: seq<MixPoint>, nBatch: nat, closing: int)
    requires nBatch > 0 && |prompt| - Kept(s.active, prompt, mixes != []) > nBatch
    ensures !RightCells(Decode(s, prompt, mixes, nBatch, closing), prompt, mixes, closing)
  {
    var start := Kept(s.active, prompt, mixes != []);
    FirstTokenLost(s.kv, prompt[start..], start, nBatch);
    StaysLost(s, prompt, mixes, nBatch, closing, start);
    LostIsWrong(Decode(s, prompt, mixes, nBatch, closing), prompt, mixes, closing, start);
  }

  /** A token where a mix should be, or no mix there. */
  lemma TokenForMixIsWrong(s: Cache, prompt: seq<int>, mixes: seq<MixPoint>, closing: int, p: nat)
    requires |prompt| <= p < |prompt| + |mixes|
    requires || (exists c :: c in s.kv && c.pos == p && c.entry.Token?)
             || (forall c :: c in s.kv && c.pos == p ==> c.entry.Token?)
    ensures !RightCells(s, prompt, mixes, closing)
  {
    forall e: seq<MixPoint> | |e| == |mixes| ensures s.kv != Layout(prompt, e) + Closing(prompt, mixes, closing) {
      var l := Layout(prompt, e) + Closing(prompt, mixes, closing);
      assert l[p] == Cell(p, Mixed(e[p - |prompt|])) && l[p] in l;
      forall c | c in l && c.pos == p ensures c == l[p] {
        var i :| 0 <= i < |l| && l[i] == c;
      }
    }
  }

  /** Mixes reused behind a shorter prompt, or without their cells. */
  lemma StaleReuseIsWrong(s: Cache, e: seq<MixPoint>, prompt: seq<int>, mixes: seq<MixPoint>, nBatch: nat, closing: int)
    requires nBatch > 0 && Holds(s, e) && Reused(s, prompt, mixes) > 0
    requires |prompt| != |s.active| || (Reused(s, prompt, mixes) > |e| && OnlyTokens(s.kv, |s.active| + |e|))
    ensures !RightCells(Decode(s, prompt, mixes, nBatch, closing), prompt, mixes, closing)
  {
    hide AfterPrompt, Decode, Rm, CachedMixes, RightCells, Tail;
    var n, l := Reused(s, prompt, mixes), Layout(s.active, e);
    DecodeCells(s, prompt, mixes, nBatch, closing);
    NoneDecoded(s, prompt, mixes, nBatch);
    TailBelow(prompt, mixes, n, closing);
    var d := Decode(s, prompt, mixes, nBatch, closing);
    assert d.kv == Rm(s.kv, |prompt| + n) + Tail(prompt, mixes, n, closing);
    if |prompt| < |s.active| {
      assert l[|prompt|].pos == |prompt| && l[|prompt|].entry.Token? && l[|prompt|] in Rm(s.kv, |l|);
      assert l[|prompt|] in d.kv;
      TokenForMixIsWrong(d, prompt, mixes, closing, |prompt|);
    } else {
      TokenForMixIsWrong(d, prompt, mixes, closing, |l|);
    }
  }

  /** From a coherent cache a call leaves the right cells if and only if it fits.  Should it reuse more
      mixes than there are cells known for, what lies behind those must be tokens. */
  lemma RightCellsIff(s: Cache, e: seq<MixPoint>, ages: seq<nat>, prompt: seq<int>, mixes: seq<MixPoint>, nBatch: nat,
                      closing: int)
    requires nBatch > 0 && Coherent(s, e, ages)
    requires Reused(s, prompt, mixes) <= |e| || OnlyTokens(s.kv, |s.active| + |e|)
    ensures RightCells(Decode(s, prompt, mixes, nBatch, closing), prompt, mixes, closing) <==>
            Fits(s, |e|, prompt, mixes, nBatch)
  {
    if Fits(s, |e|, prompt, mixes, nBatch) {
      DecodeCoherent(s, e, ages, prompt, mixes, nBatch, closing);
      assert |Kepts(s, e, prompt, mixes)| == |mixes|;
    } else if |prompt| - Kept(s.active, prompt, mixes != []) > nBatch {
      LargeSuffixIsWrong(s, prompt, mixes, nBatch, closing);
    } else {
      StaleReuseIsWrong(s, e, prompt, mixes, nBatch, closing);
    }
  }
}
