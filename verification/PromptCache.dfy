/** The prompt cache of the language model: what sequence 0 of the key-value cache holds, and
    what decoding a prompt with mixed tokens makes of it. */
module PromptCache {
  /** Two coordinates closer than this count as the same touch. */
  const EPS: real := 0.0001

  datatype MixPoint = MixPoint(x: real, y: real)

  datatype Entry = Token(t: int) | Mixed(m: MixPoint)

  datatype Cell = Cell(pos: int, entry: Entry)

  /** The cells of sequence 0, the context they are thought to hold, and the mixes of the last call. */
  datatype Cache = Cache(kv: seq<Cell>, active: seq<int>, past: seq<MixPoint>)

  function Abs(x: real): real { if x < 0.0 then -x else x }

  function Min(a: nat, b: nat): nat { if a < b then a else b }

  // ---------- What the cells should be ----------

  function TokenCells(ts: seq<int>, at: int): (r: seq<Cell>)
    ensures |r| == |ts|
  {
    seq(|ts|, i requires 0 <= i < |ts| => Cell(at + i, Token(ts[i])))
  }

  function MixCells(ms: seq<MixPoint>, at: int): (r: seq<Cell>)
    ensures |r| == |ms|
  {
    seq(|ms|, i requires 0 <= i < |ms| => Cell(at + i, Mixed(ms[i])))
  }

  /** The prompt, then one cell for each mix. */
  function Layout(prompt: seq<int>, ms: seq<MixPoint>): (r: seq<Cell>)
    ensures |r| == |prompt| + |ms|
  {
    TokenCells(prompt, 0) + MixCells(ms, |prompt|)
  }

  /** Position i holds token i of the prompt, and the positions behind it the mixes. */
  lemma LayoutAt(prompt: seq<int>, ms: seq<MixPoint>, i: nat)
    requires i < |prompt| + |ms|
    ensures Layout(prompt, ms)[i].pos == i
    ensures Layout(prompt, ms)[i].entry == if i < |prompt| then Token(prompt[i]) else Mixed(ms[i - |prompt|])
  {
  }

  // ---------- Removing and decoding ----------

  /** Everything from position p on removed. */
  function Rm(kv: seq<Cell>, p: int): (r: seq<Cell>)
    ensures forall c :: c in r <==> c in kv && c.pos < p
  {
    if kv == [] then []
    else
      var rest := Rm(kv[1..], p);
      assert forall c :: c in kv <==> c == kv[0] || c in kv[1..];
      if kv[0].pos < p then [kv[0]] + rest else rest
  }

  lemma {:induction false} RmAll(kv: seq<Cell>, p: int)
    requires forall c :: c in kv ==> c.pos >= p
    ensures Rm(kv, p) == []
  {
    if kv == [] {
    } else {
      RmAll(kv[1..], p);
    }
  }

  lemma {:induction false} RmNone(kv: seq<Cell>, p: int)
    requires forall c :: c in kv ==> c.pos < p
    ensures Rm(kv, p) == kv
  {
    if kv == [] {
    } else {
      RmNone(kv[1..], p);
    }
  }

  lemma {:induction false} RmAppend(a: seq<Cell>, b: seq<Cell>, p: int)
    ensures Rm(a + b, p) == Rm(a, p) + Rm(b, p)
  {
    if a == [] {
      assert a + b == b;
    } else {
      var rest := Rm(a[1..], p) + Rm(b, p);
      assert (a + b)[0] == a[0] && (a + b)[1..] == a[1..] + b;
      RmAppend(a[1..], b, p);
      assert Rm(a + b, p) == if a[0].pos < p then [a[0]] + rest else rest;
    }
  }

  lemma {:induction false} RmTwice(kv: seq<Cell>, p: int, q: int)
    requires p <= q
    ensures Rm(Rm(kv, q), p) == Rm(kv, p)
  {
    if kv == [] {
    } else {
      RmTwice(kv[1..], p, q);
      RmAppend([kv[0]], Rm(kv[1..], q), p);
      assert [kv[0]][1..] == [];
    }
  }

  /** Batch b of the suffix: everything from `start` on is removed each time. */
  function DecodeBatch(kv: seq<Cell>, suffix: seq<int>, start: nat, nBatch: nat, b: nat): seq<Cell>
    requires nBatch > 0 && nBatch * b < |suffix|
  {
    Rm(kv, start) + TokenCells(suffix[nBatch * b..Min(nBatch * b + nBatch, |suffix|)], start + nBatch * b)
  }

  function Batches(suffix: seq<int>, nBatch: nat): nat
    requires nBatch > 0
  {
    (|suffix| + nBatch - 1) / nBatch
  }

  lemma BatchInRange(suffix: seq<int>, nBatch: nat, b: nat)
    requires nBatch > 0 && b < Batches(suffix, nBatch)
    ensures nBatch * b < |suffix|
  {
    var n := |suffix| + nBatch - 1;
    assert n / nBatch >= b + 1;
    assert (n / nBatch) * nBatch <= n;
    assert (b + 1) * nBatch <= (n / nBatch) * nBatch;
    assert nBatch * b + nBatch == (b + 1) * nBatch;
  }

  function DecodeBatches(kv: seq<Cell>, suffix: seq<int>, start: nat, nBatch: nat, b: nat): seq<Cell>
    requires nBatch > 0 && b <= Batches(suffix, nBatch)
  {
    if b == 0 then kv
    else
      BatchInRange(suffix, nBatch, b - 1);
      DecodeBatch(DecodeBatches(kv, suffix, start, nBatch, b - 1), suffix, start, nBatch, b - 1)
  }

  /** The index of the last token of the last batch: where the model's answer is read. */
  function Head(suffix: seq<int>, nBatch: nat): int
    requires nBatch > 0
  {
    if suffix == [] then -1 else |suffix| - 1 - nBatch * (Batches(suffix, nBatch) - 1)
  }

  lemma NoBatchOfNone(suffix: seq<int>, nBatch: nat)
    requires nBatch > 0
    ensures Batches(suffix, nBatch) == 0 <==> suffix == []
  {
    var n := |suffix| + nBatch - 1;
    assert n < nBatch ==> n / nBatch == 0;
    assert n >= nBatch ==> n / nBatch >= 1;
  }

  /** The last batch ends where the suffix ends. */
  lemma LastBatchIsRest(suffix: seq<int>, nBatch: nat)
    requires nBatch > 0
    ensures suffix != [] ==>
              var b := Batches(suffix, nBatch) - 1;
              Min(nBatch, |suffix| - nBatch * b) - 1 == Head(suffix, nBatch)
  {
    if suffix != [] {
      HeadInBatch(suffix, nBatch);
    }
  }

  lemma HeadInBatch(suffix: seq<int>, nBatch: nat)
    requires nBatch > 0 && suffix != []
    ensures Head(suffix, nBatch) == (|suffix| - 1) % nBatch
  {
    var m := |suffix| - 1;
    OneMore(m, nBatch);
    assert m == nBatch * (m / nBatch) + m % nBatch;
    assert Batches(suffix, nBatch) == (m + nBatch) / nBatch;
  }

  lemma OneMore(m: nat, n: nat)
    requires n > 0
    ensures (m + n) / n == m / n + 1
  {
    var a, b := m / n + 1, (m + n) / n;
    assert n * a == n * (m / n) + n;
    assert n * a + m % n == n * b + (m + n) % n;
    if a < b {
      Farther(n, a, b);
    } else if b < a {
      Farther(n, b, a);
    }
  }

  lemma {:induction false} Farther(n: nat, a: int, b: int)
    requires a < b
    ensures n * a + n <= n * b
    decreases b - a
  {
    assert n * b == n * (b - 1) + n;
    if a < b - 1 {
      Farther(n, a, b - 1);
    }
  }

  /** How much of `next` is a prefix of `active`; at least one token is left to compute if the
      result may not be empty. */
  function Shared(active: seq<int>, next: seq<int>): (n: nat)
    ensures n <= |active| && n <= |next| && active[..n] == next[..n]
    ensures n < |active| && n < |next| ==> active[n] != next[n]
  {
    if active == [] || next == [] || active[0] != next[0] then 0 else 1 + Shared(active[1..], next[1..])
  }

  function Kept(active: seq<int>, next: seq<int>, allowEmpty: bool): (n: nat)
    ensures n <= |active| && n <= |next| && active[..n] == next[..n]
    ensures !allowEmpty && next != [] && next <= active ==> n == |next| - 1
    ensures (allowEmpty || next == [] || !(next <= active)) && n < |active| && n < |next| ==> active[n] != next[n]
  {
    var n := Shared(active, next);
    assert n == |next| <= |active| ==> active[..|next|] == next;
    if !allowEmpty && n == |next| && |next| <= |active| && n > 0 then
      assert active[..n][..n - 1] == active[..n - 1] && next[..n][..n - 1] == next[..n - 1];
      n - 1
    else n
  }

  predicate Near(a: MixPoint, b: MixPoint) { Abs(a.x - b.x) < EPS && Abs(a.y - b.y) < EPS }

  /** How many mixes are near the ones of the last call. */
  function CachedMixes(past: seq<MixPoint>, mixes: seq<MixPoint>): (n: nat)
    ensures n <= |past| && n <= |mixes|
    ensures forall i :: 0 <= i < n ==> Near(past[i], mixes[i])
    ensures n < |past| && n < |mixes| ==> !Near(past[n], mixes[n])
  {
    if past == [] || mixes == [] || !Near(past[0], mixes[0]) then 0 else 1 + CachedMixes(past[1..], mixes[1..])
  }

  /** The mixes whose cells are kept. */
  function Reused(s: Cache, prompt: seq<int>, mixes: seq<MixPoint>): (n: nat)
    ensures n <= |mixes| && n <= |s.past|
  {
    if Kept(s.active, prompt, mixes != []) < |prompt| then 0 else CachedMixes(s.past, mixes)
  }

  predicate Still(a: MixPoint, b: MixPoint) { -EPS < a.x - b.x < EPS && -EPS < a.y - b.y < EPS }

  /** If the context begins with the whole prompt, the mixes reused are those before the first one with
      a coordinate that has moved; otherwise none is. */
  lemma ReusedUpToMove(s: Cache, prompt: seq<int>, mixes: seq<MixPoint>)
    ensures var n := Reused(s, prompt, mixes);
            if prompt <= s.active then
              && (forall i :: 0 <= i < n ==> Still(s.past[i], mixes[i]))
              && (n == |s.past| || n == |mixes| || !Still(s.past[n], mixes[n]))
            else n == 0
  {
    forall a, b ensures Still(a, b) <==> Near(a, b) {}
    if mixes != [] { AllKeptIff(s.active, prompt); }
  }

  lemma AllKeptIff(active: seq<int>, prompt: seq<int>)
    ensures Kept(active, prompt, true) == |prompt| <==> prompt <= active
  {
    var kept := Kept(active, prompt, true);
    assert kept == |prompt| ==> prompt == prompt[..kept];
    assert kept < |prompt| && kept < |active| ==> active[kept] != prompt[kept];
  }

  /** The positions of a prompt with its mixes and the closing token. */
  function Size(prompt: seq<int>, mixes: seq<MixPoint>): nat {
    if mixes == [] then |prompt| else |prompt| + |mixes| + 1
  }

  /** Tokens at positions behind a prompt of that size. */
  ghost predicate Behind(cells: seq<Cell>, size: nat) {
    forall c :: c in cells ==> c.pos >= size && c.entry.Token?
  }

  /** The cells once the prompt has been decoded. */
  function AfterPrompt(s: Cache, prompt: seq<int>, mixes: seq<MixPoint>, nBatch: nat): seq<Cell>
    requires nBatch > 0
  {
    var start := Kept(s.active, prompt, mixes != []);
    DecodeBatches(s.kv, prompt[start..], start, nBatch, Batches(prompt[start..], nBatch))
  }

  /** The cells decoded behind the prompt and n reused mixes. */
  function Tail(prompt: seq<int>, mixes: seq<MixPoint>, n: nat, closing: int): seq<Cell>
    requires n <= |mixes|
  {
    if mixes == [] then []
    else MixCells(mixes[n..], |prompt| + n) + [Cell(|prompt| + |mixes|, Token(closing))]
  }

  /** The cells once the prompt, its mixes and the closing token have been decoded. */
  function DecodedCells(s: Cache, prompt: seq<int>, mixes: seq<MixPoint>, nBatch: nat, closing: int): seq<Cell>
    requires nBatch > 0
  {
    var n := Reused(s, prompt, mixes);
    Rm(AfterPrompt(s, prompt, mixes, nBatch), |prompt| + n) + Tail(prompt, mixes, n, closing)
  }

  /** The cache after a call. */
  function Decode(s: Cache, prompt: seq<int>, mixes: seq<MixPoint>, nBatch: nat, closing: int): Cache
    requires nBatch > 0
  {
    Cache(Rm(DecodedCells(s, prompt, mixes, nBatch, closing), Size(prompt, mixes)), prompt, mixes)
  }

  lemma TailBelow(prompt: seq<int>, mixes: seq<MixPoint>, n: nat, closing: int)
    requires n <= |mixes|
    ensures forall c :: c in Tail(prompt, mixes, n, closing) ==> |prompt| + n <= c.pos < Size(prompt, mixes)
  {
    var t := Tail(prompt, mixes, n, closing);
    forall c | c in t ensures |prompt| + n <= c.pos < Size(prompt, mixes) {
      var i :| 0 <= i < |t| && t[i] == c;
    }
  }

  lemma DecodedBelow(s: Cache, prompt: seq<int>, mixes: seq<MixPoint>, nBatch: nat, closing: int)
    requires nBatch > 0
    ensures forall c :: c in DecodedCells(s, prompt, mixes, nBatch, closing) ==> c.pos < Size(prompt, mixes)
  {
    hide AfterPrompt, Tail, Rm, Reused;
    TailBelow(prompt, mixes, Reused(s, prompt, mixes), closing);
  }

  /** The last removal finds nothing to remove. */
  lemma DecodeCells(s: Cache, prompt: seq<int>, mixes: seq<MixPoint>, nBatch: nat, closing: int)
    requires nBatch > 0
    ensures Decode(s, prompt, mixes, nBatch, closing).kv == DecodedCells(s, prompt, mixes, nBatch, closing)
  {
    hide DecodedCells, Rm;
    DecodedBelow(s, prompt, mixes, nBatch, closing);
    RmNone(DecodedCells(s, prompt, mixes, nBatch, closing), Size(prompt, mixes));
  }

  // ---------- Where the answer is read ----------

  /** The index of the answer in the last batch. */
  function AnswerAt(active: seq<int>, prompt: seq<int>, mixes: seq<MixPoint>, nBatch: nat): int
    requires nBatch > 0
  {
    if mixes != [] then 0 else Head(prompt[Kept(active, prompt, false)..], nBatch)
  }

  /** With mixes the answer is that of the closing token, which is a batch of its own.  Without, it is
      that of the prompt's last token: so many places into the last of the batches that begin behind
      what is kept. */
  lemma AnswerIsOfLastToken(active: seq<int>, prompt: seq<int>, mixes: seq<MixPoint>, nBatch: nat)
    requires nBatch > 0 && prompt != []
    ensures mixes != [] ==> AnswerAt(active, prompt, mixes, nBatch) == 0
    ensures mixes == [] ==>
              && 0 <= AnswerAt(active, prompt, mixes, nBatch) < nBatch
              && exists b: nat ::
                   Kept(active, prompt, false) + nBatch * b + AnswerAt(active, prompt, mixes, nBatch) == |prompt| - 1
  {
    if mixes == [] {
      var kept := Kept(active, prompt, false);
      HeadInBatch(prompt[kept..], nBatch);
      var m := |prompt| - kept - 1;
      var b: nat := m / nBatch;
      assert m == nBatch * b + m % nBatch;
      assert kept + nBatch * b + AnswerAt(active, prompt, mixes, nBatch) == |prompt| - 1;
    }
  }

  /** Index 0 is taken to mean that mixes were decoded and that the end of a correction may
      follow.  That is right if and only if there are mixes, or what is left of the prompt is not
      one token more than whole batches. */
  lemma HeadTellsMixesIff(active: seq<int>, prompt: seq<int>, mixes: seq<MixPoint>, nBatch: nat)
    requires nBatch > 0 && prompt != []
    ensures (AnswerAt(active, prompt, mixes, nBatch) == 0 <==> mixes != []) <==>
            mixes != [] || (|prompt| - Kept(active, prompt, false) - 1) % nBatch != 0
  {
    if mixes == [] {
      HeadInBatch(prompt[Kept(active, prompt, false)..], nBatch);
    }
  }

  lemma {:induction false} SharedWithItself(ts: seq<int>)
    ensures Shared(ts, ts) == |ts|
  {
    if ts == [] {
    } else {
      SharedWithItself(ts[1..]);
    }
  }

  /** The same prompt once more, without mixes: one token is decoded, and its index is 0. */
  lemma SamePromptLooksMixed(prompt: seq<int>, nBatch: nat)
    requires nBatch > 0 && prompt != []
    ensures AnswerAt(prompt, prompt, [], nBatch) == 0
  {
    SharedWithItself(prompt);
    HeadInBatch(prompt[|prompt| - 1..], nBatch);
  }
}
