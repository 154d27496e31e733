/** Whole runs of the tensor allocator.  A trace of allocations, frees and resets is run on
    an arena; over every run the free list and the live tensors tile the arena, and every
    tensor lies on the grid of the alignment. */
module AllocTrace {
  import opened Wrappers
  import opened Alignment
  import opened FreeList

  datatype Op = Alloc(t: nat, nbytes: nat) | Free(t: nat) | Reset

  /** A buffer at address `base`; `capacity` bytes follow its first aligned address. */
  datatype Arena = Arena(base: nat, alignment: nat, capacity: nat) {
    ghost predicate Valid() { alignment > 0 && capacity > 0 }
    function Start(): nat requires alignment > 0 { base + AlignedOffset(base, 0, alignment) }
    function Limit(): nat requires alignment > 0 { Start() + capacity }
    function Padded(nbytes: nat): nat requires alignment > 0 { AlignedOffset(0, nbytes, alignment) }
    function Whole(): seq<FreeBlock> requires alignment > 0 { [FreeBlock(Start(), capacity)] }
  }

  /** `placed` keeps every address ever handed out, as `tensor->data` does; `live` are the
      tensors not yet freed. */
  datatype State = State(blocks: seq<FreeBlock>, placed: map<nat, Range>, live: set<nat>, maxSize: int)

  function Init(a: Arena): State
    requires a.Valid()
  {
    State(a.Whole(), map[], {}, 0)
  }

  /** One call.  None: the call aborts (no block fits, or the tensor already has memory) or,
      for a second free of the same tensor, is outside the allocator's contract. */
  function Step(a: Arena, s: State, op: Op): Option<State>
    requires a.Valid()
  {
    match op
    case Alloc(t, nbytes) =>
      if t in s.placed then None
      else
        var size := a.Padded(nbytes);
        (match Take(s.blocks, size)
         case None => None
         case Some(p) =>
           Some(State(p.rest, s.placed[t := Range(p.addr, size)], s.live + {t},
                      Max(s.maxSize, p.addr - a.base + size))))
    case Free(t) =>
      if t !in s.placed then Some(s)  // owned by another buffer: ignored
      else if t !in s.live then None
      else Some(s.(blocks := Release(s.blocks, s.placed[t].addr, s.placed[t].size), live := s.live - {t}))
    case Reset => Some(s.(blocks := a.Whole(), live := {}))
  }

  function Max(x: int, y: int): int { if x > y then x else y }

  function Run(a: Arena, s: State, ops: seq<Op>): Option<State>
    requires a.Valid()
    decreases |ops|
  {
    if ops == [] then Some(s)
    else match Step(a, s, ops[0])
      case None => None
      case Some(s') => Run(a, s', ops[1..])
  }

  /** Every tensor of the trace occupies memory. */
  ghost predicate Sized(ops: seq<Op>) {
    forall op :: op in ops && op.Alloc? ==> op.nbytes > 0
  }

  // ---------- Tiling: free blocks and live tensors partition the arena ----------

  ghost predicate LiveAt(s: State, t: nat, x: int) {
    t in s.live && t in s.placed && Within(x, s.placed[t].addr, s.placed[t].size)
  }

  ghost predicate SomeLiveAt(s: State, x: int) {
    exists t :: LiveAt(s, t, x)
  }

  ghost predicate Tiles(a: Arena, s: State)
    requires a.Valid()
  {
    && (forall x :: Covers(s.blocks, x) ==> a.Start() <= x < a.Limit())
    && (forall t, x :: LiveAt(s, t, x) ==> a.Start() <= x < a.Limit() && !Covers(s.blocks, x))
    && (forall x :: a.Start() <= x < a.Limit() ==> Covers(s.blocks, x) || SomeLiveAt(s, x))
    && (forall t, u, x :: LiveAt(s, t, x) && LiveAt(s, u, x) ==> t == u)
  }

  ghost predicate Bounded(a: Arena, s: State) {
    && s.live <= s.placed.Keys
    && forall t :: t in s.placed ==> s.placed[t].size > 0 && s.placed[t].addr + s.placed[t].size - a.base <= s.maxSize
  }

  ghost predicate Invariant(a: Arena, s: State)
    requires a.Valid()
  {
    WellFormed(s.blocks) && Tiles(a, s) && Bounded(a, s)
  }

  lemma WholeCovers(a: Arena, x: int)
    requires a.Valid()
    ensures WellFormed(a.Whole())
    ensures Covers(a.Whole(), x) <==> a.Start() <= x < a.Limit()
  {
    assert a.Whole()[0] == FreeBlock(a.Start(), a.capacity);
  }

  lemma WholeTiles(a: Arena, s: State)
    requires a.Valid() && s.blocks == a.Whole() && s.live == {}
    ensures WellFormed(s.blocks) && Tiles(a, s)
  {
    forall x ensures Covers(s.blocks, x) <==> a.Start() <= x < a.Limit() {
      WholeCovers(a, x);
    }
    WholeCovers(a, 0);
  }

  lemma AllocKeepsInvariant(a: Arena, s: State, t: nat, nbytes: nat)
    requires a.Valid() && Invariant(a, s) && nbytes > 0
    requires Step(a, s, Alloc(t, nbytes)).Some?
    ensures Invariant(a, Step(a, s, Alloc(t, nbytes)).value)
  {
    var size := a.Padded(nbytes);
    var p := Take(s.blocks, size).value;
    var s' := Step(a, s, Alloc(t, nbytes)).value;
    TakeCovers(s.blocks, size);
    forall u, x ensures LiveAt(s', u, x) <==> LiveAt(s, u, x) || (u == t && Within(x, p.addr, size)) {
    }
    forall x | a.Start() <= x < a.Limit() ensures Covers(s'.blocks, x) || SomeLiveAt(s', x) {
      if Within(x, p.addr, size) {
        assert LiveAt(s', t, x);
      } else if SomeLiveAt(s, x) {
        var u :| LiveAt(s, u, x);
        assert LiveAt(s', u, x);
      }
    }
  }

  lemma FreeKeepsInvariant(a: Arena, s: State, t: nat)
    requires a.Valid() && Invariant(a, s) && t in s.live
    ensures t in s.placed && Apart(s.blocks, s.placed[t].addr, s.placed[t].size)
    ensures Step(a, s, Free(t)).Some? && Invariant(a, Step(a, s, Free(t)).value)
  {
    var g := s.placed[t];
    forall x | Within(x, g.addr, g.size) ensures !Covers(s.blocks, x) {
      assert LiveAt(s, t, x);
    }
    ReleaseCovers(s.blocks, g.addr, g.size);
    var s' := Step(a, s, Free(t)).value;
    forall u, x ensures LiveAt(s', u, x) <==> LiveAt(s, u, x) && u != t {
    }
    forall x | Within(x, g.addr, g.size) ensures LiveAt(s, t, x) {
    }
    forall x | a.Start() <= x < a.Limit() ensures Covers(s'.blocks, x) || SomeLiveAt(s', x) {
      if !Within(x, g.addr, g.size) && SomeLiveAt(s, x) {
        var u :| LiveAt(s, u, x);
        assert LiveAt(s', u, x);
      }
    }
  }

  lemma StepKeepsInvariant(a: Arena, s: State, op: Op)
    requires a.Valid() && Invariant(a, s) && (op.Alloc? ==> op.nbytes > 0)
    requires Step(a, s, op).Some?
    ensures Invariant(a, Step(a, s, op).value)
    ensures s.maxSize <= Step(a, s, op).value.maxSize
  {
    match op
    case Alloc(t, nbytes) => AllocKeepsInvariant(a, s, t, nbytes);
    case Free(t) => if t in s.live { FreeKeepsInvariant(a, s, t); }
    case Reset => WholeTiles(a, Step(a, s, op).value);
  }

  /** Over every run: the free blocks are non-empty, sorted and never adjacent, and together
      with the live tensors they tile the arena without overlap. */
  lemma {:induction false} RunKeepsInvariant(a: Arena, s: State, ops: seq<Op>)
    requires a.Valid() && Invariant(a, s) && Sized(ops)
    requires Run(a, s, ops).Some?
    ensures Invariant(a, Run(a, s, ops).value)
    ensures s.maxSize <= Run(a, s, ops).value.maxSize
    decreases |ops|
  {
    if ops == [] {
    } else {
      assert ops[0] in ops;
      StepKeepsInvariant(a, s, ops[0]);
      assert forall op :: op in ops[1..] ==> op in ops;
      RunKeepsInvariant(a, Step(a, s, ops[0]).value, ops[1..]);
    }
  }

  lemma InitInvariant(a: Arena)
    requires a.Valid()
    ensures Invariant(a, Init(a))
  {
    WholeTiles(a, Init(a));
  }

  /** Where a placed tensor ends, seen from the beginning of the buffer. */
  ghost predicate EndsAtPeak(a: Arena, s: State, t: nat) {
    t in s.placed && s.placed[t].addr + s.placed[t].size - a.base == s.maxSize
  }

  /** The peak is no larger than it has to be: some tensor reaches it. */
  ghost predicate PeakReached(a: Arena, s: State) {
    s.maxSize == 0 || exists t :: EndsAtPeak(a, s, t)
  }

  lemma {:induction false} PeakIsReached(a: Arena, s: State, ops: seq<Op>)
    requires a.Valid() && PeakReached(a, s) && Run(a, s, ops).Some?
    ensures PeakReached(a, Run(a, s, ops).value)
    decreases |ops|
  {
    if ops == [] {
    } else {
      var s' := Step(a, s, ops[0]).value;
      if s.maxSize != 0 {
        var t :| EndsAtPeak(a, s, t);
        assert s'.maxSize == s.maxSize ==> EndsAtPeak(a, s', t);
      }
      assert ops[0].Alloc? && s'.maxSize != s.maxSize ==> EndsAtPeak(a, s', ops[0].t);
      PeakIsReached(a, s', ops[1..]);
    }
  }

  /** Once every tensor has been freed, the free list is again the single block of a reset. */
  lemma FreeingEverythingRestores(a: Arena, ops: seq<Op>)
    requires a.Valid() && Sized(ops)
    requires Run(a, Init(a), ops).Some? && Run(a, Init(a), ops).value.live == {}
    ensures Run(a, Init(a), ops).value.blocks == a.Whole()
  {
    InitInvariant(a);
    RunKeepsInvariant(a, Init(a), ops);
    var s := Run(a, Init(a), ops).value;
    WholeCovers(a, 0);
    forall x ensures Covers(s.blocks, x) <==> Covers(a.Whole(), x) {
      WholeCovers(a, x);
    }
    CanonicalForm(s.blocks, a.Whole());
  }

  // ---------- Every address handed out is aligned ----------

  ghost predicate OnGrid(b: seq<FreeBlock>, alignment: nat)
    requires alignment > 0
  {
    forall i :: 0 <= i < |b| ==> b[i].addr % alignment == 0
  }

  ghost predicate PlacedOnGrid(s: State, alignment: nat)
    requires alignment > 0
  {
    forall t :: t in s.placed ==> s.placed[t].addr % alignment == 0 && s.placed[t].size % alignment == 0
  }

  lemma CutFrontOnGrid(b: seq<FreeBlock>, k: nat, size: nat, alignment: nat)
    requires alignment > 0 && OnGrid(b, alignment) && k < |b| && size <= b[k].size && size % alignment == 0
    ensures OnGrid(CutFront(b, k, size), alignment)
  {
    SumOfMultiples(b[k].addr, size, alignment);
    var c := CutFront(b, k, size);
    forall i | 0 <= i < |c| ensures c[i].addr % alignment == 0 {
      if b[k].size == size { assert c[i] == b[if i < k then i else i + 1]; }
    }
  }

  lemma {:induction false} ReleaseOnGrid(b: seq<FreeBlock>, addr: int, size: nat, alignment: nat)
    requires alignment > 0 && OnGrid(b, alignment) && addr % alignment == 0
    ensures OnGrid(Release(b, addr, size), alignment)
  {
    if b != [] && b[0].addr < addr + size && b[0].End() != addr {
      ReleaseOnGrid(b[1..], addr, size, alignment);
    }
  }

  lemma StepOnGrid(a: Arena, s: State, op: Op)
    requires a.Valid() && OnGrid(s.blocks, a.alignment) && PlacedOnGrid(s, a.alignment)
    requires Step(a, s, op).Some?
    ensures var s' := Step(a, s, op).value; OnGrid(s'.blocks, a.alignment) && PlacedOnGrid(s', a.alignment)
  {
    match op
    case Alloc(t, nbytes) =>
      CutFrontOnGrid(s.blocks, BestFit(s.blocks, a.Padded(nbytes)).value, a.Padded(nbytes), a.alignment);
    case Free(t) =>
      if t in s.placed && t in s.live { ReleaseOnGrid(s.blocks, s.placed[t].addr, s.placed[t].size, a.alignment); }
    case Reset =>
  }

  /** Over every run, every tensor is placed at a multiple of the alignment and takes whole
      multiples of it. */
  lemma {:induction false} RunOnGrid(a: Arena, s: State, ops: seq<Op>)
    requires a.Valid() && OnGrid(s.blocks, a.alignment) && PlacedOnGrid(s, a.alignment)
    requires Run(a, s, ops).Some?
    ensures PlacedOnGrid(Run(a, s, ops).value, a.alignment)
    decreases |ops|
  {
    if ops == [] {
    } else {
      StepOnGrid(a, s, ops[0]);
      RunOnGrid(a, Step(a, s, ops[0]).value, ops[1..]);
    }
  }
}
