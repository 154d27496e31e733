/** Measure first, allocate later: a trace measured on one arena replays on another one,
    at any address, whose aligned capacity strictly exceeds the measured peak. */
module MeasureReplay {
  import opened Wrappers
  import opened Alignment
  import opened FreeList
  import opened AllocTrace

  // ---------- Moving a free list to another arena ----------

  /** The same list `d` bytes further on, with `cut` bytes more in its last block. */
  function Relocate(b: seq<FreeBlock>, d: int, cut: int): (r: seq<FreeBlock>)
    requires b != [] && b[|b| - 1].size + cut > 0
    ensures |r| == |b|
  {
    seq(|b|, i requires 0 <= i < |b| => RelocateBlock(b[i], d, if i == |b| - 1 then cut else 0))
  }

  function RelocateBlock(f: FreeBlock, d: int, cut: int): FreeBlock
    requires f.size + cut >= 0
  {
    FreeBlock(f.addr + d, f.size + cut)
  }

  lemma {:induction false} BestFitUpToRelocated(b: seq<FreeBlock>, d: int, cut: int, size: nat, n: nat)
    requires b != [] && b[|b| - 1].size + cut > 0 && n <= |b| - 1
    ensures BestFitUpTo(Relocate(b, d, cut), size, n) == BestFitUpTo(b, size, n)
  {
    if n == 0 {
    } else {
      BestFitUpToRelocated(b, d, cut, size, n - 1);
    }
  }

  lemma BestFitRelocated(b: seq<FreeBlock>, d: int, cut: int, size: nat)
    requires b != [] && b[|b| - 1].size + cut > 0
    requires BestFit(b, size).Some?
    requires BestFit(b, size) == Some(|b| - 1) ==> size <= b[|b| - 1].size + cut
    ensures BestFit(Relocate(b, d, cut), size) == BestFit(b, size)
  {
    BestFitUpToRelocated(b, d, cut, size, |b| - 1);
  }

  lemma CutFrontRelocated(b: seq<FreeBlock>, d: int, cut: int, k: nat, size: nat)
    requires k < |b| && b[|b| - 1].size + cut > 0 && size <= b[k].size
    requires k == |b| - 1 ==> size < b[k].size && size < b[k].size + cut
    ensures var c := CutFront(b, k, size);
            && c != [] && c[|c| - 1].size + cut > 0
            && CutFront(Relocate(b, d, cut), k, size) == Relocate(c, d, cut)
  {
    var c, r := CutFront(b, k, size), Relocate(b, d, cut);
    if k < |b| - 1 && b[k].size == size {
      forall i | 0 <= i < |c| ensures CutFront(r, k, size)[i] == Relocate(c, d, cut)[i] {
        assert c[i] == b[if i < k then i else i + 1];
      }
    }
    assert CutFront(r, k, size) == Relocate(c, d, cut);
  }

  /** Allocation makes the same choice as long as the last block survives it on both sides. */
  lemma TakeRelocated(b: seq<FreeBlock>, d: int, cut: int, size: nat)
    requires b != [] && b[|b| - 1].size + cut > 0
    requires Take(b, size).Some?
    requires BestFit(b, size) == Some(|b| - 1) ==> size < b[|b| - 1].size && size < b[|b| - 1].size + cut
    ensures var p := Take(b, size).value;
            && p.rest != [] && p.rest[|p.rest| - 1].size + cut > 0
            && Take(Relocate(b, d, cut), size) == Some(Placement(p.addr + d, Relocate(p.rest, d, cut)))
  {
    BestFitRelocated(b, d, cut, size);
    CutFrontRelocated(b, d, cut, BestFit(b, size).value, size);
  }

  lemma RelocateTail(b: seq<FreeBlock>, d: int, cut: int)
    requires |b| > 1 && b[|b| - 1].size + cut > 0
    ensures Relocate(b, d, cut)[1..] == Relocate(b[1..], d, cut)
    ensures Relocate(b, d, cut) == [RelocateBlock(b[0], d, 0)] + Relocate(b[1..], d, cut)
    ensures Relocate(b, d, cut)[1] == RelocateBlock(b[1], d, if |b| == 2 then cut else 0)
  {
  }

  lemma RelocatePrepend(h: FreeBlock, b: seq<FreeBlock>, d: int, cut: int)
    requires b != [] && b[|b| - 1].size + cut > 0
    ensures Relocate([h] + b, d, cut) == [RelocateBlock(h, d, 0)] + Relocate(b, d, cut)
  {
  }

  /** The range to release lies behind the first block without touching it. */
  predicate BehindHead(b: seq<FreeBlock>, addr: int, size: nat)
    requires b != []
  {
    b[0].addr < addr + size && b[0].End() != addr
  }

  lemma ReleaseBehindHead(b: seq<FreeBlock>, addr: int, size: nat)
    requires WellFormed(b) && b != [] && addr + size <= b[|b| - 1].addr && size > 0 && BehindHead(b, addr, size)
    ensures |b| > 1 && WellFormed(b[1..]) && b[1..][|b| - 2] == b[|b| - 1]
    ensures Release(b, addr, size) == [b[0]] + Release(b[1..], addr, size)
  {
    if |b| > 1 {
      CoversHead(b, 0);
    }
  }

  /** Release below the start of the last block leaves the end of the list where it was. */
  lemma {:induction false} ReleaseKeepsEnd(b: seq<FreeBlock>, addr: int, size: nat)
    requires b != [] && addr + size <= b[|b| - 1].addr && WellFormed(b) && size > 0
    ensures var r := Release(b, addr, size);
            r != [] && r[|r| - 1].End() == b[|b| - 1].End() && r[|r| - 1].addr <= b[|b| - 1].addr
    decreases |b|
  {
    if BehindHead(b, addr, size) {
      hide WellFormed, Release;
      ReleaseBehindHead(b, addr, size);
      ReleaseKeepsEnd(b[1..], addr, size);
    } else {
      ReleaseAtHeadKeepsEnd(b, addr, size);
    }
  }

  lemma ReleaseAtHeadKeepsEnd(b: seq<FreeBlock>, addr: int, size: nat)
    requires b != [] && addr + size <= b[|b| - 1].addr && WellFormed(b) && size > 0 && !BehindHead(b, addr, size)
    ensures var r := Release(b, addr, size);
            r != [] && r[|r| - 1].End() == b[|b| - 1].End() && r[|r| - 1].addr <= b[|b| - 1].addr
  {
  }

  /** Replacing the first block by a larger one commutes with moving the list. */
  lemma RelocateGrownHead(b: seq<FreeBlock>, d: int, cut: int, h: FreeBlock)
    requires b != [] && b[|b| - 1].size + cut > 0 && h.size >= b[0].size
    ensures var c := [h] + b[1..];
            && c[|c| - 1].size + cut > 0
            && Relocate(c, d, cut) == [RelocateBlock(h, d, if |b| == 1 then cut else 0)] + Relocate(b, d, cut)[1..]
  {
  }

  lemma ReleaseBeforeHeadRelocated(b: seq<FreeBlock>, d: int, cut: int, addr: int, size: nat)
    requires b != [] && b[|b| - 1].size + cut > 0 && addr + size == b[0].addr
    ensures var r := Release(b, addr, size);
            && r != [] && r[|r| - 1].size + cut > 0
            && Release(Relocate(b, d, cut), addr + d, size) == Relocate(r, d, cut)
  {
    RelocateGrownHead(b, d, cut, FreeBlock(addr, size + b[0].size));
  }

  lemma ReleaseFillingGapRelocated(b: seq<FreeBlock>, d: int, cut: int, addr: int, size: nat)
    requires |b| > 1 && b[|b| - 1].size + cut > 0 && b[0].addr < addr + size && b[0].End() == addr
             && addr + size == b[1].addr
    ensures var r := Release(b, addr, size);
            && r != [] && r[|r| - 1].size + cut > 0
            && Release(Relocate(b, d, cut), addr + d, size) == Relocate(r, d, cut)
  {
    hide Relocate;
    var h := FreeBlock(b[0].addr, b[0].size + size + b[1].size);
    assert Release(b, addr, size) == [h] + b[1..][1..];
    RelocateTail(b, d, cut);
    RelocateGrownHead(b[1..], d, cut, h);
    var m := Relocate(b, d, cut);
    assert Release(m, addr + d, size) == [RelocateBlock(h, d, if |b| == 2 then cut else 0)] + m[1..][1..];
  }

  lemma ReleaseAfterHeadRelocated(b: seq<FreeBlock>, d: int, cut: int, addr: int, size: nat)
    requires |b| > 1 && b[|b| - 1].size + cut > 0 && b[0].addr < addr + size && b[0].End() == addr
             && addr + size != b[1].addr
    ensures var r := Release(b, addr, size);
            && r != [] && r[|r| - 1].size + cut > 0
            && Release(Relocate(b, d, cut), addr + d, size) == Relocate(r, d, cut)
  {
    RelocateTail(b, d, cut);
    var h := FreeBlock(b[0].addr, b[0].size + size);
    RelocateGrownHead(b, d, cut, h);
    var m := Relocate(b, d, cut);
    assert Release(m, addr + d, size) == [RelocateBlock(h, d, 0)] + m[1..];
  }

  lemma ReleaseInFrontRelocated(b: seq<FreeBlock>, d: int, cut: int, addr: int, size: nat)
    requires b != [] && b[|b| - 1].size + cut > 0 && addr + size < b[0].addr
    ensures var r := Release(b, addr, size);
            && r != [] && r[|r| - 1].size + cut > 0
            && Release(Relocate(b, d, cut), addr + d, size) == Relocate(r, d, cut)
  {
    RelocatePrepend(FreeBlock(addr, size), b, d, cut);
  }

  lemma RelocatedBehindHead(b: seq<FreeBlock>, d: int, cut: int, addr: int, size: nat)
    requires |b| > 1 && b[|b| - 1].size + cut > 0 && BehindHead(b, addr, size) && addr + size != b[0].addr
    ensures Release(Relocate(b, d, cut), addr + d, size) ==
            [RelocateBlock(b[0], d, 0)] + Release(Relocate(b[1..], d, cut), addr + d, size)
  {
    RelocateTail(b, d, cut);
  }

  lemma {:induction false} ReleaseRelocated(b: seq<FreeBlock>, d: int, cut: int, addr: int, size: nat)
    requires WellFormed(b) && b != [] && b[|b| - 1].size + cut > 0
    requires addr + size <= b[|b| - 1].addr && size > 0
    ensures var r := Release(b, addr, size);
            && r != [] && r[|r| - 1].size + cut > 0
            && Release(Relocate(b, d, cut), addr + d, size) == Relocate(r, d, cut)
    decreases |b|
  {
    hide WellFormed, Release, Relocate;
    if BehindHead(b, addr, size) {
      ReleaseBehindHead(b, addr, size);
      ReleaseRelocated(b[1..], d, cut, addr, size);
      RelocatedBehindHead(b, d, cut, addr, size);
      RelocatePrepend(b[0], Release(b[1..], addr, size), d, cut);
    } else if addr + size < b[0].addr {
      ReleaseInFrontRelocated(b, d, cut, addr, size);
    } else if addr + size == b[0].addr {
      ReleaseBeforeHeadRelocated(b, d, cut, addr, size);
    } else if addr + size == b[1].addr {
      ReleaseFillingGapRelocated(b, d, cut, addr, size);
    } else {
      ReleaseAfterHeadRelocated(b, d, cut, addr, size);
    }
  }

  // ---------- The last block as the untouched remainder of the arena ----------

  /** The last free block reaches the end of the arena and starts no higher than the peak. */
  ghost predicate HasRemainder(a: Arena, s: State)
    requires a.Valid()
  {
    var n := |s.blocks|;
    n > 0 && s.blocks[n - 1].End() == a.Limit() && s.blocks[n - 1].addr - a.Start() <= s.maxSize
  }

  lemma InLastBlock(b: seq<FreeBlock>, x: int)
    requires b != [] && b[|b| - 1].addr <= x < b[|b| - 1].End()
    ensures Covers(b, x)
  {
  }

  lemma LiveBelowRemainder(a: Arena, s: State, t: nat)
    requires a.Valid() && Invariant(a, s) && HasRemainder(a, s) && t in s.live
    ensures s.placed[t].addr + s.placed[t].size <= s.blocks[|s.blocks| - 1].addr
  {
    var g, last := s.placed[t], s.blocks[|s.blocks| - 1];
    var x := g.addr + g.size - 1;
    assert LiveAt(s, t, x);
    if last.addr <= x { InLastBlock(s.blocks, x); }
  }

  lemma AllocKeepsRemainder(a: Arena, s: State, t: nat, nbytes: nat)
    requires a.Valid() && HasRemainder(a, s) && nbytes > 0 && Step(a, s, Alloc(t, nbytes)).Some?
    requires Step(a, s, Alloc(t, nbytes)).value.maxSize < a.capacity
    ensures HasRemainder(a, Step(a, s, Alloc(t, nbytes)).value)
    ensures BestFit(s.blocks, a.Padded(nbytes)) == Some(|s.blocks| - 1) ==>
              a.Padded(nbytes) < s.blocks[|s.blocks| - 1].size
  {
    hide AlignedOffset, BestFitUpTo;
    var size := a.Padded(nbytes);
    var k := BestFit(s.blocks, size).value;
    var c := CutFront(s.blocks, k, size);
    if k < |s.blocks| - 1 && s.blocks[k].size == size {
      assert c[|c| - 1] == s.blocks[|s.blocks| - 1];
    }
  }

  lemma FreeKeepsRemainder(a: Arena, s: State, t: nat)
    requires a.Valid() && Invariant(a, s) && HasRemainder(a, s) && Step(a, s, Free(t)).Some?
    ensures HasRemainder(a, Step(a, s, Free(t)).value)
  {
    hide AlignedOffset, Tiles, Release;
    if t in s.live {
      LiveBelowRemainder(a, s, t);
      ReleaseKeepsEnd(s.blocks, s.placed[t].addr, s.placed[t].size);
    }
  }

  lemma StepKeepsRemainder(a: Arena, s: State, op: Op)
    requires a.Valid() && Invariant(a, s) && HasRemainder(a, s) && s.maxSize >= 0
    requires (op.Alloc? ==> op.nbytes > 0) && Step(a, s, op).Some?
    requires Step(a, s, op).value.maxSize < a.capacity
    ensures HasRemainder(a, Step(a, s, op).value)
  {
    match op
    case Alloc(t, nbytes) => AllocKeepsRemainder(a, s, t, nbytes);
    case Free(t) => FreeKeepsRemainder(a, s, t);
    case Reset =>
  }

  // ---------- The simulation ----------

  /** State `r` of arena `ar` is state `m` of arena `am` moved to the other start address,
      its remainder cut to the other capacity. */
  ghost predicate Simulates(am: Arena, m: State, ar: Arena, r: State)
    requires am.Valid() && ar.Valid()
  {
    var d, cut := ar.Start() - am.Start(), ar.capacity - am.capacity;
    && m.blocks != [] && m.blocks[|m.blocks| - 1].size + cut > 0
    && r.blocks == Relocate(m.blocks, d, cut)
    && r.live == m.live
    && SameOffsets(am, m, ar, r)
  }

  ghost predicate SameOffsets(am: Arena, m: State, ar: Arena, r: State)
    requires am.Valid() && ar.Valid()
  {
    && r.placed.Keys == m.placed.Keys
    && forall t :: t in m.placed ==>
         && r.placed[t].addr - ar.Start() == m.placed[t].addr - am.Start()
         && r.placed[t].size == m.placed[t].size
  }

  lemma RemainderOutlastsAlloc(am: Arena, m: State, ar: Arena, t: nat, nbytes: nat)
    requires am.Valid() && ar.Valid() && nbytes > 0
    requires HasRemainder(am, m) && Step(am, m, Alloc(t, nbytes)).Some?
    requires Step(am, m, Alloc(t, nbytes)).value.maxSize < am.capacity
    requires Step(am, m, Alloc(t, nbytes)).value.maxSize < ar.capacity
    requires BestFit(m.blocks, am.Padded(nbytes)) == Some(|m.blocks| - 1)
    ensures var last := m.blocks[|m.blocks| - 1];
            am.Padded(nbytes) < last.size && am.Padded(nbytes) < last.size + (ar.capacity - am.capacity)
  {
    var s' := Step(am, m, Alloc(t, nbytes)).value;
    assert s'.maxSize >= m.blocks[|m.blocks| - 1].addr - am.base + am.Padded(nbytes);
  }

  lemma AllocSimulated(am: Arena, m: State, ar: Arena, r: State, t: nat, nbytes: nat)
    requires am.Valid() && ar.Valid() && am.alignment == ar.alignment && nbytes > 0
    requires HasRemainder(am, m) && Simulates(am, m, ar, r)
    requires Step(am, m, Alloc(t, nbytes)).Some?
    requires Step(am, m, Alloc(t, nbytes)).value.maxSize < am.capacity
    requires Step(am, m, Alloc(t, nbytes)).value.maxSize < ar.capacity
    ensures Step(ar, r, Alloc(t, nbytes)).Some?
    ensures Simulates(am, Step(am, m, Alloc(t, nbytes)).value, ar, Step(ar, r, Alloc(t, nbytes)).value)
  {
    hide AlignedOffset, BestFit, CutFront, Relocate;
    var d, cut := ar.Start() - am.Start(), ar.capacity - am.capacity;
    var size := am.Padded(nbytes);
    if BestFit(m.blocks, size) == Some(|m.blocks| - 1) {
      RemainderOutlastsAlloc(am, m, ar, t, nbytes);
    }
    TakeRelocated(m.blocks, d, cut, size);
  }

  lemma FreeSimulated(am: Arena, m: State, ar: Arena, r: State, t: nat)
    requires am.Valid() && ar.Valid()
    requires Invariant(am, m) && HasRemainder(am, m) && Simulates(am, m, ar, r)
    requires Step(am, m, Free(t)).Some?
    ensures Step(ar, r, Free(t)).Some?
    ensures Simulates(am, Step(am, m, Free(t)).value, ar, Step(ar, r, Free(t)).value)
  {
    hide HasRemainder, Covers, Apart, Release;
    var d, cut := ar.Start() - am.Start(), ar.capacity - am.capacity;
    if t in m.live {
      LiveBelowRemainder(am, m, t);
      ReleaseRelocated(m.blocks, d, cut, m.placed[t].addr, m.placed[t].size);
    }
  }

  lemma StepSimulated(am: Arena, m: State, ar: Arena, r: State, op: Op)
    requires am.Valid() && ar.Valid() && am.alignment == ar.alignment && (op.Alloc? ==> op.nbytes > 0)
    requires Invariant(am, m) && HasRemainder(am, m) && m.maxSize >= 0 && Simulates(am, m, ar, r)
    requires Step(am, m, op).Some?
    requires Step(am, m, op).value.maxSize < am.capacity && Step(am, m, op).value.maxSize < ar.capacity
    ensures Step(ar, r, op).Some?
    ensures Simulates(am, Step(am, m, op).value, ar, Step(ar, r, op).value)
  {
    match op
    case Alloc(t, nbytes) => AllocSimulated(am, m, ar, r, t, nbytes);
    case Free(t) => FreeSimulated(am, m, ar, r, t);
    case Reset =>
      assert Step(ar, r, op).value.blocks == Relocate(am.Whole(), ar.Start() - am.Start(), ar.capacity - am.capacity);
  }

  lemma {:induction false} RunSimulated(am: Arena, m: State, ar: Arena, r: State, ops: seq<Op>)
    requires am.Valid() && ar.Valid() && am.alignment == ar.alignment && Sized(ops)
    requires Invariant(am, m) && HasRemainder(am, m) && m.maxSize >= 0 && Simulates(am, m, ar, r)
    requires Run(am, m, ops).Some?
    requires Run(am, m, ops).value.maxSize < am.capacity && Run(am, m, ops).value.maxSize < ar.capacity
    ensures Run(ar, r, ops).Some?
    ensures Simulates(am, Run(am, m, ops).value, ar, Run(ar, r, ops).value)
    decreases |ops|
  {
    if ops == [] {
    } else {
      assert ops[0] in ops;
      assert forall op :: op in ops[1..] ==> op in ops;
      var m' := Step(am, m, ops[0]).value;
      StepKeepsInvariant(am, m, ops[0]);
      RunKeepsInvariant(am, m', ops[1..]);
      StepKeepsRemainder(am, m, ops[0]);
      StepSimulated(am, m, ar, r, ops[0]);
      RunSimulated(am, m', ar, Step(ar, r, ops[0]).value, ops[1..]);
    }
  }

  /** Any trace that ran on the measuring arena without filling it runs on every arena,
      wherever it lies, whose aligned capacity exceeds the measured peak, and puts every
      tensor at the same offset from the aligned start. */
  lemma MeasureThenAllocate(am: Arena, ar: Arena, ops: seq<Op>)
    requires am.Valid() && ar.Valid() && am.alignment == ar.alignment && Sized(ops)
    requires Run(am, Init(am), ops).Some?
    requires Run(am, Init(am), ops).value.maxSize < am.capacity
    requires Run(am, Init(am), ops).value.maxSize < ar.capacity
    ensures Run(ar, Init(ar), ops).Some?
    ensures SameOffsets(am, Run(am, Init(am), ops).value, ar, Run(ar, Init(ar), ops).value)
  {
    InitInvariant(am);
    assert Init(ar).blocks == Relocate(am.Whole(), ar.Start() - am.Start(), ar.capacity - am.capacity);
    RunSimulated(am, Init(am), ar, Init(ar), ops);
  }

  // ---------- What the callers rely on ----------

  /** The arena of a buffer of `bufferSize` bytes at `base`, as a reset lays it out. */
  function BufferArena(base: nat, bufferSize: nat, alignment: nat): Arena
    requires alignment > 0 && AlignedOffset(base, 0, alignment) <= bufferSize
  {
    Arena(base, alignment, bufferSize - AlignedOffset(base, 0, alignment))
  }

  const SIZE_MAX: nat := 0xFFFF_FFFF_FFFF_FFFF

  /** One alignment's worth of slack over the measured size always suffices, because the
      aligned start of the real buffer loses less than that. */
  lemma AlignmentSlackSuffices(measureBase: nat, base: nat, alignment: nat, ops: seq<Op>)
    requires alignment > 0 && Sized(ops)
    requires var am := Arena(measureBase, alignment, SIZE_MAX / 2);
             Run(am, Init(am), ops).Some? && Run(am, Init(am), ops).value.maxSize < SIZE_MAX / 2
    ensures var am := Arena(measureBase, alignment, SIZE_MAX / 2);
            var m := Run(am, Init(am), ops).value;
            m.maxSize >= 0 &&
            var ar := BufferArena(base, m.maxSize + alignment, alignment);
            && ar.Valid() && Run(ar, Init(ar), ops).Some?
            && SameOffsets(am, m, ar, Run(ar, Init(ar), ops).value)
  {
    var am := Arena(measureBase, alignment, SIZE_MAX / 2);
    var m := Run(am, Init(am), ops).value;
    InitInvariant(am);
    RunKeepsInvariant(am, Init(am), ops);
    MeasureThenAllocate(am, BufferArena(base, m.maxSize + alignment, alignment), ops);
  }
}
