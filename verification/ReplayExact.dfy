/** How large a buffer must be for every trace of a given measured peak.  Up to three
    alignments the peak itself is enough, because a free list below it has at most one hole;
    from four alignments on, nothing less than more than the peak is. */
module ReplayExact {
  import opened Wrappers
  import opened Alignment
  import opened FreeList
  import opened AllocTrace
  import opened MeasureReplay
  import opened ReplayNeedsSlack

  /** What lies before the first aligned address; a measured size includes it. */
  function Gap(a: Arena): nat
    requires a.alignment > 0
  {
    a.Start() - a.base
  }

  /** The trace runs on the measuring arena `am`, does not fill it, and peaks `peak` bytes behind the
      first aligned address. */
  ghost predicate Measured(am: Arena, unit: nat, peak: nat, ops: seq<Op>)
    requires unit > 0
  {
    && am.Valid() && am.alignment == unit && peak < am.capacity && Sized(ops)
    && Run(am, Init(am), ops).Some? && Run(am, Init(am), ops).value.maxSize == Gap(am) + peak
  }

  /** Every trace of that measured peak runs in every arena of `c` bytes. */
  ghost predicate TakesAll(unit: nat, peak: nat, c: nat)
    requires unit > 0
  {
    forall am, ar: Arena, ops ::
      Measured(am, unit, peak, ops) && ar.Valid() && ar.alignment == unit && ar.capacity == c ==>
        Run(ar, Init(ar), ops).Some?
  }

  // ---------- Holes lie two alignments apart ----------

  ghost predicate Gridded(am: Arena, m: State)
    requires am.Valid()
  {
    Invariant(am, m) && HasRemainder(am, m) && OnGrid(m.blocks, am.alignment) && PlacedOnGrid(m, am.alignment)
  }

  lemma MultiplesApart(x: int, y: int, unit: nat)
    requires unit > 0 && x % unit == 0 && y % unit == 0 && x < y
    ensures x + unit <= y
  {
    var i, j := x / unit, y / unit;
    assert x == i * unit && y == j * unit;
    if i < j {
      ProductsApart(i, j, unit);
    } else if j < i {
      ProductsApart(j, i, unit);
    }
  }

  lemma BetweenBlocks(b: seq<FreeBlock>, i: nat, x: int)
    requires WellFormed(b) && i < |b| - 1 && b[i].End() <= x < b[i + 1].addr
    ensures !Covers(b, x)
  {
    forall j | 0 <= j < |b| ensures !(b[j].addr <= x < b[j].End()) {
    }
  }

  /** Behind a hole comes a tensor, and it begins where the hole ends. */
  lemma TensorBehindHole(am: Arena, m: State, i: nat) returns (t: nat)
    requires am.Valid() && Gridded(am, m) && i < |m.blocks| - 1
    ensures t in m.live && t in m.placed && m.placed[t].addr == m.blocks[i].End()
    ensures m.placed[t].addr + m.placed[t].size <= m.blocks[i + 1].addr
  {
    var b, x := m.blocks, m.blocks[i].End();
    BetweenBlocks(b, i, x);
    assert b[i].addr <= x - 1 < b[i].End();
    assert Covers(b, x - 1) && Covers(b, b[i + 1].addr);
    assert SomeLiveAt(m, x);
    t :| LiveAt(m, t, x);
    assert !LiveAt(m, t, x - 1) && !LiveAt(m, t, b[i + 1].addr);
  }

  lemma HolesApart(am: Arena, m: State, i: nat)
    requires am.Valid() && Gridded(am, m) && i < |m.blocks| - 1
    ensures m.blocks[i].addr + 2 * am.alignment <= m.blocks[i + 1].addr
  {
    var t := TensorBehindHole(am, m, i);
    MultiplesApart(m.blocks[i].addr, m.placed[t].addr, am.alignment);
    MultiplesApart(0, m.placed[t].size, am.alignment);
  }

  lemma AtMostOneHole(am: Arena, m: State)
    requires am.Valid() && Gridded(am, m) && m.maxSize <= 3 * am.alignment
    ensures |m.blocks| <= 2
  {
    var n := |m.blocks|;
    if n > 2 {
      HolesApart(am, m, n - 2);
      HolesApart(am, m, n - 3);
      assert Covers(m.blocks, m.blocks[n - 3].addr);
    }
  }

  // ---------- The free list of the smaller arena ----------

  /** The list `d` bytes further on, its last block cut off at the shorter end. */
  ghost function CutOff(b: seq<FreeBlock>, d: int, cut: int): seq<FreeBlock>
    requires WellFormed(b) && b != []
  {
    if b[|b| - 1].size + cut > 0 then Relocate(b, d, cut)
    else if |b| == 1 then []
    else Relocate(b[..|b| - 1], d, 0)
  }

  lemma CutOffWellFormed(b: seq<FreeBlock>, d: int, cut: int)
    requires WellFormed(b) && b != [] && cut <= 0 <= b[|b| - 1].size + cut
    ensures WellFormed(CutOff(b, d, cut))
  {
  }

  lemma CutOffCovers(b: seq<FreeBlock>, d: int, cut: int, x: int)
    requires WellFormed(b) && b != [] && cut <= 0 <= b[|b| - 1].size + cut
    ensures Covers(CutOff(b, d, cut), x + d) <==> Covers(b, x) && x < b[|b| - 1].End() + cut
  {
    var c := CutOff(b, d, cut);
    if Covers(c, x + d) {
      var i :| 0 <= i < |c| && c[i].addr <= x + d < c[i].End();
      assert b[i].addr <= x < b[i].End();
    }
    if Covers(b, x) && x < b[|b| - 1].End() + cut {
      var i :| 0 <= i < |b| && b[i].addr <= x < b[i].End();
      assert c[i].addr <= x + d < c[i].End();
    }
  }

  /** The same tensors live at the same offsets in both arenas. */
  ghost predicate Twin(am: Arena, m: State, ar: Arena, r: State)
    requires am.Valid() && ar.Valid()
  {
    Gridded(am, m) && Invariant(ar, r) && r.live == m.live && SameOffsets(am, m, ar, r)
  }

  lemma LiveMoved(am: Arena, m: State, ar: Arena, r: State, x: int)
    requires am.Valid() && ar.Valid() && Twin(am, m, ar, r)
    ensures SomeLiveAt(m, x) <==> SomeLiveAt(r, x + (ar.Start() - am.Start()))
  {
    var d := ar.Start() - am.Start();
    if SomeLiveAt(m, x) {
      var t :| LiveAt(m, t, x);
      assert LiveAt(r, t, x + d);
    }
    if SomeLiveAt(r, x + d) {
      var t :| LiveAt(r, t, x + d);
      assert LiveAt(m, t, x);
    }
  }

  lemma FreeIsNotLive(a: Arena, s: State, x: int)
    requires a.Valid() && Invariant(a, s)
    ensures Covers(s.blocks, x) <==> a.Start() <= x < a.Limit() && !SomeLiveAt(s, x)
  {
  }

  /** What lives determines what is free, so the smaller arena's list is the other one cut off. */
  lemma SameFree(am: Arena, m: State, ar: Arena, r: State)
    requires am.Valid() && ar.Valid() && Twin(am, m, ar, r) && m.maxSize <= ar.capacity < am.capacity
    ensures var b, cut := m.blocks, ar.capacity - am.capacity;
            && b != [] && 0 <= b[|b| - 1].size + cut
            && r.blocks == CutOff(b, ar.Start() - am.Start(), cut)
  {
    var b, d, cut := m.blocks, ar.Start() - am.Start(), ar.capacity - am.capacity;
    CutOffWellFormed(b, d, cut);
    forall y ensures Covers(r.blocks, y) <==> Covers(CutOff(b, d, cut), y) {
      var x := y - d;
      FreeIsNotLive(am, m, x);
      FreeIsNotLive(ar, r, y);
      LiveMoved(am, m, ar, r, x);
      CutOffCovers(b, d, cut, x);
    }
    CanonicalForm(r.blocks, CutOff(b, d, cut));
  }

  // ---------- Up to three alignments the choice is the same ----------

  /** With at most one hole, the cut list makes the choice of the whole one. */
  lemma SameChoice(b: seq<FreeBlock>, d: int, cut: int, size: nat)
    requires WellFormed(b) && 0 < |b| <= 2 && cut <= 0 <= b[|b| - 1].size + cut && size > 0
    requires BestFit(b, size).Some?
    requires BestFit(b, size) == Some(|b| - 1) ==> size <= b[|b| - 1].size + cut
    ensures Take(CutOff(b, d, cut), size).Some?
    ensures Take(CutOff(b, d, cut), size).value.addr == Take(b, size).value.addr + d
  {
    if b[|b| - 1].size + cut > 0 {
      BestFitRelocated(b, d, cut, size);
    }
  }

  lemma AllocOfTwin(am: Arena, m: State, ar: Arena, r: State, t: nat, nbytes: nat)
    requires am.Valid() && ar.Valid() && am.alignment == ar.alignment && am.Start() == am.base && nbytes > 0
    requires Step(am, m, Alloc(t, nbytes)).Some? && Twin(am, m, ar, r)
    requires Step(am, m, Alloc(t, nbytes)).value.maxSize <= ar.capacity < am.capacity
    requires ar.capacity <= 3 * am.alignment
    ensures var op := Alloc(t, nbytes);
            && Step(ar, r, op).Some?
            && Step(ar, r, op).value.live == Step(am, m, op).value.live
            && SameOffsets(am, Step(am, m, op).value, ar, Step(ar, r, op).value)
  {
    hide AlignedOffset, Relocate, CutOff, Tiles, Bounded, OnGrid, PlacedOnGrid, BestFit, CutFront;
    var b, size, cut := m.blocks, am.Padded(nbytes), ar.capacity - am.capacity;
    AtMostOneHole(am, m);
    SameFree(am, m, ar, r);
    SameChoice(b, ar.Start() - am.Start(), cut, size);
  }

  lemma StepOfTwin(am: Arena, m: State, ar: Arena, r: State, op: Op)
    requires am.Valid() && ar.Valid() && am.alignment == ar.alignment && am.Start() == am.base
    requires (op.Alloc? ==> op.nbytes > 0) && Step(am, m, op).Some?
    requires Twin(am, m, ar, r) && m.maxSize >= 0
    requires Step(am, m, op).value.maxSize <= ar.capacity < am.capacity && ar.capacity <= 3 * am.alignment
    ensures Step(ar, r, op).Some?
    ensures Twin(am, Step(am, m, op).value, ar, Step(ar, r, op).value)
  {
    hide AlignedOffset, Invariant, HasRemainder, OnGrid, PlacedOnGrid, Take, Release;
    StepKeepsInvariant(am, m, op);
    StepKeepsRemainder(am, m, op);
    StepOnGrid(am, m, op);
    if op.Alloc? { AllocOfTwin(am, m, ar, r, op.t, op.nbytes); }
    StepKeepsInvariant(ar, r, op);
  }

  lemma {:induction false} RunOfTwin(am: Arena, m: State, ar: Arena, r: State, ops: seq<Op>)
    requires am.Valid() && ar.Valid() && am.alignment == ar.alignment && am.Start() == am.base && Sized(ops)
    requires Run(am, m, ops).Some? && Twin(am, m, ar, r) && m.maxSize >= 0
    requires Run(am, m, ops).value.maxSize <= ar.capacity < am.capacity && ar.capacity <= 3 * am.alignment
    ensures Run(ar, r, ops).Some?
    ensures SameOffsets(am, Run(am, m, ops).value, ar, Run(ar, r, ops).value)
    decreases |ops|
  {
    if ops == [] {
    } else {
      assert ops[0] in ops;
      assert forall op :: op in ops[1..] ==> op in ops;
      var m' := Step(am, m, ops[0]).value;
      StepKeepsInvariant(am, m, ops[0]);
      RunKeepsInvariant(am, m', ops[1..]);
      StepOfTwin(am, m, ar, r, ops[0]);
      RunOfTwin(am, m', ar, Step(ar, r, ops[0]).value, ops[1..]);
    }
  }

  // ---------- Measuring from an unaligned address ----------

  /** The arena without what lies before its first aligned address. */
  function Rebased(a: Arena): Arena
    requires a.alignment > 0
  {
    Arena(a.Start(), a.alignment, a.capacity)
  }

  lemma RebasedStart(a: Arena)
    requires a.alignment > 0
    ensures Rebased(a).Start() == a.Start()
  {
    var start := a.Start();
    NextMultiple(start, start + AlignedOffset(start, 0, a.alignment), start, a.alignment);
  }

  /** The two states differ in the size measured only, by the gap once something has been placed. */
  ghost predicate SameButGap(a: Arena, s: State, s': State)
    requires a.alignment > 0
  {
    && s' == s.(maxSize := s'.maxSize)
    && if s.placed == map[] then s.maxSize == s'.maxSize == 0 else s.maxSize == Gap(a) + s'.maxSize
  }

  lemma StepRebased(a: Arena, s: State, s': State, op: Op)
    requires a.Valid() && Invariant(a, s) && SameButGap(a, s, s') && (op.Alloc? ==> op.nbytes > 0)
    requires Step(a, s, op).Some?
    ensures Step(Rebased(a), s', op).Some?
    ensures SameButGap(a, Step(a, s, op).value, Step(Rebased(a), s', op).value)
  {
    hide AlignedOffset, Take, Release;
    RebasedStart(a);
    if op.Alloc? {
      var size := a.Padded(op.nbytes);
      TakeCovers(s.blocks, size);
      var p := Take(s.blocks, size).value;
      assert Within(p.addr, p.addr, size) && Covers(s.blocks, p.addr);
    }
  }

  lemma {:induction false} RunRebased(a: Arena, s: State, s': State, ops: seq<Op>)
    requires a.Valid() && Invariant(a, s) && SameButGap(a, s, s') && Sized(ops) && Run(a, s, ops).Some?
    ensures Run(Rebased(a), s', ops).Some?
    ensures SameButGap(a, Run(a, s, ops).value, Run(Rebased(a), s', ops).value)
    decreases |ops|
  {
    hide Invariant, SameButGap, Step;
    if ops == [] {
    } else {
      assert ops[0] in ops;
      assert forall op :: op in ops[1..] ==> op in ops;
      StepKeepsInvariant(a, s, ops[0]);
      StepRebased(a, s, s', ops[0]);
      RunRebased(a, Step(a, s, ops[0]).value, Step(Rebased(a), s', ops[0]).value, ops[1..]);
    }
  }

  /** Measuring from the aligned address gives the peak itself. */
  lemma MeasuredRebased(am: Arena, unit: nat, peak: nat, ops: seq<Op>)
    requires unit > 0 && peak > 0 && Measured(am, unit, peak, ops)
    ensures var a := Rebased(am);
            && Measured(a, unit, peak, ops) && a.Start() == a.base == am.Start()
            && Run(a, Init(a), ops).value.placed == Run(am, Init(am), ops).value.placed
  {
    hide Run, Sized, AlignedOffset;
    RebasedStart(am);
    InitInvariant(am);
    RunRebased(am, Init(am), Init(Rebased(am)), ops);
  }

  /** A measured peak of at most three alignments is itself enough room. */
  lemma SmallPeakSuffices(am: Arena, ar: Arena, ops: seq<Op>)
    requires am.Valid() && Measured(am, am.alignment, ar.capacity, ops)
    requires ar.Valid() && ar.alignment == am.alignment && ar.capacity <= 3 * ar.alignment
    ensures Run(ar, Init(ar), ops).Some?
    ensures SameOffsets(am, Run(am, Init(am), ops).value, ar, Run(ar, Init(ar), ops).value)
  {
    hide Run, AlignedOffset, Gridded;
    var a := Rebased(am);
    MeasuredRebased(am, am.alignment, ar.capacity, ops);
    InitInvariant(a);
    InitInvariant(ar);
    InitTwin(a, ar);
    RunOfTwin(a, Init(a), ar, Init(ar), ops);
  }

  lemma InitTwin(am: Arena, ar: Arena)
    requires am.Valid() && ar.Valid()
    ensures Twin(am, Init(am), ar, Init(ar))
  {
    InitInvariant(am);
    InitInvariant(ar);
  }

  /** Any room above the peak is enough. */
  lemma MoreThanPeakSuffices(am: Arena, ar: Arena, peak: nat, ops: seq<Op>)
    requires am.Valid() && peak > 0 && Measured(am, am.alignment, peak, ops)
    requires ar.Valid() && ar.alignment == am.alignment && peak < ar.capacity
    ensures Run(ar, Init(ar), ops).Some?
    ensures SameOffsets(am, Run(am, Init(am), ops).value, ar, Run(ar, Init(ar), ops).value)
  {
    hide Run, AlignedOffset;
    MeasuredRebased(am, am.alignment, peak, ops);
    MeasureThenAllocate(Rebased(am), ar, ops);
  }

  // ---------- Which capacities take every trace ----------

  lemma OneAllocation(unit: nat, size: nat, c: nat)
    requires unit > 0 && size > 0 && size % unit == 0 && c > 0
    ensures var a := At(unit, c);
            && Sized([Alloc(0, size)])
            && (c >= size ==>
                  Run(a, Init(a), [Alloc(0, size)]).Some? && Run(a, Init(a), [Alloc(0, size)]).value.maxSize == size)
            && (c < size ==> Run(a, Init(a), [Alloc(0, size)]).None?)
  {
    PaddedMultiple(unit, size);
    PaddedMultiple(unit, 0);
  }

  lemma StartsAtBase(unit: nat, c: nat)
    requires unit > 0
    ensures At(unit, c).Start() == 0
  {
    PaddedMultiple(unit, 0);
  }

  lemma TooSmall(unit: nat, peak: nat, c: nat)
    requires unit > 0 && peak > 0 && peak % unit == 0 && 0 < c < peak
    ensures !TakesAll(unit, peak, c)
  {
    hide Run, Init, Sized, AlignedOffset, Arena.Start;
    OneAllocation(unit, peak, peak + 1);
    OneAllocation(unit, peak, c);
    StartsAtBase(unit, peak + 1);
    assert Measured(At(unit, peak + 1), unit, peak, [Alloc(0, peak)]);
    assert Run(At(unit, c), Init(At(unit, c)), [Alloc(0, peak)]).None?;
  }

  lemma JustThePeak(unit: nat, peak: nat)
    requires unit > 0 && peak % unit == 0 && peak > 3 * unit
    ensures !TakesAll(unit, peak, peak)
  {
    hide Run, Init, Tight, Sized, AlignedOffset, Arena.Start;
    var gap := peak - 4 * unit;
    GapOfPeak(unit, peak);
    ReachingThePeakIsNotEnough(unit, gap, peak + 1);
    StartsAtBase(unit, peak + 1);
    assert Measured(At(unit, peak + 1), unit, peak, Tight(unit, gap));
    assert Run(At(unit, peak), Init(At(unit, peak)), Tight(unit, gap)).None?;
  }

  lemma GapOfPeak(unit: nat, peak: nat)
    requires unit > 0 && peak % unit == 0 && peak > 3 * unit
    ensures peak >= 4 * unit && (peak - 4 * unit) % unit == 0
  {
    var q := peak / unit;
    assert peak == q * unit;
    DivModUnique(3 * unit, unit, 3, 0);
    MultiplesApart(3 * unit, peak, unit);
    assert peak - 4 * unit == (q - 4) * unit;
    DivModUnique(peak - 4 * unit, unit, q - 4, 0);
  }

  /** For every alignment and every peak: the capacities that take all traces of that peak are
      those above it, and the peak itself exactly if it is at most three alignments. */
  lemma TakesAllIff(unit: nat, peak: nat, c: nat)
    requires unit > 0 && peak > 0 && peak % unit == 0 && c > 0
    ensures TakesAll(unit, peak, c) <==> c > peak || (c == peak && peak <= 3 * unit)
  {
    if c < peak {
      TooSmall(unit, peak, c);
    } else if c == peak && peak > 3 * unit {
      JustThePeak(unit, peak);
    } else {
      forall am, ar: Arena, ops |
        Measured(am, unit, peak, ops) && ar.Valid() && ar.alignment == unit && ar.capacity == c
        ensures Run(ar, Init(ar), ops).Some?
      {
        if c > peak {
          MoreThanPeakSuffices(am, ar, peak, ops);
        } else {
          SmallPeakSuffices(am, ar, ops);
        }
      }
    }
  }

  // ---------- The slack of the callers ----------

  /** A buffer of `bufferSize` bytes takes all traces of that peak wherever it lies. */
  ghost predicate TakesAllAnywhere(unit: nat, peak: nat, bufferSize: nat)
    requires unit > 0
  {
    forall base: nat ::
      AlignedOffset(base, 0, unit) < bufferSize && TakesAll(unit, peak, BufferArena(base, bufferSize, unit).capacity)
  }

  /** The callers add one alignment to the measured size.  Nothing less is always enough. */
  lemma SlackIff(unit: nat, peak: nat, slack: nat)
    requires unit > 0 && peak % unit == 0 && peak > 3 * unit
    ensures TakesAllAnywhere(unit, peak, peak + slack) <==> slack >= unit
  {
    GapOfPeak(unit, peak);
    if slack < unit {
      var base := unit - slack;
      DivModUnique(slack - unit, unit, -1, slack);
      assert AlignedOffset(base, 0, unit) == slack by {
        var r := AlignedOffset(base, 0, unit);
        SlackReaches(unit, slack, r);
      }
      TakesAllIff(unit, peak, peak);
      assert BufferArena(base, peak + slack, unit).capacity == peak;
    } else {
      forall base: nat
        ensures AlignedOffset(base, 0, unit) < peak + slack
        ensures TakesAll(unit, peak, BufferArena(base, peak + slack, unit).capacity)
      {
        TakesAllIff(unit, peak, peak + slack - AlignedOffset(base, 0, unit));
      }
    }
  }

  lemma SlackReaches(unit: nat, slack: nat, r: nat)
    requires slack < unit && r < unit && (unit - slack + r) % unit == 0
    ensures r == slack
  {
    if r < slack {
      DivModUnique(unit - slack + r, unit, 0, unit - slack + r);
    } else {
      DivModUnique(unit - slack + r, unit, 1, r - slack);
    }
  }
}
