/** The slack of `MeasureReplay` is needed: for every alignment and every peak of four
    alignments or more, a trace with that peak that a buffer of exactly the peak rejects. */
module ReplayNeedsSlack {
  import opened Wrappers
  import opened Alignment
  import opened FreeList
  import opened AllocTrace

  function At(unit: nat, c: nat): Arena { Arena(0, unit, c) }

  /** Two holes of one unit, `unit + gap` bytes apart, compete for an allocation of one unit.
      With room behind them the higher one is the best fit; without, it is the last resort. */
  function Tight(unit: nat, gap: nat): seq<Op> {
    [Alloc(0, unit), Alloc(1, unit + gap), Alloc(2, unit), Alloc(3, unit), Free(0), Free(2),
     Alloc(4, unit), Free(3), Alloc(5, unit), Free(4), Alloc(6, 2 * unit)]
  }

  predicate Unit(unit: nat, gap: nat) {
    unit > 0 && gap % unit == 0
  }

  lemma PaddedMultiple(unit: nat, n: nat)
    requires unit > 0 && n % unit == 0
    ensures At(unit, 1).Padded(n) == n
  {
    NextMultiple(n, AlignedOffset(0, n, unit), n, unit);
  }

  lemma UnitsAreMultiples(unit: nat, gap: nat)
    requires Unit(unit, gap)
    ensures unit % unit == 0 && (unit + gap) % unit == 0 && 2 * unit % unit == 0
  {
    DivModUnique(unit, unit, 1, 0);
    SumOfMultiples(unit, gap, unit);
    SumOfMultiples(unit, unit, unit);
  }

  lemma AllocFrom(unit: nat, c: nat, s: State, t: nat, n: nat, k: nat)
    requires unit > 0 && c > 0 && n % unit == 0 && t !in s.placed && BestFit(s.blocks, n) == Some(k)
    ensures Step(At(unit, c), s, Alloc(t, n)) ==
            Some(State(CutFront(s.blocks, k, n), s.placed[t := Range(s.blocks[k].addr, n)], s.live + {t},
                       Max(s.maxSize, s.blocks[k].addr + n)))
  {
    PaddedMultiple(unit, n);
  }

  lemma RunFirst(a: Arena, s: State, s': State, ops: seq<Op>, k: nat)
    requires a.Valid() && k < |ops| && Step(a, s, ops[k]) == Some(s')
    ensures Run(a, s, ops[k..]) == Run(a, s', ops[k + 1..])
  {
    assert ops[k..][1..] == ops[k + 1..];
  }

  function Rest(c: nat, at: nat): seq<FreeBlock>
    requires at <= c
  {
    if c == at then [] else [FreeBlock(at, c - at)]
  }

  // ---------- Four allocations, one after the other ----------

  lemma RunInSequence(unit: nat, c: nat, s: State, s': State, ops: seq<Op>, k: nat, t: nat, n: nat)
    requires unit > 0 && n % unit == 0 && 0 < n && k < |ops| && ops[k] == Alloc(t, n) && t !in s.placed
    requires s.maxSize >= 0 && s.maxSize + n <= c && s.blocks == Rest(c, s.maxSize)
    requires s' == State(Rest(c, s.maxSize + n), s.placed[t := Range(s.maxSize, n)], s.live + {t}, s.maxSize + n)
    ensures Run(At(unit, c), s, ops[k..]) == Run(At(unit, c), s', ops[k + 1..])
  {
    AllocFrom(unit, c, s, t, n, 0);
    assert CutFront(s.blocks, 0, n) == Rest(c, s.maxSize + n);
    RunFirst(At(unit, c), s, s', ops, k);
  }

  /** The state after the four allocations, laid out from the start of the arena. */
  function Packed(unit: nat, gap: nat, c: nat): State
    requires c >= 4 * unit + gap
  {
    State(Rest(c, 4 * unit + gap),
          map[0 := Range(0, unit), 1 := Range(unit, unit + gap), 2 := Range(2 * unit + gap, unit),
              3 := Range(3 * unit + gap, unit)],
          {0, 1, 2, 3}, 4 * unit + gap)
  }

  lemma PackFirst(unit: nat, gap: nat, c: nat, s0: State, s2: State)
    requires Unit(unit, gap) && c >= 4 * unit + gap && s0 == State(Rest(c, 0), map[], {}, 0)
    requires s2 == State(Rest(c, 2 * unit + gap), map[0 := Range(0, unit), 1 := Range(unit, unit + gap)], {0, 1},
                         2 * unit + gap)
    ensures Run(At(unit, c), s0, Tight(unit, gap)[0..]) == Run(At(unit, c), s2, Tight(unit, gap)[2..])
  {
    hide AlignedOffset, Run, Step;
    UnitsAreMultiples(unit, gap);
    var s1 := State(Rest(c, unit), s0.placed[0 := Range(0, unit)], s0.live + {0}, unit);
    RunInSequence(unit, c, s0, s1, Tight(unit, gap), 0, 0, unit);
    RunInSequence(unit, c, s1, s2, Tight(unit, gap), 1, 1, unit + gap);
  }

  lemma PackLast(unit: nat, gap: nat, c: nat, s2: State)
    requires Unit(unit, gap) && c >= 4 * unit + gap
    requires s2 == State(Rest(c, 2 * unit + gap), map[0 := Range(0, unit), 1 := Range(unit, unit + gap)], {0, 1},
                         2 * unit + gap)
    ensures Run(At(unit, c), s2, Tight(unit, gap)[2..]) == Run(At(unit, c), Packed(unit, gap, c), Tight(unit, gap)[4..])
  {
    hide AlignedOffset, Run, Step;
    UnitsAreMultiples(unit, gap);
    var s3 := State(Rest(c, 3 * unit + gap), s2.placed[2 := Range(2 * unit + gap, unit)], s2.live + {2},
                    3 * unit + gap);
    RunInSequence(unit, c, s2, s3, Tight(unit, gap), 2, 2, unit);
    RunInSequence(unit, c, s3, Packed(unit, gap, c), Tight(unit, gap), 3, 3, unit);
  }

  lemma PackFromInit(unit: nat, gap: nat, c: nat)
    requires Unit(unit, gap) && c >= 4 * unit + gap
    ensures Run(At(unit, c), Init(At(unit, c)), Tight(unit, gap)) ==
            Run(At(unit, c), Packed(unit, gap, c), Tight(unit, gap)[4..])
  {
    hide Run, Step, Packed;
    var s0 := Init(At(unit, c));
    assert s0.blocks == Rest(c, 0) by { PaddedMultiple(unit, 0); }
    assert Tight(unit, gap)[0..] == Tight(unit, gap);
    var s2 := State(Rest(c, 2 * unit + gap), map[0 := Range(0, unit), 1 := Range(unit, unit + gap)], {0, 1},
                    2 * unit + gap);
    PackFirst(unit, gap, c, s0, s2);
    PackLast(unit, gap, c, s2);
  }

  // ---------- Two holes ----------

  lemma ReleaseBehind(h: FreeBlock, b: seq<FreeBlock>, addr: int, size: nat)
    requires h.End() < addr && h.size > 0
    ensures Release([h] + b, addr, size) == [h] + Release(b, addr, size)
  {
    assert ([h] + b)[1..] == b;
  }

  lemma ReleaseOnto(f: FreeBlock, addr: int, size: nat)
    requires addr + size == f.addr
    ensures Release([f], addr, size) == [FreeBlock(addr, size + f.size)]
  {
    assert [f][1..] == [];
  }

  function Holed(unit: nat, gap: nat, c: nat): State
    requires c >= 4 * unit + gap
  {
    Packed(unit, gap, c).(
    blocks := [FreeBlock(0, unit), FreeBlock(2 * unit + gap, unit)] + Rest(c, 4 * unit + gap), live := {1, 3})
  }

  lemma FirstFree(unit: nat, gap: nat, c: nat) returns (s: State)
    requires Unit(unit, gap) && c >= 4 * unit + gap
    ensures s == Packed(unit, gap, c).(blocks := [FreeBlock(0, unit)] + Rest(c, 4 * unit + gap), live := {1, 2, 3})
    ensures Run(At(unit, c), Packed(unit, gap, c), Tight(unit, gap)[4..]) ==
            Run(At(unit, c), s, Tight(unit, gap)[5..])
  {
    var s4 := Packed(unit, gap, c);
    s := s4.(blocks := [FreeBlock(0, unit)] + Rest(c, 4 * unit + gap), live := {1, 2, 3});
    assert {0, 1, 2, 3} - {0} == {1, 2, 3};
    RunFirst(At(unit, c), s4, s, Tight(unit, gap), 4);
  }

  lemma SecondFree(unit: nat, gap: nat, c: nat, s: State)
    requires Unit(unit, gap) && c >= 4 * unit + gap
    requires s == Packed(unit, gap, c).(blocks := [FreeBlock(0, unit)] + Rest(c, 4 * unit + gap), live := {1, 2, 3})
    ensures Run(At(unit, c), s, Tight(unit, gap)[5..]) ==
            Run(At(unit, c), Holed(unit, gap, c), Tight(unit, gap)[6..])
  {
    var rest := Rest(c, 4 * unit + gap);
    assert {1, 2, 3} - {2} == {1, 3};
    ReleaseBehind(FreeBlock(0, unit), rest, 2 * unit + gap, unit);
    assert Release(rest, 2 * unit + gap, unit) == [FreeBlock(2 * unit + gap, unit)] + rest;
    assert Release(s.blocks, 2 * unit + gap, unit) == Holed(unit, gap, c).blocks;
    RunFirst(At(unit, c), s, Holed(unit, gap, c), Tight(unit, gap), 5);
  }

  // ---------- With room behind the holes ----------

  lemma FillHigher(unit: nat, gap: nat, c: nat) returns (s: State)
    requires Unit(unit, gap) && c > 4 * unit + gap
    ensures s.blocks == [FreeBlock(0, unit)] + Rest(c, 4 * unit + gap) && s.live == {1, 3, 4}
    ensures s.placed == Packed(unit, gap, c).placed[4 := Range(2 * unit + gap, unit)] && s.maxSize == 4 * unit + gap
    ensures Run(At(unit, c), Holed(unit, gap, c), Tight(unit, gap)[6..]) ==
            Run(At(unit, c), s, Tight(unit, gap)[7..])
  {
    UnitsAreMultiples(unit, gap);
    var h := Holed(unit, gap, c);
    assert BestFitUpTo(h.blocks, unit, 1) == Some(0);
    AllocFrom(unit, c, h, 4, unit, 1);
    s := Step(At(unit, c), h, Alloc(4, unit)).value;
    RunFirst(At(unit, c), h, s, Tight(unit, gap), 6);
  }

  /** Everything but the lowest hole is one block again, which the allocation leaves alone. */
  lemma FillLower(unit: nat, gap: nat, c: nat, s7: State) returns (s: State)
    requires Unit(unit, gap) && c > 4 * unit + gap
    requires s7.blocks == [FreeBlock(0, unit)] + Rest(c, 4 * unit + gap) && s7.live == {1, 3, 4}
    requires s7.placed == Packed(unit, gap, c).placed[4 := Range(2 * unit + gap, unit)]
    requires s7.maxSize == 4 * unit + gap
    ensures s.blocks == Rest(c, 3 * unit + gap) && s.live == {1, 4, 5}
    ensures s.placed == s7.placed[5 := Range(0, unit)] && s.maxSize == 4 * unit + gap
    ensures Run(At(unit, c), s7, Tight(unit, gap)[7..]) == Run(At(unit, c), s, Tight(unit, gap)[9..])
  {
    UnitsAreMultiples(unit, gap);
    var rest := Rest(c, 3 * unit + gap);
    var s8 := s7.(blocks := [FreeBlock(0, unit)] + rest, live := {1, 4});
    assert {1, 3, 4} - {3} == {1, 4};
    ReleaseBehind(FreeBlock(0, unit), Rest(c, 4 * unit + gap), 3 * unit + gap, unit);
    ReleaseOnto(FreeBlock(4 * unit + gap, c - (4 * unit + gap)), 3 * unit + gap, unit);
    RunFirst(At(unit, c), s7, s8, Tight(unit, gap), 7);
    assert BestFitUpTo(s8.blocks, unit, 1) == Some(0);
    AllocFrom(unit, c, s8, 5, unit, 0);
    s := Step(At(unit, c), s8, Alloc(5, unit)).value;
    assert s.blocks == rest;
    RunFirst(At(unit, c), s8, s, Tight(unit, gap), 8);
  }

  lemma EndWithRoom(unit: nat, gap: nat, c: nat, s9: State)
    requires Unit(unit, gap) && c > 4 * unit + gap
    requires s9.blocks == Rest(c, 3 * unit + gap) && s9.live == {1, 4, 5}
    requires 4 in s9.placed && 6 !in s9.placed && s9.placed[4] == Range(2 * unit + gap, unit)
    requires s9.maxSize == 4 * unit + gap
    ensures var r := Run(At(unit, c), s9, Tight(unit, gap)[9..]); r.Some? && r.value.maxSize == 4 * unit + gap
  {
    UnitsAreMultiples(unit, gap);
    var s10 := s9.(blocks := Rest(c, 2 * unit + gap), live := {1, 5});
    assert {1, 4, 5} - {4} == {1, 5};
    ReleaseOnto(FreeBlock(3 * unit + gap, c - (3 * unit + gap)), 2 * unit + gap, unit);
    RunFirst(At(unit, c), s9, s10, Tight(unit, gap), 9);
    AllocFrom(unit, c, s10, 6, 2 * unit, 0);
    RunFirst(At(unit, c), s10, Step(At(unit, c), s10, Alloc(6, 2 * unit)).value, Tight(unit, gap), 10);
  }

  // ---------- Without room ----------

  lemma FillLowest(unit: nat, gap: nat) returns (s: State)
    requires Unit(unit, gap)
    ensures var p := 4 * unit + gap;
            && s.blocks == [FreeBlock(2 * unit + gap, unit)] && s.live == {1, 3, 4}
            && s.placed == Packed(unit, gap, p).placed[4 := Range(0, unit)]
            && Run(At(unit, p), Holed(unit, gap, p), Tight(unit, gap)[6..]) ==
               Run(At(unit, p), s, Tight(unit, gap)[7..])
  {
    UnitsAreMultiples(unit, gap);
    var p := 4 * unit + gap;
    var h := Holed(unit, gap, p);
    assert BestFitUpTo(h.blocks, unit, 1) == Some(0);
    AllocFrom(unit, p, h, 4, unit, 0);
    s := Step(At(unit, p), h, Alloc(4, unit)).value;
    RunFirst(At(unit, p), h, s, Tight(unit, gap), 6);
  }

  lemma FillLastResort(unit: nat, gap: nat, s7: State) returns (s: State)
    requires Unit(unit, gap) && s7.blocks == [FreeBlock(2 * unit + gap, unit)] && s7.live == {1, 3, 4}
    requires s7.placed == Packed(unit, gap, 4 * unit + gap).placed[4 := Range(0, unit)]
    ensures s.blocks == [FreeBlock(3 * unit + gap, unit)] && s.live == {1, 4, 5}
    ensures s.placed == s7.placed[5 := Range(2 * unit + gap, unit)]
    ensures var a := At(unit, 4 * unit + gap);
            Run(a, s7, Tight(unit, gap)[7..]) == Run(a, s, Tight(unit, gap)[9..])
  {
    UnitsAreMultiples(unit, gap);
    var p := 4 * unit + gap;
    var s8 := s7.(blocks := [FreeBlock(2 * unit + gap, 2 * unit)], live := {1, 4});
    assert {1, 3, 4} - {3} == {1, 4};
    assert Release(s7.blocks, 3 * unit + gap, unit) == s8.blocks;
    RunFirst(At(unit, p), s7, s8, Tight(unit, gap), 7);
    AllocFrom(unit, p, s8, 5, unit, 0);
    s := Step(At(unit, p), s8, Alloc(5, unit)).value;
    RunFirst(At(unit, p), s8, s, Tight(unit, gap), 8);
  }

  lemma EndWithoutRoom(unit: nat, gap: nat, s9: State)
    requires Unit(unit, gap) && s9.blocks == [FreeBlock(3 * unit + gap, unit)] && s9.live == {1, 4, 5}
    requires 4 in s9.placed && 6 !in s9.placed && s9.placed[4] == Range(0, unit)
    ensures Run(At(unit, 4 * unit + gap), s9, Tight(unit, gap)[9..]).None?
  {
    UnitsAreMultiples(unit, gap);
    var a := At(unit, 4 * unit + gap);
    var s10 := s9.(blocks := [FreeBlock(0, unit), FreeBlock(3 * unit + gap, unit)], live := {1, 5});
    assert {1, 4, 5} - {4} == {1, 5};
    assert Release(s9.blocks, 0, unit) == s10.blocks;
    RunFirst(a, s9, s10, Tight(unit, gap), 9);
    PaddedMultiple(unit, 2 * unit);
    assert Step(a, s10, Tight(unit, gap)[10]) == None;
    assert Tight(unit, gap)[10..] == [Alloc(6, 2 * unit)];
  }

  // ---------- The trace ----------

  /** The trace peaks at `4 * unit + gap`, yet an arena of exactly that size rejects it: once
      the last block is used up, a hole becomes the last resort and the two runs part. */
  lemma ReachingThePeakIsNotEnough(unit: nat, gap: nat, c: nat)
    requires Unit(unit, gap) && c > 4 * unit + gap
    ensures Sized(Tight(unit, gap)) && Run(At(unit, c), Init(At(unit, c)), Tight(unit, gap)).Some?
    ensures Run(At(unit, c), Init(At(unit, c)), Tight(unit, gap)).value.maxSize == 4 * unit + gap
    ensures Run(At(unit, 4 * unit + gap), Init(At(unit, 4 * unit + gap)), Tight(unit, gap)).None?
  {
    hide Run, Step, Init, Rest;
    PackFromInit(unit, gap, c);
    var s5 := FirstFree(unit, gap, c);
    SecondFree(unit, gap, c, s5);
    var s7 := FillHigher(unit, gap, c);
    var s9 := FillLower(unit, gap, c, s7);
    EndWithRoom(unit, gap, c, s9);
    PackFromInit(unit, gap, 4 * unit + gap);
    var t5 := FirstFree(unit, gap, 4 * unit + gap);
    SecondFree(unit, gap, 4 * unit + gap, t5);
    var t7 := FillLowest(unit, gap);
    var t9 := FillLastResort(unit, gap, t7);
    EndWithoutRoom(unit, gap, t9);
  }
}
