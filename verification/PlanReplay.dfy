/** A graph planned on a measuring allocator is planned in the same way on the real buffer:
    every walk goes through, and every tensor lies at the same distance from the start. */
module PlanReplay {
  import opened Wrappers
  import opened FreeList
  import opened GraphAllocator
  import opened GraphPlan
  import opened MeasureReplay
  import opened PlanReturn
  import opened PlanSafety
  import opened PlanSpec
  import opened PlanSteps
  import opened PlanTakeOver
  import opened PlanRelease
  import opened PlanTheorem
  import opened PlanWalk

  /** The other buffer begins d bytes further on, has cut bytes more, and the measured one ends
      at limit. */
  datatype Move = Move(d: int, cut: int, limit: int) {
    /** The peak leaves room in both buffers. */
    predicate Fits(top: int) { top < limit && top < limit + cut }
  }

  function MovedTo(b: Buffer, a: Option<int>, d: int): Option<int> {
    match a case None => None case Some(x) => Some(if b == Own then x + d else x)
  }

  ghost predicate MovedData(g: Graph, m: Plan, r: Plan, d: int) {
    && |m.data| == |m.buffer| == |r.data| == g.Size()
    && forall t: nat :: t < |m.data| && t < |m.buffer| && t < |r.data| ==>
      r.data[t] == MovedTo(m.buffer[t], m.data[t], d)
  }

  ghost predicate MovedBlocks(m: seq<FreeBlock>, r: seq<FreeBlock>, z: Move) {
    && m != [] && m[|m| - 1].End() == z.limit && m[|m| - 1].size + z.cut > 0
    && r == Relocate(m, z.d, z.cut)
  }

  /** All of what lies in the buffer on its own lies below the peak. */
  ghost predicate BelowTop(g: Graph, pad: seq<nat>, p: Plan) {
    forall t: nat :: OwnHead(g, p, t) ==> BelowAt(pad, p, t)
  }

  ghost predicate BelowAt(pad: seq<nat>, p: Plan, t: nat) {
    Placed(p, t) && p.data[t].value + Pad(pad, t) <= p.top
  }

  /** Plan r is plan m in the other buffer. */
  ghost predicate Twin(g: Graph, pad: seq<nat>, m: Plan, r: Plan, z: Move) {
    && Fitting(g, m) && Fitting(g, r)
    && MovedData(g, m, r, z.d) && MovedBlocks(m.blocks, r.blocks, z)
    && r.buffer == m.buffer && r.viewSrc == m.viewSrc && r.nChildren == m.nChildren && r.nViews == m.nViews
    && BelowTop(g, pad, m)
  }

  // ---------- The free list ----------

  /** Allocation stays clear of the end of both buffers, so both make the same choice. */
  lemma TakeMoved(m: seq<FreeBlock>, r: seq<FreeBlock>, z: Move, size: nat)
    requires MovedBlocks(m, r, z) && size > 0 && Take(m, size).Some? && z.Fits(Take(m, size).value.addr + size)
    ensures var q := Take(m, size).value;
            && Take(r, size).Some? && Take(r, size).value.addr == q.addr + z.d
            && MovedBlocks(q.rest, Take(r, size).value.rest, z)
  {
    hide Relocate;
    TakeRelocated(m, z.d, z.cut, size);
    TakeKeepsEnd(m, size);
  }

  lemma TakeKeepsEnd(b: seq<FreeBlock>, size: nat)
    requires b != [] && size > 0 && Take(b, size).Some?
    requires BestFit(b, size) == Some(|b| - 1) ==> size < b[|b| - 1].size
    ensures var rest := Take(b, size).value.rest;
            rest != [] && rest[|rest| - 1].End() == b[|b| - 1].End()
  {
    var k := BestFit(b, size).value;
    var c := CutFront(b, k, size);
    if k < |b| - 1 && b[k].size == size {
      assert c[|c| - 1] == b[|b| - 1];
    }
  }

  lemma ReleaseMoved(m: seq<FreeBlock>, r: seq<FreeBlock>, z: Move, addr: int, size: nat)
    requires MovedBlocks(m, r, z) && WellFormed(m) && size > 0 && Apart(m, addr, size) && addr + size < z.limit
    ensures MovedBlocks(Release(m, addr, size), Release(r, addr + z.d, size), z)
    ensures |Release(r, addr + z.d, size)| == |Release(m, addr, size)|
  {
    hide Relocate, Release, WellFormed;
    BelowLast(m, addr, size);
    ReleaseRelocated(m, z.d, z.cut, addr, size);
    ReleaseKeepsEnd(m, addr, size);
  }

  /** What is not free and ends before the last block does lies below it. */
  lemma BelowLast(b: seq<FreeBlock>, addr: int, size: nat)
    requires b != [] && size > 0 && Apart(b, addr, size) && addr + size < b[|b| - 1].End()
    ensures addr + size <= b[|b| - 1].addr
  {
    var x := addr + size - 1;
    assert Within(x, addr, size);
    if b[|b| - 1].addr <= x {
      InLastBlock(b, x);
    }
  }

  // ---------- One tensor ----------

  lemma RootShares(g: Graph, p: Plan, q: nat)
    requires Fitting(g, p) && Addresses(g, p) && q < g.Size() && p.buffer[q] == Own && p.viewSrc[q].Some?
    ensures var s := p.viewSrc[q].value;
            s < g.Size() && p.buffer[s] == Own && !g.IsView(s) && p.data[s].Some?
    ensures g.IsView(q) || p.data[q] == p.data[p.viewSrc[q].value]
  {
    assert AddressOk(g, p, q) && ViewFits(g, p, q) && g.TensorOk(q);
  }

  lemma SameReusable(g: Graph, m: Plan, r: Plan, d: int, x: nat, j: nat, s: nat)
    requires Fitting(g, m) && Fitting(g, r) && Addresses(g, m) && MovedData(g, m, r, d)
    requires r.buffer == m.buffer && r.viewSrc == m.viewSrc && r.nChildren == m.nChildren && r.nViews == m.nViews
    ensures Reusable(g, m, x, j, s) <==> Reusable(g, r, x, j, s)
  {
    if x < g.Size() && j < |g.Src(x)| && g.Src(x)[j] < g.Size() {
      var q := g.Src(x)[j];
      if m.buffer[q] == Own && m.viewSrc[q].Some? {
        RootShares(g, m, q);
      }
    }
  }

  lemma {:induction false} SameReuse(g: Graph, m: Plan, r: Plan, d: int, x: nat, j: nat)
    requires Fitting(g, m) && Fitting(g, r) && Addresses(g, m) && MovedData(g, m, r, d)
    requires r.buffer == m.buffer && r.viewSrc == m.viewSrc && r.nChildren == m.nChildren && r.nViews == m.nViews
    requires x < g.Size() && j <= |g.Src(x)|
    ensures FindReuse(g, m, x, j) == FindReuse(g, r, x, j)
    decreases |g.Src(x)| - j
  {
    hide Reusable, Fitting, Addresses, MovedData;
    if j < |g.Src(x)| {
      SourceInRange(g, m, r, x, j);
      SameReusable(g, m, r, d, x, j, Root(g, m, x, j));
      SameReuse(g, m, r, d, x, j + 1);
    }
  }

  lemma SourceInRange(g: Graph, m: Plan, r: Plan, x: nat, j: nat)
    requires Fitting(g, m) && Fitting(g, r) && x < g.Size() && j < |g.Src(x)|
    ensures g.Src(x)[j] < g.Size() == |m.viewSrc| == |r.viewSrc|
  {
    assert g.TensorOk(x);
  }

  lemma TakeOverTwin(g: Graph, pad: seq<nat>, m: Plan, r: Plan, z: Move, x: nat, j: nat)
    requires Twin(g, pad, m, r, z) && Addresses(g, m) && Sized(g, pad) && x < g.Size() && !g.IsView(x)
    requires j < |g.Src(x)| && g.Src(x)[j] < g.Size() && Reusable(g, m, x, j, Root(g, m, x, j))
    ensures Root(g, m, x, j) == Root(g, r, x, j) < g.Size()
    ensures var m', r' := TakeOverPlan(m, x, Root(g, m, x, j)), TakeOverPlan(r, x, Root(g, r, x, j));
            Fitting(g, m') && Fitting(g, r') ==> Twin(g, pad, m', r', z)
  {
    hide MovedBlocks, Relocate, ViewFits;
    ReusedBelow(g, pad, m, x, j);
    var m' := TakeOverPlan(m, x, Root(g, m, x, j));
    forall t: nat | OwnHead(g, m', t) ensures BelowAt(pad, m', t) {
      if t != x {
        assert OwnHead(g, m, t) && BelowAt(pad, m, t);
      }
    }
  }

  /** What x takes over lies below the peak. */
  lemma ReusedBelow(g: Graph, pad: seq<nat>, m: Plan, x: nat, j: nat)
    requires Fitting(g, m) && BelowTop(g, pad, m) && Addresses(g, m) && Sized(g, pad) && x < g.Size()
    requires j < |g.Src(x)| && g.Src(x)[j] < g.Size() && Reusable(g, m, x, j, Root(g, m, x, j))
    ensures var s := Root(g, m, x, j);
            s < g.Size() && m.buffer[s] == Own && m.data[s].Some? && m.data[s].value + Pad(pad, x) <= m.top
  {
    var q := g.Src(x)[j];
    assert ViewFits(g, m, q) && g.TensorOk(q);
    assert Pad(pad, x) == Pad(pad, q);
    if m.viewSrc[q].Some? {
      var s := m.viewSrc[q].value;
      RootShares(g, m, q);
      if g.IsView(q) {
        assert OwnHead(g, m, s);
        assert BelowAt(pad, m, s);
        assert Pad(pad, q) <= Pad(pad, s);
      } else {
        assert OwnHead(g, m, q);
        assert BelowAt(pad, m, q);
      }
    } else {
      assert OwnHead(g, m, q);
      assert BelowAt(pad, m, q);
    }
  }

  lemma PlaceViewTwin(g: Graph, pad: seq<nat>, m: Plan, r: Plan, z: Move, v: nat)
    requires Twin(g, pad, m, r, z) && v < g.Size() && g.IsView(v) && Placed(m, g.Base(v))
    ensures Placed(r, g.Base(v)) && g.Base(v) < |m.buffer|
    ensures Fitting(g, PlaceViewPlan(g, m, v)) && Fitting(g, PlaceViewPlan(g, r, v)) ==>
              Twin(g, pad, PlaceViewPlan(g, m, v), PlaceViewPlan(g, r, v), z)
  {
    hide MovedBlocks, Relocate, ViewFits;
    assert g.TensorOk(v);
    var m' := PlaceViewPlan(g, m, v);
    forall t: nat | OwnHead(g, m', t) ensures BelowAt(pad, m', t) {
      assert OwnHead(g, m, t) && BelowAt(pad, m, t);
    }
  }

  lemma PlaceHeadTwin(g: Graph, pad: seq<nat>, m: Plan, r: Plan, z: Move, t: nat)
    requires Twin(g, pad, m, r, z) && t < g.Size() && !g.IsView(t) && Pad(pad, t) > 0
             && Take(m.blocks, Pad(pad, t)).Some?
    requires z.Fits(Take(m.blocks, Pad(pad, t)).value.addr + Pad(pad, t))
    ensures Take(r.blocks, Pad(pad, t)).Some?
    ensures var q, q' := Take(m.blocks, Pad(pad, t)).value, Take(r.blocks, Pad(pad, t)).value;
            var m', r' := HeadPlan(m, t, q, Pad(pad, t)), HeadPlan(r, t, q', Pad(pad, t));
            Fitting(g, m') && Fitting(g, r') ==> Twin(g, pad, m', r', z)
  {
    hide MovedBlocks, Take, Relocate, ViewFits;
    TakeMoved(m.blocks, r.blocks, z, Pad(pad, t));
    var m' := HeadPlan(m, t, Take(m.blocks, Pad(pad, t)).value, Pad(pad, t));
    forall u: nat | OwnHead(g, m', u) ensures BelowAt(pad, m', u) {
      if u != t {
        assert OwnHead(g, m, u) && BelowAt(pad, m, u);
      }
    }
  }

  ghost function HeadPlan(p: Plan, t: nat, q: Placement, size: nat): Plan
    requires t < |p.data| && t < |p.buffer|
  {
    PlaceHeadPlan(p, t, q.addr, q.rest, Max(p.top, q.addr + size))
  }

  /** A tensor gets memory in both buffers in the same way. */
  lemma AllocateNodeTwin(g: Graph, pad: seq<nat>, m: Plan, r: Plan, z: Move, t: nat)
    requires Twin(g, pad, m, r, z) && Addresses(g, m) && Sized(g, pad) && t < g.Size()
    requires AllocateNode(g, pad, m, t).Some? && z.Fits(AllocateNode(g, pad, m, t).value.top)
    ensures AllocateNode(g, pad, r, t).Some?
    ensures Twin(g, pad, AllocateNode(g, pad, m, t).value, AllocateNode(g, pad, r, t).value, z)
  {
    hide Addresses, Sized, MovedBlocks, Relocate, Reusable, BelowTop;
    SizedAt(g, pad, t);
    assert ViewFits(g, m, t) && ViewFits(g, r, t);
    if m.data[t].None? {
      if m.viewSrc[t].Some? {
        PlaceViewTwin(g, pad, m, r, z, t);
      } else {
        SameReuse(g, m, r, z.d, t, 0);
        if g.tensors[t].inplace && FindReuse(g, m, t, 0).Some? {
          TakeOverTwin(g, pad, m, r, z, t, FindReuse(g, m, t, 0).value);
        } else {
          PlaceHeadTwin(g, pad, m, r, z, t);
        }
      }
    }
  }

  lemma SizedAt(g: Graph, pad: seq<nat>, t: nat)
    requires Sized(g, pad) && t < g.Size()
    ensures Pad(pad, t) > 0
  {
  }

  // ---------- The peak only grows ----------

  lemma AllocateNodeTop(g: Graph, pad: seq<nat>, p: Plan, t: nat)
    requires Fitting(g, p) && t < g.Size() && AllocateNode(g, pad, p, t).Some?
    ensures p.top <= AllocateNode(g, pad, p, t).value.top
  {
    hide Fitting, FindReuse, Take;
  }

  lemma {:induction false} AllocateSourcesTop(g: Graph, pad: seq<nat>, p: Plan, m: nat, i: nat, j: nat)
    requires Fitting(g, p) && m < g.Size() && i <= j <= |g.Src(m)| && AllocateSources(g, pad, p, m, j).Some?
    ensures AllocateSources(g, pad, p, m, i).Some?
    ensures AllocateSources(g, pad, p, m, i).value.top <= AllocateSources(g, pad, p, m, j).value.top
  {
    hide Fitting, AllocateNode;
    if i < j {
      var p1 := AllocateSourcesStep(g, pad, p, m, j - 1);
      AllocateNodeTop(g, pad, p1, g.Src(m)[j - 1]);
      AllocateSourcesTop(g, pad, p, m, i, j - 1);
    }
  }

  lemma ReadDoneTop(g: Graph, pad: seq<nat>, p: Plan, m: nat, j: nat)
    requires Fitting(g, p) && m < g.Size() && j < |g.Src(m)| && ReadDone(g, pad, p, m, j).Some?
    ensures ReadDone(g, pad, p, m, j).value.top == p.top
  {
    hide Fitting, Release, FateOf;
  }

  lemma {:induction false} ReadsDoneTop(g: Graph, pad: seq<nat>, p: Plan, m: nat, j: nat)
    requires Fitting(g, p) && m < g.Size() && j <= |g.Src(m)| && ReadsDone(g, pad, p, m, j).Some?
    ensures ReadsDone(g, pad, p, m, j).value.top == p.top
  {
    hide Fitting, ReadDone;
    if j == 0 {
    } else {
      var p1 := ReadsDoneStep(g, pad, p, m, j - 1);
      ReadDoneTop(g, pad, p1, m, j - 1);
      ReadsDoneTop(g, pad, p, m, j - 1);
    }
  }

  lemma ApplyTop(g: Graph, pad: seq<nat>, p: Plan, ev: Event)
    requires Fitting(g, p) && ev.m < g.Size() && Apply(g, pad, p, ev).Some?
    ensures p.top <= Apply(g, pad, p, ev).value.top
  {
    hide Fitting, AllocateNode;
    match ev
    case Start(m) =>
      AllocateSourcesTop(g, pad, p, m, 0, |g.Src(m)|);
      AllocateNodeTop(g, pad, AllocateSources(g, pad, p, m, |g.Src(m)|).value, m);
    case Finish(m) => ReadsDoneTop(g, pad, p, m, |g.Src(m)|);
  }

  // ---------- One event ----------

  lemma SoundParts(g: Graph, pad: seq<nat>, o: Outcome)
    requires Sound(g, pad, o) && o.Running?
    ensures Fitting(g, o.p) && Sized(g, pad) && Addresses(g, o.p) && WellFormed(o.p.blocks)
  {
  }

  lemma {:induction false} AllocateSourcesTwin(g: Graph, pad: seq<nat>, o: Outcome, r: Plan, z: Move, m: nat, j: nat)
    requires Sound(g, pad, o) && o.Running? && Fitting(g, o.p) && Twin(g, pad, o.p, r, z) && m < g.Size()
             && j <= |g.Src(m)|
    requires SourcesDone(g, o.k, m) && AllocateSources(g, pad, o.p, m, j).Some?
    requires z.Fits(AllocateSources(g, pad, o.p, m, j).value.top) && Fitting(g, r)
    ensures AllocateSources(g, pad, r, m, j).Some?
    ensures Twin(g, pad, AllocateSources(g, pad, o.p, m, j).value, AllocateSources(g, pad, r, m, j).value, z)
  {
    hide Sound, Fitting, Twin, SourcesDone, AllocateNode, Sized, Addresses;
    if j == 0 {
    } else {
      AllocateSourcesTop(g, pad, o.p, m, j - 1, j);
      var p1 := AllocateSourcesStep(g, pad, o.p, m, j - 1);
      AllocateSourcesTwin(g, pad, o, r, z, m, j - 1);
      var o1 := AllocateSourcesKeeps(g, pad, o, m, j - 1);
      SoundParts(g, pad, o1);
      AllocateNodeTwin(g, pad, p1, AllocateSources(g, pad, r, m, j - 1).value, z, g.Src(m)[j - 1]);
    }
  }

  lemma StartNodeTwin(g: Graph, pad: seq<nat>, o: Outcome, r: Plan, z: Move, m: nat)
    requires Sound(g, pad, o) && o.Running? && Fitting(g, o.p) && Twin(g, pad, o.p, r, z) && m < g.Size()
    requires SourcesDone(g, o.k, m) && StartNode(g, pad, o.p, m).Some?
    requires z.Fits(StartNode(g, pad, o.p, m).value.top) && Fitting(g, r)
    ensures StartNode(g, pad, r, m).Some?
    ensures Twin(g, pad, StartNode(g, pad, o.p, m).value, StartNode(g, pad, r, m).value, z)
  {
    hide Sound, Fitting, Twin, SourcesDone, AllocateNode, AllocateSources, Sized, Addresses;
    var n := |g.Src(m)|;
    var p1 := AllocateSources(g, pad, o.p, m, n).value;
    AllocateNodeTop(g, pad, p1, m);
    AllocateSourcesTwin(g, pad, o, r, z, m, n);
    var o1 := AllocateSourcesKeeps(g, pad, o, m, n);
    SoundParts(g, pad, o1);
    AllocateNodeTwin(g, pad, p1, AllocateSources(g, pad, r, m, n).value, z, m);
  }

  lemma SameFate(g: Graph, m: Plan, r: Plan, e: (nat, nat))
    requires Fitting(g, m) && Fitting(g, r)
    requires r.buffer == m.buffer && r.viewSrc == m.viewSrc && r.nChildren == m.nChildren && r.nViews == m.nViews
    ensures FateOf(g, m, e) == FateOf(g, r, e)
  {
  }

  /** What is released lies below the peak on its own. */
  lemma FateBelow(g: Graph, pad: seq<nat>, p: Plan, e: (nat, nat))
    requires Fitting(g, p) && Addresses(g, p) && BelowTop(g, pad, p) && ReleaseAllowed(g, pad, p, e)
    ensures match FateOf(g, p, e)
            case FreeHead => g.Target(e) < g.Size() && p.buffer[g.Target(e)] == Own && BelowAt(pad, p, g.Target(e))
            case FreeRoot(s) => s < g.Size() && p.buffer[s] == Own && BelowAt(pad, p, s)
            case _ => true
  {
    var q := g.Target(e);
    match FateOf(g, p, e)
    case FreeHead =>
      assert ViewFits(g, p, q);
      assert OwnHead(g, p, q);
    case FreeRoot(s) =>
      assert ViewFits(g, p, q) && AddressOk(g, p, q) && g.TensorOk(q);
      assert OwnHead(g, p, s);
    case _ =>
  }

  /** Only counters and the free list have changed. */
  lemma SameDataTwin(g: Graph, pad: seq<nat>, m: Plan, r: Plan, m': Plan, r': Plan, z: Move)
    requires Twin(g, pad, m, r, z) && MovedBlocks(m'.blocks, r'.blocks, z) && Fitting(g, m') && Fitting(g, r')
    requires m' == m.(nChildren := m'.nChildren, nViews := m'.nViews, blocks := m'.blocks)
    requires r' == r.(nChildren := m'.nChildren, nViews := m'.nViews, blocks := r'.blocks)
    ensures Twin(g, pad, m', r', z)
  {
    hide MovedBlocks, Fitting;
    forall t: nat | OwnHead(g, m', t) ensures BelowAt(pad, m', t) {
      assert OwnHead(g, m, t) && BelowAt(pad, m, t);
    }
  }

  lemma AfterReadTwin(g: Graph, pad: seq<nat>, m: Plan, r: Plan, z: Move, e: (nat, nat))
    requires Twin(g, pad, m, r, z) && Sized(g, pad) && Addresses(g, m) && WellFormed(m.blocks)
    requires ReleaseAllowed(g, pad, m, e) && AfterReadable(g, m, e) && z.Fits(m.top)
    ensures FateOf(g, r, e) == FateOf(g, m, e) && AfterReadable(g, r, e)
    ensures var m', r' := AfterRead(g, pad, m, e), AfterRead(g, pad, r, e);
            |m'.blocks| == |r'.blocks| && (Fitting(g, m') && Fitting(g, r') ==> Twin(g, pad, m', r', z))
  {
    hide Fitting, MovedBlocks, Addresses, Sized, BelowTop, Release, Relocate, FateOf, WellFormed;
    SameFate(g, m, r, e);
    FateBelow(g, pad, m, e);
    BlocksLength(m.blocks, r.blocks, z);
    match FateOf(g, m, e) {
      case FreeHead =>
        SizedAt(g, pad, g.Target(e));
        ReleaseMoved(m.blocks, r.blocks, z, m.data[g.Target(e)].value, Pad(pad, g.Target(e)));
      case FreeRoot(s) =>
        SizedAt(g, pad, s);
        ReleaseMoved(m.blocks, r.blocks, z, m.data[s].value, Pad(pad, s));
      case _ =>
    }
    if Fitting(g, AfterRead(g, pad, m, e)) && Fitting(g, AfterRead(g, pad, r, e)) {
      SameDataTwin(g, pad, m, r, AfterRead(g, pad, m, e), AfterRead(g, pad, r, e), z);
    }
  }

  lemma BlocksLength(m: seq<FreeBlock>, r: seq<FreeBlock>, z: Move)
    requires MovedBlocks(m, r, z)
    ensures |r| == |m|
  {
  }

  lemma ReadDoneTwin(g: Graph, pad: seq<nat>, o: Outcome, r: Plan, z: Move, m: nat, j: nat)
    requires Sound(g, pad, o) && o.Running? && Fitting(g, o.p) && Twin(g, pad, o.p, r, z) && m < g.Size()
             && j < |g.Src(m)|
    requires m in o.k.started && (m, j) in o.k.edges && ReadDone(g, pad, o.p, m, j).Some? && z.Fits(o.p.top)
             && Fitting(g, r)
    ensures ReadDone(g, pad, r, m, j).Some?
    ensures Twin(g, pad, ReadDone(g, pad, o.p, m, j).value, ReadDone(g, pad, r, m, j).value, z)
  {
    hide Sound, ViewFits, Addresses, Sized, Twin, Release, Relocate, FateOf, AfterRead, WellFormed, Order,
      ReleaseAllowed;
    SoundParts(g, pad, o);
    ReadIsAllowed(g, pad, o, m, j);
    SoundOrder(g, pad, o);
    ReadDoneValue(g, pad, o.p, o.k, m, j);
    AfterReadTwin(g, pad, o.p, r, z, (m, j));
  }

  lemma SoundOrder(g: Graph, pad: seq<nat>, o: Outcome)
    requires Sound(g, pad, o) && o.Running?
    ensures Order(g, o.p, o.k)
  {
  }

  lemma {:induction false} ReadsDoneTwin(g: Graph, pad: seq<nat>, o: Outcome, r: Plan, z: Move, m: nat, j: nat)
    requires Sound(g, pad, o) && o.Running? && Fitting(g, o.p) && Twin(g, pad, o.p, r, z) && m < g.Size()
             && j <= |g.Src(m)|
    requires m in o.k.started && Full(g, o.k, m) && ReadsDone(g, pad, o.p, m, j).Some? && z.Fits(o.p.top)
             && Fitting(g, r)
    ensures ReadsDone(g, pad, r, m, j).Some?
    ensures Twin(g, pad, ReadsDone(g, pad, o.p, m, j).value, ReadsDone(g, pad, r, m, j).value, z)
  {
    hide Sound, Fitting, Twin, ReadDone;
    if j == 0 {
    } else {
      var p1 := ReadsDoneStep(g, pad, o.p, m, j - 1);
      ReadsDoneTwin(g, pad, o, r, z, m, j - 1);
      var o1 := ReadsDoneKeeps(g, pad, o, m, j - 1);
      ReadsDoneTop(g, pad, o.p, m, j - 1);
      ReadDoneTwin(g, pad, o1, ReadsDone(g, pad, r, m, j - 1).value, z, m, j - 1);
    }
  }

  lemma ApplyTwin(g: Graph, pad: seq<nat>, o: Outcome, r: Plan, z: Move, evs: seq<Event>)
    requires Sound(g, pad, o) && o.Running? && Fitting(g, o.p) && Twin(g, pad, o.p, r, z) && Fitting(g, r)
    requires Legal(g, evs) && evs != [] && After(g, o.k, evs[..|evs| - 1]) && evs[|evs| - 1].m < g.Size()
    requires Apply(g, pad, o.p, evs[|evs| - 1]).Some? && z.Fits(Apply(g, pad, o.p, evs[|evs| - 1]).value.top)
    ensures Apply(g, pad, r, evs[|evs| - 1]).Some?
    ensures Twin(g, pad, Apply(g, pad, o.p, evs[|evs| - 1]).value, Apply(g, pad, r, evs[|evs| - 1]).value, z)
  {
    hide Sound, Fitting, Twin, Legal, After, ReadsDone, StartNode;
    ApplyTop(g, pad, o.p, evs[|evs| - 1]);
    match evs[|evs| - 1]
    case Start(m) =>
      StartIsReady(g, o.k, evs);
      StartNodeTwin(g, pad, o, r, z, m);
    case Finish(m) =>
      FinishIsReady(g, o.k, evs);
      ReadsDoneTwin(g, pad, o, r, z, m, |g.Src(m)|);
  }

  lemma {:induction false} WalkTwin(g: Graph, pad: seq<nat>, o: Outcome, r: Plan, z: Move, evs: seq<Event>)
    requires Sound(g, pad, o) && o.Running? && Fitting(g, o.p) && After(g, o.k, []) && Twin(g, pad, o.p, r, z)
             && Fitting(g, r)
    requires Legal(g, evs) && InRange(g, evs) && Walk(g, pad, o.p, evs).Some?
             && z.Fits(Walk(g, pad, o.p, evs).value.top)
    ensures Walk(g, pad, r, evs).Some?
    ensures Twin(g, pad, Walk(g, pad, o.p, evs).value, Walk(g, pad, r, evs).value, z)
    decreases |evs|
  {
    hide Sound, Fitting, Twin, Legal, After, Apply;
    if evs == [] {
    } else {
      var init, ev := evs[..|evs| - 1], evs[|evs| - 1];
      LegalPrefix(g, evs);
      var p1 := Walk(g, pad, o.p, init).value;
      ApplyTop(g, pad, p1, ev);
      WalkTwin(g, pad, o, r, z, init);
      var o1 := WalkKeeps(g, pad, o, init);
      ApplyTwin(g, pad, o1, Walk(g, pad, r, init).value, z, evs);
    }
  }
}
