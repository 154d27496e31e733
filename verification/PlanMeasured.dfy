/** From the graph as it is built: what is planned on a measuring allocator is planned on every
    buffer that has room for the measured size. */
module PlanMeasured {
  import AllocTrace
  import MeasureReplay
  import opened Alignment
  import opened Wrappers
  import opened FreeList
  import opened GraphPlan
  import opened PlanReplay
  import opened PlanSafety
  import opened PlanSpec
  import opened PlanTheorem

  /** The tensors as they come to both allocators: those in the buffer to be planned lie moved,
      below the peak so far. */
  ghost predicate LoadedMoved(g: Graph, pad: seq<nat>, data: seq<Option<int>>, data': seq<Option<int>>,
                              buffer: seq<Buffer>,
                              blocks: seq<FreeBlock>, blocks': seq<FreeBlock>, top: int, z: Move) {
    && Loaded(g, pad, data, buffer, blocks) && Loaded(g, pad, data', buffer, blocks') && MovedBlocks(blocks, blocks', z)
    && (forall t: nat :: t < g.Size() && t < |data| && t < |data'| && t < |buffer| ==>
          data'[t] == MovedTo(BufferOf(g, data, buffer, t), data[t], z.d))
    && (forall t: nat :: OwnLoaded(g, data, buffer, t) ==> data[t].value + Pad(pad, t) <= top)
  }

  lemma OpeningTwin(g: Graph, pad: seq<nat>, data: seq<Option<int>>, data': seq<Option<int>>, buffer: seq<Buffer>,
                    blocks: seq<FreeBlock>, blocks': seq<FreeBlock>, top: int, top': int, z: Move)
    requires LoadedMoved(g, pad, data, data', buffer, blocks, blocks', top, z)
    ensures |data| == |data'| == |buffer| == g.Size()
    ensures Twin(g, pad, Counted(g, data, buffer, blocks, top), Counted(g, data', buffer, blocks', top'), z)
  {
    OpeningFits(g, pad, data, buffer, blocks, top);
    OpeningFits(g, pad, data', buffer, blocks', top');
    OpeningHeads(g, data, buffer, blocks, top);
    var m, r := Counted(g, data, buffer, blocks, top), Counted(g, data', buffer, blocks', top');
    forall t: nat | t < g.Size() ensures BufferOf(g, data', buffer, t) == BufferOf(g, data, buffer, t) {
      assert g.TensorOk(t) && LoadedAt(g, data, buffer, t) && LoadedAt(g, data', buffer, t);
    }
    forall t: nat | OwnHead(g, m, t) ensures BelowAt(pad, m, t) {
      assert OwnLoaded(g, data, buffer, t);
    }
  }

  /** Whatever was planned on the measuring allocator without filling it, and peaks below the
      end of the other buffer, is planned there as well, every tensor at its moved place. */
  lemma MeasuredPlanReplays(g: Graph, pad: seq<nat>, data: seq<Option<int>>, data': seq<Option<int>>,
                            buffer: seq<Buffer>,
                            blocks: seq<FreeBlock>, blocks': seq<FreeBlock>, top: int, top': int, z: Move,
                              evs: seq<Event>)
    requires LoadedMoved(g, pad, data, data', buffer, blocks, blocks', top, z) && Legal(g, evs) && InRange(g, evs)
    requires |data| == |data'| == |buffer| == g.Size()
    requires Fitting(g, Counted(g, data, buffer, blocks, top)) && Fitting(g, Counted(g, data', buffer, blocks', top'))
    requires Walk(g, pad, Counted(g, data, buffer, blocks, top), evs).Some?
    requires z.Fits(Walk(g, pad, Counted(g, data, buffer, blocks, top), evs).value.top)
    ensures Walk(g, pad, Counted(g, data', buffer, blocks', top'), evs).Some?
    ensures Twin(g, pad, Walk(g, pad, Counted(g, data, buffer, blocks, top), evs).value,
                 Walk(g, pad, Counted(g, data', buffer, blocks', top'), evs).value, z)
  {
    hide Twin, Fitting, Legal, InRange, Loaded, MovedBlocks, Sound, After;
    OpeningIsSound(g, pad, data, buffer, blocks, top);
    OpeningTwin(g, pad, data, data', buffer, blocks, blocks', top, top', z);
    WalkTwin(g, pad, Running(Counted(g, data, buffer, blocks, top), Opening(g, pad, data, buffer)),
             Counted(g, data', buffer, blocks', top'), z, evs);
  }

  /** Both walks give the same tensors memory in the buffer, at the same offsets from its
      aligned start, and leave the others alone. */
  ghost predicate SamePlan(g: Graph, m: Plan, r: Plan, am: AllocTrace.Arena, ar: AllocTrace.Arena)
    requires am.Valid() && ar.Valid()
  {
    && |m.data| == |m.buffer| == |r.data| == g.Size() && r.buffer == m.buffer && r.viewSrc == m.viewSrc
    && forall t: nat :: t < |m.data| && t < |r.data| && t < |m.buffer| ==>
         && (m.data[t].Some? <==> r.data[t].Some?)
         && (m.data[t].Some? && m.buffer[t] == Own ==> r.data[t].value - ar.Start() == m.data[t].value - am.Start())
         && (m.buffer[t] != Own ==> r.data[t] == m.data[t])
  }

  /** Nothing lies in the buffer to be planned yet. */
  ghost predicate LoadedElsewhere(g: Graph, pad: seq<nat>, data: seq<Option<int>>, buffer: seq<Buffer>) {
    Loaded(g, pad, data, buffer, []) && Own !in buffer
  }

  lemma ElsewhereIsLoaded(g: Graph, pad: seq<nat>, data: seq<Option<int>>, buffer: seq<Buffer>, a: AllocTrace.Arena)
    requires LoadedElsewhere(g, pad, data, buffer) && a.Valid()
    ensures Loaded(g, pad, data, buffer, a.Whole()) && |data| == |buffer| == g.Size()
    ensures Fitting(g, Counted(g, data, buffer, a.Whole(), a.base))
  {
    AllocTrace.WholeCovers(a, 0);
    OpeningFits(g, pad, data, buffer, a.Whole(), a.base);
  }

  /** The plan in a fresh arena.  None: the source aborts. */
  ghost function PlanIn(g: Graph, pad: seq<nat>, data: seq<Option<int>>, buffer: seq<Buffer>, a: AllocTrace.Arena,
                        evs: seq<Event>): Option<Plan>
    requires LoadedElsewhere(g, pad, data, buffer) && a.Valid() && InRange(g, evs)
  {
    ElsewhereIsLoaded(g, pad, data, buffer, a);
    Walk(g, pad, Counted(g, data, buffer, a.Whole(), a.base), evs)
  }

  /** What the allocator reports as its size after the walk. */
  function MaxSize(a: AllocTrace.Arena, p: Plan): int { p.top - a.base }

  /** A graph is measured in one arena and planned in another: if the measured size is smaller
      than both, the plan is the same. */
  lemma MeasureThenPlan(g: Graph, pad: seq<nat>, data: seq<Option<int>>, buffer: seq<Buffer>,
                        am: AllocTrace.Arena, ar: AllocTrace.Arena, evs: seq<Event>)
    requires LoadedElsewhere(g, pad, data, buffer) && am.Valid() && ar.Valid() && Legal(g, evs) && InRange(g, evs)
    requires PlanIn(g, pad, data, buffer, am, evs).Some?
    requires MaxSize(am, PlanIn(g, pad, data, buffer, am, evs).value) < am.capacity
    requires MaxSize(am, PlanIn(g, pad, data, buffer, am, evs).value) < ar.capacity
    ensures PlanIn(g, pad, data, buffer, ar, evs).Some?
    ensures SamePlan(g, PlanIn(g, pad, data, buffer, am, evs).value, PlanIn(g, pad, data, buffer, ar, evs).value, am,
                     ar)
  {
    hide Fitting, Legal, InRange, Walk, Loaded;
    var z := Move(ar.Start() - am.Start(), ar.capacity - am.capacity, am.Limit());
    ElsewhereIsLoaded(g, pad, data, buffer, am);
    ElsewhereIsLoaded(g, pad, data, buffer, ar);
    FreshMoved(g, pad, data, buffer, am, ar);
    MeasuredPlanReplays(g, pad, data, data, buffer, am.Whole(), ar.Whole(), am.base, ar.base, z, evs);
  }

  lemma FreshMoved(g: Graph, pad: seq<nat>, data: seq<Option<int>>, buffer: seq<Buffer>, am: AllocTrace.Arena,
                   ar: AllocTrace.Arena)
    requires am.Valid() && ar.Valid() && LoadedElsewhere(g, pad, data, buffer)
    requires Loaded(g, pad, data, buffer, am.Whole()) && Loaded(g, pad, data, buffer, ar.Whole())
    ensures LoadedMoved(g, pad, data, data, buffer, am.Whole(), ar.Whole(), am.base,
                        Move(ar.Start() - am.Start(), ar.capacity - am.capacity, am.Limit()))
  {
    forall t: nat | t < g.Size() ensures BufferOf(g, data, buffer, t) != Own {
      assert g.TensorOk(t);
    }
  }

  lemma {:induction false} WalkTop(g: Graph, pad: seq<nat>, p: Plan, evs: seq<Event>)
    requires Fitting(g, p) && InRange(g, evs) && Walk(g, pad, p, evs).Some?
    ensures p.top <= Walk(g, pad, p, evs).value.top
    decreases |evs|
  {
    hide Fitting, Apply;
    if evs == [] {
    } else {
      WalkTop(g, pad, p, evs[..|evs| - 1]);
      ApplyTop(g, pad, Walk(g, pad, p, evs[..|evs| - 1]).value, evs[|evs| - 1]);
    }
  }

  /** The scheduler's way: a buffer of the measured size and one alignment more, wherever it
      lies, takes the plan. */
  lemma MeasuredSizeSuffices(g: Graph, pad: seq<nat>, data: seq<Option<int>>, buffer: seq<Buffer>,
                             am: AllocTrace.Arena, base: nat, evs: seq<Event>)
    requires LoadedElsewhere(g, pad, data, buffer) && am.Valid() && Legal(g, evs) && InRange(g, evs)
    requires PlanIn(g, pad, data, buffer, am, evs).Some?
    requires MaxSize(am, PlanIn(g, pad, data, buffer, am, evs).value) < am.capacity
    ensures var m := PlanIn(g, pad, data, buffer, am, evs).value;
            MaxSize(am, m) >= 0 &&
            var ar := MeasureReplay.BufferArena(base, MaxSize(am, m) + am.alignment, am.alignment);
            && ar.Valid() && PlanIn(g, pad, data, buffer, ar, evs).Some?
            && SamePlan(g, m, PlanIn(g, pad, data, buffer, ar, evs).value, am, ar)
  {
    hide Fitting, Legal, InRange, Walk, Loaded, SamePlan;
    ElsewhereIsLoaded(g, pad, data, buffer, am);
    WalkTop(g, pad, Counted(g, data, buffer, am.Whole(), am.base), evs);
    var size := MaxSize(am, PlanIn(g, pad, data, buffer, am, evs).value);
    MeasureThenPlan(g, pad, data, buffer, am, MeasureReplay.BufferArena(base, size + am.alignment, am.alignment), evs);
  }
}
