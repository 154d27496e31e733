/** What the graph allocator computes, as functions on its state: the reference that
    `GraphAllocator` implements in place and that `PlanSafety` proves safe. */
module PlanSpec {
  import opened Wrappers
  import opened FreeList
  import opened GraphPlan
  import opened PlanSteps
  import opened PlanTakeOver
  import opened PlanRelease
  import opened PlanWalk

  const MAX_FREE_BLOCKS: nat := 256

  function Max(x: int, y: int): int { if x > y then x else y }

  ghost predicate Fitting(g: Graph, p: Plan) {
    && g.WellFormed()
    && |p.data| == |p.buffer| == |p.viewSrc| == |p.nChildren| == |p.nViews| == g.Size()
    && forall t :: 0 <= t < g.Size() ==> ViewFits(g, p, t)
  }

  ghost predicate ViewFits(g: Graph, p: Plan, t: nat) {
    && t < |p.viewSrc| && t < |p.data|
    && (p.viewSrc[t].Some? ==> p.viewSrc[t].value < g.Size())
    && (g.IsView(t) ==> p.viewSrc[t] == Some(g.Base(t)))
    && (!g.IsView(t) && p.viewSrc[t].Some? ==> p.data[t].Some?)
    && (t < |p.buffer| && p.buffer[t] != NoBuffer ==> p.data[t].Some?)
  }

  /** Only data grows, and only tensors that are no views get a new root. */
  lemma StaysFitting(g: Graph, p: Plan, p': Plan)
    requires Fitting(g, p) && Grows(p, p')
    requires |p'.data| == |p'.buffer| == |p'.viewSrc| == |p'.nChildren| == |p'.nViews| == g.Size()
    requires forall t :: 0 <= t < g.Size() && p'.buffer[t] != p.buffer[t] ==> p'.data[t].Some?
    requires forall t :: 0 <= t < g.Size() && p'.viewSrc[t] != p.viewSrc[t] ==>
               !g.IsView(t) && p'.data[t].Some? && p'.viewSrc[t].Some? && p'.viewSrc[t].value < g.Size()
    ensures Fitting(g, p')
  {
    forall t | 0 <= t < g.Size() ensures ViewFits(g, p', t) {
      assert ViewFits(g, p, t);
      assert Placed(p, t) ==> Placed(p', t);
    }
  }

  /** The tensor that x may become a view of when it reuses source j. */
  function Root(g: Graph, p: Plan, x: nat, j: nat): nat
    requires j < |g.Src(x)| && g.Src(x)[j] < |p.viewSrc|
  {
    match p.viewSrc[g.Src(x)[j]]
    case None => g.Src(x)[j]
    case Some(s) => s
  }

  /** The memory of source j may be reused for x. */
  ghost predicate ReuseAt(g: Graph, p: Plan, x: nat, j: nat) {
    j < |g.Src(x)| && g.Src(x)[j] < |p.viewSrc| && Reusable(g, p, x, j, Root(g, p, x, j))
  }

  /** The first source from j on whose memory x may reuse. */
  ghost function FindReuse(g: Graph, p: Plan, x: nat, j: nat): (r: Option<nat>)
    requires Fitting(g, p) && x < g.Size() && j <= |g.Src(x)|
    ensures r.Some? ==>
              && j <= r.value < |g.Src(x)| && g.Src(x)[r.value] < g.Size()
              && Reusable(g, p, x, r.value, Root(g, p, x, r.value))
    ensures forall i :: j <= i < (if r.Some? then r.value else |g.Src(x)|) ==> !ReuseAt(g, p, x, i)
    decreases |g.Src(x)| - j
  {
    assert g.TensorOk(x);
    assert j < |g.Src(x)| ==> ViewFits(g, p, g.Src(x)[j]);
    if j == |g.Src(x)| then None
    else if Reusable(g, p, x, j, Root(g, p, x, j)) then Some(j)
    else FindReuse(g, p, x, j + 1)
  }

  ghost predicate Grows(p: Plan, p': Plan) {
    forall u :: Placed(p, u) ==> Placed(p', u)
  }

  /** Gives tensor t memory if it has none.  None: the source aborts. */
  ghost function AllocateNode(g: Graph, pad: seq<nat>, p: Plan, t: nat): (r: Option<Plan>)
    requires Fitting(g, p) && t < g.Size()
    ensures r.Some? ==> Fitting(g, r.value) && Placed(r.value, t) && Grows(p, r.value)
  {
    assert ViewFits(g, p, t);
    var reuse := if g.tensors[t].inplace && p.viewSrc[t].None? then FindReuse(g, p, t, 0) else None;
    if p.data[t].Some? then Some(p)
    else if p.viewSrc[t].Some? then
      if p.data[p.viewSrc[t].value].None? then None
      else
        var p' := PlaceViewPlan(g, p, t);
        StaysFitting(g, p, p');
        Some(p')
    else if reuse.Some? then
      assert ViewFits(g, p, g.Src(t)[reuse.value]);
      var p' := TakeOverPlan(p, t, Root(g, p, t, reuse.value));
      StaysFitting(g, p, p');
      Some(p')
    else
      match Take(p.blocks, Pad(pad, t))
      case None => None
      case Some(q) =>
        var p' := PlaceHeadPlan(p, t, q.addr, q.rest, Max(p.top, q.addr + Pad(pad, t)));
        StaysFitting(g, p, p');
        Some(p')
  }

  /** Memory for the sources of node m from the first on, up to but not including source j. */
  ghost function AllocateSources(g: Graph, pad: seq<nat>, p: Plan, m: nat, j: nat): (r: Option<Plan>)
    requires Fitting(g, p) && m < g.Size() && j <= |g.Src(m)|
    ensures r.Some? ==> Fitting(g, r.value) && Grows(p, r.value)
  {
    assert g.TensorOk(m);
    if j == 0 then Some(p)
    else match AllocateSources(g, pad, p, m, j - 1)
      case None => None
      case Some(p1) => AllocateNode(g, pad, p1, g.Src(m)[j - 1])
  }

  ghost function StartNode(g: Graph, pad: seq<nat>, p: Plan, m: nat): (r: Option<Plan>)
    requires Fitting(g, p) && m < g.Size()
    ensures r.Some? ==> Fitting(g, r.value)
  {
    match AllocateSources(g, pad, p, m, |g.Src(m)|)
    case None => None
    case Some(p1) => AllocateNode(g, pad, p1, m)
  }

  /** Strikes off the read (m, j).  None: the table of free blocks is full. */
  ghost function ReadDone(g: Graph, pad: seq<nat>, p: Plan, m: nat, j: nat): (r: Option<Plan>)
    requires Fitting(g, p) && m < g.Size() && j < |g.Src(m)|
    ensures r.Some? ==> Fitting(g, r.value)
  {
    assert g.TensorOk(m);
    var q := g.Target((m, j));
    assert ViewFits(g, p, q);
    assert p.viewSrc[q].Some? ==> ViewFits(g, p, p.viewSrc[q].value);
    var fate := FateOf(g, p, (m, j));
    var p' := AfterRead(g, pad, p, (m, j));
    StaysFitting(g, p, p');
    if |p'.blocks| > MAX_FREE_BLOCKS && (fate.FreeHead? || fate.FreeRoot?) then None else Some(p')
  }

  /** The first j reads of node m struck off. */
  ghost function ReadsDone(g: Graph, pad: seq<nat>, p: Plan, m: nat, j: nat): (r: Option<Plan>)
    requires Fitting(g, p) && m < g.Size() && j <= |g.Src(m)|
    ensures r.Some? ==> Fitting(g, r.value)
  {
    if j == 0 then Some(p)
    else match ReadsDone(g, pad, p, m, j - 1)
      case None => None
      case Some(p1) => ReadDone(g, pad, p1, m, j - 1)
  }

  datatype Event = Start(m: nat) | Finish(m: nat)

  ghost function Apply(g: Graph, pad: seq<nat>, p: Plan, ev: Event): (r: Option<Plan>)
    requires Fitting(g, p) && ev.m < g.Size()
    ensures r.Some? ==> Fitting(g, r.value)
  {
    match ev
    case Start(m) => StartNode(g, pad, p, m)
    case Finish(m) => ReadsDone(g, pad, p, m, |g.Src(m)|)
  }

  ghost function Walk(g: Graph, pad: seq<nat>, p: Plan, evs: seq<Event>): (r: Option<Plan>)
    requires Fitting(g, p) && forall ev :: ev in evs ==> ev.m < g.Size()
    ensures r.Some? ==> Fitting(g, r.value)
    decreases |evs|
  {
    if evs == [] then Some(p)
    else match Walk(g, pad, p, evs[..|evs| - 1])
      case None => None
      case Some(p1) => Apply(g, pad, p1, evs[|evs| - 1])
  }

  // ---------- Whether anything gets lost ----------

  /** No release among the first j reads of node m goes through a tensor smaller than the end of its
      chain. */
  ghost predicate ReadsWhole(g: Graph, pad: seq<nat>, p: Plan, m: nat, j: nat)
    requires Fitting(g, p) && m < g.Size() && j <= |g.Src(m)|
  {
    j == 0 ||
    (&& ReadsWhole(g, pad, p, m, j - 1)
     && match ReadsDone(g, pad, p, m, j - 1)
        case None => true
        case Some(p1) => ReadWhole(g, pad, p1, (m, j - 1)))
  }

  ghost predicate EventWhole(g: Graph, pad: seq<nat>, p: Plan, ev: Event)
    requires Fitting(g, p) && ev.m < g.Size()
  {
    match ev
    case Start(m) => true
    case Finish(m) => ReadsWhole(g, pad, p, m, |g.Src(m)|)
  }

  ghost predicate WalkWhole(g: Graph, pad: seq<nat>, p: Plan, evs: seq<Event>)
    requires Fitting(g, p) && forall ev :: ev in evs ==> ev.m < g.Size()
    decreases |evs|
  {
    evs == [] ||
    (&& WalkWhole(g, pad, p, evs[..|evs| - 1])
     && match Walk(g, pad, p, evs[..|evs| - 1])
        case None => true
        case Some(p1) => EventWhole(g, pad, p1, evs[|evs| - 1]))
  }
}
