/** The graph allocator: plans the memory of every tensor of a graph with one walk over it,
    counting readers and views, reusing parents in place and releasing what is done with. */
module GraphAllocator {
  import opened Wrappers
  import opened Alignment
  import opened FreeList
  import opened GraphPlan
  import opened PlanSteps
  import opened PlanTakeOver
  import opened PlanRelease
  import opened PlanWalk
  import opened PlanSpec
  import opened PlanSafety
  import opened PlanReturn
  import opened PlanTheorem
  import TensorAllocator

  ghost function Padding(g: Graph, alignment: nat): seq<nat>
    requires alignment > 0
  {
    seq(g.Size(), t requires 0 <= t < g.Size() => AlignedOffset(0, g.NBytes(t), alignment))
  }

  lemma PaddingSized(g: Graph, alignment: nat)
    requires alignment > 0 && g.WellFormed()
    ensures Sized(g, Padding(g, alignment))
  {
    forall t | 0 <= t < g.Size() && g.IsView(t)
      ensures Pad(Padding(g, alignment), t) <= Pad(Padding(g, alignment), g.Base(t))
    {
      assert g.TensorOk(t);
      AlignedOffsetMonotone(g.NBytes(t), g.NBytes(g.Base(t)), alignment);
    }
    forall t | 0 <= t < g.Size() ensures 0 < g.NBytes(t) <= Pad(Padding(g, alignment), t) {
      assert g.TensorOk(t);
    }
  }

  /** Striking off a read, by the fate of the tensor read. */
  lemma ReadDoneIs(g: Graph, pad: seq<nat>, p: Plan, m: nat, j: nat)
    requires Fitting(g, p) && m < g.Size() && j < |g.Src(m)|
    ensures AfterReadable(g, p, (m, j))
    ensures var fate, p' := FateOf(g, p, (m, j)), AfterRead(g, pad, p, (m, j));
            PlanSpec.ReadDone(g, pad, p, m, j) ==
            if |p'.blocks| > MAX_FREE_BLOCKS && (fate.FreeHead? || fate.FreeRoot?) then None else Some(p')
  {
    assert g.TensorOk(m);
    var q := g.Target((m, j));
    assert ViewFits(g, p, q);
    assert p.viewSrc[q].Some? ==> ViewFits(g, p, p.viewSrc[q].value);
  }

  class GraphAllocator {
    const g: Graph
    const talloc: TensorAllocator.Allocator
    var data: seq<Option<int>>
    var buffer: seq<Buffer>
    var viewSrc: seq<Option<nat>>
    var nChildren: seq<int>
    var nViews: seq<int>

    /** The tensors come with the memory they already have, if any. */
    constructor (g: Graph, talloc: TensorAllocator.Allocator, data: seq<Option<int>>, buffer: seq<Buffer>)
      ensures this.g == g && this.talloc == talloc && this.data == data && this.buffer == buffer
      ensures viewSrc == seq(g.Size(), t requires 0 <= t < g.Size() => if g.IsView(t) then Some(g.Base(t)) else None)
      ensures nChildren == nViews == seq(g.Size(), _ => 0)
    {
      this.g, this.talloc, this.data, this.buffer := g, talloc, data, buffer;
      viewSrc := seq(g.Size(), t requires 0 <= t < g.Size() => if g.IsView(t) then Some(g.Base(t)) else None);
      nChildren, nViews := seq(g.Size(), _ => 0), seq(g.Size(), _ => 0);
    }

    ghost function P(): Plan
      requires talloc.Shaped()
      reads this, talloc, talloc.freeBlocks
    {
      Plan(data, buffer, viewSrc, nChildren, nViews, talloc.Blocks(), talloc.base + talloc.maxSize)
    }

    ghost predicate Valid()
      reads this, talloc, talloc.freeBlocks
    {
      talloc.Valid() && Fitting(g, P())
    }

    ghost function Pads(): seq<nat>
      requires talloc.alignment > 0
    {
      Padding(g, talloc.alignment)
    }

    // ---------- Memory for one tensor ----------

    method InitView(v: nat)
      requires Valid() && v < g.Size() && viewSrc[v].Some? && viewSrc[v].value < g.Size()
      requires data[viewSrc[v].value].Some?
      modifies this`data, this`buffer
      ensures talloc.Valid()
      ensures data == old(data)[v := Some(old(data)[viewSrc[v].value].value + g.tensors[v].offs)]
      ensures buffer == old(buffer)[v := old(buffer)[viewSrc[v].value]]
    {
      var s := viewSrc[v].value;
      buffer := buffer[v := buffer[s]];
      data := data[v := Some(data[s].value + g.tensors[v].offs)];
    }

    /** The tensor x becomes a view of s in s's memory. */
    method TakeOver(x: nat, s: nat)
      requires Valid() && x < g.Size() && s < g.Size() && data[s].Some? && !g.IsView(x)
      modifies this`data, this`buffer, this`viewSrc, this`nViews
      ensures talloc.Valid() && P() == TakeOverPlan(old(P()), x, s)
    {
      viewSrc := viewSrc[x := Some(s)];
      nViews := nViews[s := nViews[s] + 1];
      buffer := buffer[x := buffer[s]];
      data := data[x := data[s]];
    }

    /** The first source whose memory x may reuse, -1 if there is none. */
    method FindReuseIndex(x: nat) returns (r: int)
      requires Valid() && x < g.Size()
      ensures r == match FindReuse(g, P(), x, 0) case None => -1 case Some(j) => j
    {
      ghost var p := P();
      var srcs := g.Src(x);
      for j := 0 to |srcs|
        invariant FindReuse(g, p, x, 0) == FindReuse(g, p, x, j)
      {
        assert g.TensorOk(x) && ViewFits(g, p, srcs[j]);
        var q := srcs[j];
        if buffer[q] != Own {
          continue;
        }
        if data[q].Some? && nChildren[q] == 1 && nViews[q] == 0 && g.tensors[x].layout == g.tensors[q].layout {
          if viewSrc[q].Some? {
            var s := viewSrc[q].value;
            if nViews[s] == 1 && nChildren[s] == 0 && data[s] == data[q] {
              return j;
            }
          } else {
            return j;
          }
        }
      }
      r := -1;
    }

    /** Memory from the buffer.  False: no block is large enough, or there is none at all. */
    method PlaceHead(t: nat) returns (ok: bool)
      requires Valid() && t < g.Size()
      modifies this`data, this`buffer, talloc`nFreeBlocks, talloc`maxSize, talloc.freeBlocks
      ensures talloc.Valid() && (ok <==> Take(old(P()).blocks, Pad(Pads(), t)).Some?)
      ensures ok ==> var q := Take(old(P()).blocks, Pad(Pads(), t)).value;
                     P() == PlaceHeadPlan(old(P()), t, q.addr, q.rest,
                                          PlanSpec.Max(old(P()).top, q.addr + Pad(Pads(), t)))
    {
      assert g.TensorOk(t);
      var addr := talloc.Alloc(g.NBytes(t));
      ok := addr.Some?;
      if ok {
        data := data[t := addr];
        buffer := buffer[t := Own];
      }
    }

    method AllocateNode(t: nat) returns (ok: bool)
      requires Valid() && t < g.Size()
      modifies this`data, this`buffer, this`viewSrc, this`nViews
      modifies talloc`nFreeBlocks, talloc`maxSize, talloc.freeBlocks
      ensures talloc.Valid() && (ok <==> PlanSpec.AllocateNode(g, Pads(), old(P()), t).Some?)
      ensures ok ==> P() == PlanSpec.AllocateNode(g, Pads(), old(P()), t).value
    {
      assert ViewFits(g, P(), t);
      if data[t].Some? {
        return true;
      }
      if viewSrc[t].Some? {
        if data[viewSrc[t].value].None? {
          return false;
        }
        InitView(t);
        return true;
      }
      if g.tensors[t].inplace {
        var j := FindReuseIndex(t);
        if j >= 0 {
          var q := g.Src(t)[j];
          assert ViewFits(g, P(), q);
          TakeOver(t, if viewSrc[q].Some? then viewSrc[q].value else q);
          return true;
        }
      }
      ok := PlaceHead(t);
    }

    // ---------- One node ----------

    /** Memory for everything node m reads, then for m itself. */
    method StartNode(m: nat) returns (ok: bool)
      requires Valid() && m < g.Size()
      modifies this`data, this`buffer, this`viewSrc, this`nViews
      modifies talloc`nFreeBlocks, talloc`maxSize, talloc.freeBlocks
      ensures talloc.Valid() && (ok <==> PlanSpec.StartNode(g, Pads(), old(P()), m).Some?)
      ensures ok ==> P() == PlanSpec.StartNode(g, Pads(), old(P()), m).value
    {
      hide ViewFits, PlanSpec.AllocateNode;
      var srcs := g.Src(m);
      assert g.TensorOk(m);
      for j := 0 to |srcs|
        invariant Valid() && AllocateSources(g, Pads(), old(P()), m, j) == Some(P())
      {
        hide Fitting;
        AllocateSourcesNext(g, Pads(), old(P()), m, j);
        var done := AllocateNode(srcs[j]);
        if !done {
          AllocateSourcesFail(g, Pads(), old(P()), m, j + 1, |srcs|);
          return false;
        }
      }
      ok := AllocateNode(m);
    }

    /** Strikes off the read (m, j) and releases what nobody needs any more.  False: the table
        of free blocks is full. */
    method ReadDone(m: nat, j: nat) returns (ok: bool)
      requires Valid() && m < g.Size() && j < |g.Src(m)| && ReleaseAllowed(g, Pads(), P(), (m, j))
      modifies this`nChildren, this`nViews, talloc`nFreeBlocks, talloc.freeBlocks
      ensures talloc.Valid() && (ok <==> PlanSpec.ReadDone(g, Pads(), old(P()), m, j).Some?)
      ensures ok ==> P() == PlanSpec.ReadDone(g, Pads(), old(P()), m, j).value
      ensures ok ==> Struck(Pads(), old(P()), P(), g.Src(m)[j])
    {
      hide PlanSpec.ReadDone, Struck;
      ReadDoneIs(g, Pads(), P(), m, j);
      assert g.TensorOk(m);
      var q := g.Src(m)[j];
      assert ViewFits(g, P(), q);
      ok := true;
      ghost var p, fate := P(), FateOf(g, P(), (m, j));
      nChildren := nChildren[q := nChildren[q] - 1];
      assert P() == UsePlan(p, q);
      if nChildren[q] == 0 && nViews[q] == 0 {
        if viewSrc[q].Some? {
          var s := viewSrc[q].value;
          assert ViewFits(g, old(P()), s);
          nViews := nViews[s := nViews[s] - 1];
          assert P() == LastPlan(g, p, (m, j), s);
          if nViews[s] == 0 && nChildren[s] == 0 {
            assert fate == if p.buffer[s] == Own then FreeRoot(s) else LetGo(s);
            ok := FreeNode(s);
          }
        } else {
          assert fate == if p.buffer[q] == Own then FreeHead else Kept;
          ok := FreeNode(q);
        }
      }
      if ok {
        PaddingSized(g, talloc.alignment);
        ReadStrikes(g, Pads(), p, m, j);
      }
    }

    /** Gives the memory of t back, if it is memory of this buffer. */
    method FreeNode(t: nat) returns (ok: bool)
      requires talloc.Valid() && g.WellFormed() && t < g.Size() == |data| == |buffer|
      requires buffer[t] == Own ==> data[t].Some? && Apart(talloc.Blocks(), data[t].value, Pad(Pads(), t))
      modifies talloc`nFreeBlocks, talloc.freeBlocks
      ensures talloc.Valid()
      ensures buffer[t] != Own ==> ok && talloc.Blocks() == old(talloc.Blocks())
      ensures buffer[t] == Own ==>
                var b := Release(old(talloc.Blocks()), data[t].value, Pad(Pads(), t));
                (ok <==> |b| <= MAX_FREE_BLOCKS) && (ok ==> talloc.Blocks() == b)
    {
      if buffer[t] != Own {
        return true;
      }
      assert g.TensorOk(t);
      ok := talloc.Free(data[t].value, g.NBytes(t));
    }

    /** One read struck off, with the books kept along. */
    method FinishRead(m: nat, j: nat, ghost o: Outcome) returns (ok: bool, ghost o': Outcome)
      requires Valid() && m < g.Size() && j < |g.Src(m)| && o.Running? && o.p == P() && Sound(g, Pads(), o)
      requires m in o.k.started && (m, j) in o.k.edges
      modifies this`nChildren, this`nViews, talloc`nFreeBlocks, talloc.freeBlocks
      ensures talloc.Valid() && (ok <==> PlanSpec.ReadDone(g, Pads(), old(P()), m, j).Some?)
      ensures ok ==> Valid() && PlanSpec.ReadDone(g, Pads(), old(P()), m, j) == Some(P())
      ensures ok ==> o'.Running? && o'.p == P() && Sound(g, Pads(), o') && Progress(o.k, o'.k, (m, j))
    {
      hide Sound, PlanSpec.ReadDone;
      ReadIsAllowed(g, Pads(), o, m, j);
      ok := ReadDone(m, j);
      o' := o;
      if ok {
        o' := ReadDoneKeeps(g, Pads(), o, m, j);
      }
    }

    /** All reads of node m struck off. */
    method FinishNode(m: nat, ghost k: Books) returns (ok: bool)
      requires Valid() && m < g.Size() && Sound(g, Pads(), Running(P(), k)) && m in k.started && Full(g, k, m)
      modifies this`nChildren, this`nViews, talloc`nFreeBlocks, talloc.freeBlocks
      ensures talloc.Valid() && (ok <==> ReadsDone(g, Pads(), old(P()), m, |g.Src(m)|).Some?)
      ensures ok ==> Valid() && ReadsDone(g, Pads(), old(P()), m, |g.Src(m)|) == Some(P())
    {
      hide Sound, Fitting, PlanSpec.ReadDone;
      ghost var p0, pads := P(), Pads();
      ghost var o := Running(p0, k);
      NoReads(k.edges, m);
      for j := 0 to |g.Src(m)|
        invariant Valid() && o.Running? && o.p == P() && Sound(g, pads, o)
        invariant o.k.started == k.started && o.k.edges == k.edges - Reads(m, j)
        invariant ReadsDone(g, pads, p0, m, j) == Some(P())
      {
        ReadsDoneNext(g, pads, p0, m, j);
        MoreReads(k.edges, m, j);
        ok, o := FinishRead(m, j, o);
        if !ok {
          ReadsDoneFail(g, pads, p0, m, j + 1, |g.Src(m)|);
          return;
        }
      }
      ok := true;
    }

    // ---------- The counting pass ----------

    /** A view of a tensor that has memory already, met for the first time. */
    method TouchView(v: nat)
      requires ViewsLoaded() && v < g.Size() && g.IsView(v)
      modifies this`data, this`buffer
      ensures data == old(data) && buffer == old(buffer)[v := BufferOf(g, old(data), old(buffer), v)]
      ensures ViewsLoaded()
    {
      assert LoadedAt(g, data, buffer, v) && g.TensorOk(v) && LoadedAt(g, data, buffer, g.Base(v));
      if buffer[v] == NoBuffer && data[v].Some? {
        var s := viewSrc[v].value;
        buffer := buffer[v := buffer[s]];
        data := data[v := Some(data[s].value + g.tensors[v].offs)];
      }
      forall t | 0 <= t < g.Size() ensures LoadedAt(g, data, buffer, t) {
        assert LoadedAt(g, old(data), old(buffer), t) && g.TensorOk(t);
      }
    }

    ghost predicate ViewsLoaded()
      reads this
    {
      && g.WellFormed() && |data| == |buffer| == |viewSrc| == g.Size()
      && (forall t :: 0 <= t < g.Size() ==> LoadedAt(g, data, buffer, t))
      && (forall t :: 0 <= t < g.Size() && g.IsView(t) ==> viewSrc[t] == Some(g.Base(t)))
    }

    /** The buffers of the views among the first i nodes are known; the rest is as before. */
    ghost predicate Touched(buffer0: seq<Buffer>, i: nat)
      reads this
    {
      && |buffer0| == |buffer| == |data| && i <= |g.nodes|
      && (forall t :: 0 <= t < |buffer| ==> buffer[t] == buffer0[t] || buffer[t] == BufferOf(g, data, buffer0, t))
      && (forall t :: 0 <= t < |buffer| && !g.IsView(t) ==> buffer[t] == buffer0[t])
      && (forall n :: 0 <= n < i && g.IsView(g.nodes[n]) && g.nodes[n] < |buffer| ==>
            buffer[g.nodes[n]] == BufferOf(g, data, buffer0, g.nodes[n]))
    }

    method CountReaders()
      requires ViewsLoaded() && |nChildren| == |nViews| == g.Size()
      requires forall t :: 0 <= t < g.Size() ==> nChildren[t] == nViews[t] == 0
      modifies this`data, this`buffer, this`nChildren, this`nViews
      ensures ViewsLoaded() && data == old(data) && Touched(old(buffer), |g.nodes|)
      ensures |nChildren| == |nViews| == g.Size()
      ensures forall t :: 0 <= t < g.Size() ==> nChildren[t] == |ReadersOf(g, t)| && nViews[t] == |ViewsOf(g, t)|
    {
      ghost var buffer0 := buffer;
      for i := 0 to |g.nodes|
        invariant ViewsLoaded() && data == old(data) && Touched(buffer0, i)
        invariant |nChildren| == |nViews| == g.Size()
        invariant forall t :: 0 <= t < g.Size() ==> nChildren[t] == |SeenReads(g, i, 0, t)|
        invariant forall t :: 0 <= t < g.Size() ==> nViews[t] == |SeenViews(g, i, t)|
      {
        hide ViewsLoaded, Touched;
        CountView(i, buffer0);
        CountSources(i, buffer0);
      }
      forall t | 0 <= t < g.Size()
        ensures nChildren[t] == |ReadersOf(g, t)| && nViews[t] == |ViewsOf(g, t)|
      {
        SeenAll(g, t);
      }
    }

    /** Node i, if it is a view, counts as a view of its base. */
    method CountView(i: nat, ghost buffer0: seq<Buffer>)
      requires ViewsLoaded() && i < |g.nodes| && Touched(buffer0, i) && |nViews| == g.Size()
      requires forall t :: 0 <= t < g.Size() ==> nViews[t] == |SeenViews(g, i, t)|
      modifies this`data, this`buffer, this`nViews
      ensures ViewsLoaded() && data == old(data) && Touched(buffer0, i + 1) && |nViews| == g.Size()
      ensures forall t :: 0 <= t < g.Size() ==> nViews[t] == |SeenViews(g, i + 1, t)|
    {
      var node := g.nodes[i];
      assert g.TensorOk(node);
      if g.IsView(node) {
        nViews := nViews[g.Base(node) := nViews[g.Base(node)] + 1];
        TouchView(node);
      }
      forall t: nat { SeeView(g, i, t); }
    }

    method CountSources(i: nat, ghost buffer0: seq<Buffer>)
      requires ViewsLoaded() && i < |g.nodes| && Touched(buffer0, i + 1) && |nChildren| == g.Size()
      requires forall t :: 0 <= t < g.Size() ==> nChildren[t] == |SeenReads(g, i, 0, t)|
      modifies this`data, this`buffer, this`nChildren
      ensures ViewsLoaded() && data == old(data) && Touched(buffer0, i + 1) && |nChildren| == g.Size()
      ensures forall t :: 0 <= t < g.Size() ==> nChildren[t] == |SeenReads(g, i + 1, 0, t)|
    {
      for j := 0 to |g.Src(g.nodes[i])|
        invariant ViewsLoaded() && data == old(data) && Touched(buffer0, i + 1) && |nChildren| == g.Size()
        invariant forall t :: 0 <= t < g.Size() ==> nChildren[t] == |SeenReads(g, i, j, t)|
      {
        CountSource(i, j, buffer0);
      }
      forall t: nat { SeeRow(g, i, t); }
    }

    method CountSource(i: nat, j: nat, ghost buffer0: seq<Buffer>)
      requires ViewsLoaded() && i < |g.nodes| && j < |g.Src(g.nodes[i])| && Touched(buffer0, i + 1)
      requires |nChildren| == g.Size() && forall t :: 0 <= t < g.Size() ==> nChildren[t] == |SeenReads(g, i, j, t)|
      modifies this`data, this`buffer, this`nChildren
      ensures ViewsLoaded() && data == old(data) && Touched(buffer0, i + 1) && |nChildren| == g.Size()
      ensures forall t :: 0 <= t < g.Size() ==> nChildren[t] == |SeenReads(g, i, j + 1, t)|
    {
      var parent := g.Src(g.nodes[i])[j];
      assert g.TensorOk(g.nodes[i]);
      nChildren := nChildren[parent := nChildren[parent] + 1];
      if g.IsView(parent) {
        assert g.TensorOk(parent) && LoadedAt(g, data, buffer, parent);
        TouchView(parent);
      }
      forall t: nat { SeeRead(g, i, j, t); }
    }

    // ---------- The walk ----------

    /** What is known after the events evs of a walk that began in plan p0. */
    ghost predicate Reached(p0: Plan, evs: seq<Event>, o: Outcome)
      reads this, talloc, talloc.freeBlocks
    {
      match o
      case Aborted => false
      case Running(p, k) =>
        && Valid() && p == P() && Sound(g, Pads(), o) && After(g, k, evs)
        && Fitting(g, p0) && InRange(g, evs) && Walk(g, Pads(), p0, evs) == Some(P())
    }

    /** The source aborts somewhere in the walk. */
    ghost predicate Stops(p0: Plan, all: seq<Event>)
      reads this, talloc, talloc.freeBlocks
    {
      talloc.Valid() && Fitting(g, p0) && InRange(g, all) && Walk(g, Pads(), p0, all).None?
    }

    /** One event of the walk. */
    method Advance(ev: Event, ghost p0: Plan, ghost evs: seq<Event>, ghost o: Outcome)
      returns (ok: bool, ghost o': Outcome)
      requires Reached(p0, evs, o) && Legal(g, evs + [ev]) && ev.m < g.Size()
      modifies this`data, this`buffer, this`viewSrc, this`nChildren, this`nViews
      modifies talloc`nFreeBlocks, talloc`maxSize, talloc.freeBlocks
      ensures talloc.Valid() && InRange(g, evs + [ev])
      ensures ok <==> Walk(g, Pads(), p0, evs + [ev]).Some?
      ensures ok ==> Reached(p0, evs + [ev], o')
    {
      hide Sound, Fitting, After;
      o' := o;
      ghost var more := evs + [ev];
      assert more[..|more| - 1] == evs && more[|more| - 1] == ev;
      WalkOne(g, Pads(), p0, evs, ev);
      match ev
      case Start(m) =>
        ok := StartNode(m);
        if ok { o' := StartEvent(g, Pads(), o, more); }
      case Finish(m) =>
        FinishIsReady(g, o.k, more);
        ok := FinishNode(m, o.k);
        if ok { o' := FinishEvent(g, Pads(), o, more); }
    }

    /** The plan the counting pass sets up. */
    ghost function Opened(): Plan
      requires talloc.Shaped() && |data| == |buffer| == g.Size()
      reads this, talloc, talloc.freeBlocks
    {
      Counted(g, data, buffer, talloc.Blocks(), talloc.base + talloc.maxSize)
    }

    method Open()
      requires talloc.Valid() && Loaded(g, Pads(), data, buffer, talloc.Blocks())
      requires viewSrc == seq(g.Size(), t requires 0 <= t < g.Size() => if g.IsView(t) then Some(g.Base(t)) else None)
      requires nChildren == nViews == seq(g.Size(), _ => 0)
      modifies this`data, this`buffer, this`nChildren, this`nViews
      ensures talloc.Valid() && P() == old(Opened())
    {
      CountReaders();
      forall t | 0 <= t < g.Size() ensures buffer[t] == BufferOf(g, data, old(buffer), t) {
        assert g.TensorOk(t);
        if g.IsView(t) {
          var n :| 0 <= n < |g.nodes| && g.nodes[n] == t;
        }
      }
      assert buffer == old(Opened()).buffer;
    }

    /** Plans the memory of the whole graph, node by node, or in the given order of positions
        with barriers (-1).  False: the source aborts. */
    method AllocGraph(order: seq<int>) returns (ok: bool, ghost k: Books)
      requires talloc.Valid() && Loaded(g, Pads(), data, buffer, talloc.Blocks())
      requires viewSrc == seq(g.Size(), t requires 0 <= t < g.Size() => if g.IsView(t) then Some(g.Base(t)) else None)
      requires nChildren == nViews == seq(g.Size(), _ => 0)
      requires Positions(g, order) && Legal(g, AllEvents(g, order))
      modifies this`data, this`buffer, this`viewSrc, this`nChildren, this`nViews
      modifies talloc`nFreeBlocks, talloc`maxSize, talloc.freeBlocks
      ensures talloc.Valid()
      ensures Fitting(g, old(Opened())) && InRange(g, AllEvents(g, order))
      ensures ok <==> Walk(g, Pads(), old(Opened()), AllEvents(g, order)).Some?
      ensures ok ==> Valid() && After(g, k, AllEvents(g, order)) && MemorySafe(g, P(), k)
      ensures ok ==> NoneOverstays(g, AllEvents(g, order), k)
      ensures ok ==> Walk(g, Pads(), old(Opened()), AllEvents(g, order)) == Some(P())
    {
      hide Fitting, MemorySafe, NoneOverstays, Loaded, After, Sound, Legal;
      LoadedSizes(g, Pads(), data, buffer, talloc.Blocks());
      ghost var p0 := Opened();
      ghost var o := Running(p0, Opening(g, Pads(), data, buffer));
      OpeningIsSound(g, Pads(), data, buffer, talloc.Blocks(), talloc.base + talloc.maxSize);
      Open();
      k := o.k;
      LegalOfPrefix(g, AllEvents(g, order), AllEvents(g, order));
      ok, o := WalkGraph(order, p0, o);
      if ok {
        SoundIsSafe(g, Pads(), o);
        HeldIsNeeded(g, Pads(), o, AllEvents(g, order));
        k := o.k;
      }
    }

    method WalkGraph(order: seq<int>, ghost p0: Plan, ghost o: Outcome) returns (ok: bool, ghost o': Outcome)
      requires Ready(g, order) && Reached(p0, [], o)
      modifies this`data, this`buffer, this`viewSrc, this`nChildren, this`nViews
      modifies talloc`nFreeBlocks, talloc`maxSize, talloc.freeBlocks
      ensures if ok then Reached(p0, AllEvents(g, order), o') else Stops(p0, AllEvents(g, order))
    {
      hide *;
      var n := if |order| > 0 then |order| else |g.nodes|;
      WalkEnds(g, order, n);
      o' := o;
      var lastBarrier := 0;
      for ind := 0 to n
        invariant Reached(p0, EventsOr(g, order, ind), o')
        invariant |order| > 0 ==> GroupStart(order, ind, lastBarrier)
      {
        if |order| > 0 {
          ok, o' := OrderedIteration(order, ind, lastBarrier, p0, o');
          GroupStartNext(order, ind, lastBarrier);
          if order[ind] == -1 {
            lastBarrier := ind + 1;
          }
        } else {
          ok, o' := PlainIteration(order, ind, p0, o');
        }
        if !ok { return; }
      }
      ok := true;
    }

    /** Without an order: the node is started and its reads are struck off at once. */
    method PlainIteration(order: seq<int>, ind: nat, ghost p0: Plan, ghost o: Outcome)
      returns (ok: bool, ghost o': Outcome)
      requires Ready(g, order) && |order| == 0 && ind < |g.nodes| && Reached(p0, EventsOr(g, order, ind), o)
      modifies this`data, this`buffer, this`viewSrc, this`nChildren, this`nViews
      modifies talloc`nFreeBlocks, talloc`maxSize, talloc.freeBlocks
      ensures if ok then Reached(p0, EventsOr(g, order, ind + 1), o') else Stops(p0, AllEvents(g, order))
    {
      hide Reached, Stops;
      ghost var evs := Events(g, order, ind);
      EventsGrow(g, order, ind + 1, |g.nodes|);
      var m := g.nodes[ind];
      assert evs + [Start(m)] + [Finish(m)] == Events(g, order, ind + 1);
      ok, o' := AdvanceWithin(Start(m), p0, evs, o, AllEvents(g, order));
      if ok {
        ok, o' := AdvanceWithin(Finish(m), p0, evs + [Start(m)], o', AllEvents(g, order));
      }
    }

    /** With an order: the next node is started, or at a barrier the group is finished. */
    method OrderedIteration(order: seq<int>, ind: nat, lastBarrier: nat, ghost p0: Plan, ghost o: Outcome)
      returns (ok: bool, ghost o': Outcome)
      requires Ready(g, order) && ind < |order| && GroupStart(order, ind, lastBarrier)
      requires Reached(p0, EventsOr(g, order, ind), o)
      modifies this`data, this`buffer, this`viewSrc, this`nChildren, this`nViews
      modifies talloc`nFreeBlocks, talloc`maxSize, talloc.freeBlocks
      ensures if ok then Reached(p0, EventsOr(g, order, ind + 1), o') else Stops(p0, AllEvents(g, order))
    {
      hide *;
      NextIteration(g, order, ind, lastBarrier);
      if order[ind] != -1 {
        ok, o' := AdvanceWithin(Start(g.nodes[order[ind]]), p0, EventsOr(g, order, ind), o, AllEvents(g, order));
      } else {
        ok, o' := FinishGroup(order, lastBarrier, ind, p0, EventsOr(g, order, ind), o, AllEvents(g, order));
      }
    }

    /** One event of a walk whose events are known to the end. */
    method AdvanceWithin(ev: Event, ghost p0: Plan, ghost evs: seq<Event>, ghost o: Outcome, ghost all: seq<Event>)
      returns (ok: bool, ghost o': Outcome)
      requires Reached(p0, evs, o) && Legal(g, all) && InRange(g, all) && evs + [ev] <= all
      modifies this`data, this`buffer, this`viewSrc, this`nChildren, this`nViews
      modifies talloc`nFreeBlocks, talloc`maxSize, talloc.freeBlocks
      ensures if ok then Reached(p0, evs + [ev], o') else Stops(p0, all)
    {
      LegalOfPrefix(g, evs + [ev], all);
      assert (evs + [ev])[|evs|] == ev;
      ok, o' := Advance(ev, p0, evs, o);
      if !ok { AbortsWhole(g, Pads(), p0, evs + [ev], all); }
    }

    /** At a barrier: the nodes since the last one. */
    method FinishGroup(order: seq<int>, a: nat, b: nat, ghost p0: Plan, ghost evs: seq<Event>, ghost o: Outcome,
                       ghost all: seq<Event>)
      returns (ok: bool, ghost o': Outcome)
      requires a <= b && Group(g, order, a, b, evs, all) && Reached(p0, evs, o)
      modifies this`data, this`buffer, this`viewSrc, this`nChildren, this`nViews
      modifies talloc`nFreeBlocks, talloc`maxSize, talloc.freeBlocks
      ensures if ok then Reached(p0, Finished(g, order, a, b, evs), o') else Stops(p0, all)
    {
      hide *;
      NoneFinished(g, order, a, b, evs, all);
      o' := o;
      for i := a to b
        invariant Reached(p0, Finished(g, order, a, i, evs), o')
      {
        ok, o' := FinishNext(order, a, i, b, p0, evs, o', all);
        if !ok { return; }
      }
      ok := true;
    }

    method FinishNext(order: seq<int>, a: nat, i: nat, b: nat, ghost p0: Plan, ghost evs: seq<Event>, ghost o: Outcome,
                      ghost all: seq<Event>)
      returns (ok: bool, ghost o': Outcome)
      requires a <= i < b && Group(g, order, a, b, evs, all) && Reached(p0, Finished(g, order, a, i, evs), o)
      modifies this`data, this`buffer, this`viewSrc, this`nChildren, this`nViews
      modifies talloc`nFreeBlocks, talloc`maxSize, talloc.freeBlocks
      ensures if ok then Reached(p0, Finished(g, order, a, i + 1, evs), o') else Stops(p0, all)
    {
      hide Reached, Stops, Legal, InRange;
      FinishesGrow(g, order, a, i + 1, b);
      NoBarrier(order, i + 1, i);
      ghost var done := evs + Finishes(g, order, a, i);
      var ev := Finish(g.nodes[order[i]]);
      assert done + [ev] == evs + Finishes(g, order, a, i + 1);
      ok, o' := AdvanceWithin(ev, p0, done, o, all);
    }
  }

  /** The order names nodes, and walking it is legal. */
  ghost predicate Ready(g: Graph, order: seq<int>)
    ensures Ready(g, order) ==> Positions(g, order)
  {
    Positions(g, order) && Legal(g, AllEvents(g, order)) && InRange(g, AllEvents(g, order))
  }

  ghost function EventsOr(g: Graph, order: seq<int>, ind: nat): seq<Event> {
    if Positions(g, order) && ind <= (if order == [] then |g.nodes| else |order|) then Events(g, order, ind) else []
  }

  lemma WalkEnds(g: Graph, order: seq<int>, n: nat)
    requires Ready(g, order) && n == if |order| > 0 then |order| else |g.nodes|
    ensures EventsOr(g, order, 0) == [] && EventsOr(g, order, n) == AllEvents(g, order)
    ensures GroupStart(order, 0, 0)
  {
  }

  ghost predicate GroupStart(order: seq<int>, ind: nat, a: nat) {
    ind <= |order| && a == LastBarrier(order, ind)
  }

  /** What the next iteration of an ordered walk adds, within the whole walk. */
  lemma NextIteration(g: Graph, order: seq<int>, ind: nat, a: nat)
    requires Ready(g, order) && ind < |order| && GroupStart(order, ind, a)
    ensures Legal(g, AllEvents(g, order)) && InRange(g, AllEvents(g, order))
    ensures order[ind] != -1 ==>
              && 0 <= order[ind] < |g.nodes|
              && EventsOr(g, order, ind) + [Start(g.nodes[order[ind]])] == EventsOr(g, order, ind + 1)
              && EventsOr(g, order, ind + 1) <= AllEvents(g, order)
    ensures order[ind] == -1 ==>
              && a <= ind && Group(g, order, a, ind, EventsOr(g, order, ind), AllEvents(g, order))
              && Finished(g, order, a, ind, EventsOr(g, order, ind)) == EventsOr(g, order, ind + 1)
  {
    EventsGrow(g, order, ind + 1, |order|);
  }

  lemma GroupStartNext(order: seq<int>, ind: nat, a: nat)
    requires ind < |order| && GroupStart(order, ind, a)
    ensures GroupStart(order, ind + 1, if order[ind] == -1 then ind + 1 else a)
  {
  }

  /** Positions a to b are a group without a barrier, finished after evs. */
  ghost predicate Group(g: Graph, order: seq<int>, a: nat, b: nat, evs: seq<Event>, all: seq<Event>) {
    && Positions(g, order) && a <= b <= |order| && LastBarrier(order, b) <= a
    && Legal(g, all) && InRange(g, all) && evs + Finishes(g, order, a, b) <= all
  }

  lemma NoneFinished(g: Graph, order: seq<int>, a: nat, b: nat, evs: seq<Event>, all: seq<Event>)
    requires Group(g, order, a, b, evs, all)
    ensures Finished(g, order, a, a, evs) == evs
  {
    FinishesGrow(g, order, a, a, b);
  }

  ghost function Finished(g: Graph, order: seq<int>, a: nat, i: nat, evs: seq<Event>): seq<Event> {
    if Positions(g, order) && a <= i <= |order| && LastBarrier(order, i) <= a then evs + Finishes(g, order, a, i)
      else evs
  }

  /** A node to be finished has been started, and none of its reads has been struck off. */
  lemma FinishIsReady(g: Graph, k: Books, evs: seq<Event>)
    requires Legal(g, evs) && evs != [] && After(g, k, evs[..|evs| - 1]) && evs[|evs| - 1].Finish?
    ensures evs[|evs| - 1].m in k.started && Full(g, k, evs[|evs| - 1].m)
  {
    assert LegalAt(g, evs, |evs| - 1);
  }

  lemma ReadsDoneNext(g: Graph, pad: seq<nat>, p: Plan, m: nat, j: nat)
    requires Fitting(g, p) && m < g.Size() && j < |g.Src(m)| && ReadsDone(g, pad, p, m, j).Some?
    ensures ReadsDone(g, pad, p, m, j + 1) == PlanSpec.ReadDone(g, pad, ReadsDone(g, pad, p, m, j).value, m, j)
  {
  }

  lemma {:induction false} ReadsDoneFail(g: Graph, pad: seq<nat>, p: Plan, m: nat, j: nat, n: nat)
    requires Fitting(g, p) && m < g.Size() && j <= n <= |g.Src(m)| && ReadsDone(g, pad, p, m, j).None?
    ensures ReadsDone(g, pad, p, m, n).None?
  {
    if j < n { ReadsDoneFail(g, pad, p, m, j, n - 1); }
  }

  /** In a sound plan whatever is released is not free already. */
  lemma ReadIsAllowed(g: Graph, pad: seq<nat>, o: Outcome, m: nat, j: nat)
    requires Sound(g, pad, o) && o.Running? && Fitting(g, o.p) && m < g.Size() && j < |g.Src(m)|
    requires m in o.k.started && (m, j) in o.k.edges
    ensures ReleaseAllowed(g, pad, o.p, (m, j))
  {
    var e := (m, j);
    assert g.TensorOk(m);
    assert Settled(g, o.p, o.k, g.Src(m)[j]);
    match FateOf(g, o.p, e)
    case FreeHead => var k' := ReadFreesHead(g, pad, o.p, o.k, e);
    case FreeRoot(s) => var k' := ReadFreesRoot(g, pad, o.p, o.k, e, s);
    case _ =>
  }

  lemma AllocateSourcesNext(g: Graph, pad: seq<nat>, p: Plan, m: nat, j: nat)
    requires Fitting(g, p) && m < g.Size() && j < |g.Src(m)| && AllocateSources(g, pad, p, m, j).Some?
    ensures g.Src(m)[j] < g.Size()
    ensures AllocateSources(g, pad, p, m, j + 1) ==
            PlanSpec.AllocateNode(g, pad, AllocateSources(g, pad, p, m, j).value, g.Src(m)[j])
  {
    assert g.TensorOk(m);
  }

  lemma {:induction false} AllocateSourcesFail(g: Graph, pad: seq<nat>, p: Plan, m: nat, j: nat, n: nat)
    requires Fitting(g, p) && m < g.Size() && j <= n <= |g.Src(m)| && AllocateSources(g, pad, p, m, j).None?
    ensures AllocateSources(g, pad, p, m, n).None?
  {
    if j < n { AllocateSourcesFail(g, pad, p, m, j, n - 1); }
  }
}
