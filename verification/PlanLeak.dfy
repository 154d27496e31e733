/** A graph whose plan loses memory: an in-place result on a view smaller than its base is
    released through a view of its own, and gives back less than the base took. */
module PlanLeak {
  import opened FreeList
  import opened GraphPlan
  import opened PlanSafety
  import opened PlanSpec
  import opened PlanSteps
  import opened PlanTakeOver
  import opened PlanTheorem
  import opened PlanWalk
  import opened Wrappers

  /** 1 is a view of half of 0; 2 is computed in place of 1; 3 is a view of 2; 4 reads 3. */
  function Leaking(): Graph {
    Graph([Tensor([], 0, 0, 64, false, 0), Tensor([0], 0, 0, 32, false, 1), Tensor([1], 2, 0, 32, true, 1),
           Tensor([2], 2, 0, 32, false, 2), Tensor([3], 4, 0, 32, false, 3)], [1, 2, 3, 4])
  }

  function Padded(): seq<nat> { [64, 32, 32, 32, 32] }

  function Placing(data: seq<Option<int>>, third: Option<nat>, nChildren: seq<int>, nViews: seq<int>,
                   blocks: seq<FreeBlock>, top: int): Plan
    requires |data| == 5
  {
    Plan(data, seq(5, i requires 0 <= i < 5 => if data[i].Some? then Own else NoBuffer),
         [None, Some(0), third, Some(2), None], nChildren, nViews, blocks, top)
  }

  /** Before node n starts, or, if done, before it finishes. */
  function Stage(n: nat, started: bool): Plan
    requires 1 <= n <= 5
  {
    var a, b := Some(0), None;
    if n == 1 && !started then
      Placing([b, b, b, b, b], None, [1, 1, 1, 1, 0], [1, 0, 1, 0, 0], [FreeBlock(0, 160)], 0)
    else if n == 1 then
      Placing([a, a, b, b, b], None, [1, 1, 1, 1, 0], [1, 0, 1, 0, 0], [FreeBlock(64, 96)], 64)
    else if n == 2 && !started then
      Placing([a, a, b, b, b], None, [0, 1, 1, 1, 0], [1, 0, 1, 0, 0], [FreeBlock(64, 96)], 64)
    else if n == 2 then
      Placing([a, a, a, b, b], Some(0), [0, 1, 1, 1, 0], [2, 0, 1, 0, 0], [FreeBlock(64, 96)], 64)
    else if n == 3 && !started then
      Placing([a, a, a, b, b], Some(0), [0, 0, 1, 1, 0], [1, 0, 1, 0, 0], [FreeBlock(64, 96)], 64)
    else if n == 3 then
      Placing([a, a, a, a, b], Some(0), [0, 0, 1, 1, 0], [1, 0, 1, 0, 0], [FreeBlock(64, 96)], 64)
    else if n == 4 && !started then
      Placing([a, a, a, a, b], Some(0), [0, 0, 0, 1, 0], [1, 0, 1, 0, 0], [FreeBlock(64, 96)], 64)
    else if n == 4 then
      Placing([a, a, a, a, Some(64)], Some(0), [0, 0, 0, 1, 0], [1, 0, 1, 0, 0], [FreeBlock(96, 64)], 96)
    else
      Placing([a, a, a, a, Some(64)], Some(0), [0, 0, 0, 0, 0], [1, 0, 0, 0, 0],
              [FreeBlock(0, 32), FreeBlock(96, 64)], 96)
  }

  lemma LeakingTensor(t: nat)
    requires t < 5
    ensures Leaking().TensorOk(t) && (t in Leaking().nodes ==> Leaking().NodeOk(t))
    ensures Leaking().IsView(t) <==> t == 1 || t == 3
    ensures Leaking().tensors[t].layout == if t == 0 then 0 else if t <= 2 then 1 else if t == 3 then 2 else 3
    ensures Leaking().NBytes(t) == Pad(Padded(), t) == if t == 0 then 64 else 32
  {
    var g := Leaking();
    if t == 1 || t == 3 {
      assert g.Base(g.Src(t)[0]) == g.Base(t);
    }
  }

  lemma LeakingIsWellFormed()
    ensures Leaking().WellFormed()
  {
    var g := Leaking();
    assert |g.tensors| == 5 && |g.nodes| == 4;
    assert forall i :: 0 <= i < 4 ==> g.nodes[i] == i + 1;
    hide Leaking;
    forall t | 0 <= t < 5 ensures g.TensorOk(t) && (t in g.nodes ==> g.NodeOk(t)) && (g.IsView(t) ==> t in g.nodes) {
      LeakingTensor(t);
      assert t > 0 ==> g.nodes[t - 1] == t;
    }
    forall t, u | 0 <= t < 5 && 0 <= u < 5 && g.tensors[t].layout == g.tensors[u].layout
      ensures g.tensors[t].nbytes == g.tensors[u].nbytes
    {
      LeakingTensor(t);
      LeakingTensor(u);
    }
  }

  lemma LeakingIsSized()
    ensures Sized(Leaking(), Padded()) && !NoSmallerReuse(Leaking(), Padded())
  {
    var g := Leaking();
    assert !AsLargeAsBase(g, Padded(), 2, g.Src(2)[0]);
    assert g.Size() == 5;
    forall t | 0 <= t < 5
      ensures 0 < g.NBytes(t) <= Pad(Padded(), t) && (g.IsView(t) ==> Pad(Padded(), t) <= Pad(Padded(), g.Base(t)))
    {
      LeakingTensor(t);
    }
    forall t, u | 0 <= t < 5 && 0 <= u < 5 && g.tensors[t].layout == g.tensors[u].layout
      ensures Pad(Padded(), t) == Pad(Padded(), u)
    {
      LeakingTensor(t);
      LeakingTensor(u);
    }
  }

  lemma PlacingFits(data: seq<Option<int>>, third: Option<nat>, nChildren: seq<int>, nViews: seq<int>,
                    blocks: seq<FreeBlock>, top: int)
    requires |data| == |nChildren| == |nViews| == 5 && (third == None || third == Some(0))
    requires third.Some? ==> data[2].Some?
    ensures Fitting(Leaking(), Placing(data, third, nChildren, nViews, blocks, top))
  {
    LeakingIsWellFormed();
    var g, p := Leaking(), Placing(data, third, nChildren, nViews, blocks, top);
    assert g.Base(1) == 0 && g.Base(3) == 2 && g.Size() == 5;
    hide Leaking;
    forall t | 0 <= t < 5 ensures ViewFits(g, p, t) {
      LeakingTensor(t);
    }
  }

  lemma StageFits(n: nat, started: bool)
    requires 1 <= n <= 5
    ensures Fitting(Leaking(), Stage(n, started))
  {
    hide Fitting, Leaking;
    var p := Stage(n, started);
    var third := p.viewSrc[2];
    PlacingFits(p.data, third, p.nChildren, p.nViews, p.blocks, p.top);
    assert p == Placing(p.data, third, p.nChildren, p.nViews, p.blocks, p.top);
  }

  lemma FinishStep(n: nat)
    requires 1 <= n <= 4
    ensures Fitting(Leaking(), Stage(n, true))
    ensures Apply(Leaking(), Padded(), Stage(n, true), Finish(n)) == Some(Stage(n + 1, false))
  {
    StageFits(n, true);
    var g, p := Leaking(), Stage(n, true);
    assert ReadsDone(g, Padded(), p, n, 0) == Some(p);
    assert ReadsDone(g, Padded(), p, n, 1) == ReadDone(g, Padded(), p, n, 0);
    var p' := AfterRead(g, Padded(), p, (n, 0));
    assert p' == Stage(n + 1, false);
  }

  lemma OneBlockTaken(b: FreeBlock, size: nat)
    requires 0 < size < b.size
    ensures Take([b], size) == Some(Placement(b.addr, [FreeBlock(b.addr + size, b.size - size)]))
  {
    assert BestFitUpTo([b], size, 0) == None;
    assert BestFit([b], size) == Some(0);
    assert [b][0 := FreeBlock(b.addr + size, b.size - size)] == [FreeBlock(b.addr + size, b.size - size)];
  }

  lemma StartFirst()
    ensures Fitting(Leaking(), Stage(1, false))
    ensures Apply(Leaking(), Padded(), Stage(1, false), Start(1)) == Some(Stage(1, true))
  {
    StageFits(1, false);
    var g, pad, p := Leaking(), Padded(), Stage(1, false);
    OneBlockTaken(FreeBlock(0, 160), 64);
    var p1 := PlaceHeadPlan(p, 0, 0, [FreeBlock(64, 96)], 64);
    assert AllocateNode(g, pad, p, 0) == Some(p1);
    assert AllocateSources(g, pad, p, 1, 0) == Some(p);
    assert AllocateSources(g, pad, p, 1, 1) == Some(p1);
    assert AllocateNode(g, pad, p1, 1) == Some(PlaceViewPlan(g, p1, 1));
    assert PlaceViewPlan(g, p1, 1) == Stage(1, true);
  }

  lemma StartLater(n: nat)
    requires 2 <= n <= 4
    ensures Fitting(Leaking(), Stage(n, false))
    ensures Apply(Leaking(), Padded(), Stage(n, false), Start(n))
            == AllocateNode(Leaking(), Padded(), Stage(n, false), n)
  {
    StageFits(n, false);
    var g, pad, p := Leaking(), Padded(), Stage(n, false);
    assert AllocateSources(g, pad, p, n, 0) == Some(p);
    assert AllocateSources(g, pad, p, n, 1) == AllocateNode(g, pad, p, n - 1) == Some(p);
  }

  lemma SecondTakesOver()
    ensures Fitting(Leaking(), Stage(2, false))
    ensures AllocateNode(Leaking(), Padded(), Stage(2, false), 2) == Some(Stage(2, true))
  {
    StageFits(2, false);
    var g, p := Leaking(), Stage(2, false);
    assert Reusable(g, p, 2, 0, 0);
    assert FindReuse(g, p, 2, 0) == Some(0);
    assert TakeOverPlan(p, 2, 0) == Stage(2, true);
  }

  lemma ThirdIsView()
    ensures Fitting(Leaking(), Stage(3, false))
    ensures AllocateNode(Leaking(), Padded(), Stage(3, false), 3) == Some(Stage(3, true))
  {
    StageFits(3, false);
    assert PlaceViewPlan(Leaking(), Stage(3, false), 3) == Stage(3, true);
  }

  lemma FourthGetsBlock()
    ensures Fitting(Leaking(), Stage(4, false))
    ensures AllocateNode(Leaking(), Padded(), Stage(4, false), 4) == Some(Stage(4, true))
  {
    StageFits(4, false);
    OneBlockTaken(FreeBlock(64, 96), 32);
    assert PlaceHeadPlan(Stage(4, false), 4, 64, [FreeBlock(96, 64)], 96) == Stage(4, true);
  }

  lemma StartStep(n: nat)
    requires 1 <= n <= 4
    ensures Fitting(Leaking(), Stage(n, false))
    ensures Apply(Leaking(), Padded(), Stage(n, false), Start(n)) == Some(Stage(n, true))
  {
    hide Stage, Fitting, Apply, AllocateNode;
    if n == 1 {
      StartFirst();
    } else {
      StartLater(n);
      if n == 2 {
        SecondTakesOver();
      } else if n == 3 {
        ThirdIsView();
      } else {
        FourthGetsBlock();
      }
    }
  }

  /** The events of the walk in the order of the nodes, up to node n. */
  ghost function UpTo(n: nat): (r: seq<Event>)
    requires n <= 4
    ensures forall ev :: ev in r ==> 1 <= ev.m <= 4
  {
    if n == 0 then [] else UpTo(n - 1) + [Start(n), Finish(n)]
  }

  lemma {:induction false} WalkUpTo(n: nat)
    requires n <= 4
    ensures Fitting(Leaking(), Stage(1, false)) && InRange(Leaking(), UpTo(n))
    ensures Walk(Leaking(), Padded(), Stage(1, false), UpTo(n)) == Some(Stage(n + 1, false))
  {
    hide Fitting, Apply, Stage;
    StageFits(1, false);
    if n == 0 {
    } else {
      WalkUpTo(n - 1);
      var evs := UpTo(n - 1) + [Start(n)];
      StartStep(n);
      FinishStep(n);
      WalkOne(Leaking(), Padded(), Stage(1, false), UpTo(n - 1), Start(n));
      WalkOne(Leaking(), Padded(), Stage(1, false), evs, Finish(n));
      assert UpTo(n) == evs + [Finish(n)];
    }
  }

  lemma LeakingIsTopological()
    ensures Topological(Leaking()) && AllEvents(Leaking(), []) == UpTo(4)
  {
    var g := Leaking();
    assert |g.nodes| == 4 && forall i :: 0 <= i < 4 ==> g.nodes[i] == i + 1;
    assert g.Src(1) == [0] && g.Src(2) == [1] && g.Src(3) == [2] && g.Src(4) == [3];
    assert g.Base(0) == 0 && g.Base(1) == 0 && g.Base(2) == 2 && g.Base(3) == 2;
    EventsUpTo(4);
  }

  lemma {:induction false} EventsUpTo(n: nat)
    requires n <= 4 && |Leaking().nodes| == 4
    ensures Events(Leaking(), [], n) == UpTo(n)
  {
    if n == 0 {
    } else {
      EventsUpTo(n - 1);
      assert Leaking().nodes[n - 1] == n;
    }
  }

  function NoData(): seq<Option<int>> { seq(5, _ => None) }

  function NoBuffers(): seq<Buffer> { seq(5, _ => NoBuffer) }

  lemma LeakingReaders(t: nat)
    requires t < 5
    ensures ReadersOf(Leaking(), t) == if t < 4 then {(t + 1, 0)} else {}
    ensures ViewsOf(Leaking(), t) == if t == 0 then {1} else if t == 2 then {3} else {}
  {
    var g := Leaking();
    assert |g.nodes| == 4 && forall i :: 0 <= i < 4 ==> g.nodes[i] == i + 1;
    assert forall i :: 1 <= i <= 4 ==> g.Src(i) == [i - 1];
    assert forall v :: v in g.nodes <==> 1 <= v <= 4;
    assert g.Base(1) == 0 && g.Base(2) == 2 && g.Base(3) == 2 && g.Base(4) == 4;
    hide Leaking;
    forall e ensures e in AllReads(g) <==> 1 <= e.0 <= 4 && e.1 == 0 {
      if 1 <= e.0 <= 4 && e.1 == 0 {
        assert e == (g.nodes[e.0 - 1], 0);
      }
    }
  }

  lemma LeakingCounted()
    ensures |Leaking().tensors| == 5
    ensures Counted(Leaking(), NoData(), NoBuffers(), [FreeBlock(0, 160)], 0) == Stage(1, false)
  {
    var c := Counted(Leaking(), NoData(), NoBuffers(), [FreeBlock(0, 160)], 0);
    forall t | 0 <= t < 5
      ensures c.nChildren[t] == (if t < 4 then 1 else 0) && c.nViews[t] == if t == 0 || t == 2 then 1 else 0
    {
      LeakingReaders(t);
    }
    assert c.nChildren == [1, 1, 1, 1, 0] && c.nViews == [1, 0, 1, 0, 0];
    assert c.viewSrc == [None, Some(0), None, Some(2), None];
    assert c.data == [None, None, None, None, None];
  }

  lemma UnloadedIsLoaded(g: Graph, pad: seq<nat>, data: seq<Option<int>>, buffer: seq<Buffer>, blocks: seq<FreeBlock>)
    requires g.WellFormed() && Sized(g, pad) && WellFormed(blocks) && |data| == |buffer| == g.Size()
    requires forall t :: 0 <= t < g.Size() ==> data[t] == None && buffer[t] == NoBuffer
    ensures Loaded(g, pad, data, buffer, blocks)
  {
    hide Sized;
    forall t | 0 <= t < g.Size() ensures LoadedAt(g, data, buffer, t) {
      assert g.TensorOk(t);
    }
  }

  lemma LeakingLoaded()
    requires Leaking().WellFormed() && Sized(Leaking(), Padded())
    ensures Loaded(Leaking(), Padded(), NoData(), NoBuffers(), [FreeBlock(0, 160)])
  {
    assert Leaking().Size() == 5;
    hide Leaking, Sized;
    UnloadedIsLoaded(Leaking(), Padded(), NoData(), NoBuffers(), [FreeBlock(0, 160)]);
  }

  lemma LeakingEnd()
    ensures Padded()[4] == 32
    ensures var end := Stage(5, false);
            && |end.data| == 5 && end.blocks == [FreeBlock(0, 32), FreeBlock(96, 64)] && end.data[4] == Some(64)
            && forall x :: 32 <= x < 64 ==> Covers([FreeBlock(0, 160)], x) && !Covers(end.blocks, x)
  {
    forall x | 32 <= x < 64 ensures Covers([FreeBlock(0, 160)], x) {
      assert [FreeBlock(0, 160)][0].addr <= x < [FreeBlock(0, 160)][0].End();
    }
  }

  /** Started on an empty buffer of 160 bytes and walked in the order of its nodes, the graph ends
      with the 32 bytes of tensor 4 at 64, and 96 free bytes: 32 bytes are lost. */
  lemma PlanCanLose()
    ensures var g, pad, blocks := Leaking(), Padded(), [FreeBlock(0, 160)];
            && Loaded(g, pad, NoData(), NoBuffers(), blocks) && Legal(g, AllEvents(g, []))
            && |g.tensors| == 5 && Fitting(g, Counted(g, NoData(), NoBuffers(), blocks, 0))
            && InRange(g, AllEvents(g, []))
            && var end := Walk(g, pad, Counted(g, NoData(), NoBuffers(), blocks, 0), AllEvents(g, []));
               && end.Some? && end.value.blocks == [FreeBlock(0, 32), FreeBlock(96, 64)]
               && |end.value.data| == 5 && end.value.data[4] == Some(64) && pad[4] == 32
               && forall x :: 32 <= x < 64 ==> Covers(blocks, x) && !Covers(end.value.blocks, x)
  {
    hide Fitting, Stage, Leaking, Legal, Counted, Walk, Loaded, AllEvents, UpTo, Sized, WellFormed, Covers, InRange;
    LeakingIsWellFormed();
    LeakingIsSized();
    LeakingIsTopological();
    TopologicalIsLegal(Leaking());
    LeakingCounted();
    LeakingLoaded();
    WalkUpTo(4);
    LeakingEnd();
  }
}
