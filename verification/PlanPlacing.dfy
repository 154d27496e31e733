/** Which memory a tensor gets: its first parent's that nobody else will read or keep, or else the
    smallest free block that is large enough. */
module PlanPlacing {
  import opened Wrappers
  import opened FreeList
  import opened GraphPlan
  import opened PlanSteps
  import opened PlanTakeOver
  import opened PlanSpec

  /** Source q of x in this buffer: x's read number j is the only one to come, nothing is attached to q,
      q is laid out as x is; and if q is a view or an in-place result, its root lies at the same
      address, has no read to come, and nothing but q is attached to it. */
  ghost predicate OnlyFor(g: Graph, p: Plan, k: Books, x: nat, j: nat, q: nat) {
    && x < g.Size() && q < g.Size() && q < |k.attached| && q < |p.viewSrc|
    && Placed(p, q) && Mine(p, q) && g.tensors[x].layout == g.tensors[q].layout
    && In(g, k, q) == {(x, j)} && k.attached[q] == {}
    && (p.viewSrc[q].Some? ==>
          var s := p.viewSrc[q].value;
          && s < |k.attached| && s < |p.data| && p.data[s] == p.data[q]
          && In(g, k, s) == {} && k.attached[s] == {q})
  }

  /** The counters decide just that. */
  lemma ReusableIff(g: Graph, p: Plan, k: Books, x: nat, j: nat)
    requires g.WellFormed() && Shape(g, p, k) && Counts(g, p, k) && Attachments(g, p, k)
    requires Full(g, k, x) && x in g.nodes && j < |g.Src(x)|
    ensures ReuseAt(g, p, x, j) <==> OnlyFor(g, p, k, x, j, g.Src(x)[j])
  {
    hide In;
    assert g.TensorOk(x);
    var q := g.Src(x)[j];
    if ReuseAt(g, p, x, j) {
      OneReader(g, p, k, x, j, Root(g, p, x, j));
      if p.viewSrc[q].Some? { OneKeeper(g, p, k, x, j, Root(g, p, x, j)); }
    }
  }

  /** An in-place operation becomes a view in the memory of the first such parent, and no free byte is used. */
  lemma NodeReuses(g: Graph, pad: seq<nat>, p: Plan, k: Books, x: nat, j: nat)
    requires Fitting(g, p) && Shape(g, p, k) && Counts(g, p, k) && Attachments(g, p, k) && Addresses(g, p)
    requires x in g.nodes && Full(g, k, x) && x < g.Size() && p.data[x].None? && p.viewSrc[x].None?
    requires g.tensors[x].inplace && j < |g.Src(x)| && OnlyFor(g, p, k, x, j, g.Src(x)[j])
    requires forall i :: 0 <= i < j ==> !OnlyFor(g, p, k, x, i, g.Src(x)[i])
    ensures AllocateNode(g, pad, p, x).Some?
    ensures var p', q := AllocateNode(g, pad, p, x).value, g.Src(x)[j];
            && p'.blocks == p.blocks && p'.top == p.top && p'.nChildren == p.nChildren
            && p'.data == p.data[x := p.data[q]] && p'.buffer == p.buffer[x := Own]
            && var s := if p.viewSrc[q].Some? then p.viewSrc[q].value else q;
               p'.viewSrc == p.viewSrc[x := Some(s)] && s < |p.nViews| && p'.nViews == p.nViews[s := p.nViews[s] + 1]
  {
    hide In, OnlyFor;
    forall i | 0 <= i < |g.Src(x)| ensures ReuseAt(g, p, x, i) <==> OnlyFor(g, p, k, x, i, g.Src(x)[i]) {
      ReusableIff(g, p, k, x, i);
    }
    assert ReuseAt(g, p, x, j);
    assert FindReuse(g, p, x, 0) == Some(j);
    RootIsOwn(g, p, x, j);
  }

  lemma RootIsOwn(g: Graph, p: Plan, x: nat, j: nat)
    requires Fitting(g, p) && Addresses(g, p) && ReuseAt(g, p, x, j)
    ensures p.buffer[Root(g, p, x, j)] == Own
  {
    assert AddressOk(g, p, g.Src(x)[j]);
  }

  /** Any other tensor that is no view gets the front of the smallest free block that is large enough,
      and none only if there is no such block. */
  lemma NodeTakes(g: Graph, pad: seq<nat>, p: Plan, k: Books, x: nat)
    requires Fitting(g, p) && Sized(g, pad) && Shape(g, p, k) && Counts(g, p, k) && Attachments(g, p, k)
    requires x < g.Size() && p.data[x].None? && p.viewSrc[x].None? && (x in g.nodes ==> Full(g, k, x))
    requires g.tensors[x].inplace ==> forall i :: 0 <= i < |g.Src(x)| ==> !OnlyFor(g, p, k, x, i, g.Src(x)[i])
    ensures AllocateNode(g, pad, p, x).None? <==> forall i :: 0 <= i < |p.blocks| ==> p.blocks[i].size < Pad(pad, x)
    ensures AllocateNode(g, pad, p, x).Some? ==>
              var p' := AllocateNode(g, pad, p, x).value;
              exists i: nat :: Fittest(p.blocks, Pad(pad, x), i) && TakenFrom(p, p', x, p.blocks[i].addr, Pad(pad, x))
  {
    hide In, OnlyFor;
    assert g.TensorOk(x);
    if g.tensors[x].inplace {
      forall i | 0 <= i < |g.Src(x)| ensures !ReuseAt(g, p, x, i) { ReusableIff(g, p, k, x, i); }
      assert FindReuse(g, p, x, 0).Some? ==> ReuseAt(g, p, x, FindReuse(g, p, x, 0).value);
      assert FindReuse(g, p, x, 0).None?;
    }
    AllocateNodeTakes(g, pad, p, x);
    TakesFittest(p.blocks, Pad(pad, x));
    if AllocateNode(g, pad, p, x).Some? {
      TakeCovers(p.blocks, Pad(pad, x));
      var i: nat :| Fittest(p.blocks, Pad(pad, x), i);
      assert TakenFrom(p, AllocateNode(g, pad, p, x).value, x, p.blocks[i].addr, Pad(pad, x));
    }
  }

  lemma AllocateNodeTakes(g: Graph, pad: seq<nat>, p: Plan, x: nat)
    requires Fitting(g, p) && x < g.Size() && p.data[x].None? && p.viewSrc[x].None?
    requires g.tensors[x].inplace ==> FindReuse(g, p, x, 0).None?
    ensures AllocateNode(g, pad, p, x).Some? <==> Take(p.blocks, Pad(pad, x)).Some?
    ensures AllocateNode(g, pad, p, x).Some? ==>
              var q := Take(p.blocks, Pad(pad, x)).value;
              AllocateNode(g, pad, p, x) ==
              Some(PlaceHeadPlan(p, x, q.addr, q.rest, Max(p.top, q.addr + Pad(pad, x))))
  {
  }

  /** Tensor x has been put at addr, and exactly its bytes are no longer free. */
  ghost predicate TakenFrom(p: Plan, p': Plan, x: nat, addr: int, size: nat) {
    && x < |p.data| == |p.buffer|
    && p'.data == p.data[x := Some(addr)] && p'.buffer == p.buffer[x := Own] && p'.viewSrc == p.viewSrc
    && p'.nChildren == p.nChildren && p'.nViews == p.nViews && p'.top == Max(p.top, addr + size)
    && forall b :: Covers(p'.blocks, b) <==> Covers(p.blocks, b) && !Within(b, addr, size)
  }

  /** A view lies where its base does, at its offset. */
  lemma ViewIsPlaced(g: Graph, pad: seq<nat>, p: Plan, v: nat)
    requires Fitting(g, p) && v < g.Size() && g.IsView(v) && p.data[v].None?
    ensures AllocateNode(g, pad, p, v).None? <==> g.Base(v) < g.Size() && p.data[g.Base(v)].None?
    ensures AllocateNode(g, pad, p, v).Some? ==>
              && Placed(p, g.Base(v))
              && AllocateNode(g, pad, p, v) ==
                 Some(p.(data := p.data[v := Some(p.data[g.Base(v)].value + g.tensors[v].offs)],
                         buffer := p.buffer[v := p.buffer[g.Base(v)]]))
  {
    assert ViewFits(g, p, v);
  }
}
