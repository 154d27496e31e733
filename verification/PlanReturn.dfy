/** Memory comes back: whatever the planner still holds is needed by a read to come or by a node
    still to be processed, unless nobody ever reads it. */
module PlanReturn {
  import opened Wrappers
  import opened FreeList
  import opened GraphPlan
  import opened PlanSteps
  import opened PlanTakeOver
  import opened PlanRelease
  import opened PlanWalk
  import opened PlanSpec

  /** Tensor t is still to be written or read, or never read at all. */
  ghost predicate Unfinished(g: Graph, k: Books, t: nat) {
    In(g, k, t) != {} || t in k.pending || ReadersOf(g, t) == {}
  }

  /** The same of t itself, or something is attached to t. */
  ghost predicate Wanted(g: Graph, k: Books, t: nat) {
    Unfinished(g, k, t) || (t < |k.attached| && k.attached[t] != {})
  }

  /** Nothing is held that nobody wants, and no view keeps its base longer than it must. */
  ghost predicate Retained(g: Graph, p: Plan, k: Books) {
    && (forall t :: t in k.hold ==> Wanted(g, k, t))
    && (forall v: nat :: v < g.Size() && g.IsView(v) && v !in k.released ==> Unfinished(g, k, v))
    && (forall z: nat :: InPlace(g, p, z) ==> p.viewSrc[z].value !in k.hold)
    && (forall e :: e in AllReads(g) && e !in k.edges ==> e.0 in k.started)
  }

  // ---------- Each step keeps it ----------

  /** A read that has been struck off was of something in place and processed. */
  lemma ReadWasSettled(g: Graph, p: Plan, k: Books, e: (nat, nat))
    requires Order(g, p, k) && Retained(g, p, k) && e in AllReads(g)
    ensures e in k.edges || Settled(g, p, k, g.Target(e))
  {
  }

  /** Before t has its place nobody has read it. */
  lemma FreshUnread(g: Graph, p: Plan, k: Books, t: nat)
    requires Order(g, p, k) && Retained(g, p, k) && Fresh(g, p, t)
    ensures Unfinished(g, k, t)
  {
    forall e | e in ReadersOf(g, t) ensures e in In(g, k, t) { ReadWasSettled(g, p, k, e); }
    assert ReadersOf(g, t) <= In(g, k, t);
  }

  lemma PlaceHeadRetains(g: Graph, p: Plan, k: Books, t: nat, addr: int, rest: seq<FreeBlock>, r: Range, top: int)
    requires Shape(g, p, k) && Order(g, p, k) && Addresses(g, p) && Retained(g, p, k) && Fresh(g, p, t)
    ensures Retained(g, PlaceHeadPlan(p, t, addr, rest, top), PlaceHeadBooks(k, t, r))
  {
    var p', k' := PlaceHeadPlan(p, t, addr, rest, top), PlaceHeadBooks(k, t, r);
    FreshUnread(g, p, k, t);
    SameReads(g, k, k');
    forall z: nat | InPlace(g, p', z) ensures p'.viewSrc[z].value !in k'.hold {
      assert z < |p.data| ==> AddressOk(g, p, z);
      assert InPlace(g, p, z);
    }
    assert forall u :: u in k'.hold && u != t ==> Wanted(g, k, u);
  }

  lemma PlaceViewRetains(g: Graph, p: Plan, k: Books, v: nat)
    requires Retained(g, p, k) && v < |g.tensors| && v < |p.data| && v < |p.buffer|
    requires Placed(p, g.Base(v)) && g.Base(v) < |p.buffer|
    ensures Retained(g, PlaceViewPlan(g, p, v), k)
  {
    var p' := PlaceViewPlan(g, p, v);
    forall z: nat | InPlace(g, p', z) ensures p'.viewSrc[z].value !in k.hold { assert InPlace(g, p, z); }
  }

  lemma TakeOverRetains(g: Graph, pad: seq<nat>, p: Plan, k: Books, x: nat, j: nat, s: nat, t: nat)
    requires Shape(g, p, k) && Addresses(g, p) && Owners(g, p, k) && Retained(g, p, k)
    requires Clear(g, pad, p, k, x, j, s, t)
    ensures Retained(g, TakeOverPlan(p, x, s), TakeOverBooks(k, x, s, t))
  {
    hide LastReader, Keepers, Occupies;
    var p', k' := TakeOverPlan(p, x, s), TakeOverBooks(k, x, s, t);
    SameReads(g, k, k');
    forall u | u in k'.hold ensures Wanted(g, k', u) {
      assert u != x ==> Wanted(g, k, u);
    }
    forall z: nat | InPlace(g, p', z) ensures p'.viewSrc[z].value !in k'.hold {
      if z != x { assert InPlace(g, p, z) && AddressOk(g, p, z); }
    }
    forall v: nat | v < g.Size() && g.IsView(v) && v !in k'.released ensures Unfinished(g, k', v) {
      assert Unfinished(g, k, v);
    }
  }

  lemma StartRetains(g: Graph, p: Plan, k: Books, m: nat)
    requires Retained(g, p, k)
    ensures Retained(g, p, StartBooks(k, m))
  {
    var k' := StartBooks(k, m);
    SameReads(g, k, k');
    assert forall t :: Wanted(g, k, t) ==> Wanted(g, k', t);
    assert forall t :: Unfinished(g, k, t) ==> Unfinished(g, k', t);
  }

  /** A node that is processed has all its reads before it. */
  lemma FinishRetains(g: Graph, p: Plan, k: Books, m: nat)
    requires Retained(g, p, k) && Order(g, p, k) && m in k.pending
    ensures Retained(g, p, FinishBooks(k, m))
  {
    var k' := FinishBooks(k, m);
    SameReads(g, k, k');
    forall e | e in ReadersOf(g, m) ensures e in In(g, k', m) { ReadWasSettled(g, p, k, e); }
    assert ReadersOf(g, m) <= In(g, k', m);
    assert forall t :: Unfinished(g, k, t) ==> Unfinished(g, k', t);
    assert forall t :: Wanted(g, k, t) ==> Wanted(g, k', t);
  }

  /** What is left once the read e has been struck off: only its target may have lost its last one. */
  lemma UseRetains(g: Graph, p: Plan, k: Books, e: (nat, nat))
    requires Retained(g, p, k) && e in k.edges && e.0 in k.started && g.Target(e) < |p.nChildren|
    requires g.Target(e) in k.hold ==> Wanted(g, UseBooks(k, e), g.Target(e))
    requires g.IsView(g.Target(e)) && g.Target(e) !in k.released ==> Unfinished(g, UseBooks(k, e), g.Target(e))
    ensures Retained(g, UsePlan(p, g.Target(e)), UseBooks(k, e))
  {
    var q, p', k' := g.Target(e), UsePlan(p, g.Target(e)), UseBooks(k, e);
    forall t ensures t != q && Unfinished(g, k, t) ==> Unfinished(g, k', t) { InAfterUse(g, k, e, t); }
    forall t | t in k'.hold ensures Wanted(g, k', t) { assert Wanted(g, k, t); }
    forall z: nat | InPlace(g, p', z) ensures p'.viewSrc[z].value !in k'.hold { assert InPlace(g, p, z); }
  }

  lemma ReadKeptRetains(g: Graph, pad: seq<nat>, p: Plan, k: Books, e: (nat, nat))
    requires g.WellFormed() && Inv(g, pad, p, k) && Retained(g, p, k)
    requires e in k.edges && e.0 in k.started && g.Target(e) < g.Size() && FateOf(g, p, e).Kept?
    ensures Retained(g, UsePlan(p, g.Target(e)), UseBooks(k, e))
  {
    hide Extents, Chains, Needs, Gone, Backed, Holdings, TakenOver, Order, Settled, Retained, In;
    var q := g.Target(e);
    CountersSay(g, p, k, e);
    InAfterUse(g, k, e, q);
    assert AddressOk(g, p, q) && e in k.edges;
    assert q in k.hold ==> OwnHead(g, p, q);
    KeptStays(g, p, k, e);
    UseRetains(g, p, k, e);
  }

  lemma KeptStays(g: Graph, p: Plan, k: Books, e: (nat, nat))
    requires e in k.edges && Attachments(g, p, k) && g.Target(e) < |k.attached|
    requires In(g, UseBooks(k, e), g.Target(e)) == In(g, k, g.Target(e)) - {e}
    requires In(g, k, g.Target(e)) == {e} && k.attached[g.Target(e)] == {} ==>
               g.Target(e) !in k.hold && !g.IsView(g.Target(e))
    ensures g.Target(e) in k.hold ==> Wanted(g, UseBooks(k, e), g.Target(e))
    ensures g.IsView(g.Target(e)) ==> Unfinished(g, UseBooks(k, e), g.Target(e))
  {
    hide In;
    var q := g.Target(e);
    if In(g, UseBooks(k, e), q) == {} { 
      assert e in In(g, k, q) by { Reading(g, k, e); }
      OnlyElement(In(g, k, q), e);
    }
  }

  lemma Reading(g: Graph, k: Books, e: (nat, nat))
    requires e in k.edges
    ensures e in In(g, k, g.Target(e))
  {
  }

  /** Once q has let go of s, s is wanted unless it is quiet. */
  lemma LastRetains(g: Graph, p: Plan, k: Books, e: (nat, nat), s: nat, t: nat)
    requires Retained(g, p, k) && e in k.edges && e.0 in k.started && g.Target(e) < |p.nChildren|
    requires s < |p.nViews| && s < |k.attached| && s != g.Target(e)
    requires g.Target(e) in k.hold ==> g.Target(e) == t
    requires s in k.hold && s != t ==> In(g, k, s) != {} || k.attached[s] - {g.Target(e)} != {}
    ensures Retained(g, LastPlan(g, p, e, s), FreeBooks(LastBooks(g, k, e, s), t))
    ensures g.Target(e) !in k.hold && (s in k.hold ==> In(g, k, s) != {} || k.attached[s] - {g.Target(e)} != {}) ==>
              Retained(g, LastPlan(g, p, e, s), LastBooks(g, k, e, s))
  {
    var q, p', k1 := g.Target(e), LastPlan(g, p, e, s), LastBooks(g, k, e, s);
    SameReads(g, UseBooks(k, e), k1);
    SameReads(g, UseBooks(k, e), FreeBooks(k1, t));
    forall u ensures u != q ==> In(g, k1, u) == In(g, k, u) { InAfterUse(g, k, e, u); }
    assert forall u :: u != q && Unfinished(g, k, u) ==> Unfinished(g, k1, u);
    assert forall u :: Unfinished(g, k1, u) <==> Unfinished(g, FreeBooks(k1, t), u);
    forall u | u in k.hold && u != q && (u == s ==> In(g, k, s) != {} || k.attached[s] - {q} != {})
      ensures Wanted(g, k1, u) && Wanted(g, FreeBooks(k1, t), u)
    {
      assert Wanted(g, k, u);
    }
    forall z: nat | InPlace(g, p', z) ensures p'.viewSrc[z].value !in k.hold { assert InPlace(g, p, z); }
  }

  lemma ReadLetsGoRetains(g: Graph, pad: seq<nat>, p: Plan, k: Books, e: (nat, nat), s: nat)
    requires g.WellFormed() && Sized(g, pad) && Inv(g, pad, p, k) && Retained(g, p, k)
    requires e in k.edges && e.0 in k.started && g.Target(e) < g.Size()
    requires FateOf(g, p, e) == LetGo(s) && Settled(g, p, k, g.Target(e))
    ensures s < g.Size() && Retained(g, LastPlan(g, p, e, s), LastBooks(g, k, e, s))
  {
    hide Extents, Chains, Needs, Gone, Backed, Holdings, TakenOver, Order, Retained, In, Addresses, Attachments;
    LastUseHolds(g, pad, p, k, e, s);
    RootStanding(g, pad, p, k, e, s);
    LastUseStanding(g, pad, p, k, e, s);
    var q := g.Target(e);
    assert s in k.hold ==> OwnHead(g, p, s);
    if s in k.hold && k.attached[s] - {q} == {} {
      OnlyElement(k.attached[s], q);
    }
    LastRetains(g, p, k, e, s, q);
  }

  lemma ReadFreesRootRetains(g: Graph, pad: seq<nat>, p: Plan, k: Books, e: (nat, nat), s: nat)
    requires g.WellFormed() && Sized(g, pad) && Inv(g, pad, p, k) && Retained(g, p, k)
    requires e in k.edges && e.0 in k.started && g.Target(e) < g.Size()
    requires FateOf(g, p, e) == FreeRoot(s) && Settled(g, p, k, g.Target(e)) && s < g.Size() && p.data[s].Some?
    ensures s in k.owner
    ensures Retained(g, FreePlan(LastPlan(g, p, e, s), p.data[s].value, Pad(pad, s)),
                     FreeBooks(LastBooks(g, k, e, s), k.owner[s]))
  {
    hide Extents, Chains, Needs, Gone, Backed, Holdings, TakenOver, Order, Retained, In, Addresses, Attachments;
    LastUseHolds(g, pad, p, k, e, s);
    RootStanding(g, pad, p, k, e, s);
    LastUseStanding(g, pad, p, k, e, s);
    var q := g.Target(e);
    assert q in k.hold ==> k.owner[q] == q;
    LastRetains(g, p, k, e, s, k.owner[s]);
    SameReturns(g, LastPlan(g, p, e, s), FreePlan(LastPlan(g, p, e, s), p.data[s].value, Pad(pad, s)),
                FreeBooks(LastBooks(g, k, e, s), k.owner[s]));
  }

  lemma SameReturns(g: Graph, p: Plan, p': Plan, k: Books)
    requires Retained(g, p, k) && p'.viewSrc == p.viewSrc
    ensures Retained(g, p', k)
  {
    forall z: nat | InPlace(g, p', z) ensures p'.viewSrc[z].value !in k.hold { assert InPlace(g, p, z); }
  }

  lemma ReadFreesHeadRetains(g: Graph, pad: seq<nat>, p: Plan, k: Books, e: (nat, nat))
    requires g.WellFormed() && Shape(g, p, k) && Attachments(g, p, k) && Retained(g, p, k)
    requires e in k.edges && e.0 in k.started && g.Target(e) < g.Size() && FateOf(g, p, e).FreeHead?
    requires p.data[g.Target(e)].Some? && !g.IsView(g.Target(e))
    ensures Retained(g, FreePlan(UsePlan(p, g.Target(e)), p.data[g.Target(e)].value, Pad(pad, g.Target(e))),
                     FreeBooks(UseBooks(k, e), g.Target(e)))
  {
    var q, k1 := g.Target(e), UseBooks(k, e);
    var p', k' := FreePlan(UsePlan(p, q), p.data[q].value, Pad(pad, q)), FreeBooks(k1, q);
    SameReads(g, k1, k');
    forall t ensures t != q ==> In(g, k', t) == In(g, k, t) { InAfterUse(g, k, e, t); }
    assert forall u :: u != q && Unfinished(g, k, u) ==> Unfinished(g, k', u);
    forall t | t in k'.hold ensures Wanted(g, k', t) { assert Wanted(g, k, t); }
    forall z: nat | InPlace(g, p', z) ensures p'.viewSrc[z].value !in k'.hold { assert InPlace(g, p, z); }
  }

  // ---------- What one read gives back ----------

  /** The free bytes are those of b and those of the range. */
  ghost predicate GivenBack(b: seq<FreeBlock>, b': seq<FreeBlock>, addr: int, size: nat) {
    forall x :: Covers(b', x) <==> Covers(b, x) || Within(x, addr, size)
  }

  /** A tensor of this buffer with nothing left to read it and nothing attached. */
  ghost predicate DoneWith(p: Plan, t: nat) {
    && t < |p.nChildren| && t < |p.nViews| && t < |p.data|
    && p.nChildren[t] == 0 && p.nViews[t] == 0 && p.data[t].Some? && Mine(p, t)
  }

  /** How striking off one read of q turns p into p': one read less; if that was the last and nothing is
      attached to q, its root has one view less; and if q, when it is no view, or its root, when it is
      one, is then done with, all its bytes are free.  Nothing else changes. */
  ghost predicate Struck(pad: seq<nat>, p: Plan, p': Plan, q: nat) {
    && q < |p.nChildren| == |p.nViews| == |p.viewSrc|
    && p'.data == p.data && p'.buffer == p.buffer && p'.viewSrc == p.viewSrc && p'.top == p.top
    && p'.nChildren == p.nChildren[q := p.nChildren[q] - 1]
    && match p.viewSrc[q]
       case None =>
         && p'.nViews == p.nViews
         && (if DoneWith(p', q) then GivenBack(p.blocks, p'.blocks, p.data[q].value, Pad(pad, q))
             else p'.blocks == p.blocks)
       case Some(s) =>
         if s < |p.nViews| && p'.nChildren[q] == 0 && p.nViews[q] == 0 then
           && p'.nViews == p.nViews[s := p.nViews[s] - 1]
           && (if DoneWith(p', s) then GivenBack(p.blocks, p'.blocks, p.data[s].value, Pad(pad, s))
               else p'.blocks == p.blocks)
         else p'.nViews == p.nViews && p'.blocks == p.blocks
  }

  /** What the counters ask to release is not free. */
  ghost predicate ReleaseAllowed(g: Graph, pad: seq<nat>, p: Plan, e: (nat, nat))
    requires Fitting(g, p)
  {
    match FateOf(g, p, e)
    case FreeHead => g.Target(e) < g.Size() && p.data[g.Target(e)].Some?
                     && Apart(p.blocks, p.data[g.Target(e)].value, Pad(pad, g.Target(e)))
    case FreeRoot(s) => s < g.Size() && p.data[s].Some? && Apart(p.blocks, p.data[s].value, Pad(pad, s))
    case _ => true
  }

  lemma ReadStrikes(g: Graph, pad: seq<nat>, p: Plan, m: nat, j: nat)
    requires Fitting(g, p) && Sized(g, pad) && WellFormed(p.blocks) && m < g.Size() && j < |g.Src(m)|
    requires ReleaseAllowed(g, pad, p, (m, j)) && ReadDone(g, pad, p, m, j).Some?
    ensures Struck(pad, p, ReadDone(g, pad, p, m, j).value, g.Src(m)[j])
  {
    assert g.TensorOk(m);
    var e, q := (m, j), g.Src(m)[j];
    assert ViewFits(g, p, q);
    match FateOf(g, p, e)
    case FreeHead => ReleaseCovers(p.blocks, p.data[q].value, Pad(pad, q));
    case FreeRoot(s) => ReleaseCovers(p.blocks, p.data[s].value, Pad(pad, s));
    case _ =>
  }
}
