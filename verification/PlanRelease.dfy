/** After a node has been processed: its reads are struck off, and what nobody needs any more
    is released. */
module PlanRelease {
  import opened Wrappers
  import opened FreeList
  import opened GraphPlan
  import opened PlanSteps

  ghost function UsePlan(p: Plan, q: nat): Plan
    requires q < |p.nChildren|
  {
    p.(nChildren := p.nChildren[q := p.nChildren[q] - 1])
  }

  ghost function UseBooks(k: Books, e: (nat, nat)): Books {
    k.(edges := k.edges - {e})
  }

  ghost function DetachPlan(p: Plan, s: nat): Plan
    requires s < |p.nViews|
  {
    p.(nViews := p.nViews[s := p.nViews[s] - 1])
  }

  ghost function DetachBooks(k: Books, q: nat, s: nat): Books
    requires s < |k.attached|
  {
    k.(attached := k.attached[s := k.attached[s] - {q}], released := k.released + {q})
  }

  ghost function FreePlan(p: Plan, addr: int, size: nat): Plan {
    p.(blocks := Release(p.blocks, addr, size))
  }

  ghost function FreeBooks(k: Books, t: nat): Books {
    k.(owner := map u | u in k.owner && k.owner[u] != t :: k.owner[u], hold := k.hold - {t})
  }

  // ---------- Striking off a read ----------

  lemma InAfterUse(g: Graph, k: Books, e: (nat, nat), t: nat)
    requires e in k.edges
    ensures In(g, UseBooks(k, e), t) == if g.Target(e) == t then In(g, k, t) - {e} else In(g, k, t)
    ensures In(g, UseBooks(k, e), t) <= In(g, k, t)
  {
  }

  lemma UseShape(g: Graph, p: Plan, k: Books, e: (nat, nat))
    requires g.WellFormed() && Shape(g, p, k) && Counts(g, p, k) && e in k.edges && g.Target(e) < g.Size()
    ensures var p', k' := UsePlan(p, g.Target(e)), UseBooks(k, e); Shape(g, p', k') && Counts(g, p', k')
  {
    var k' := UseBooks(k, e);
    forall t ensures In(g, k', t) == if g.Target(e) == t then In(g, k, t) - {e} else In(g, k, t) {
      InAfterUse(g, k, e, t);
    }
    assert e in In(g, k, g.Target(e));
  }

  lemma UseFrame(g: Graph, p: Plan, k: Books, e: (nat, nat))
    requires e in k.edges && g.Target(e) < |p.nChildren| && Order(g, p, k) && Addresses(g, p) && Attachments(g, p, k)
    ensures var p', k' := UsePlan(p, g.Target(e)), UseBooks(k, e);
            Order(g, p', k') && Addresses(g, p') && Attachments(g, p', k')
  {
    var p', k' := UsePlan(p, g.Target(e)), UseBooks(k, e);
    UseAttachments(g, p, k, e);
    forall m, j | m in k.started && 0 <= j < |g.Src(m)| ensures Settled(g, p', k', g.Src(m)[j]) {
      assert Settled(g, p, k, g.Src(m)[j]);
    }
    forall t | 0 <= t < |p'.data| ensures AddressOk(g, p', t) { assert AddressOk(g, p, t); }
  }

  lemma UseAttachments(g: Graph, p: Plan, k: Books, e: (nat, nat))
    requires e in k.edges && g.Target(e) < |p.nChildren| && Attachments(g, p, k)
    ensures Attachments(g, UsePlan(p, g.Target(e)), UseBooks(k, e))
  {
    var p', k' := UsePlan(p, g.Target(e)), UseBooks(k, e);
    forall s, v | 0 <= s < |k'.attached| && v in k'.attached[s] ensures KeptBy(g, p', k', s, v) {
      assert KeptBy(g, p, k, s, v);
    }
    forall v | 0 <= v < |p'.viewSrc| ensures Keeper(g, p', k', v) { assert Keeper(g, p, k, v); }
    forall v | v in k'.released ensures HasLetGo(g, k', v) {
      assert HasLetGo(g, k, v);
      InAfterUse(g, k, e, v);
    }
  }

  lemma UseCustody(g: Graph, pad: seq<nat>, p: Plan, k: Books, e: (nat, nat))
    requires e in k.edges && g.Target(e) < |p.nChildren|
    requires Owners(g, p, k) && Extents(g, pad, p, k) && Chains(g, p, k) && Needs(g, p, k) && Gone(g, p, k)
    ensures var p', k' := UsePlan(p, g.Target(e)), UseBooks(k, e);
            Owners(g, p', k') && Extents(g, pad, p', k') && Chains(g, p', k') && Needs(g, p', k') && Gone(g, p', k')
  {
    var p', k' := UsePlan(p, g.Target(e)), UseBooks(k, e);
    forall t ensures In(g, k', t) <= In(g, k, t) { InAfterUse(g, k, e, t); }
    forall t ensures OwnHead(g, p', t) <==> OwnHead(g, p, t) {}
    forall z | z in k'.owner && InPlace(g, p', z) ensures Chained(p', k', z) { assert Chained(p, k, z); }
    forall f | f in k'.edges ensures NeedsEdge(g, p', k', f) { assert NeedsEdge(g, p, k, f); }
    forall s | 0 <= s < g.Size() && OwnHead(g, p', s) && s !in k'.owner && s !in k'.lingering
      ensures Quiet(g, k', s) || Stuck(k', s)
    {
      assert Quiet(g, k, s) || Stuck(k, s);
    }
  }

  lemma OnlyElement<T>(a: set<T>, x: T)
    requires x in a && a - {x} == {}
    ensures a == {x}
  {
    assert forall y :: y in a && y != x ==> y in a - {x};
  }

  /** One that was taken over stays so, unless its only other keeper has just been read for
      the last time. */
  lemma UseTakenOver(g: Graph, p: Plan, k: Books, e: (nat, nat), s: nat)
    requires e in k.edges && g.Target(e) < |p.nChildren| && TakenOver(g, p, k, s)
    requires In(g, k, g.Target(e)) == {e} ==> g.Target(e) !in k.attached[s] || k.next[s] == g.Target(e)
    ensures TakenOver(g, UsePlan(p, g.Target(e)), UseBooks(k, e), s)
  {
    var p', k' := UsePlan(p, g.Target(e)), UseBooks(k, e);
    InAfterUse(g, k, e, s);
    forall v | v in k.attached[s] && v != k.next[s]
      ensures In(g, k', v) != {} && In(g, k', v) <= In(g, k, v)
    {
      InAfterUse(g, k, e, v);
      if v == g.Target(e) && In(g, k', v) == {} {
        OnlyElement(In(g, k, v), e);
      }
    }
  }

  lemma UseTakeovers(g: Graph, p: Plan, k: Books, e: (nat, nat))
    requires Takeovers(g, p, k) && Attachments(g, p, k) && e in k.edges && g.Target(e) < |p.nChildren|
    requires g.Target(e) < |k.attached| && g.Target(e) < |p.viewSrc|
    requires forall w :: w in k.lingering ==> w < |k.attached| && k.attached[w] == {}
    requires In(g, k, g.Target(e)) == {e} && k.attached[g.Target(e)] == {} ==> p.viewSrc[g.Target(e)].None?
    ensures Takeovers(g, UsePlan(p, g.Target(e)), UseBooks(k, e))
  {
    forall s | s in k.owner && k.owner[s] != s ensures TakenOver(g, UsePlan(p, g.Target(e)), UseBooks(k, e), s) {
      assert TakenOver(g, p, k, s);
      UseTakenOver(g, p, k, e, s);
    }
  }

  /** A read that leaves the parent needed, or leaves a parent that is no view without needs. */
  lemma UseKeeps(g: Graph, pad: seq<nat>, p: Plan, k: Books, e: (nat, nat))
    requires g.WellFormed() && Inv(g, pad, p, k) && e in k.edges && g.Target(e) < g.Size()
    requires In(g, k, g.Target(e)) == {e} && k.attached[g.Target(e)] == {} ==> p.viewSrc[g.Target(e)].None?
    ensures Inv(g, pad, UsePlan(p, g.Target(e)), UseBooks(k, e))
  {
    UseShape(g, p, k, e);
    UseFrame(g, p, k, e);
    UseCustody(g, pad, p, k, e);
    UseTakeovers(g, p, k, e);
    SameBacked(pad, p, k, UsePlan(p, g.Target(e)), UseBooks(k, e));
  }

  // ---------- Letting go of the base after the last read ----------

  /** The last read of q, which is a view of s or an in-place result on s. */
  ghost predicate LastUse(g: Graph, p: Plan, k: Books, e: (nat, nat), s: nat) {
    var q := g.Target(e);
    && e in k.edges && q < g.Size() && s < g.Size() && q < |p.viewSrc| && p.viewSrc[q] == Some(s)
    && q < |k.attached| && In(g, k, q) == {e} && k.attached[q] == {}
    && q !in k.pending && s !in k.pending
  }

  lemma DetachShape(g: Graph, p: Plan, k: Books, q: nat, s: nat)
    requires Shape(g, p, k) && Counts(g, p, k) && s < g.Size() && q in k.attached[s]
    ensures var p', k' := DetachPlan(p, s), DetachBooks(k, q, s); Shape(g, p', k') && Counts(g, p', k')
  {
    var k' := DetachBooks(k, q, s);
    forall t ensures In(g, k', t) == In(g, k, t) {}
    assert |k.attached[s] - {q}| == |k.attached[s]| - 1;
  }

  lemma DetachFrame(g: Graph, p: Plan, k: Books, q: nat, s: nat)
    requires Order(g, p, k) && Addresses(g, p) && s < |k.attached| && s < |p.nViews|
    ensures var p', k' := DetachPlan(p, s), DetachBooks(k, q, s); Order(g, p', k') && Addresses(g, p')
  {
    var p', k' := DetachPlan(p, s), DetachBooks(k, q, s);
    forall m, j | m in k.started && 0 <= j < |g.Src(m)| ensures Settled(g, p', k', g.Src(m)[j]) {
      assert Settled(g, p, k, g.Src(m)[j]);
    }
    forall t | 0 <= t < |p'.data| ensures AddressOk(g, p', t) { assert AddressOk(g, p, t); }
  }

  lemma DetachAttachments(g: Graph, p: Plan, k: Books, q: nat, s: nat)
    requires Attachments(g, p, k) && s < |k.attached| && s < |p.nViews| && q in k.attached[s]
    requires q < |k.attached| && k.attached[q] == {} && In(g, k, q) == {} && q !in k.pending
    ensures Attachments(g, DetachPlan(p, s), DetachBooks(k, q, s))
  {
    var p', k' := DetachPlan(p, s), DetachBooks(k, q, s);
    assert KeptBy(g, p, k, s, q);
    forall u, v | 0 <= u < |k'.attached| && v in k'.attached[u] ensures KeptBy(g, p', k', u, v) {
      assert v in k.attached[u];
      assert KeptBy(g, p, k, u, v);
    }
    forall v | 0 <= v < |p'.viewSrc| ensures Keeper(g, p', k', v) { assert Keeper(g, p, k, v); }
    forall v | v in k'.released ensures HasLetGo(g, k', v) {
      assert v != q ==> HasLetGo(g, k, v);
      assert In(g, k', v) == In(g, k, v);
    }
  }

  lemma DetachCustody(g: Graph, pad: seq<nat>, p: Plan, k: Books, q: nat, s: nat)
    requires s < |k.attached| && s < |p.nViews| && s != q
    requires Owners(g, p, k) && Extents(g, pad, p, k) && Chains(g, p, k) && Needs(g, p, k)
    ensures var p', k' := DetachPlan(p, s), DetachBooks(k, q, s);
            Owners(g, p', k') && Extents(g, pad, p', k') && Chains(g, p', k') && Needs(g, p', k')
  {
    var p', k' := DetachPlan(p, s), DetachBooks(k, q, s);
    forall t ensures OwnHead(g, p', t) <==> OwnHead(g, p, t) {}
    forall z | z in k'.owner && InPlace(g, p', z) ensures Chained(p', k', z) { assert Chained(p, k, z); }
    forall f | f in k'.edges ensures NeedsEdge(g, p', k', f) { assert NeedsEdge(g, p, k, f); }
  }

  /** Nobody owns s any more: then q is not what keeps its memory from a second release. */
  lemma DetachGone(g: Graph, p: Plan, k: Books, q: nat, s: nat)
    requires Gone(g, p, k) && s < |k.attached| && s < |p.nViews| && q in k.attached[s]
    requires q in k.owner || q in k.lingering || g.IsView(q)
    ensures Gone(g, DetachPlan(p, s), DetachBooks(k, q, s))
    ensures s < g.Size() && OwnHead(g, p, s) && s !in k.owner && s !in k.lingering ==> k.attached[s] - {q} != {}
  {
    var p', k' := DetachPlan(p, s), DetachBooks(k, q, s);
    forall u ensures In(g, k', u) == In(g, k, u) {}
    forall u | 0 <= u < g.Size() && OwnHead(g, p', u) && u !in k'.owner && u !in k'.lingering
      ensures Quiet(g, k', u) || Stuck(k', u)
      ensures u == s ==> k.attached[s] - {q} != {}
    {
      assert OwnHead(g, p, u);
      if u == s { assert Stuck(k, s) && k.next[s] in k.attached[s] - {q}; }
    }
  }

  ghost function LastPlan(g: Graph, p: Plan, e: (nat, nat), s: nat): Plan
    requires g.Target(e) < |p.nChildren| && s < |p.nViews|
  {
    DetachPlan(UsePlan(p, g.Target(e)), s)
  }

  ghost function LastBooks(g: Graph, k: Books, e: (nat, nat), s: nat): Books
    requires s < |k.attached|
  {
    DetachBooks(UseBooks(k, e), g.Target(e), s)
  }

  /** A tensor that nothing is attached to owns its block itself, or not at all. */
  lemma NothingAttached(g: Graph, p: Plan, k: Books, q: nat)
    requires Takeovers(g, p, k) && Gone(g, p, k) && Chains(g, p, k)
    requires q < g.Size() && q < |k.attached| && k.attached[q] == {}
    ensures q in k.owner ==> k.owner[q] == q && (InPlace(g, p, q) ==> Chained(p, k, q))
    ensures OwnHead(g, p, q) && In(g, k, q) != {} ==> q in k.owner || q in k.lingering
  {
  }

  /** Where q stands before its last read. */
  lemma LastUseStanding(g: Graph, pad: seq<nat>, p: Plan, k: Books, e: (nat, nat), s: nat)
    requires g.WellFormed() && Inv(g, pad, p, k) && LastUse(g, p, k, e, s) && Placed(p, g.Target(e))
    ensures var q := g.Target(e);
            && q in k.attached[s] && s != q && (q in k.owner || q in k.lingering || g.IsView(q))
            && (q in k.owner ==> k.owner[q] == q && Chained(p, k, q) && TakenOver(g, p, k, s))
            && (q !in k.owner && s in k.owner && k.owner[s] != s ==> s in k.next && k.next[s] != q)
            && s < |k.attached| && s < |p.nViews| && q < |p.nChildren|
  {
    var q := g.Target(e);
    assert e in In(g, k, q);
    assert AddressOk(g, p, q) && Keeper(g, p, k, q);
    NothingAttached(g, p, k, q);
    if s in k.owner && k.owner[s] != s { assert TakenOver(g, p, k, s); }
  }

  /** A tensor that had taken over s and is done: nothing else keeps s. */
  lemma LastUseOfOwner(g: Graph, p: Plan, k: Books, q: nat, s: nat)
    requires Shape(g, p, k) && TakenOver(g, p, k, s) && k.next[s] == q && q !in k.pending
    ensures k.attached[s] == {q} && In(g, k, s) == {}
  {
    forall f ensures f !in In(g, k, s) {}
    forall v ensures v in k.attached[s] ==> v == q {
      forall f ensures f in In(g, k, v) ==> f.0 != q {}
    }
  }

  lemma LastUseTakenOver(g: Graph, p: Plan, k: Books, e: (nat, nat), s: nat, u: nat)
    requires LastUse(g, p, k, e, s) && TakenOver(g, p, k, u) && Attachments(g, p, k)
    requires g.Target(e) < |p.nChildren| && s < |p.nViews| && s < |k.attached|
    requires u == s ==> k.next[s] != g.Target(e)
    ensures TakenOver(g, LastPlan(g, p, e, s), LastBooks(g, k, e, s), u)
  {
    var q, k' := g.Target(e), LastBooks(g, k, e, s);
    forall t ensures In(g, k', t) == if t == q then {} else In(g, k, t) {
      InAfterUse(g, k, e, t);
    }
    assert u != s ==> q !in k.attached[u];
  }

  lemma LastUseFrame(g: Graph, p: Plan, k: Books, e: (nat, nat), s: nat)
    requires g.WellFormed() && Shape(g, p, k) && Counts(g, p, k) && Order(g, p, k) && Addresses(g, p)
    requires Attachments(g, p, k) && LastUse(g, p, k, e, s) && g.Target(e) in k.attached[s]
    ensures var p', k' := LastPlan(g, p, e, s), LastBooks(g, k, e, s);
            Shape(g, p', k') && Counts(g, p', k') && Order(g, p', k') && Addresses(g, p') && Attachments(g, p', k')
  {
    var q := g.Target(e);
    var p1, k1 := UsePlan(p, q), UseBooks(k, e);
    InAfterUse(g, k, e, q);
    UseShape(g, p, k, e);
    UseFrame(g, p, k, e);
    DetachShape(g, p1, k1, q, s);
    DetachFrame(g, p1, k1, q, s);
    DetachAttachments(g, p1, k1, q, s);
  }

  lemma LastUseCustody(g: Graph, pad: seq<nat>, p: Plan, k: Books, e: (nat, nat), s: nat)
    requires e in k.edges && g.Target(e) < |p.nChildren| && s < |p.nViews| && s < |k.attached|
    requires Owners(g, p, k) && Extents(g, pad, p, k) && Chains(g, p, k) && Needs(g, p, k) && Gone(g, p, k)
    requires g.Target(e) in k.attached[s] && s != g.Target(e) && s < g.Size()
    requires g.Target(e) in k.owner || g.Target(e) in k.lingering || g.IsView(g.Target(e))
    ensures var p', k' := LastPlan(g, p, e, s), LastBooks(g, k, e, s);
            && Owners(g, p', k') && Extents(g, pad, p', k') && Chains(g, p', k') && Needs(g, p', k') && Gone(g, p', k')
            && (OwnHead(g, p, s) && s !in k.owner && s !in k.lingering ==> k'.attached[s] != {})
  {
    var p1, k1 := UsePlan(p, g.Target(e)), UseBooks(k, e);
    UseCustody(g, pad, p, k, e);
    DetachCustody(g, pad, p1, k1, g.Target(e), s);
    DetachGone(g, p1, k1, g.Target(e), s);
  }

  lemma LastUseTakeovers(g: Graph, p: Plan, k: Books, e: (nat, nat), s: nat, x: nat)
    requires LastUse(g, p, k, e, s) && Takeovers(g, p, k) && Attachments(g, p, k)
    requires g.Target(e) < |p.nChildren| && s < |p.nViews| && s < |k.attached|
    requires s in k.owner && s != x && k.owner[s] != s ==> k.next[s] != g.Target(e)
    ensures var p', k' := LastPlan(g, p, e, s), LastBooks(g, k, e, s);
            forall u :: u in k'.owner && u != x && k'.owner[u] != u ==> TakenOver(g, p', k', u)
  {
    forall u | u in k.owner && u != x && k.owner[u] != u
      ensures TakenOver(g, LastPlan(g, p, e, s), LastBooks(g, k, e, s), u)
    {
      LastUseTakenOver(g, p, k, e, s, u);
    }
  }

  /** The read struck off and the base let go; what was taken over by q alone is exempt. */
  lemma LastUseKeeps(g: Graph, pad: seq<nat>, p: Plan, k: Books, e: (nat, nat), s: nat, x: nat)
    requires g.WellFormed() && Inv(g, pad, p, k) && LastUse(g, p, k, e, s) && Placed(p, g.Target(e))
    requires x == if g.Target(e) in k.owner then s else g.Size()
    ensures InvBut(g, pad, LastPlan(g, p, e, s), LastBooks(g, k, e, s), x)
    ensures OwnHead(g, p, s) && s !in k.owner && s !in k.lingering ==> LastBooks(g, k, e, s).attached[s] != {}
  {
    LastUseStanding(g, pad, p, k, e, s);
    LastUseFrame(g, p, k, e, s);
    LastUseCustody(g, pad, p, k, e, s);
    LastUseTakeovers(g, p, k, e, s, x);
    SameBacked(pad, p, k, LastPlan(g, p, e, s), LastBooks(g, k, e, s));
  }

  // ---------- Releasing a block ----------

  /** The content of u's block belongs to t, which nobody needs; what is exempt is quiet too. */
  ghost predicate Releasable(g: Graph, p: Plan, k: Books, x: nat, u: nat, t: nat) {
    && u in k.owner && k.owner[u] == t && Quiet(g, k, t) && t !in k.pending && Placed(p, u) && t in k.hold
    && (x in k.owner ==> k.owner[x] == t && Quiet(g, k, x))
  }

  lemma FreeKeeps(g: Graph, pad: seq<nat>, p: Plan, k: Books, x: nat, u: nat, t: nat)
    requires g.WellFormed() && Sized(g, pad) && InvBut(g, pad, p, k, x) && Releasable(g, p, k, x, u, t)
    requires u < g.Size() && t < g.Size()
    ensures Apart(p.blocks, p.data[u].value, Pad(pad, u))
    ensures Inv(g, pad, FreePlan(p, p.data[u].value, Pad(pad, u)), FreeBooks(k, t))
  {
    var addr, size := p.data[u].value, Pad(pad, u);
    assert g.TensorOk(u);
    FreeHoldings(k, p.blocks, t, addr, size);
    FreeFrame(g, p, k, t, addr, size);
    FreeTakeovers(g, p, k, x, u, t, addr, size);
    FreeCustody(g, pad, p, k, x, u, t, addr, size);
  }

  /** Releasing the front of a block: no byte appears, and none gets lost if the front is all of it. */
  lemma FreeAccounted(k: Books, b: seq<FreeBlock>, t: nat, size: nat, x: int)
    requires WellFormed(b) && Holdings(k, b) && t in k.hold && 0 < size <= k.hold[t].size
    requires Apart(b, k.hold[t].addr, size)
    ensures var b', k' := Release(b, k.hold[t].addr, size), FreeBooks(k, t);
            && (Accounted(b', k', x) ==> Accounted(b, k, x))
            && (size == k.hold[t].size && Accounted(b, k, x) ==> Accounted(b', k', x))
  {
    ReleaseCovers(b, k.hold[t].addr, size);
    assert forall v :: v in FreeBooks(k, t).hold <==> v in k.hold && v != t;
    assert Within(x, k.hold[t].addr, size) ==> Within(x, k.hold[t].addr, k.hold[t].size);
  }

  /** A release loses a byte exactly if it goes through a tensor smaller than the end of its chain. */
  lemma FreeBytes(g: Graph, pad: seq<nat>, p: Plan, k: Books, x: nat, u: nat, t: nat)
    requires InvBut(g, pad, p, k, x) && Releasable(g, p, k, x, u, t) && Pad(pad, u) > 0
    ensures SameBytes(g, pad, p, k, FreePlan(p, p.data[u].value, Pad(pad, u)), FreeBooks(k, t),
                      AsLargeAsEnd(pad, p.viewSrc, u))
  {
    hide AsLargeAsEnd, InvBut, Accounted, Holdings, WellFormed, Apart, Release, NoSmallerReuse;
    var addr, size := p.data[u].value, Pad(pad, u);
    ReleasedPart(g, pad, p, k, x, u, t);
    FreeHoldings(k, p.blocks, t, addr, size);
    forall a
      ensures Accounted(Release(p.blocks, addr, size), FreeBooks(k, t), a) ==> Accounted(p.blocks, k, a)
      ensures size == k.hold[t].size && Accounted(p.blocks, k, a) ==>
                Accounted(Release(p.blocks, addr, size), FreeBooks(k, t), a)
    {
      FreeAccounted(k, p.blocks, t, size, a);
    }
    if size < k.hold[t].size {
      ByteLost(k, p.blocks, t, size);
    }
  }

  /** The same with the end of the chain named. */
  lemma ReleaseLosesIff(g: Graph, pad: seq<nat>, p: Plan, k: Books, x: nat, u: nat, t: nat, end: nat)
    requires InvBut(g, pad, p, k, x) && Releasable(g, p, k, x, u, t) && Pad(pad, u) > 0 && EndsAt(p.viewSrc, u, end)
    ensures !NothingLost(p, k, FreePlan(p, p.data[u].value, Pad(pad, u)), FreeBooks(k, t)) <==>
            Pad(pad, u) < Pad(pad, end)
  {
    hide NothingLost, InvBut, Releasable;
    FreeBytes(g, pad, p, k, x, u, t);
    EndSize(g, pad, p, k, x, u, t, end);
  }

  lemma EndSize(g: Graph, pad: seq<nat>, p: Plan, k: Books, x: nat, u: nat, t: nat, end: nat)
    requires InvBut(g, pad, p, k, x) && Releasable(g, p, k, x, u, t) && EndsAt(p.viewSrc, u, end)
    ensures Pad(pad, u) <= Pad(pad, end) && (AsLargeAsEnd(pad, p.viewSrc, u) <==> Pad(pad, u) == Pad(pad, end))
  {
    ReleasedPart(g, pad, p, k, x, u, t);
    var r: nat :| BackedBy(pad, p, k, u, r);
    var n: nat :| Leads(p.viewSrc, u, r, n);
    var m: nat :| Leads(p.viewSrc, u, end, m);
    OneEnd(p.viewSrc, u, r, n, end, m);
  }

  lemma ByteLost(k: Books, b: seq<FreeBlock>, t: nat, size: nat)
    requires WellFormed(b) && Holdings(k, b) && t in k.hold && 0 < size < k.hold[t].size
    requires Apart(b, k.hold[t].addr, size)
    ensures var x := k.hold[t].addr + size;
            Accounted(b, k, x) && !Accounted(Release(b, k.hold[t].addr, size), FreeBooks(k, t), x)
  {
    var r, k' := k.hold[t], FreeBooks(k, t);
    var x := r.addr + size;
    assert Within(x, r.addr, r.size);
    ReleaseCovers(b, r.addr, size);
    forall v | v in k'.hold ensures !Within(x, k'.hold[v].addr, k'.hold[v].size) {
      assert v in k.hold && v != t && Disjoint(k.hold[v], r);
    }
  }

  /** What is released is the front of the holder's block, and all of it exactly if the tensor is as
      large as the end of its chain. */
  lemma ReleasedPart(g: Graph, pad: seq<nat>, p: Plan, k: Books, x: nat, u: nat, t: nat)
    requires InvBut(g, pad, p, k, x) && Releasable(g, p, k, x, u, t)
    ensures WellFormed(p.blocks) && Holdings(k, p.blocks)
    ensures p.data[u].value == k.hold[t].addr && Pad(pad, u) <= k.hold[t].size
    ensures NoSmallerReuse(g, pad) ==> Pad(pad, u) == k.hold[t].size
    ensures AsLargeAsEnd(pad, p.viewSrc, u) <==> Pad(pad, u) == k.hold[t].size
  {
    LargeIffWhole(pad, p, k, u);
  }

  lemma FreeHoldings(k: Books, b: seq<FreeBlock>, t: nat, addr: int, size: nat)
    requires WellFormed(b) && Holdings(k, b) && t in k.hold && size > 0 && Inside(addr, size, k.hold[t])
    ensures Apart(b, addr, size) && WellFormed(Release(b, addr, size))
    ensures Holdings(FreeBooks(k, t), Release(b, addr, size))
  {
    forall x | Within(x, addr, size) ensures !Covers(b, x) {
      assert Within(x, k.hold[t].addr, k.hold[t].size);
    }
    ReleaseCovers(b, addr, size);
    forall u | u in k.hold && u != t
      ensures Apart(Release(b, addr, size), k.hold[u].addr, k.hold[u].size)
    {
      assert Disjoint(k.hold[u], k.hold[t]);
      forall x | Within(x, k.hold[u].addr, k.hold[u].size) ensures !Covers(Release(b, addr, size), x) {
        assert !Covers(b, x);
      }
    }
  }

  lemma FreeFrame(g: Graph, p: Plan, k: Books, t: nat, addr: int, size: nat)
    requires Framed(g, Running(p, k)) && WellFormed(Release(p.blocks, addr, size))
    ensures Framed(g, Running(FreePlan(p, addr, size), FreeBooks(k, t)))
  {
    FreeCounts(g, p, k, t, addr, size);
    FreeOrder(g, p, k, t, addr, size);
  }

  lemma FreeCounts(g: Graph, p: Plan, k: Books, t: nat, addr: int, size: nat)
    requires Shape(g, p, k) && Counts(g, p, k) && Attachments(g, p, k) && WellFormed(Release(p.blocks, addr, size))
    ensures var p', k' := FreePlan(p, addr, size), FreeBooks(k, t);
            Shape(g, p', k') && Counts(g, p', k') && Attachments(g, p', k')
  {
    var k' := FreeBooks(k, t);
    SameAttachments(g, p, k, FreePlan(p, addr, size), k');
    forall s ensures In(g, k', s) == In(g, k, s) {}
  }

  lemma FreeOrder(g: Graph, p: Plan, k: Books, t: nat, addr: int, size: nat)
    requires Order(g, p, k) && Addresses(g, p)
    ensures Order(g, FreePlan(p, addr, size), FreeBooks(k, t)) && Addresses(g, FreePlan(p, addr, size))
  {
    var p', k' := FreePlan(p, addr, size), FreeBooks(k, t);
    forall m, j | m in k.started && 0 <= j < |g.Src(m)| ensures Settled(g, p', k', g.Src(m)[j]) {
      assert Settled(g, p, k, g.Src(m)[j]);
    }
    forall s | 0 <= s < |p'.data| ensures AddressOk(g, p', s) { assert AddressOk(g, p, s); }
  }

  lemma FreeTakeovers(g: Graph, p: Plan, k: Books, x: nat, u: nat, t: nat, addr: int, size: nat)
    requires TakeoversBut(g, Running(p, k), x) && Releasable(g, p, k, x, u, t)
    ensures Takeovers(g, FreePlan(p, addr, size), FreeBooks(k, t))
    ensures TakeoversBut(g, Running(FreePlan(p, addr, size), FreeBooks(k, t)), g.Size())
  {
    var p', k' := FreePlan(p, addr, size), FreeBooks(k, t);
    forall s ensures In(g, k', s) == In(g, k, s) {}
    forall s | s in k'.owner && k'.owner[s] != s ensures TakenOver(g, p', k', s) {
      assert TakenOver(g, p, k, s);
    }
  }

  lemma FreeCustody(g: Graph, pad: seq<nat>, p: Plan, k: Books, x: nat, u: nat, t: nat, addr: int, size: nat)
    requires g.WellFormed() && InCustody(g, pad, Running(p, k)) && TakeoversBut(g, Running(p, k), x)
    requires Framed(g, Running(p, k)) && Releasable(g, p, k, x, u, t)
    ensures InCustody(g, pad, Running(FreePlan(p, addr, size), FreeBooks(k, t)))
  {
    FreeOwners(g, pad, p, k, t, addr, size);
    forall e ensures e in k.edges ==> g.Base(g.Target(e)) != t { QuietFamily(g, p, k, t, e); }
    FreeNeeds(g, p, k, t, addr, size);
    FreeGone(g, p, k, x, u, t, addr, size);
    SameBacked(pad, p, k, FreePlan(p, addr, size), FreeBooks(k, t));
  }

  lemma FreeOwners(g: Graph, pad: seq<nat>, p: Plan, k: Books, t: nat, addr: int, size: nat)
    requires Owners(g, p, k) && Extents(g, pad, p, k) && Chains(g, p, k)
    ensures var p', k' := FreePlan(p, addr, size), FreeBooks(k, t);
            Owners(g, p', k') && Extents(g, pad, p', k') && Chains(g, p', k')
  {
    var p', k' := FreePlan(p, addr, size), FreeBooks(k, t);
    forall s ensures OwnHead(g, p', s) <==> OwnHead(g, p, s) {}
    forall z | z in k'.owner && InPlace(g, p', z) ensures Chained(p', k', z) { assert Chained(p, k, z); }
  }

  /** No read of t's family is left. */
  lemma QuietFamily(g: Graph, p: Plan, k: Books, t: nat, e: (nat, nat))
    requires g.WellFormed() && Shape(g, p, k) && Addresses(g, p) && Attachments(g, p, k) && Quiet(g, k, t)
    ensures e in k.edges ==> g.Base(g.Target(e)) != t
  {
    if e in k.edges {
      var v := g.Target(e);
      assert g.NodeOk(e.0);
      assert v < g.Size() ==> AddressOk(g, p, v) && Keeper(g, p, k, v);
      assert e in In(g, k, v);
      assert g.TensorOk(e.0);
    }
  }

  lemma FreeNeeds(g: Graph, p: Plan, k: Books, t: nat, addr: int, size: nat)
    requires Needs(g, p, k) && Quiet(g, k, t) && t !in k.pending
    requires forall e :: e in k.edges ==> e.0 in k.pending && g.Base(g.Target(e)) != t
    ensures Needs(g, FreePlan(p, addr, size), FreeBooks(k, t))
  {
    var p', k' := FreePlan(p, addr, size), FreeBooks(k, t);
    forall s ensures OwnHead(g, p', s) <==> OwnHead(g, p, s) {}
    forall e | e in k'.edges ensures NeedsEdge(g, p', k', e) {
      assert NeedsEdge(g, p, k, e);
    }
  }

  lemma FreeGone(g: Graph, p: Plan, k: Books, x: nat, u: nat, t: nat, addr: int, size: nat)
    requires Gone(g, p, k) && TakeoversBut(g, Running(p, k), x) && Owners(g, p, k) && Releasable(g, p, k, x, u, t)
    ensures Gone(g, FreePlan(p, addr, size), FreeBooks(k, t))
  {
    var p', k' := FreePlan(p, addr, size), FreeBooks(k, t);
    forall s ensures In(g, k', s) == In(g, k, s) {}
    forall s | 0 <= s < g.Size() && OwnHead(g, p', s) && s !in k'.owner && s !in k'.lingering
      ensures Quiet(g, k', s) || Stuck(k', s)
    {
      assert OwnHead(g, p, s);
      if s in k.owner && s != t && s != x {
        assert TakenOver(g, p, k, s);
      }
    }
  }
}
