/** The planner's steps as transitions on its state, and the invariant across each of them. */
module PlanSteps {
  import opened Wrappers
  import opened FreeList
  import opened GraphPlan

  // ---------- A tensor with memory of its own ----------

  ghost function PlaceHeadPlan(p: Plan, t: nat, addr: int, rest: seq<FreeBlock>, top: int): Plan
    requires t < |p.data| && t < |p.buffer|
  {
    p.(data := p.data[t := Some(addr)], buffer := p.buffer[t := Own], blocks := rest, top := top)
  }

  ghost function PlaceHeadBooks(k: Books, t: nat, r: Range): Books {
    k.(owner := k.owner[t := t], hold := k.hold[t := r])
  }

  ghost predicate Fresh(g: Graph, p: Plan, t: nat) {
    t < g.Size() && t < |p.data| && t < |p.buffer| && p.data[t].None?
  }

  lemma FreshUnowned(g: Graph, pad: seq<nat>, p: Plan, k: Books, t: nat)
    requires Inv(g, pad, p, k) && Fresh(g, p, t)
    ensures t !in k.hold && t !in k.owner && t !in k.started && t !in k.lingering && !InPlace(g, p, t)
    ensures p.buffer[t] == NoBuffer
  {
    assert AddressOk(g, p, t);
  }

  lemma PlaceHeadKeeps(g: Graph, pad: seq<nat>, p: Plan, k: Books, t: nat, top: int)
    requires g.WellFormed() && Sized(g, pad) && Inv(g, pad, p, k) && Fresh(g, p, t) && !g.IsView(t)
    requires Take(p.blocks, Pad(pad, t)).Some?
    ensures var q := Take(p.blocks, Pad(pad, t)).value;
            Inv(g, pad, PlaceHeadPlan(p, t, q.addr, q.rest, top), PlaceHeadBooks(k, t, Range(q.addr, Pad(pad, t))))
  {
    var size := Pad(pad, t);
    var q := Take(p.blocks, size).value;
    assert g.TensorOk(t);
    TakeCovers(p.blocks, size);
    FreshUnowned(g, pad, p, k, t);
    PlaceHeadFrame(g, p, k, t, q.addr, q.rest, Range(q.addr, size), top);
    PlaceHeadHoldings(k, p.blocks, t, size);
    PlaceHeadCustody(g, pad, p, k, t, q.addr, q.rest, size, top);
  }

  lemma PlaceHeadBytes(g: Graph, pad: seq<nat>, p: Plan, k: Books, t: nat, top: int)
    requires WellFormed(p.blocks) && Take(p.blocks, Pad(pad, t)).Some? && Pad(pad, t) > 0 && t !in k.hold
    requires t < |p.data| && t < |p.buffer|
    ensures var q := Take(p.blocks, Pad(pad, t)).value;
            SameBytes(g, pad, p, k, PlaceHeadPlan(p, t, q.addr, q.rest, top),
                      PlaceHeadBooks(k, t, Range(q.addr, Pad(pad, t))), true)
  {
    var q := Take(p.blocks, Pad(pad, t)).value;
    var k' := PlaceHeadBooks(k, t, Range(q.addr, Pad(pad, t)));
    TakeCovers(p.blocks, Pad(pad, t));
    forall x ensures Accounted(q.rest, k', x) <==> Accounted(p.blocks, k, x) {
      assert k'.hold[t] == Range(q.addr, Pad(pad, t));
      assert forall u :: u in k.hold ==> u in k'.hold && k'.hold[u] == k.hold[u];
      assert forall u :: u in k'.hold && u != t ==> u in k.hold && k'.hold[u] == k.hold[u];
    }
  }

  lemma PlaceHeadFrame(g: Graph, p: Plan, k: Books, t: nat, addr: int, rest: seq<FreeBlock>, r: Range, top: int)
    requires Framed(g, Running(p, k)) && Fresh(g, p, t) && !g.IsView(t) && WellFormed(rest)
    ensures Framed(g, Running(PlaceHeadPlan(p, t, addr, rest, top), PlaceHeadBooks(k, t, r)))
  {
    PlaceHeadShape(g, p, k, t, addr, rest, r, top);
    PlaceHeadOrder(g, p, k, t, addr, rest, r, top);
    PlaceHeadAddresses(g, p, t, addr, rest, top);
  }

  lemma PlaceHeadCustody(g: Graph, pad: seq<nat>, p: Plan, k: Books, t: nat, addr: int, rest: seq<FreeBlock>,
                         size: nat, top: int)
    requires Inv(g, pad, p, k) && Fresh(g, p, t) && !g.IsView(t) && size == Pad(pad, t)
    requires t !in k.owner && t !in k.hold && t !in k.lingering && !InPlace(g, p, t)
    ensures var o := Running(PlaceHeadPlan(p, t, addr, rest, top), PlaceHeadBooks(k, t, Range(addr, size)));
            InCustody(g, pad, o) && TakeoversBut(g, o, g.Size())
  {
    PlaceHeadOwners(g, p, k, t, addr, rest, Range(addr, size), top);
    PlaceHeadExtents(g, pad, p, k, t, addr, rest, size, top);
    PlaceHeadTakeovers(g, p, k, t, addr, rest, Range(addr, size), top);
    PlaceHeadNeeds(g, p, k, t, addr, rest, Range(addr, size), top);
    PlaceHeadGone(g, p, k, t, addr, rest, Range(addr, size), top);
    PlaceHeadBacked(g, pad, p, k, t, addr, rest, size, top);
  }

  lemma PlaceHeadBacked(g: Graph, pad: seq<nat>, p: Plan, k: Books, t: nat, addr: int, rest: seq<FreeBlock>,
                        size: nat, top: int)
    requires Owners(g, p, k) && Backed(pad, p, k) && Fresh(g, p, t) && size == Pad(pad, t)
    requires t !in k.owner && t !in k.hold
    requires t < |p.viewSrc| && p.viewSrc[t].None?
    ensures Backed(pad, PlaceHeadPlan(p, t, addr, rest, top), PlaceHeadBooks(k, t, Range(addr, size)))
  {
    var p', k' := PlaceHeadPlan(p, t, addr, rest, top), PlaceHeadBooks(k, t, Range(addr, size));
    forall u | u in k'.owner ensures exists r: nat :: BackedBy(pad, p', k', u, r) {
      if u == t {
        assert Leads(p'.viewSrc, t, t, 0);
        assert BackedBy(pad, p', k', t, t);
      } else {
        var r: nat :| BackedBy(pad, p, k, u, r);
        assert BackedBy(pad, p', k', u, r);
      }
    }
  }

  lemma PlaceHeadShape(g: Graph, p: Plan, k: Books, t: nat, addr: int, rest: seq<FreeBlock>, r: Range, top: int)
    requires Shape(g, p, k) && Counts(g, p, k) && Attachments(g, p, k) && Fresh(g, p, t) && WellFormed(rest)
    ensures var p', k' := PlaceHeadPlan(p, t, addr, rest, top), PlaceHeadBooks(k, t, r);
            Shape(g, p', k') && Counts(g, p', k') && Attachments(g, p', k')
  {
    var k' := PlaceHeadBooks(k, t, r);
    SameAttachments(g, p, k, PlaceHeadPlan(p, t, addr, rest, top), k');
    forall u ensures In(g, k', u) == In(g, k, u) {}
  }

  lemma PlaceHeadOrder(g: Graph, p: Plan, k: Books, t: nat, addr: int, rest: seq<FreeBlock>, r: Range, top: int)
    requires Order(g, p, k) && Fresh(g, p, t)
    ensures Order(g, PlaceHeadPlan(p, t, addr, rest, top), PlaceHeadBooks(k, t, r))
  {
    var p', k' := PlaceHeadPlan(p, t, addr, rest, top), PlaceHeadBooks(k, t, r);
    forall m, j | m in k.started && 0 <= j < |g.Src(m)| ensures Settled(g, p', k', g.Src(m)[j]) {
      assert Settled(g, p, k, g.Src(m)[j]);
    }
  }

  lemma PlaceHeadAddresses(g: Graph, p: Plan, t: nat, addr: int, rest: seq<FreeBlock>, top: int)
    requires Addresses(g, p) && Fresh(g, p, t) && !g.IsView(t)
    ensures Addresses(g, PlaceHeadPlan(p, t, addr, rest, top))
  {
    var p' := PlaceHeadPlan(p, t, addr, rest, top);
    forall u | 0 <= u < |p'.data| ensures AddressOk(g, p', u) {
      assert AddressOk(g, p, u);
      assert AddressOk(g, p, t);
    }
  }

  lemma PlaceHeadHoldings(k: Books, b: seq<FreeBlock>, t: nat, size: nat)
    requires WellFormed(b) && size > 0 && Take(b, size).Some? && Holdings(k, b)
    ensures var q := Take(b, size).value; Holdings(PlaceHeadBooks(k, t, Range(q.addr, size)), q.rest)
  {
    var q := Take(b, size).value;
    var k' := PlaceHeadBooks(k, t, Range(q.addr, size));
    TakeCovers(b, size);
    forall u | u in k.hold && u != t ensures Disjoint(k.hold[u], Range(q.addr, size)) {
      var r := k.hold[u];
      var x := if r.addr < q.addr then q.addr else r.addr;
      if !Disjoint(r, Range(q.addr, size)) {
        assert Within(x, q.addr, size) && Within(x, r.addr, r.size);
      }
    }
    forall u | u in k'.hold ensures Apart(q.rest, k'.hold[u].addr, k'.hold[u].size) {
      if u != t { assert Apart(b, k.hold[u].addr, k.hold[u].size); }
    }
  }

  lemma PlaceHeadOwners(g: Graph, p: Plan, k: Books, t: nat, addr: int, rest: seq<FreeBlock>, r: Range, top: int)
    requires Owners(g, p, k) && t !in k.owner && t !in k.hold && t !in k.lingering && Fresh(g, p, t) && !g.IsView(t)
    ensures Owners(g, PlaceHeadPlan(p, t, addr, rest, top), PlaceHeadBooks(k, t, r))
  {
    var p' := PlaceHeadPlan(p, t, addr, rest, top);
    forall s | s in k.owner ensures s != t && k.owner[s] != t && OwnHead(g, p', s) {
      assert OwnHead(g, p, s);
    }
  }

  lemma PlaceHeadExtents(g: Graph, pad: seq<nat>, p: Plan, k: Books, t: nat, addr: int, rest: seq<FreeBlock>,
                         size: nat, top: int)
    requires Owners(g, p, k) && Extents(g, pad, p, k) && t !in k.owner && t !in k.hold
    requires Fresh(g, p, t) && size == Pad(pad, t)
    ensures Extents(g, pad, PlaceHeadPlan(p, t, addr, rest, top), PlaceHeadBooks(k, t, Range(addr, size)))
  {
    forall s | s in k.owner ensures s != t && k.owner[s] != t && OwnHead(g, p, s) {}
  }

  lemma PlaceHeadTakeovers(g: Graph, p: Plan, k: Books, t: nat, addr: int, rest: seq<FreeBlock>, r: Range, top: int)
    requires Takeovers(g, p, k) && Chains(g, p, k) && Fresh(g, p, t) && t !in k.owner && !InPlace(g, p, t)
    ensures var p', k' := PlaceHeadPlan(p, t, addr, rest, top), PlaceHeadBooks(k, t, r);
            Takeovers(g, p', k') && Chains(g, p', k')
  {
    var p', k' := PlaceHeadPlan(p, t, addr, rest, top), PlaceHeadBooks(k, t, r);
    forall s | s in k'.owner && k'.owner[s] != s ensures TakenOver(g, p', k', s) {
      assert TakenOver(g, p, k, s);
      forall u ensures In(g, k', u) == In(g, k, u) {}
    }
    forall z | z in k'.owner && InPlace(g, p', z) ensures Chained(p', k', z) {
      assert Chained(p, k, z);
    }
  }

  lemma PlaceHeadNeeds(g: Graph, p: Plan, k: Books, t: nat, addr: int, rest: seq<FreeBlock>, r: Range, top: int)
    requires Needs(g, p, k) && Fresh(g, p, t) && !InPlace(g, p, t)
    ensures Needs(g, PlaceHeadPlan(p, t, addr, rest, top), PlaceHeadBooks(k, t, r))
  {
    var p', k' := PlaceHeadPlan(p, t, addr, rest, top), PlaceHeadBooks(k, t, r);
    forall e | e in k'.edges ensures NeedsEdge(g, p', k', e) {
      assert NeedsEdge(g, p, k, e);
    }
  }

  lemma PlaceHeadGone(g: Graph, p: Plan, k: Books, t: nat, addr: int, rest: seq<FreeBlock>, r: Range, top: int)
    requires Gone(g, p, k) && Attachments(g, p, k) && Fresh(g, p, t) && !InPlace(g, p, t) && !g.IsView(t)
    ensures Gone(g, PlaceHeadPlan(p, t, addr, rest, top), PlaceHeadBooks(k, t, r))
  {
    var p', k' := PlaceHeadPlan(p, t, addr, rest, top), PlaceHeadBooks(k, t, r);
    forall s | 0 <= s < g.Size() && OwnHead(g, p', s) && s !in k'.owner && s !in k'.lingering
      ensures Quiet(g, k', s) || Stuck(k', s)
    {
      assert OwnHead(g, p, s);
      assert In(g, k', s) == In(g, k, s);
      if Stuck(k, s) {
        assert p.viewSrc[k.next[s]] == Some(s);
      }
    }
  }

  // ---------- A view of a tensor already in place ----------

  ghost function PlaceViewPlan(g: Graph, p: Plan, v: nat): Plan
    requires v < |g.tensors| && v < |p.data| && v < |p.buffer| && Placed(p, g.Base(v)) && g.Base(v) < |p.buffer|
  {
    p.(data := p.data[v := Some(p.data[g.Base(v)].value + g.tensors[v].offs)],
       buffer := p.buffer[v := p.buffer[g.Base(v)]])
  }

  /** Every read of node m is still to come. */
  ghost predicate Full(g: Graph, k: Books, m: nat) {
    forall j :: 0 <= j < |g.Src(m)| ==> (m, j) in k.edges
  }

  /** A view still to be placed reads its own family, so nobody has taken the block over. */
  lemma FamilyOfFreshView(g: Graph, pad: seq<nat>, p: Plan, k: Books, v: nat)
    requires g.WellFormed() && Inv(g, pad, p, k) && Fresh(g, p, v) && g.IsView(v) && v in g.nodes
    requires Full(g, k, v)
    ensures OwnHead(g, p, g.Base(v)) ==> g.Base(v) in k.hold
  {
    assert g.NodeOk(v);
    var j :| 0 <= j < |g.Src(v)| && g.Base(g.Src(v)[j]) == g.Base(v);
    assert NeedsEdge(g, p, k, (v, j));
    FreshUnowned(g, pad, p, k, v);
  }

  lemma PlaceViewKeeps(g: Graph, pad: seq<nat>, p: Plan, k: Books, v: nat)
    requires g.WellFormed() && Inv(g, pad, p, k) && Fresh(g, p, v) && g.IsView(v) && v in g.nodes
    requires Full(g, k, v) && Placed(p, g.Base(v))
    ensures Inv(g, pad, PlaceViewPlan(g, p, v), k)
  {
    FreshUnowned(g, pad, p, k, v);
    FamilyOfFreshView(g, pad, p, k, v);
    PlaceViewFrame(g, p, k, v);
    PlaceViewCustody(g, pad, p, k, v);
  }

  lemma PlaceViewFrame(g: Graph, p: Plan, k: Books, v: nat)
    requires g.WellFormed() && Framed(g, Running(p, k)) && Fresh(g, p, v) && g.IsView(v) && Placed(p, g.Base(v))
    ensures Framed(g, Running(PlaceViewPlan(g, p, v), k))
  {
    SameAttachments(g, p, k, PlaceViewPlan(g, p, v), k);
    PlaceViewAddresses(g, p, v);
    PlaceViewOrder(g, p, k, v);
  }

  lemma PlaceViewCustody(g: Graph, pad: seq<nat>, p: Plan, k: Books, v: nat)
    requires Inv(g, pad, p, k) && Fresh(g, p, v) && g.IsView(v) && Placed(p, g.Base(v)) && v !in k.hold
    requires OwnHead(g, p, g.Base(v)) ==> g.Base(v) in k.hold
    ensures var o := Running(PlaceViewPlan(g, p, v), k); InCustody(g, pad, o) && TakeoversBut(g, o, g.Size())
  {
    PlaceViewTakeovers(g, p, k, v);
    PlaceViewOwners(g, pad, p, k, v);
    PlaceViewNeeds(g, p, k, v);
    SameBacked(pad, p, k, PlaceViewPlan(g, p, v), k);
  }

  lemma PlaceViewAddresses(g: Graph, p: Plan, v: nat)
    requires g.WellFormed() && Addresses(g, p) && Fresh(g, p, v) && g.IsView(v)
    requires Placed(p, g.Base(v)) && |p.buffer| == |p.data| == |p.viewSrc| == g.Size()
    ensures Addresses(g, PlaceViewPlan(g, p, v))
  {
    var p' := PlaceViewPlan(g, p, v);
    assert g.TensorOk(v);
    forall u | 0 <= u < |p'.data| ensures AddressOk(g, p', u) {
      assert AddressOk(g, p, u) && AddressOk(g, p, v) && AddressOk(g, p, g.Base(v));
      assert g.TensorOk(u);
    }
  }

  lemma PlaceViewOrder(g: Graph, p: Plan, k: Books, v: nat)
    requires Order(g, p, k) && Fresh(g, p, v) && v < |g.tensors| && Placed(p, g.Base(v)) && |p.buffer| == |p.data|
    ensures Order(g, PlaceViewPlan(g, p, v), k)
  {
    forall m, j | m in k.started && 0 <= j < |g.Src(m)|
      ensures Settled(g, PlaceViewPlan(g, p, v), k, g.Src(m)[j])
    {
      assert Settled(g, p, k, g.Src(m)[j]);
    }
  }

  lemma PlaceViewTakeovers(g: Graph, p: Plan, k: Books, v: nat)
    requires Takeovers(g, p, k) && Chains(g, p, k)
    requires Fresh(g, p, v) && v < |g.tensors| && Placed(p, g.Base(v)) && |p.buffer| == |p.data|
    ensures Takeovers(g, PlaceViewPlan(g, p, v), k) && Chains(g, PlaceViewPlan(g, p, v), k)
  {
    var p' := PlaceViewPlan(g, p, v);
    forall s | s in k.owner && k.owner[s] != s ensures TakenOver(g, p', k, s) {
      assert TakenOver(g, p, k, s);
    }
    forall z | z in k.owner && InPlace(g, p', z) ensures Chained(p', k, z) {
      assert Chained(p, k, z);
    }
  }

  lemma PlaceViewOwners(g: Graph, pad: seq<nat>, p: Plan, k: Books, v: nat)
    requires Owners(g, p, k) && Extents(g, pad, p, k) && Gone(g, p, k)
    requires Fresh(g, p, v) && g.IsView(v) && v < |g.tensors| && Placed(p, g.Base(v)) && |p.buffer| == |p.data|
    ensures var p' := PlaceViewPlan(g, p, v); Owners(g, p', k) && Extents(g, pad, p', k) && Gone(g, p', k)
  {
    var p' := PlaceViewPlan(g, p, v);
    forall s ensures OwnHead(g, p', s) <==> OwnHead(g, p, s) {}
  }

  lemma PlaceViewNeeds(g: Graph, p: Plan, k: Books, v: nat)
    requires Needs(g, p, k) && Fresh(g, p, v) && g.IsView(v) && v < |g.tensors|
    requires Placed(p, g.Base(v)) && |p.buffer| == |p.data| && v !in k.hold
    requires OwnHead(g, p, g.Base(v)) ==> g.Base(v) in k.hold
    ensures Needs(g, PlaceViewPlan(g, p, v), k)
  {
    var p' := PlaceViewPlan(g, p, v);
    forall s ensures OwnHead(g, p', s) <==> OwnHead(g, p, s) {}
    forall e | e in k.edges ensures NeedsEdge(g, p', k, e) {
      assert NeedsEdge(g, p, k, e);
    }
  }
}
