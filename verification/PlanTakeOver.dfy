/** Reuse in place: a node takes over the block of one of its parents. */
module PlanTakeOver {
  import opened Wrappers
  import opened FreeList
  import opened GraphPlan
  import opened PlanSteps

  /** The tests of `allocate_node` on source j of node x; s is the tensor x becomes a view of. */
  ghost predicate Reusable(g: Graph, p: Plan, x: nat, j: nat, s: nat) {
    && x < g.Size() && j < |g.Src(x)| && g.Src(x)[j] < g.Size() && s < g.Size()
    && |p.data| == |p.buffer| == |p.viewSrc| == |p.nChildren| == |p.nViews| == g.Size()
    && var q := g.Src(x)[j];
       && p.buffer[q] == Own && p.data[q].Some? && p.nChildren[q] == 1 && p.nViews[q] == 0
       && g.tensors[x].layout == g.tensors[q].layout
       && match p.viewSrc[q]
          case None => s == q
          case Some(r) => s == r && p.nViews[r] == 1 && p.nChildren[r] == 0 && p.data[r] == p.data[q]
  }

  /** The tensor whose content is in the block now: the parent itself, or the root of a view. */
  ghost function Displaced(g: Graph, x: nat, j: nat, s: nat): nat
    requires j < |g.Src(x)|
  {
    if g.IsView(g.Src(x)[j]) then s else g.Src(x)[j]
  }

  ghost function TakeOverPlan(p: Plan, x: nat, s: nat): Plan
    requires x < |p.data| == |p.buffer| == |p.viewSrc| == |p.nViews| && s < |p.data|
  {
    p.(data := p.data[x := p.data[s]], buffer := p.buffer[x := p.buffer[s]],
       viewSrc := p.viewSrc[x := Some(s)], nViews := p.nViews[s := p.nViews[s] + 1])
  }

  ghost function TakeOverBooks(k: Books, x: nat, s: nat, t: nat): Books
    requires s < |k.attached| && t in k.hold
  {
    k.(attached := k.attached[s := k.attached[s] + {x}],
       next := k.next[s := x],
       lingering := if t != s then k.lingering + {t} else k.lingering,
       owner := (map u | u in k.owner && (u != t || t == s) :: if k.owner[u] == t then x else k.owner[u])[x := x],
       hold := (k.hold - {t})[x := k.hold[t]])
  }

  // ---------- What the tests imply ----------

  /** Everything that is still to be read of the displaced content is read by x, at that place. */
  ghost predicate Clear(g: Graph, pad: seq<nat>, p: Plan, k: Books, x: nat, j: nat, s: nat, t: nat)
  {
    Newcomer(g, p, k, x) && Displaceable(g, p, k, x, s, t) && LastReader(g, p, k, x, j, s, t) && Keepers(g, k, x, s, t)
    && t in k.hold && p.data[s].Some? && p.data[s].value == k.hold[t].addr && Occupies(g, pad, x, k.hold[t].size)
  }

  ghost predicate Newcomer(g: Graph, p: Plan, k: Books, x: nat) {
    && Fresh(g, p, x) && !g.IsView(x) && x in k.pending && x !in k.released && x !in k.hold && x !in k.owner
    && x !in k.started && x !in k.lingering && !InPlace(g, p, x)
  }

  ghost predicate Displaceable(g: Graph, p: Plan, k: Books, x: nat, s: nat, t: nat) {
    && x != s && x != t && s < g.Size() && s < |p.data| && OwnHead(g, p, s) && OwnHead(g, p, t) && t !in k.pending
      && s !in k.pending
    && t in k.hold && s in k.owner && k.owner[s] == t && s !in k.released && s < |k.attached| && x !in k.attached[s]
    && (t != s ==>
          && InPlace(g, p, t) && p.viewSrc[t] == Some(s) && t < |k.attached| && k.attached[t] == {}
          && t in k.attached[s])
  }

  ghost predicate LastReader(g: Graph, p: Plan, k: Books, x: nat, j: nat, s: nat, t: nat) {
    && (forall e :: e in k.edges && g.Base(g.Target(e)) == t ==> e == (x, j))
    && Placed(p, g.Target((x, j))) && s < |p.data| && p.data[g.Target((x, j))] == p.data[s]
    && g.NBytes(g.Target((x, j))) == g.NBytes(x)
  }

  ghost predicate Keepers(g: Graph, k: Books, x: nat, s: nat, t: nat) {
    && (forall e :: e in In(g, k, s) ==> e.0 == x)
    && s < |k.attached|
    && (forall v :: v in k.attached[s] ==>
          (g.IsView(v) || (v == t && t != s)) && In(g, k, v) != {} && forall e :: e in In(g, k, v) ==> e.0 == x)
  }

  lemma Singleton<T>(a: set<T>, x: T)
    requires |a| == 1 && x in a
    ensures a == {x}
  {
    assert |a - {x}| == 0;
  }

  /** Edges into t: the views of t let go once nothing attached keeps them. */
  lemma FamilyEdges(g: Graph, pad: seq<nat>, p: Plan, k: Books, t: nat, e: (nat, nat))
    requires g.WellFormed() && Inv(g, pad, p, k) && t < g.Size() && e in k.edges && g.Base(g.Target(e)) == t
    ensures e in In(g, k, t) || (g.Target(e) in k.attached[t] && g.IsView(g.Target(e)))
  {
    var v := g.Target(e);
    if v != t {
      assert g.NodeOk(e.0);
      assert v in g.nodes;
      assert AddressOk(g, p, v) && Keeper(g, p, k, v);
      assert e in In(g, k, v);
    }
  }

  lemma NewcomerFacts(g: Graph, pad: seq<nat>, p: Plan, k: Books, x: nat)
    requires Inv(g, pad, p, k) && Fresh(g, p, x) && !g.IsView(x) && x in g.nodes
    ensures Newcomer(g, p, k, x)
    ensures forall s :: 0 <= s < |k.attached| ==> x !in k.attached[s]
  {
    FreshUnowned(g, pad, p, k, x);
    assert AddressOk(g, p, x);
  }

  /** The one read of q left is x's, and nothing is attached to q. */
  lemma OneReader(g: Graph, p: Plan, k: Books, x: nat, j: nat, s: nat)
    requires Shape(g, p, k) && Counts(g, p, k) && Full(g, k, x) && Reusable(g, p, x, j, s)
    ensures var q := g.Src(x)[j]; In(g, k, q) == {(x, j)} && k.attached[q] == {}
  {
    var q := g.Src(x)[j];
    assert (x, j) in In(g, k, q);
    Singleton(In(g, k, q), (x, j));
  }

  /** s is kept by the parent only, when the parent is a view of it. */
  lemma OneKeeper(g: Graph, p: Plan, k: Books, x: nat, j: nat, s: nat)
    requires g.WellFormed() && Shape(g, p, k) && Counts(g, p, k) && Attachments(g, p, k)
    requires Full(g, k, x) && Reusable(g, p, x, j, s) && x in g.nodes && p.viewSrc[g.Src(x)[j]].Some?
    ensures k.attached[s] == {g.Src(x)[j]} && In(g, k, s) == {}
  {
    var q := g.Src(x)[j];
    OneReader(g, p, k, x, j, s);
    assert Keeper(g, p, k, q);
    Singleton(k.attached[s], q);
  }

  lemma LastReaderFacts(g: Graph, pad: seq<nat>, p: Plan, k: Books, x: nat, j: nat, s: nat, t: nat)
    requires g.WellFormed() && Inv(g, pad, p, k) && t < g.Size()
    requires x < g.Size() && j < |g.Src(x)| && g.Src(x)[j] < g.Size() && g.Base(g.Src(x)[j]) == t
    requires forall f :: f in In(g, k, t) ==> f == (x, j)
    requires forall v :: v in k.attached[t] && g.IsView(v) ==> v == g.Src(x)[j]
    requires In(g, k, g.Src(x)[j]) == {(x, j)}
    ensures forall e :: e in k.edges && g.Base(g.Target(e)) == t ==> e == (x, j)
  {
    forall f | f in k.edges && g.Base(g.Target(f)) == t ensures f == (x, j) {
      FamilyEdges(g, pad, p, k, t, f);
      assert f in In(g, k, g.Target(f));
    }
  }

  lemma KeepersOf(g: Graph, k: Books, x: nat, j: nat, s: nat, t: nat)
    requires s < |k.attached| && In(g, k, s) <= {(x, j)}
    requires forall v :: v in k.attached[s] ==> (g.IsView(v) || (v == t && t != s)) && In(g, k, v) == {(x, j)}
    ensures Keepers(g, k, x, s, t)
  {
    hide In;
    forall v | v in k.attached[s] ensures In(g, k, v) != {} && forall e :: e in In(g, k, v) ==> e.0 == x {
      assert (x, j) in In(g, k, v);
    }
  }

  lemma LastReaderOf(g: Graph, p: Plan, k: Books, x: nat, j: nat, s: nat, t: nat)
    requires forall e :: e in k.edges && g.Base(g.Target(e)) == t ==> e == (x, j)
    requires j < |g.Src(x)| && Placed(p, g.Src(x)[j]) && s < |p.data| && p.data[g.Src(x)[j]] == p.data[s]
    requires g.NBytes(g.Src(x)[j]) == g.NBytes(x)
    ensures LastReader(g, p, k, x, j, s, t)
  {
  }

  /** All parts of the invariant that take-overs need, by name. */
  lemma InvParts(g: Graph, pad: seq<nat>, p: Plan, k: Books)
    requires Inv(g, pad, p, k)
    ensures Shape(g, p, k) && Counts(g, p, k) && Addresses(g, p) && Attachments(g, p, k)
    ensures Owners(g, p, k) && Extents(g, pad, p, k) && Chains(g, p, k) && Needs(g, p, k) && Takeovers(g, p, k)
  {
  }

  /** Reuse of a parent that is not a view. */
  lemma ClearDirect(g: Graph, pad: seq<nat>, p: Plan, k: Books, x: nat, j: nat, s: nat)
    requires g.WellFormed() && Sized(g, pad) && Inv(g, pad, p, k) && Fresh(g, p, x) && !g.IsView(x) && x in g.nodes
    requires Full(g, k, x) && Reusable(g, p, x, j, s) && Settled(g, p, k, g.Src(x)[j])
    requires p.viewSrc[g.Src(x)[j]].None?
    ensures Clear(g, pad, p, k, x, j, s, s)
  {
    hide Owners, Extents, Chains, Needs, Gone, Shape, Counts, Order, Addresses, Attachments, Takeovers, TakenOver;
    hide Newcomer, Displaceable, LastReader, Keepers, In, Occupies, Holdings, Backed;
    InvParts(g, pad, p, k);
    DirectFacts(g, pad, p, k, x, j, s);
    NewcomerFacts(g, pad, p, k, x);
    OneReader(g, p, k, x, j, s);
    LastReaderFacts(g, pad, p, k, x, j, s, s);
    DirectPosition(g, pad, p, k, x, (x, j), s);
    LastReaderOf(g, p, k, x, j, s, s);
    KeepersOf(g, k, x, j, s, s);
  }

  lemma DirectFacts(g: Graph, pad: seq<nat>, p: Plan, k: Books, x: nat, j: nat, s: nat)
    requires g.WellFormed() && Sized(g, pad) && Fresh(g, p, x) && !g.IsView(x) && x in g.nodes
    requires Shape(g, p, k) && Addresses(g, p) && Needs(g, p, k)
    requires Full(g, k, x) && Reusable(g, p, x, j, s) && Settled(g, p, k, g.Src(x)[j])
    requires p.viewSrc[g.Src(x)[j]].None?
    ensures OwnHead(g, p, s) && s in k.hold && s !in k.pending && g.Base(s) == s && g.Src(x)[j] == s
    ensures g.NBytes(x) == g.NBytes(s) && Pad(pad, x) == Pad(pad, s) && s < |k.attached|
  {
    assert AddressOk(g, p, s);
    assert AddressOk(g, p, x);
    assert NeedsEdge(g, p, k, (x, j));
  }

  lemma DirectPosition(g: Graph, pad: seq<nat>, p: Plan, k: Books, x: nat, e: (nat, nat), s: nat)
    requires Owners(g, p, k) && Extents(g, pad, p, k) && Attachments(g, p, k) && Newcomer(g, p, k, x)
    requires s < |k.attached| && k.attached[s] == {} && In(g, k, s) == {e} && s < |p.data| && s < g.Size()
    requires OwnHead(g, p, s) && s in k.hold && s !in k.pending && g.NBytes(x) == g.NBytes(s)
             && Pad(pad, x) == Pad(pad, s)
    ensures Displaceable(g, p, k, x, s, s)
    ensures p.data[s].value == k.hold[s].addr && Occupies(g, pad, x, k.hold[s].size)
  {
    assert e in In(g, k, s);
  }

  /** Reuse through a view of the graph. */
  lemma ClearThroughView(g: Graph, pad: seq<nat>, p: Plan, k: Books, x: nat, j: nat, s: nat)
    requires g.WellFormed() && Sized(g, pad) && Inv(g, pad, p, k) && Fresh(g, p, x) && !g.IsView(x) && x in g.nodes
    requires Full(g, k, x) && Reusable(g, p, x, j, s) && Settled(g, p, k, g.Src(x)[j])
    requires g.IsView(g.Src(x)[j]) && g.tensors[x].inplace
    ensures Clear(g, pad, p, k, x, j, s, s)
  {
    hide Owners, Extents, Chains, Needs, Gone, Shape, Counts, Order, Addresses, Attachments, Takeovers, TakenOver;
    hide Newcomer, Displaceable, LastReader, Keepers, In, Occupies, Holdings, Backed;
    var v := g.Src(x)[j];
    InvParts(g, pad, p, k);
    ThroughViewFacts(g, pad, p, k, x, j, s);
    NewcomerFacts(g, pad, p, k, x);
    OneReader(g, p, k, x, j, s);
    OneKeeper(g, p, k, x, j, s);
    LastReaderFacts(g, pad, p, k, x, j, s, s);
    ThroughViewPosition(g, pad, p, k, x, v, s);
    LastReaderOf(g, p, k, x, j, s, s);
    KeepersOf(g, k, x, j, s, s);
  }

  lemma ThroughViewFacts(g: Graph, pad: seq<nat>, p: Plan, k: Books, x: nat, j: nat, s: nat)
    requires g.WellFormed() && Sized(g, pad) && Inv(g, pad, p, k) && Fresh(g, p, x) && x in g.nodes
    requires Full(g, k, x) && Reusable(g, p, x, j, s) && Settled(g, p, k, g.Src(x)[j]) && g.IsView(g.Src(x)[j])
    requires g.tensors[x].inplace
    ensures OwnHead(g, p, s) && s in k.hold && s !in k.pending && s == g.Base(g.Src(x)[j])
    ensures p.viewSrc[g.Src(x)[j]] == Some(s) && p.data[g.Src(x)[j]] == p.data[s]
    ensures g.NBytes(x) == g.NBytes(g.Src(x)[j]) && Occupies(g, pad, x, Pad(pad, s))
  {
    var v := g.Src(x)[j];
    assert AddressOk(g, p, v) && g.TensorOk(v);
    assert NeedsEdge(g, p, k, (x, j));
    assert NoSmallerReuse(g, pad) ==> AsLargeAsBase(g, pad, x, v);
    FreshUnowned(g, pad, p, k, x);
  }

  lemma ThroughViewPosition(g: Graph, pad: seq<nat>, p: Plan, k: Books, x: nat, v: nat, s: nat)
    requires Owners(g, p, k) && Extents(g, pad, p, k) && Takeovers(g, p, k) && Chains(g, p, k) && Attachments(g, p, k)
             && Newcomer(g, p, k, x)
    requires s < |k.attached| && k.attached[s] == {v} && v < |p.data| && s < |p.data| && s < g.Size()
    requires OwnHead(g, p, s) && s in k.hold && s !in k.pending && Occupies(g, pad, x, Pad(pad, s))
    requires x !in k.attached[s]
    ensures Displaceable(g, p, k, x, s, s)
    ensures p.data[s].value == k.hold[s].addr && Occupies(g, pad, x, k.hold[s].size)
  {
  }

  /** Reuse of an in-place result: its own root changes hands again. */
  lemma ClearThroughInPlace(g: Graph, pad: seq<nat>, p: Plan, k: Books, x: nat, j: nat, s: nat)
    requires g.WellFormed() && Sized(g, pad) && Inv(g, pad, p, k) && Fresh(g, p, x) && !g.IsView(x) && x in g.nodes
    requires Full(g, k, x) && Reusable(g, p, x, j, s) && Settled(g, p, k, g.Src(x)[j])
    requires InPlace(g, p, g.Src(x)[j])
    ensures Clear(g, pad, p, k, x, j, s, g.Src(x)[j])
  {
    hide Owners, Extents, Chains, Needs, Gone, Shape, Counts, Order, Addresses, Attachments, Takeovers, TakenOver;
    hide Newcomer, Displaceable, LastReader, Keepers, In, Occupies, Holdings, Backed;
    var t := g.Src(x)[j];
    InvParts(g, pad, p, k);
    InPlaceFacts(g, pad, p, k, x, j, s);
    NewcomerFacts(g, pad, p, k, x);
    OneReader(g, p, k, x, j, s);
    OneKeeper(g, p, k, x, j, s);
    LastReaderFacts(g, pad, p, k, x, j, s, t);
    ThroughInPlacePosition(g, pad, p, k, x, s, t);
    LastReaderOf(g, p, k, x, j, s, t);
    KeepersOf(g, k, x, j, s, t);
  }

  lemma InPlaceFacts(g: Graph, pad: seq<nat>, p: Plan, k: Books, x: nat, j: nat, s: nat)
    requires g.WellFormed() && Sized(g, pad) && Fresh(g, p, x) && !g.IsView(x) && x in g.nodes
    requires Shape(g, p, k) && Addresses(g, p) && Needs(g, p, k)
    requires Full(g, k, x) && Reusable(g, p, x, j, s) && Settled(g, p, k, g.Src(x)[j])
    requires InPlace(g, p, g.Src(x)[j])
    ensures var t := g.Src(x)[j];
            && OwnHead(g, p, t) && t in k.hold && t !in k.pending && s !in k.pending && g.Base(t) == t && s != t
            && p.viewSrc[t] == Some(s) && Placed(p, t) && p.data[t] == p.data[s] && AddressOk(g, p, t)
            && g.NBytes(x) == g.NBytes(t) && Pad(pad, x) == Pad(pad, t) && t < |k.attached| && s < |k.attached|
  {
    assert AddressOk(g, p, g.Src(x)[j]);
    assert AddressOk(g, p, x);
    assert NeedsEdge(g, p, k, (x, j));
  }

  lemma ThroughInPlacePosition(g: Graph, pad: seq<nat>, p: Plan, k: Books, x: nat, s: nat, t: nat)
    requires Owners(g, p, k) && Extents(g, pad, p, k) && Takeovers(g, p, k) && Chains(g, p, k) && Attachments(g, p, k)
             && Newcomer(g, p, k, x) && AddressOk(g, p, t)
    requires s < |k.attached| && k.attached[s] == {t} && t < |k.attached| && k.attached[t] == {}
    requires s < |p.data| && s < g.Size() && InPlace(g, p, t) && p.viewSrc[t] == Some(s)
    requires OwnHead(g, p, t) && t in k.hold && t !in k.pending && s !in k.pending && g.NBytes(x) == g.NBytes(t)
             && Pad(pad, x) == Pad(pad, t)
    requires x !in k.attached[s]
    ensures Displaceable(g, p, k, x, s, t)
    ensures p.data[s].value == k.hold[t].addr && Occupies(g, pad, x, k.hold[t].size)
  {
    assert Chained(p, k, t);
  }

  // ---------- The invariant after the block has changed hands ----------

  lemma TakeOverBytes(g: Graph, pad: seq<nat>, p: Plan, k: Books, x: nat, s: nat, t: nat)
    requires Fits(g, p, k, x, s, t) && x !in k.hold
    ensures SameBytes(g, pad, p, k, TakeOverPlan(p, x, s), TakeOverBooks(k, x, s, t), true)
  {
    var k' := TakeOverBooks(k, x, s, t);
    forall b ensures Accounted(p.blocks, k', b) <==> Accounted(p.blocks, k, b) {
      assert k'.hold[x] == k.hold[t];
      assert forall u :: u in k'.hold && u != x ==> u in k.hold && k'.hold[u] == k.hold[u];
      assert forall u :: u in k.hold && u != t ==> u in k'.hold && k'.hold[u] == k.hold[u];
    }
  }

  lemma TakeOverKeeps(g: Graph, pad: seq<nat>, p: Plan, k: Books, x: nat, j: nat, s: nat, t: nat)
    requires g.WellFormed() && Inv(g, pad, p, k) && Clear(g, pad, p, k, x, j, s, t)
    ensures Inv(g, pad, TakeOverPlan(p, x, s), TakeOverBooks(k, x, s, t))
  {
    TakeOverFrame(g, pad, p, k, x, j, s, t);
    TakeOverCustody(g, pad, p, k, x, j, s, t);
    TakeOverChain(g, pad, p, k, x, j, s, t);
    TakeOverHoldings(k, p.blocks, x, s, t);
  }

  lemma TakeOverFrame(g: Graph, pad: seq<nat>, p: Plan, k: Books, x: nat, j: nat, s: nat, t: nat)
    requires Inv(g, pad, p, k) && Clear(g, pad, p, k, x, j, s, t)
    ensures Framed(g, Running(TakeOverPlan(p, x, s), TakeOverBooks(k, x, s, t)))
  {
    TakeOverShape(g, p, k, x, s, t);
    TakeOverAddresses(g, p, x, s);
    TakeOverOrder(g, p, k, x, s, t);
    TakeOverAttachments(g, p, k, x, s, t);
  }

  lemma TakeOverCustody(g: Graph, pad: seq<nat>, p: Plan, k: Books, x: nat, j: nat, s: nat, t: nat)
    requires Inv(g, pad, p, k) && Clear(g, pad, p, k, x, j, s, t)
    ensures InCustody(g, pad, Running(TakeOverPlan(p, x, s), TakeOverBooks(k, x, s, t)))
  {
    TakeOverOwners(g, pad, p, k, x, s, t);
    TakeOverChains(g, p, k, x, s, t);
    TakeOverNeeds(g, p, k, x, j, s, t);
    TakeOverGone(g, p, k, x, s, t);
    TakeOverBacked(g, pad, p, k, x, s, t);
  }

  /** Chains from owners stay among owners, and x was none. */
  lemma {:induction false} ChainStays(g: Graph, p: Plan, k: Books, x: nat, s: nat, u: nat, r: nat, n: nat)
    requires Owners(g, p, k) && Chains(g, p, k) && x !in k.owner && u in k.owner && x < |p.viewSrc|
    requires Leads(p.viewSrc, u, r, n)
    ensures Leads(p.viewSrc[x := Some(s)], u, r, n)
    decreases n
  {
    assert OwnHead(g, p, u);
    if n == 0 {
    } else {
      assert Chained(p, k, u);
      ChainStays(g, p, k, x, s, p.viewSrc[u].value, r, n - 1);
    }
  }

  lemma BackedAfter(g: Graph, pad: seq<nat>, p: Plan, k: Books, x: nat, s: nat, u: nat, r: nat)
    requires Owners(g, p, k) && Chains(g, p, k) && x !in k.owner && x < |p.viewSrc| && BackedBy(pad, p, k, u, r)
    ensures EndsAt(p.viewSrc[x := Some(s)], u, r)
  {
    var n: nat :| Leads(p.viewSrc, u, r, n);
    ChainStays(g, p, k, x, s, u, r, n);
  }

  lemma TakeOverBacked(g: Graph, pad: seq<nat>, p: Plan, k: Books, x: nat, s: nat, t: nat)
    requires Owners(g, p, k) && Chains(g, p, k) && Backed(pad, p, k) && Fits(g, p, k, x, s, t) && Newcomer(g, p, k, x)
    requires s in k.owner && k.owner[s] == t
    ensures Backed(pad, TakeOverPlan(p, x, s), TakeOverBooks(k, x, s, t))
  {
    var p', k' := TakeOverPlan(p, x, s), TakeOverBooks(k, x, s, t);
    forall u | u in k'.owner ensures exists r: nat :: BackedBy(pad, p', k', u, r) {
      var v := if u == x then s else u;
      var r: nat :| BackedBy(pad, p, k, v, r);
      BackedAfter(g, pad, p, k, x, s, v, r);
      var n: nat :| Leads(p'.viewSrc, v, r, n);
      if u == x {
        assert Leads(p'.viewSrc, x, r, n + 1);
      } else {
        OwnersAfter(g, p, k, x, s, t, u);
      }
      assert BackedBy(pad, p', k', u, r);
    }
  }

  lemma TakeOverChain(g: Graph, pad: seq<nat>, p: Plan, k: Books, x: nat, j: nat, s: nat, t: nat)
    requires Inv(g, pad, p, k) && Clear(g, pad, p, k, x, j, s, t)
    ensures TakeoversBut(g, Running(TakeOverPlan(p, x, s), TakeOverBooks(k, x, s, t)), g.Size())
  {
    TakeOverTakeovers(g, p, k, x, s, t);
  }

  ghost predicate Fits(g: Graph, p: Plan, k: Books, x: nat, s: nat, t: nat) {
    && |p.data| == |p.buffer| == |p.viewSrc| == |p.nChildren| == |p.nViews| == |k.attached| == g.Size()
    && x < g.Size() && s < g.Size() && t in k.hold && x != s && x != t
  }

  lemma TakeOverShape(g: Graph, p: Plan, k: Books, x: nat, s: nat, t: nat)
    requires Shape(g, p, k) && Counts(g, p, k) && Fits(g, p, k, x, s, t) && x !in k.attached[s]
    ensures var p', k' := TakeOverPlan(p, x, s), TakeOverBooks(k, x, s, t); Shape(g, p', k') && Counts(g, p', k')
  {
    var p', k' := TakeOverPlan(p, x, s), TakeOverBooks(k, x, s, t);
    forall u ensures In(g, k', u) == In(g, k, u) {}
  }

  lemma TakeOverAddresses(g: Graph, p: Plan, x: nat, s: nat)
    requires Addresses(g, p) && Fresh(g, p, x) && !g.IsView(x) && OwnHead(g, p, s) && s != x && s < g.Size()
    requires |p.data| == |p.buffer| == |p.viewSrc| == |p.nViews| == g.Size()
    ensures Addresses(g, TakeOverPlan(p, x, s))
  {
    var p' := TakeOverPlan(p, x, s);
    forall u | 0 <= u < |p'.data| ensures AddressOk(g, p', u) {
      assert AddressOk(g, p, u) && AddressOk(g, p, x) && AddressOk(g, p, s);
    }
  }

  lemma TakeOverOrder(g: Graph, p: Plan, k: Books, x: nat, s: nat, t: nat)
    requires Order(g, p, k) && Fits(g, p, k, x, s, t) && Fresh(g, p, x) && OwnHead(g, p, s)
    ensures Order(g, TakeOverPlan(p, x, s), TakeOverBooks(k, x, s, t))
  {
    var p', k' := TakeOverPlan(p, x, s), TakeOverBooks(k, x, s, t);
    forall m, j | m in k.started && 0 <= j < |g.Src(m)| ensures Settled(g, p', k', g.Src(m)[j]) {
      assert Settled(g, p, k, g.Src(m)[j]);
    }
  }

  lemma TakeOverAttachments(g: Graph, p: Plan, k: Books, x: nat, s: nat, t: nat)
    requires Attachments(g, p, k) && Fits(g, p, k, x, s, t) && Newcomer(g, p, k, x) && s !in k.released && !g.IsView(s)
    requires p.viewSrc[x].None?
    ensures Attachments(g, TakeOverPlan(p, x, s), TakeOverBooks(k, x, s, t))
  {
    var p', k' := TakeOverPlan(p, x, s), TakeOverBooks(k, x, s, t);
    forall u, v | 0 <= u < |k'.attached| && v in k'.attached[u] ensures KeptBy(g, p', k', u, v) {
      assert v != x ==> v in k.attached[u] && KeptBy(g, p, k, u, v);
    }
    forall v | 0 <= v < |p'.viewSrc| ensures Keeper(g, p', k', v) { assert Keeper(g, p, k, v); }
    forall v | v in k'.released ensures HasLetGo(g, k', v) {
      assert HasLetGo(g, k, v);
      assert In(g, k', v) == In(g, k, v);
    }
  }

  lemma OwnersAfter(g: Graph, p: Plan, k: Books, x: nat, s: nat, t: nat, u: nat)
    requires Owners(g, p, k) && Fits(g, p, k, x, s, t) && Newcomer(g, p, k, x)
    requires u in TakeOverBooks(k, x, s, t).owner && u != x
    ensures var p', k' := TakeOverPlan(p, x, s), TakeOverBooks(k, x, s, t);
            && u in k.owner && k'.owner[u] in k'.hold && k'.hold[k'.owner[u]] == k.hold[k.owner[u]]
            && k.owner[u] in k.hold && OwnHead(g, p', u) && u !in k'.lingering && Placed(p, u)
              && p'.data[u] == p.data[u]
  {
    assert OwnHead(g, p, u);
  }

  lemma TakeOverOwners(g: Graph, pad: seq<nat>, p: Plan, k: Books, x: nat, s: nat, t: nat)
    requires Owners(g, p, k) && Extents(g, pad, p, k) && Fits(g, p, k, x, s, t)
    requires Newcomer(g, p, k, x) && OwnHead(g, p, s) && p.data[s].value == k.hold[t].addr
    requires Occupies(g, pad, x, k.hold[t].size)
    ensures var p', k' := TakeOverPlan(p, x, s), TakeOverBooks(k, x, s, t); Owners(g, p', k') && Extents(g, pad, p', k')
  {
    hide Occupies, Owners;
    var p', k' := TakeOverPlan(p, x, s), TakeOverBooks(k, x, s, t);
    forall u | u in k'.owner && u != x
      ensures k'.owner[u] in k'.hold && OwnHead(g, p', u) && u !in k'.lingering
      ensures p'.data[u].value == k'.hold[k'.owner[u]].addr && Occupies(g, pad, u, k'.hold[k'.owner[u]].size)
    {
      OwnersAfter(g, p, k, x, s, t, u);
    }
    TakerOwns(g, p, k, x, s, t);
  }

  lemma TakerOwns(g: Graph, p: Plan, k: Books, x: nat, s: nat, t: nat)
    requires Owners(g, p, k) && Fits(g, p, k, x, s, t) && Newcomer(g, p, k, x) && OwnHead(g, p, s)
    ensures Owners(g, TakeOverPlan(p, x, s), TakeOverBooks(k, x, s, t))
  {
    var p', k' := TakeOverPlan(p, x, s), TakeOverBooks(k, x, s, t);
    assert OwnHead(g, p', x);
    forall u | u in k'.owner && u != x ensures OwnHead(g, p', u) && k'.owner[u] in k'.hold && u !in k'.lingering {
      OwnersAfter(g, p, k, x, s, t, u);
    }
  }

  lemma ReadsStay(g: Graph, k: Books, k': Books)
    requires k'.edges == k.edges
    ensures forall t :: In(g, k', t) == In(g, k, t)
  {
    forall t ensures In(g, k', t) == In(g, k, t) {}
  }

  lemma TakenOverNow(g: Graph, p: Plan, k: Books, x: nat, s: nat, t: nat)
    requires Owners(g, p, k) && Fits(g, p, k, x, s, t) && Newcomer(g, p, k, x)
    requires Displaceable(g, p, k, x, s, t) && Keepers(g, k, x, s, t)
    requires s in TakeOverBooks(k, x, s, t).owner
    ensures TakenOver(g, TakeOverPlan(p, x, s), TakeOverBooks(k, x, s, t), s)
  {
    hide In, OwnHead;
    var k' := TakeOverBooks(k, x, s, t);
    ReadsStay(g, k, k');
    assert k'.owner[x] == x == k'.owner[s];
  }

  lemma TakenOverStays(g: Graph, p: Plan, k: Books, x: nat, s: nat, t: nat, u: nat)
    requires Takeovers(g, p, k) && Owners(g, p, k) && Fits(g, p, k, x, s, t) && Newcomer(g, p, k, x)
    requires Displaceable(g, p, k, x, s, t) && Keepers(g, k, x, s, t) && u != s
    requires u in TakeOverBooks(k, x, s, t).owner && TakeOverBooks(k, x, s, t).owner[u] != u
    ensures TakenOver(g, TakeOverPlan(p, x, s), TakeOverBooks(k, x, s, t), u)
  {
    hide In, OwnHead;
    var k' := TakeOverBooks(k, x, s, t);
    ReadsStay(g, k, k');
    assert k.owner[u] != u && u != x;
    assert TakenOver(g, p, k, u);
    var z := k.next[u];
    assert (t != s ==> z != t) && k'.next[u] == z;
    assert z != x && z in k'.owner && k'.owner[z] == k'.owner[u];
  }

  lemma TakeOverTakeovers(g: Graph, p: Plan, k: Books, x: nat, s: nat, t: nat)
    requires Takeovers(g, p, k) && Owners(g, p, k) && Fits(g, p, k, x, s, t) && Newcomer(g, p, k, x)
    requires Displaceable(g, p, k, x, s, t) && Keepers(g, k, x, s, t)
    ensures Takeovers(g, TakeOverPlan(p, x, s), TakeOverBooks(k, x, s, t))
  {
    hide TakenOver, Owners, Newcomer, Displaceable, Keepers;
    var k' := TakeOverBooks(k, x, s, t);
    forall u | u in k'.owner && k'.owner[u] != u
      ensures TakenOver(g, TakeOverPlan(p, x, s), k', u)
    {
      if u == s {
        TakenOverNow(g, p, k, x, s, t);
      } else {
        TakenOverStays(g, p, k, x, s, t, u);
      }
    }
  }

  lemma TakeOverChains(g: Graph, p: Plan, k: Books, x: nat, s: nat, t: nat)
    requires Chains(g, p, k) && Owners(g, p, k) && Fits(g, p, k, x, s, t) && Newcomer(g, p, k, x)
    requires Displaceable(g, p, k, x, s, t)
    ensures Chains(g, TakeOverPlan(p, x, s), TakeOverBooks(k, x, s, t))
  {
    var p', k' := TakeOverPlan(p, x, s), TakeOverBooks(k, x, s, t);
    if t != s { assert Chained(p, k, t); }
    forall z | z in k'.owner && InPlace(g, p', z) ensures Chained(p', k', z) {
      if z != x { assert Chained(p, k, z); }
    }
  }

  lemma TakeOverHoldings(k: Books, b: seq<FreeBlock>, x: nat, s: nat, t: nat)
    requires Holdings(k, b) && t in k.hold && x !in k.hold && s < |k.attached|
    ensures Holdings(TakeOverBooks(k, x, s, t), b)
  {
  }

  lemma TakeOverNeeds(g: Graph, p: Plan, k: Books, x: nat, j: nat, s: nat, t: nat)
    requires Needs(g, p, k) && Fits(g, p, k, x, s, t) && Newcomer(g, p, k, x)
    requires Displaceable(g, p, k, x, s, t) && LastReader(g, p, k, x, j, s, t)
    requires forall e :: e in k.edges ==> e.0 in k.pending
    ensures Needs(g, TakeOverPlan(p, x, s), TakeOverBooks(k, x, s, t))
  {
    var p', k' := TakeOverPlan(p, x, s), TakeOverBooks(k, x, s, t);
    forall e | e in k'.edges ensures NeedsEdge(g, p', k', e) {
      assert NeedsEdge(g, p, k, e);
    }
  }

  lemma TakeOverGone(g: Graph, p: Plan, k: Books, x: nat, s: nat, t: nat)
    requires Gone(g, p, k) && Attachments(g, p, k) && s !in k.lingering && Fits(g, p, k, x, s, t)
             && Newcomer(g, p, k, x)
    requires Displaceable(g, p, k, x, s, t) && p.viewSrc[x].None? && t in k.owner
    ensures Gone(g, TakeOverPlan(p, x, s), TakeOverBooks(k, x, s, t))
  {
    var p', k' := TakeOverPlan(p, x, s), TakeOverBooks(k, x, s, t);
    forall u | 0 <= u < g.Size() && OwnHead(g, p', u) && u !in k'.owner && u !in k'.lingering
      ensures Quiet(g, k', u) || Stuck(k', u)
    {
      assert OwnHead(g, p, u) && u !in k.owner && u != s;
      assert In(g, k', u) == In(g, k, u);
    }
  }
}
