/** The walk over the graph: starting a node, striking off its reads one by one, finishing it;
    and what the invariant means for memory. */
module PlanWalk {
  import opened Wrappers
  import opened FreeList
  import opened GraphPlan
  import opened PlanSteps
  import opened PlanRelease

  // ---------- Starting and finishing a node ----------

  ghost function StartBooks(k: Books, m: nat): Books { k.(started := k.started + {m}) }

  ghost function FinishBooks(k: Books, m: nat): Books { k.(pending := k.pending - {m}) }

  lemma StartKeeps(g: Graph, pad: seq<nat>, p: Plan, k: Books, m: nat)
    requires Inv(g, pad, p, k) && m in g.nodes && Placed(p, m)
    requires forall j :: 0 <= j < |g.Src(m)| ==> Settled(g, p, k, g.Src(m)[j])
    ensures Inv(g, pad, p, StartBooks(k, m))
  {
    var k' := StartBooks(k, m);
    SameReads(g, k, k');
    StartFrame(g, p, k, m);
    StartCustody(g, pad, p, k, k');
  }

  lemma SameReads(g: Graph, k: Books, k': Books)
    requires k'.edges == k.edges
    ensures forall t :: In(g, k', t) == In(g, k, t)
  {
    forall t ensures In(g, k', t) == In(g, k, t) {}
  }

  lemma StartFrame(g: Graph, p: Plan, k: Books, m: nat)
    requires Framed(g, Running(p, k)) && m in g.nodes && Placed(p, m)
    requires forall j :: 0 <= j < |g.Src(m)| ==> Settled(g, p, k, g.Src(m)[j])
    ensures Framed(g, Running(p, StartBooks(k, m)))
  {
    SameReads(g, k, StartBooks(k, m));
    SameAttachments(g, p, k, p, StartBooks(k, m));
    StartOrder(g, p, k, m);
  }

  lemma StartOrder(g: Graph, p: Plan, k: Books, m: nat)
    requires Order(g, p, k) && m in g.nodes && Placed(p, m)
    requires forall j :: 0 <= j < |g.Src(m)| ==> Settled(g, p, k, g.Src(m)[j])
    ensures Order(g, p, StartBooks(k, m))
  {
    var k' := StartBooks(k, m);
    forall n, j | n in k'.started && 0 <= j < |g.Src(n)| ensures Settled(g, p, k', g.Src(n)[j]) {
      assert Settled(g, p, k, g.Src(n)[j]);
    }
  }

  /** Custody looks neither at what has started nor, beyond what it holds, at what is pending. */
  lemma StartCustody(g: Graph, pad: seq<nat>, p: Plan, k: Books, k': Books)
    requires InCustody(g, pad, Running(p, k)) && TakeoversBut(g, Running(p, k), g.Size())
    requires k' == k.(started := k'.started, pending := k'.pending) && k'.pending <= k.pending
    ensures InCustody(g, pad, Running(p, k')) && TakeoversBut(g, Running(p, k'), g.Size())
  {
    SameReads(g, k, k');
    forall s | s in k.owner && s != g.Size() && k.owner[s] != s ensures TakenOver(g, p, k', s) {
      assert TakenOver(g, p, k, s);
    }
    forall e | e in k'.edges ensures NeedsEdge(g, p, k', e) { assert NeedsEdge(g, p, k, e); }
    forall z | z in k'.owner && InPlace(g, p, z) ensures Chained(p, k', z) { assert Chained(p, k, z); }
    forall s | 0 <= s < g.Size() && OwnHead(g, p, s) && s !in k'.owner && s !in k'.lingering
      ensures Quiet(g, k', s) || Stuck(k', s)
    {
      assert Quiet(g, k, s) || Stuck(k, s);
    }
    SameBacked(pad, p, k, p, k');
  }

  lemma FinishKeeps(g: Graph, pad: seq<nat>, p: Plan, k: Books, m: nat)
    requires Inv(g, pad, p, k) && m in k.started && forall e :: e in k.edges ==> e.0 != m
    ensures Inv(g, pad, p, FinishBooks(k, m))
  {
    FinishFrame(g, p, k, m);
    StartCustody(g, pad, p, k, FinishBooks(k, m));
  }

  lemma FinishFrame(g: Graph, p: Plan, k: Books, m: nat)
    requires Framed(g, Running(p, k)) && m in k.started && forall e :: e in k.edges ==> e.0 != m
    ensures Framed(g, Running(p, FinishBooks(k, m)))
  {
    SameReads(g, k, FinishBooks(k, m));
    SameAttachments(g, p, k, p, FinishBooks(k, m));
    FinishOrder(g, p, k, m);
  }

  lemma FinishOrder(g: Graph, p: Plan, k: Books, m: nat)
    requires Order(g, p, k) && m in k.started
    ensures Order(g, p, FinishBooks(k, m))
  {
    var k' := FinishBooks(k, m);
    forall n, j | n in k'.started && 0 <= j < |g.Src(n)| ensures Settled(g, p, k', g.Src(n)[j]) {
      assert Settled(g, p, k, g.Src(n)[j]);
    }
  }

  // ---------- One read of a processed node ----------

  datatype Fate = Kept | FreeHead | LetGo(s: nat) | FreeRoot(s: nat)

  /** What the planner does once the read e has been struck off. */
  function FateOf(g: Graph, p: Plan, e: (nat, nat)): Fate
    requires |p.buffer| == |p.viewSrc| == |p.nChildren| == |p.nViews| == g.Size()
  {
    var q := g.Target(e);
    if q >= g.Size() || p.nChildren[q] != 1 || p.nViews[q] != 0 then Kept
    else match p.viewSrc[q]
      case None => if p.buffer[q] == Own then FreeHead else Kept
      case Some(s) =>
        if s < g.Size() && p.nViews[s] == 1 && p.nChildren[s] == 0 && p.buffer[s] == Own then FreeRoot(s) else LetGo(s)
  }

  ghost function AfterRead(g: Graph, pad: seq<nat>, p: Plan, e: (nat, nat)): Plan
    requires |p.data| == |p.buffer| == |p.viewSrc| == |p.nChildren| == |p.nViews| == g.Size() && g.Target(e) < g.Size()
    requires FateOf(g, p, e).LetGo? ==> FateOf(g, p, e).s < g.Size()
    requires FateOf(g, p, e).FreeHead? ==> p.data[g.Target(e)].Some?
    requires FateOf(g, p, e).FreeRoot? ==> FateOf(g, p, e).s < g.Size() && p.data[FateOf(g, p, e).s].Some?
  {
    var q := g.Target(e);
    match FateOf(g, p, e)
    case Kept => UsePlan(p, q)
    case FreeHead => FreePlan(UsePlan(p, q), p.data[q].value, Pad(pad, q))
    case LetGo(s) => LastPlan(g, p, e, s)
    case FreeRoot(s) => FreePlan(LastPlan(g, p, e, s), p.data[s].value, Pad(pad, s))
  }

  /** The reads still to come and the progress of the nodes, apart from the read e. */
  ghost predicate Progress(k: Books, k': Books, e: (nat, nat)) {
    k'.edges == k.edges - {e} && k'.pending == k.pending && k'.started == k.started
  }

  lemma ReadKept(g: Graph, pad: seq<nat>, p: Plan, k: Books, e: (nat, nat)) returns (k': Books)
    requires g.WellFormed() && Inv(g, pad, p, k) && e in k.edges && g.Target(e) < g.Size()
    requires FateOf(g, p, e).Kept?
    ensures Inv(g, pad, UsePlan(p, g.Target(e)), k') && Progress(k, k', e)
    ensures SameBytes(g, pad, p, k, UsePlan(p, g.Target(e)), k', true)
    ensures k' == UseBooks(k, e)
  {
    UseKeeps(g, pad, p, k, e);
    k' := UseBooks(k, e);
    BytesStay(g, pad, p, k, UsePlan(p, g.Target(e)), k');
  }

  /** Whether striking off the read e loses no byte: a release through a root must give back as much
      as the tensor at the end of the root's chain takes. */
  ghost predicate ReadWhole(g: Graph, pad: seq<nat>, p: Plan, e: (nat, nat))
    requires |p.buffer| == |p.viewSrc| == |p.nChildren| == |p.nViews| == g.Size()
  {
    match FateOf(g, p, e)
    case FreeRoot(s) => AsLargeAsEnd(pad, p.viewSrc, s)
    case _ => true
  }

  lemma HeadIsItsEnd(g: Graph, pad: seq<nat>, p: Plan, e: (nat, nat))
    requires |p.buffer| == |p.viewSrc| == |p.nChildren| == |p.nViews| == g.Size() && FateOf(g, p, e).FreeHead?
    ensures AsLargeAsEnd(pad, p.viewSrc, g.Target(e))
  {
    var q := g.Target(e);
    forall r: nat | EndsAt(p.viewSrc, q, r) ensures r == q {
      var n: nat :| Leads(p.viewSrc, q, r, n);
    }
  }

  lemma InvIsInvBut(g: Graph, pad: seq<nat>, p: Plan, k: Books)
    requires Inv(g, pad, p, k)
    ensures InvBut(g, pad, p, k, g.Size())
  {
  }

  lemma ReadFreesHead(g: Graph, pad: seq<nat>, p: Plan, k: Books, e: (nat, nat)) returns (k': Books)
    requires g.WellFormed() && Sized(g, pad) && Inv(g, pad, p, k) && e in k.edges && g.Target(e) < g.Size()
    requires FateOf(g, p, e).FreeHead? && Settled(g, p, k, g.Target(e))
    ensures p.data[g.Target(e)].Some? && Apart(p.blocks, p.data[g.Target(e)].value, Pad(pad, g.Target(e)))
    ensures var p' := FreePlan(UsePlan(p, g.Target(e)), p.data[g.Target(e)].value, Pad(pad, g.Target(e)));
            Inv(g, pad, p', k') && SameBytes(g, pad, p, k, p', k', true)
    ensures Progress(k, k', e) && k' == FreeBooks(UseBooks(k, e), g.Target(e))
  {
    hide SameBytes, AsLargeAsEnd, Backed, Owners, Extents, Chains, Needs, Gone, Counts, Order, Addresses, Attachments,
      Holdings;
    var q, k1 := g.Target(e), UseBooks(k, e);
    HeadUsed(g, pad, p, k, e);
    InvIsInvBut(g, pad, UsePlan(p, q), k1);
    FreeKeeps(g, pad, UsePlan(p, q), k1, g.Size(), q, q);
    k' := FreeBooks(k1, q);
    BytesStay(g, pad, p, k, UsePlan(p, q), k1);
    FreeBytes(g, pad, UsePlan(p, q), k1, g.Size(), q, q);
    HeadIsItsEnd(g, pad, p, e);
    BytesTwice(g, pad, p, k, UsePlan(p, q), k1, FreePlan(UsePlan(p, q), p.data[q].value, Pad(pad, q)), k', true, true);
  }

  lemma HeadUsed(g: Graph, pad: seq<nat>, p: Plan, k: Books, e: (nat, nat))
    requires g.WellFormed() && Inv(g, pad, p, k) && e in k.edges && g.Target(e) < g.Size()
    requires FateOf(g, p, e).FreeHead? && Settled(g, p, k, g.Target(e))
    ensures Releasable(g, UsePlan(p, g.Target(e)), UseBooks(k, e), g.Size(), g.Target(e), g.Target(e))
    ensures Inv(g, pad, UsePlan(p, g.Target(e)), UseBooks(k, e))
  {
    hide Counts, Order, Addresses, Attachments, Owners, Extents, Chains, Needs, Gone, Holdings, TakenOver, In, Settled;
    HeadReleasable(g, pad, p, k, e);
    UseKeeps(g, pad, p, k, e);
  }

  /** The counters say that e is the last read of its parent and that nothing else keeps it. */
  lemma CountersSay(g: Graph, p: Plan, k: Books, e: (nat, nat))
    requires Shape(g, p, k) && Counts(g, p, k) && e in k.edges && g.Target(e) < g.Size()
    ensures p.nChildren[g.Target(e)] == 1 && p.nViews[g.Target(e)] == 0 <==>
            In(g, k, g.Target(e)) == {e} && k.attached[g.Target(e)] == {}
  {
    var q := g.Target(e);
    assert e in In(g, k, q);
    if |In(g, k, q)| == 1 { Lone(In(g, k, q), e); }
  }

  lemma HeadReleasable(g: Graph, pad: seq<nat>, p: Plan, k: Books, e: (nat, nat))
    requires g.WellFormed() && Inv(g, pad, p, k) && e in k.edges && g.Target(e) < g.Size()
    requires FateOf(g, p, e).FreeHead? && Settled(g, p, k, g.Target(e))
    ensures Releasable(g, UsePlan(p, g.Target(e)), UseBooks(k, e), g.Size(), g.Target(e), g.Target(e))
    ensures In(g, k, g.Target(e)) == {e} && k.attached[g.Target(e)] == {}
  {
    var q := g.Target(e);
    CountersSay(g, p, k, e);
    InAfterUse(g, k, e, q);
    NothingAttached(g, p, k, q);
    assert AddressOk(g, p, q);
    OwnedHead(g, p, k, q);
  }

  lemma OwnedHead(g: Graph, p: Plan, k: Books, q: nat)
    requires Owners(g, p, k) && Gone(g, p, k) && q < |p.viewSrc| && p.viewSrc[q].None?
    ensures q !in k.lingering && (q in k.owner ==> k.owner[q] in k.hold && Placed(p, q))
    ensures g.Size() == |p.data| ==> g.Size() !in k.owner
  {
  }

  lemma Lone<T>(a: set<T>, x: T)
    requires |a| == 1 && x in a
    ensures a == {x}
  {
    assert |a - {x}| == 0;
  }

  /** A read after which the parent, a view or an in-place result, is not needed any more. */
  lemma LastUseHolds(g: Graph, pad: seq<nat>, p: Plan, k: Books, e: (nat, nat), s: nat)
    requires g.WellFormed() && Inv(g, pad, p, k) && e in k.edges && g.Target(e) < g.Size()
    requires p.nChildren[g.Target(e)] == 1 && p.nViews[g.Target(e)] == 0 && p.viewSrc[g.Target(e)] == Some(s)
    requires Settled(g, p, k, g.Target(e))
    ensures LastUse(g, p, k, e, s) && Placed(p, s)
  {
    var q := g.Target(e);
    CountersSay(g, p, k, e);
    assert AddressOk(g, p, q) && g.TensorOk(q);
  }

  /** Where s stands once q has let it go: quiet and owned by itself or by q, or still kept. */
  lemma RootStanding(g: Graph, pad: seq<nat>, p: Plan, k: Books, e: (nat, nat), s: nat)
    requires g.WellFormed() && Inv(g, pad, p, k) && LastUse(g, p, k, e, s) && Placed(p, g.Target(e)) && Placed(p, s)
    ensures var q := g.Target(e);
            && (q in k.owner ==> Mine(p, s) && p.nViews[s] == 1 && p.nChildren[s] == 0)
            && (Mine(p, s) && p.nViews[s] == 1 && p.nChildren[s] == 0 ==>
                  s in k.owner && (k.owner[s] == s || (q in k.owner && k.owner[s] == q)))
            && (q in k.owner ==> s in k.owner && k.owner[s] == q)
  {
    var q := g.Target(e);
    LastUseStanding(g, pad, p, k, e, s);
    if q in k.owner {
      LastUseOfOwner(g, p, k, q, s);
      assert OwnHead(g, p, s);
    } else {
      RootUnowned(g, p, k, e, s);
    }
  }

  lemma RootUnowned(g: Graph, p: Plan, k: Books, e: (nat, nat), s: nat)
    requires Shape(g, p, k) && Counts(g, p, k) && Addresses(g, p) && Takeovers(g, p, k) && Gone(g, p, k)
    requires g.WellFormed() && LastUse(g, p, k, e, s) && g.Target(e) in k.attached[s] && Placed(p, s)
    requires g.Target(e) !in k.owner && (g.Target(e) in k.lingering || g.IsView(g.Target(e)))
    ensures Mine(p, s) && p.nViews[s] == 1 && p.nChildren[s] == 0 ==> s in k.owner && k.owner[s] == s
  {
    var q := g.Target(e);
    assert AddressOk(g, p, q) && g.TensorOk(q);
    if Mine(p, s) && p.nViews[s] == 1 && p.nChildren[s] == 0 {
      Lone(k.attached[s], q);
      assert OwnHead(g, p, s);
      assert s in k.owner && k.owner[s] != s ==> TakenOver(g, p, k, s);
    }
  }

  lemma ReadLetsGo(g: Graph, pad: seq<nat>, p: Plan, k: Books, e: (nat, nat), s: nat) returns (k': Books)
    requires g.WellFormed() && Sized(g, pad) && Inv(g, pad, p, k) && e in k.edges && g.Target(e) < g.Size()
    requires FateOf(g, p, e) == LetGo(s) && Settled(g, p, k, g.Target(e))
    ensures s < g.Size() && Inv(g, pad, LastPlan(g, p, e, s), k') && Progress(k, k', e)
    ensures SameBytes(g, pad, p, k, LastPlan(g, p, e, s), k', true)
    ensures k' == LastBooks(g, k, e, s)
  {
    LastUseHolds(g, pad, p, k, e, s);
    RootStanding(g, pad, p, k, e, s);
    LastUseKeeps(g, pad, p, k, e, s, g.Size());
    k' := LastBooks(g, k, e, s);
    BytesStay(g, pad, p, k, LastPlan(g, p, e, s), k');
  }

  lemma ReadFreesRoot(g: Graph, pad: seq<nat>, p: Plan, k: Books, e: (nat, nat), s: nat) returns (k': Books)
    requires g.WellFormed() && Sized(g, pad) && Inv(g, pad, p, k) && e in k.edges && g.Target(e) < g.Size()
    requires FateOf(g, p, e) == FreeRoot(s) && Settled(g, p, k, g.Target(e))
    ensures s < g.Size() && p.data[s].Some? && Apart(p.blocks, p.data[s].value, Pad(pad, s))
    ensures Inv(g, pad, FreePlan(LastPlan(g, p, e, s), p.data[s].value, Pad(pad, s)), k') && Progress(k, k', e)
    ensures SameBytes(g, pad, p, k, FreePlan(LastPlan(g, p, e, s), p.data[s].value, Pad(pad, s)), k',
                      AsLargeAsEnd(pad, p.viewSrc, s))
    ensures s in k.owner && k' == FreeBooks(LastBooks(g, k, e, s), k.owner[s])
  {
    hide SameBytes, AsLargeAsEnd, Backed, Owners, Extents, Chains, Needs, Gone, Counts, Order, Addresses, Attachments,
      Holdings;
    var x := RootUsed(g, pad, p, k, e, s);
    var p1, k1 := LastPlan(g, p, e, s), LastBooks(g, k, e, s);
    FreeKeeps(g, pad, p1, k1, x, s, k1.owner[s]);
    k' := FreeBooks(k1, k1.owner[s]);
    BytesStay(g, pad, p, k, p1, k1);
    FreeBytes(g, pad, p1, k1, x, s, k1.owner[s]);
    BytesTwice(g, pad, p, k, p1, k1, FreePlan(p1, p.data[s].value, Pad(pad, s)), k', true,
               AsLargeAsEnd(pad, p.viewSrc, s));
  }

  lemma RootUsed(g: Graph, pad: seq<nat>, p: Plan, k: Books, e: (nat, nat), s: nat) returns (x: nat)
    requires g.WellFormed() && Sized(g, pad) && Inv(g, pad, p, k) && e in k.edges && g.Target(e) < g.Size()
    requires FateOf(g, p, e) == FreeRoot(s) && Settled(g, p, k, g.Target(e))
    ensures s < g.Size() && Placed(p, s) && s in k.owner && k.owner[s] < g.Size()
    ensures InvBut(g, pad, LastPlan(g, p, e, s), LastBooks(g, k, e, s), x)
    ensures Releasable(g, LastPlan(g, p, e, s), LastBooks(g, k, e, s), x, s, k.owner[s])
  {
    RootFacts(g, pad, p, k, e, s);
    x := if g.Target(e) in k.owner then s else g.Size();
    LastUseKeeps(g, pad, p, k, e, s, x);
  }

  lemma RootFacts(g: Graph, pad: seq<nat>, p: Plan, k: Books, e: (nat, nat), s: nat)
    requires g.WellFormed() && Inv(g, pad, p, k) && e in k.edges && g.Target(e) < g.Size()
    requires FateOf(g, p, e) == FreeRoot(s) && Settled(g, p, k, g.Target(e))
    ensures LastUse(g, p, k, e, s) && Placed(p, s) && s in k.owner && k.owner[s] < g.Size()
    ensures forall x :: x == s || x == g.Size() ==>
              Releasable(g, LastPlan(g, p, e, s), LastBooks(g, k, e, s), x, s, k.owner[s])
  {
    LastUseHolds(g, pad, p, k, e, s);
    RootStanding(g, pad, p, k, e, s);
    LastUseStanding(g, pad, p, k, e, s);
    forall x | x == s || x == g.Size()
      ensures Releasable(g, LastPlan(g, p, e, s), LastBooks(g, k, e, s), x, s, k.owner[s])
    {
      RootReleasable(g, pad, p, k, e, s, x);
    }
  }

  lemma RootReleasable(g: Graph, pad: seq<nat>, p: Plan, k: Books, e: (nat, nat), s: nat, x: nat)
    requires Shape(g, p, k) && Counts(g, p, k) && Owners(g, p, k) && LastUse(g, p, k, e, s) && Placed(p, s)
    requires s in k.owner && (k.owner[s] == s || k.owner[s] == g.Target(e)) && s != g.Target(e)
    requires p.nViews[s] == 1 && p.nChildren[s] == 0 && g.Target(e) in k.attached[s]
    requires x == s || x == g.Size()
    ensures Releasable(g, LastPlan(g, p, e, s), LastBooks(g, k, e, s), x, s, k.owner[s])
    ensures k.owner[s] < g.Size()
  {
    var q, k1 := g.Target(e), LastBooks(g, k, e, s);
    InAfterUse(g, k, e, q);
    InAfterUse(g, k, e, s);
    Lone(k.attached[s], q);
    SameReads(g, UseBooks(k, e), k1);
    assert Quiet(g, k1, q) && Quiet(g, k1, s);
  }

  // ---------- What the invariant means for memory ----------

  ghost predicate HeldFor(k: Books, t: nat, addr: int, size: nat) {
    t in k.hold && Inside(addr, size, k.hold[t])
  }

  /** The bytes a coming read needs belong to the family read, or have been handed to the very
      node that reads them last; the result of a node not yet processed belongs to it; and
      what belongs to different tensors is disjoint and not free. */
  ghost predicate MemorySafe(g: Graph, p: Plan, k: Books) {
    && (forall e :: e in k.edges && Placed(p, g.Target(e)) && Mine(p, g.Target(e)) ==>
          var s := g.Target(e);
          || HeldFor(k, g.Base(s), p.data[s].value, g.NBytes(s))
          || (InPlace(g, p, e.0) && HeldFor(k, e.0, p.data[s].value, g.NBytes(s))))
    && (forall m :: m in k.pending && !g.IsView(m) && Placed(p, m) && Mine(p, m) ==>
          HeldFor(k, m, p.data[m].value, g.NBytes(m)))
    && (forall t, u :: t in k.hold && u in k.hold && t != u ==> Disjoint(k.hold[t], k.hold[u]))
    && (forall t :: t in k.hold ==> Apart(p.blocks, k.hold[t].addr, k.hold[t].size))
  }

  lemma HolderCovers(g: Graph, pad: seq<nat>, p: Plan, k: Books, t: nat)
    requires Sized(g, pad) && Owners(g, p, k) && Extents(g, pad, p, k) && t in k.hold && t < g.Size()
    ensures Placed(p, t) && p.data[t].value == k.hold[t].addr && g.NBytes(t) <= k.hold[t].size
  {
  }

  lemma ReadIsSafe(g: Graph, pad: seq<nat>, p: Plan, k: Books, e: (nat, nat))
    requires g.WellFormed() && Sized(g, pad) && Inv(g, pad, p, k) && e in k.edges
    requires Placed(p, g.Target(e)) && Mine(p, g.Target(e))
    ensures var s := g.Target(e);
            || HeldFor(k, g.Base(s), p.data[s].value, g.NBytes(s))
            || (InPlace(g, p, e.0) && HeldFor(k, e.0, p.data[s].value, g.NBytes(s)))
  {
    hide Backed, Gone, Chains, Counts, Order, Attachments, Holdings, TakenOver;
    var s := g.Target(e);
    assert AddressOk(g, p, s) && g.TensorOk(s);
    assert NeedsEdge(g, p, k, e);
    if g.Base(s) in k.hold {
      HolderCovers(g, pad, p, k, g.Base(s));
    } else {
      HolderCovers(g, pad, p, k, e.0);
    }
  }

  /** At every moment of the walk. */
  lemma PlanIsSafe(g: Graph, pad: seq<nat>, p: Plan, k: Books)
    requires g.WellFormed() && Sized(g, pad) && Inv(g, pad, p, k)
    ensures MemorySafe(g, p, k)
  {
    forall e | e in k.edges && Placed(p, g.Target(e)) && Mine(p, g.Target(e))
      ensures var s := g.Target(e);
              || HeldFor(k, g.Base(s), p.data[s].value, g.NBytes(s))
              || (InPlace(g, p, e.0) && HeldFor(k, e.0, p.data[s].value, g.NBytes(s)))
    {
      ReadIsSafe(g, pad, p, k, e);
    }
    forall m | m in k.pending && !g.IsView(m) && Placed(p, m) && Mine(p, m)
      ensures HeldFor(k, m, p.data[m].value, g.NBytes(m))
    {
      HolderCovers(g, pad, p, k, m);
    }
  }
}
