/** The walk of the graph allocator is safe: the invariant holds after every event of every
    legal walk, and with it no memory that is still to be read is freed or handed on. */
module PlanSafety {
  import opened Wrappers
  import opened FreeList
  import opened GraphPlan
  import opened PlanSteps
  import opened PlanTakeOver
  import opened PlanRelease
  import opened PlanWalk
  import opened PlanReturn
  import opened PlanSpec

  /** The same reads to come, the same nodes processed. */
  ghost predicate SameProgress(k: Books, k': Books) {
    k'.edges == k.edges && k'.pending == k.pending && k'.started == k.started
  }

  /** Node t can be given memory: everything it reads is in place and processed. */
  ghost predicate Startable(g: Graph, p: Plan, k: Books, t: nat) {
    Full(g, k, t) && forall j :: 0 <= j < |g.Src(t)| ==> Settled(g, p, k, g.Src(t)[j])
  }

  lemma TakeOverStep(g: Graph, pad: seq<nat>, p: Plan, k: Books, x: nat, j: nat) returns (k': Books)
    requires Fitting(g, p) && Sized(g, pad) && Inv(g, pad, p, k) && Fresh(g, p, x) && !g.IsView(x) && x in g.nodes
    requires Startable(g, p, k, x) && j < |g.Src(x)| && g.Src(x)[j] < g.Size()
    requires Reusable(g, p, x, j, Root(g, p, x, j)) && g.tensors[x].inplace && Retained(g, p, k)
    ensures Inv(g, pad, TakeOverPlan(p, x, Root(g, p, x, j)), k') && SameProgress(k, k')
    ensures Retained(g, TakeOverPlan(p, x, Root(g, p, x, j)), k')
    ensures SameBytes(g, pad, p, k, TakeOverPlan(p, x, Root(g, p, x, j)), k', true)
  {
    var s := Root(g, p, x, j);
    var t := Displaced(g, x, j, s);
    ClearCases(g, pad, p, k, x, j, s);
    TakeOverKeeps(g, pad, p, k, x, j, s, t);
    TakeOverBytes(g, pad, p, k, x, s, t);
    TakeOverRetains(g, pad, p, k, x, j, s, t);
    k' := TakeOverBooks(k, x, s, t);
  }

  lemma ClearCases(g: Graph, pad: seq<nat>, p: Plan, k: Books, x: nat, j: nat, s: nat)
    requires g.WellFormed() && Sized(g, pad) && Inv(g, pad, p, k) && Fresh(g, p, x) && !g.IsView(x) && x in g.nodes
    requires Startable(g, p, k, x) && j < |g.Src(x)| && Reusable(g, p, x, j, s) && g.tensors[x].inplace
    ensures Clear(g, pad, p, k, x, j, s, Displaced(g, x, j, s))
  {
    if g.IsView(g.Src(x)[j]) {
      ClearThroughView(g, pad, p, k, x, j, s);
    } else if p.viewSrc[g.Src(x)[j]].None? {
      ClearDirect(g, pad, p, k, x, j, s);
    } else {
      ClearThroughInPlace(g, pad, p, k, x, j, s);
    }
  }

  lemma HeadIsNew(g: Graph, pad: seq<nat>, p: Plan, k: Books, t: nat)
    requires Sized(g, pad) && Inv(g, pad, p, k) && Fresh(g, p, t)
    ensures t !in k.hold && WellFormed(p.blocks) && Pad(pad, t) > 0 && PartsForHead(g, p, k)
  {
    FreshUnowned(g, pad, p, k, t);
  }

  ghost predicate PartsForHead(g: Graph, p: Plan, k: Books) { Shape(g, p, k) && Order(g, p, k) && Addresses(g, p) }

  lemma AllocateNodeKeeps(g: Graph, pad: seq<nat>, p: Plan, k: Books, t: nat) returns (k': Books)
    requires Fitting(g, p) && Sized(g, pad) && Inv(g, pad, p, k) && t < g.Size()
    requires p.data[t].None? && t in g.nodes ==> Startable(g, p, k, t)
    requires AllocateNode(g, pad, p, t).Some? && Retained(g, p, k)
    ensures Inv(g, pad, AllocateNode(g, pad, p, t).value, k') && SameProgress(k, k')
    ensures Retained(g, AllocateNode(g, pad, p, t).value, k')
    ensures SameBytes(g, pad, p, k, AllocateNode(g, pad, p, t).value, k', true)
  {
    hide Inv, Sized, SameBytes, Retained, Shape, Order, Addresses;
    k' := k;
    BytesStay(g, pad, p, k, p, k);
    assert g.TensorOk(t) && ViewFits(g, p, t);
    if p.data[t].None? {
      if p.viewSrc[t].Some? {
        PlaceViewKeeps(g, pad, p, k, t);
        PlaceViewRetains(g, p, k, t);
        BytesStay(g, pad, p, k, PlaceViewPlan(g, p, t), k);
      } else if g.tensors[t].inplace && FindReuse(g, p, t, 0).Some? {
        k' := TakeOverStep(g, pad, p, k, t, FindReuse(g, p, t, 0).value);
      } else {
        var q := Take(p.blocks, Pad(pad, t)).value;
        HeadIsNew(g, pad, p, k, t);
        PlaceHeadKeeps(g, pad, p, k, t, Max(p.top, q.addr + Pad(pad, t)));
        PlaceHeadBytes(g, pad, p, k, t, Max(p.top, q.addr + Pad(pad, t)));
        PlaceHeadRetains(g, p, k, t, q.addr, q.rest, Range(q.addr, Pad(pad, t)), Max(p.top, q.addr + Pad(pad, t)));
        k' := PlaceHeadBooks(k, t, Range(q.addr, Pad(pad, t)));
      }
    }
  }

  /** A running plan in good order. */
  ghost predicate Sound(g: Graph, pad: seq<nat>, o: Outcome) {
    match o
    case Aborted => true
    case Running(p, k) => Fitting(g, p) && Sized(g, pad) && Inv(g, pad, p, k) && Retained(g, p, k)
  }

  /** Everything node m reads, and the tensor each of those is a view of, has been processed
      if it is a node at all. */
  ghost predicate SourcesDone(g: Graph, k: Books, m: nat) {
    forall j :: 0 <= j < |g.Src(m)| ==> g.Src(m)[j] !in k.pending && g.Base(g.Src(m)[j]) !in k.pending
  }

  lemma AllocateSourceKeeps(g: Graph, pad: seq<nat>, o: Outcome, m: nat, j: nat) returns (o': Outcome)
    requires Sound(g, pad, o) && o.Running? && Fitting(g, o.p) && m < g.Size() && j < |g.Src(m)|
    requires SourcesDone(g, o.k, m) && g.Src(m)[j] < g.Size() && AllocateNode(g, pad, o.p, g.Src(m)[j]).Some?
    ensures o'.Running? && AllocateNode(g, pad, o.p, g.Src(m)[j]) == Some(o'.p)
    ensures Sound(g, pad, o') && SameProgress(o.k, o'.k) && SameBytes(g, pad, o.p, o.k, o'.p, o'.k, true)
  {
    ProcessedIsPlaced(g, pad, o.p, o.k, g.Src(m)[j]);
    var k' := AllocateNodeKeeps(g, pad, o.p, o.k, g.Src(m)[j]);
    o' := Running(AllocateNode(g, pad, o.p, g.Src(m)[j]).value, k');
  }

  lemma ProcessedIsPlaced(g: Graph, pad: seq<nat>, p: Plan, k: Books, s: nat)
    requires Inv(g, pad, p, k) && s < g.Size() && s !in k.pending
    ensures s in g.nodes ==> Placed(p, s)
  {
  }

  lemma AllocateSourcesStep(g: Graph, pad: seq<nat>, p: Plan, m: nat, j: nat) returns (p1: Plan)
    requires Fitting(g, p) && m < g.Size() && j < |g.Src(m)| && AllocateSources(g, pad, p, m, j + 1).Some?
    ensures g.Src(m)[j] < g.Size() && Fitting(g, p1)
    ensures AllocateSources(g, pad, p, m, j) == Some(p1)
    ensures AllocateSources(g, pad, p, m, j + 1) == AllocateNode(g, pad, p1, g.Src(m)[j])
  {
    assert g.TensorOk(m);
    p1 := AllocateSources(g, pad, p, m, j).value;
  }

  lemma {:induction false} AllocateSourcesKeeps(g: Graph, pad: seq<nat>, o: Outcome, m: nat, j: nat)
    returns (o': Outcome)
    requires Sound(g, pad, o) && o.Running? && Fitting(g, o.p) && m < g.Size() && j <= |g.Src(m)|
    requires SourcesDone(g, o.k, m) && AllocateSources(g, pad, o.p, m, j).Some?
    ensures o'.Running? && AllocateSources(g, pad, o.p, m, j) == Some(o'.p)
    ensures Sound(g, pad, o') && SameProgress(o.k, o'.k) && SameBytes(g, pad, o.p, o.k, o'.p, o'.k, true)
  {
    hide Sound, Fitting, AllocateNode, SameBytes;
    if j == 0 {
      o' := o;
      BytesStay(g, pad, o.p, o.k, o.p, o.k);
    } else {
      var p1 := AllocateSourcesStep(g, pad, o.p, m, j - 1);
      var o1 := AllocateSourcesKeeps(g, pad, o, m, j - 1);
      assert o1.p == p1;
      o' := AllocateSourceKeeps(g, pad, o1, m, j - 1);
      BytesTwice(g, pad, o.p, o.k, o1.p, o1.k, o'.p, o'.k, true, true);
    }
  }

  lemma StartNodeKeeps(g: Graph, pad: seq<nat>, o: Outcome, m: nat) returns (o': Outcome)
    requires Sound(g, pad, o) && o.Running? && Fitting(g, o.p) && m in g.nodes && m < g.Size()
    requires Full(g, o.k, m) && SourcesDone(g, o.k, m) && StartNode(g, pad, o.p, m).Some?
    ensures o'.Running? && StartNode(g, pad, o.p, m) == Some(o'.p) && Sound(g, pad, o')
    ensures SameBytes(g, pad, o.p, o.k, o'.p, o'.k, true)
    ensures o'.k.edges == o.k.edges && o'.k.pending == o.k.pending && o'.k.started == o.k.started + {m}
  {
    var o1 := AllocateSourcesKeeps(g, pad, o, m, |g.Src(m)|);
    SourcesPlaced(g, pad, o.p, m, |g.Src(m)|);
    o' := AllocateAndStart(g, pad, o1, m);
    BytesTwice(g, pad, o.p, o.k, o1.p, o1.k, o'.p, o'.k, true, true);
  }

  lemma {:induction false} SourcesPlaced(g: Graph, pad: seq<nat>, p: Plan, m: nat, j: nat)
    requires Fitting(g, p) && m < g.Size() && j <= |g.Src(m)| && AllocateSources(g, pad, p, m, j).Some?
    ensures forall i :: 0 <= i < j ==> Placed(AllocateSources(g, pad, p, m, j).value, g.Src(m)[i])
  {
    if j == 0 {
    } else {
      var p1 := AllocateSourcesStep(g, pad, p, m, j - 1);
      SourcesPlaced(g, pad, p, m, j - 1);
    }
  }

  lemma AllocateAndStart(g: Graph, pad: seq<nat>, o: Outcome, m: nat) returns (o': Outcome)
    requires Sound(g, pad, o) && o.Running? && Fitting(g, o.p) && m in g.nodes && m < g.Size()
    requires Full(g, o.k, m) && SourcesDone(g, o.k, m) && AllocateNode(g, pad, o.p, m).Some?
    requires forall j :: 0 <= j < |g.Src(m)| ==> Placed(o.p, g.Src(m)[j])
    ensures o'.Running? && AllocateNode(g, pad, o.p, m) == Some(o'.p) && Sound(g, pad, o')
    ensures SameBytes(g, pad, o.p, o.k, o'.p, o'.k, true)
    ensures o'.k.edges == o.k.edges && o'.k.pending == o.k.pending && o'.k.started == o.k.started + {m}
  {
    var p' := AllocateNode(g, pad, o.p, m).value;
    var k1 := AllocateNodeKeeps(g, pad, o.p, o.k, m);
    StartKeeps(g, pad, p', k1, m);
    StartRetains(g, p', k1, m);
    o' := Running(p', StartBooks(k1, m));
    BytesStay(g, pad, p', k1, p', StartBooks(k1, m));
    BytesTwice(g, pad, o.p, o.k, p', k1, p', StartBooks(k1, m), true, true);
  }

  lemma ReadDoneKeeps(g: Graph, pad: seq<nat>, o: Outcome, m: nat, j: nat) returns (o': Outcome)
    requires Sound(g, pad, o) && o.Running? && Fitting(g, o.p) && m < g.Size() && j < |g.Src(m)|
    requires m in o.k.started && (m, j) in o.k.edges && ReadDone(g, pad, o.p, m, j).Some?
    ensures o'.Running? && ReadDone(g, pad, o.p, m, j) == Some(o'.p)
    ensures Sound(g, pad, o') && Progress(o.k, o'.k, (m, j))
    ensures SameBytes(g, pad, o.p, o.k, o'.p, o'.k, ReadWhole(g, pad, o.p, (m, j)))
  {
    ReadDoneValue(g, pad, o.p, o.k, m, j);
    var k' := AfterReadKeeps(g, pad, o.p, o.k, (m, j));
    o' := Running(AfterRead(g, pad, o.p, (m, j)), k');
  }

  lemma ReadDoneValue(g: Graph, pad: seq<nat>, p: Plan, k: Books, m: nat, j: nat)
    requires Fitting(g, p) && m < g.Size() && j < |g.Src(m)| && ReadDone(g, pad, p, m, j).Some?
    requires Order(g, p, k) && m in k.started
    ensures g.Target((m, j)) < g.Size() && Settled(g, p, k, g.Target((m, j)))
    ensures AfterReadable(g, p, (m, j)) && ReadDone(g, pad, p, m, j).value == AfterRead(g, pad, p, (m, j))
    ensures Fitting(g, AfterRead(g, pad, p, (m, j)))
  {
    assert g.TensorOk(m);
    var q := g.Src(m)[j];
    assert Settled(g, p, k, q);
    assert ViewFits(g, p, q);
    assert p.viewSrc[q].Some? ==> ViewFits(g, p, p.viewSrc[q].value);
  }

  ghost predicate AfterReadable(g: Graph, p: Plan, e: (nat, nat)) {
    && |p.data| == |p.buffer| == |p.viewSrc| == |p.nChildren| == |p.nViews| == g.Size() && g.Target(e) < g.Size()
    && (FateOf(g, p, e).LetGo? ==> FateOf(g, p, e).s < g.Size())
    && (FateOf(g, p, e).FreeHead? ==> p.data[g.Target(e)].Some?)
    && (FateOf(g, p, e).FreeRoot? ==> FateOf(g, p, e).s < g.Size() && p.data[FateOf(g, p, e).s].Some?)
  }

  lemma AfterReadKeeps(g: Graph, pad: seq<nat>, p: Plan, k: Books, e: (nat, nat)) returns (k': Books)
    requires g.WellFormed() && Sized(g, pad) && Inv(g, pad, p, k) && e in k.edges && Settled(g, p, k, g.Target(e))
    requires AfterReadable(g, p, e) && Retained(g, p, k) && e.0 in k.started
    ensures Inv(g, pad, AfterRead(g, pad, p, e), k') && Progress(k, k', e)
    ensures Retained(g, AfterRead(g, pad, p, e), k')
    ensures SameBytes(g, pad, p, k, AfterRead(g, pad, p, e), k', ReadWhole(g, pad, p, e))
  {
    hide Inv, Sized, SameBytes, Retained, Shape, Attachments, AsLargeAsEnd, Settled;
    match FateOf(g, p, e)
    case Kept =>
      k' := ReadKept(g, pad, p, k, e);
      ReadKeptRetains(g, pad, p, k, e);
    case FreeHead =>
      HeadIsNoView(g, pad, p, k, g.Target(e));
      k' := ReadFreesHead(g, pad, p, k, e);
      ReadFreesHeadRetains(g, pad, p, k, e);
    case LetGo(s) =>
      k' := ReadLetsGo(g, pad, p, k, e, s);
      ReadLetsGoRetains(g, pad, p, k, e, s);
    case FreeRoot(s) =>
      k' := ReadFreesRoot(g, pad, p, k, e, s);
      ReadFreesRootRetains(g, pad, p, k, e, s);
  }

  lemma HeadIsNoView(g: Graph, pad: seq<nat>, p: Plan, k: Books, q: nat)
    requires Inv(g, pad, p, k) && q < |p.viewSrc| && p.viewSrc[q].None?
    ensures Shape(g, p, k) && Attachments(g, p, k) && !g.IsView(q)
  {
    assert AddressOk(g, p, q);
  }

  ghost function Reads(m: nat, j: nat): set<(nat, nat)> { set i | 0 <= i < j :: (m, i) }

  lemma MoreReads(edges: set<(nat, nat)>, m: nat, j: nat)
    ensures edges - Reads(m, j + 1) == (edges - Reads(m, j)) - {(m, j)}
    ensures (m, j) in edges ==> (m, j) in edges - Reads(m, j)
  {
    assert Reads(m, j + 1) == Reads(m, j) + {(m, j)};
  }

  lemma NoReads(edges: set<(nat, nat)>, m: nat)
    ensures edges - Reads(m, 0) == edges
  {
  }

  lemma ReadsDoneStep(g: Graph, pad: seq<nat>, p: Plan, m: nat, j: nat) returns (p1: Plan)
    requires Fitting(g, p) && m < g.Size() && j < |g.Src(m)| && ReadsDone(g, pad, p, m, j + 1).Some?
    ensures Fitting(g, p1) && ReadsDone(g, pad, p, m, j) == Some(p1)
    ensures ReadsDone(g, pad, p, m, j + 1) == ReadDone(g, pad, p1, m, j)
  {
    p1 := ReadsDone(g, pad, p, m, j).value;
  }

  lemma {:induction false} ReadsDoneKeeps(g: Graph, pad: seq<nat>, o: Outcome, m: nat, j: nat) returns (o': Outcome)
    requires Sound(g, pad, o) && o.Running? && Fitting(g, o.p) && m < g.Size() && j <= |g.Src(m)|
    requires m in o.k.started && Full(g, o.k, m) && ReadsDone(g, pad, o.p, m, j).Some?
    ensures o'.Running? && ReadsDone(g, pad, o.p, m, j) == Some(o'.p) && Sound(g, pad, o')
    ensures SameBytes(g, pad, o.p, o.k, o'.p, o'.k, ReadsWhole(g, pad, o.p, m, j))
    ensures o'.k.edges == o.k.edges - Reads(m, j) && o'.k.pending == o.k.pending && o'.k.started == o.k.started
  {
    hide Sound, Fitting, ReadDone, SameBytes, ReadWhole;
    if j == 0 {
      NoReads(o.k.edges, m);
      o' := o;
      BytesStay(g, pad, o.p, o.k, o.p, o.k);
    } else {
      var p1 := ReadsDoneStep(g, pad, o.p, m, j - 1);
      var o1 := ReadsDoneKeeps(g, pad, o, m, j - 1);
      assert o1.p == p1;
      MoreReads(o.k.edges, m, j - 1);
      o' := ReadDoneKeeps(g, pad, o1, m, j - 1);
      BytesTwice(g, pad, o.p, o.k, o1.p, o1.k, o'.p, o'.k, ReadsWhole(g, pad, o.p, m, j - 1),
                 ReadWhole(g, pad, o1.p, (m, j - 1)));
    }
  }

  lemma FinishNodeKeeps(g: Graph, pad: seq<nat>, o: Outcome, m: nat) returns (o': Outcome)
    requires Sound(g, pad, o) && o.Running? && Fitting(g, o.p) && m < g.Size()
    requires m in o.k.started && m in o.k.pending && Full(g, o.k, m)
    requires ReadsDone(g, pad, o.p, m, |g.Src(m)|).Some?
    ensures o'.Running? && ReadsDone(g, pad, o.p, m, |g.Src(m)|) == Some(o'.p) && Sound(g, pad, o')
    ensures SameBytes(g, pad, o.p, o.k, o'.p, o'.k, ReadsWhole(g, pad, o.p, m, |g.Src(m)|))
    ensures o'.k.edges == o.k.edges - Reads(m, |g.Src(m)|) && o'.k.pending == o.k.pending - {m}
    ensures o'.k.started == o.k.started
  {
    var o1 := ReadsDoneKeeps(g, pad, o, m, |g.Src(m)|);
    NoReadsLeft(g, pad, o.p, o.k, m);
    FinishKeeps(g, pad, o1.p, o1.k, m);
    FinishRetains(g, o1.p, o1.k, m);
    o' := Running(o1.p, FinishBooks(o1.k, m));
    BytesStay(g, pad, o1.p, o1.k, o1.p, FinishBooks(o1.k, m));
    BytesTwice(g, pad, o.p, o.k, o1.p, o1.k, o'.p, o'.k, ReadsWhole(g, pad, o.p, m, |g.Src(m)|), true);
  }

  lemma NoReadsLeft(g: Graph, pad: seq<nat>, p: Plan, k: Books, m: nat)
    requires Inv(g, pad, p, k)
    ensures forall e :: e in k.edges - Reads(m, |g.Src(m)|) ==> e.0 != m
  {
    forall e | e in k.edges - Reads(m, |g.Src(m)|) ensures e.0 != m {
      assert e == (e.0, e.1);
    }
  }

  // ---------- Whole walks ----------

  /** Nodes are started once, after everything they read has been processed, and finished
      once, after they were started. */
  ghost predicate Legal(g: Graph, evs: seq<Event>) {
    forall n :: 0 <= n < |evs| ==> LegalAt(g, evs, n)
  }

  ghost predicate LegalAt(g: Graph, evs: seq<Event>, n: nat)
    requires n < |evs|
  {
    && evs[n].m in g.nodes && evs[n].m < g.Size() && evs[n] !in evs[..n]
    && match evs[n]
       case Start(m) =>
         forall j :: 0 <= j < |g.Src(m)| ==>
           && (g.Src(m)[j] in g.nodes ==> Finish(g.Src(m)[j]) in evs[..n])
           && (g.Base(g.Src(m)[j]) in g.nodes ==> Finish(g.Base(g.Src(m)[j])) in evs[..n])
       case Finish(m) => Start(m) in evs[..n]
  }

  /** The books after a walk: exactly the nodes without a finish are still to be processed,
      with all their reads to come. */
  ghost predicate After(g: Graph, k: Books, evs: seq<Event>) {
    && (forall m :: m in k.pending <==> m in g.nodes && Finish(m) !in evs)
    && (forall m :: m in k.started <==> Start(m) in evs)
    && (forall m :: m in k.pending ==> Full(g, k, m))
  }

  lemma LegalPrefix(g: Graph, evs: seq<Event>)
    requires Legal(g, evs) && evs != []
    ensures Legal(g, evs[..|evs| - 1])
  {
    var init := evs[..|evs| - 1];
    forall n | 0 <= n < |init| ensures LegalAt(g, init, n) {
      assert LegalAt(g, evs, n);
      assert init[..n] == evs[..n];
    }
  }

  lemma StartEvent(g: Graph, pad: seq<nat>, o: Outcome, evs: seq<Event>) returns (o': Outcome)
    requires Sound(g, pad, o) && o.Running? && Fitting(g, o.p) && Legal(g, evs) && evs != []
    requires After(g, o.k, evs[..|evs| - 1]) && evs[|evs| - 1].Start? && evs[|evs| - 1].m < g.Size()
    requires Apply(g, pad, o.p, evs[|evs| - 1]).Some?
    ensures o'.Running? && Apply(g, pad, o.p, evs[|evs| - 1]) == Some(o'.p) && Sound(g, pad, o') && After(g, o'.k, evs)
    ensures SameBytes(g, pad, o.p, o.k, o'.p, o'.k, EventWhole(g, pad, o.p, evs[|evs| - 1]))
  {
    var init, m := evs[..|evs| - 1], evs[|evs| - 1].m;
    assert LegalAt(g, evs, |evs| - 1);
    StartIsReady(g, o.k, evs);
    o' := StartNodeKeeps(g, pad, o, m);
    StartAfter(g, o.k, o'.k, evs);
  }

  /** A node to be started is still to be processed, and what it reads is done. */
  lemma StartIsReady(g: Graph, k: Books, evs: seq<Event>)
    requires Legal(g, evs) && evs != [] && After(g, k, evs[..|evs| - 1]) && evs[|evs| - 1].Start?
    ensures evs[|evs| - 1].m in g.nodes && Full(g, k, evs[|evs| - 1].m) && SourcesDone(g, k, evs[|evs| - 1].m)
  {
    var init, m := evs[..|evs| - 1], evs[|evs| - 1].m;
    assert LegalAt(g, evs, |evs| - 1);
    LegalPrefix(g, evs);
    FinishedWasStarted(g, init, m);
  }

  lemma FinishedWasStarted(g: Graph, evs: seq<Event>, m: nat)
    requires Legal(g, evs)
    ensures Finish(m) in evs ==> Start(m) in evs
  {
    if Finish(m) in evs {
      var n :| 0 <= n < |evs| && evs[n] == Finish(m);
      assert LegalAt(g, evs, n);
      assert evs[..n] <= evs;
    }
  }

  lemma StartAfter(g: Graph, k: Books, k': Books, evs: seq<Event>)
    requires evs != [] && After(g, k, evs[..|evs| - 1]) && evs[|evs| - 1].Start?
    requires k'.edges == k.edges && k'.pending == k.pending && k'.started == k.started + {evs[|evs| - 1].m}
    ensures After(g, k', evs)
  {
    var init, m := evs[..|evs| - 1], evs[|evs| - 1].m;
    assert evs == init + [Start(m)];
  }

  lemma FinishEvent(g: Graph, pad: seq<nat>, o: Outcome, evs: seq<Event>) returns (o': Outcome)
    requires Sound(g, pad, o) && o.Running? && Fitting(g, o.p) && Legal(g, evs) && evs != []
    requires After(g, o.k, evs[..|evs| - 1]) && evs[|evs| - 1].Finish? && evs[|evs| - 1].m < g.Size()
    requires Apply(g, pad, o.p, evs[|evs| - 1]).Some?
    ensures o'.Running? && Apply(g, pad, o.p, evs[|evs| - 1]) == Some(o'.p) && Sound(g, pad, o') && After(g, o'.k, evs)
    ensures SameBytes(g, pad, o.p, o.k, o'.p, o'.k, EventWhole(g, pad, o.p, evs[|evs| - 1]))
  {
    assert LegalAt(g, evs, |evs| - 1);
    o' := FinishNodeKeeps(g, pad, o, evs[|evs| - 1].m);
    FinishAfter(g, o.k, o'.k, evs);
  }

  lemma FinishAfter(g: Graph, k: Books, k': Books, evs: seq<Event>)
    requires evs != [] && After(g, k, evs[..|evs| - 1]) && evs[|evs| - 1].Finish?
    requires var m := evs[|evs| - 1].m;
             k'.edges == k.edges - Reads(m, |g.Src(m)|) && k'.pending == k.pending - {m} && k'.started == k.started
    ensures After(g, k', evs)
  {
    var init, m := evs[..|evs| - 1], evs[|evs| - 1].m;
    assert evs == init + [Finish(m)];
    forall n | n in k'.pending ensures Full(g, k', n) {
      assert Full(g, k, n);
    }
  }

  /** The state a legal walk leads to, from any sound beginning. */
  lemma {:induction false} WalkKeeps(g: Graph, pad: seq<nat>, o: Outcome, evs: seq<Event>) returns (o': Outcome)
    requires Sound(g, pad, o) && o.Running? && Fitting(g, o.p) && After(g, o.k, []) && Legal(g, evs)
    requires (forall ev :: ev in evs ==> ev.m < g.Size()) && Walk(g, pad, o.p, evs).Some?
    ensures o'.Running? && Walk(g, pad, o.p, evs) == Some(o'.p) && Sound(g, pad, o') && After(g, o'.k, evs)
    ensures SameBytes(g, pad, o.p, o.k, o'.p, o'.k, WalkWhole(g, pad, o.p, evs))
    decreases |evs|
  {
    hide Sound, After, Apply, LegalAt, SameBytes, EventWhole;
    if evs == [] {
      o' := o;
      BytesStay(g, pad, o.p, o.k, o.p, o.k);
    } else {
      LegalPrefix(g, evs);
      var o1 := WalkKeeps(g, pad, o, evs[..|evs| - 1]);
      if evs[|evs| - 1].Start? {
        o' := StartEvent(g, pad, o1, evs);
      } else {
        o' := FinishEvent(g, pad, o1, evs);
      }
      BytesTwice(g, pad, o.p, o.k, o1.p, o1.k, o'.p, o'.k, WalkWhole(g, pad, o.p, evs[..|evs| - 1]),
                 EventWhole(g, pad, o1.p, evs[|evs| - 1]));
    }
  }
}
