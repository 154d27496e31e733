/** The graph planner's state as values: what the plan knows of every tensor, and the books
    (ghost) that say which reads are still to come and who holds which memory. */
module GraphPlan {
  import opened Wrappers
  import opened FreeList

  /** What a tensor is before planning.  A view has another tensor as its base. */
  datatype Tensor = Tensor(src: seq<nat>, base: nat, offs: nat, nbytes: nat, inplace: bool, layout: nat)

  datatype Graph = Graph(tensors: seq<Tensor>, nodes: seq<nat>) {
    function Size(): nat { |tensors| }

    function Src(t: nat): seq<nat> { if t < |tensors| then tensors[t].src else [] }

    function Base(t: nat): nat { if t < |tensors| then tensors[t].base else t }

    function NBytes(t: nat): nat { if t < |tensors| then tensors[t].nbytes else 0 }

    predicate IsView(t: nat) { Base(t) != t }

    /** The parent at the end of an edge (node, source index). */
    function Target(e: (nat, nat)): nat {
      if e.1 < |Src(e.0)| then Src(e.0)[e.1] else |tensors|
    }

    ghost predicate WellFormed() {
      && (forall i :: 0 <= i < |nodes| ==> nodes[i] < |tensors|)
      && (forall i, j :: 0 <= i < j < |nodes| ==> nodes[i] != nodes[j])
      && (forall t :: 0 <= t < |tensors| ==> TensorOk(t))
      && (forall t :: t in nodes ==> NodeOk(t))
      && (forall t :: 0 <= t < |tensors| && IsView(t) ==> t in nodes)
      && (forall t, u :: 0 <= t < |tensors| && 0 <= u < |tensors| && tensors[t].layout == tensors[u].layout ==>
            tensors[t].nbytes == tensors[u].nbytes)
    }

    ghost predicate TensorOk(t: nat) {
      && t < |tensors| && tensors[t].nbytes > 0
      && Base(t) < |tensors| && Base(Base(t)) == Base(t)
      && tensors[t].offs + NBytes(t) <= NBytes(Base(t))
      && (tensors[t].inplace ==> t in nodes)
      && forall j :: 0 <= j < |Src(t)| ==> Src(t)[j] < |tensors|
    }

    /** A view reads a tensor of its family. */
    ghost predicate NodeOk(t: nat) {
      IsView(t) ==> exists j :: 0 <= j < |Src(t)| && Base(Src(t)[j]) == Base(t)
    }
  }

  datatype Buffer = NoBuffer | Own | Other

  datatype Plan = Plan(data: seq<Option<int>>, buffer: seq<Buffer>, viewSrc: seq<Option<nat>>,
                       nChildren: seq<int>, nViews: seq<int>, blocks: seq<FreeBlock>, top: int)

  /** edges: reads still to come; pending: nodes not yet processed; started: nodes whose
      memory has been arranged; attached[s]: the views and in-place results that still keep s;
      released: the views and in-place results that have let go; owner: the tensor whose
      content is now in the block of s; next: who took over from s; lingering: in-place
      results overwritten before they let go; hold: the memory of each current owner. */
  datatype Books = Books(edges: set<(nat, nat)>, pending: set<nat>, started: set<nat>,
                         attached: seq<set<nat>>, released: set<nat>, lingering: set<nat>,
                         next: map<nat, nat>, owner: map<nat, nat>, hold: map<nat, Range>)

  ghost function In(g: Graph, k: Books, t: nat): set<(nat, nat)> {
    set e | e in k.edges && g.Target(e) == t
  }

  ghost function AllReads(g: Graph): set<(nat, nat)> {
    set i, j | 0 <= i < |g.nodes| && 0 <= j < |g.Src(g.nodes[i])| :: (g.nodes[i], j)
  }

  ghost function ReadersOf(g: Graph, t: nat): set<(nat, nat)> {
    set e | e in AllReads(g) && g.Target(e) == t
  }

  ghost predicate Placed(p: Plan, t: nat) { t < |p.data| && p.data[t].Some? }

  ghost predicate Mine(p: Plan, t: nat) { t < |p.buffer| && p.buffer[t] == Own }

  /** An in-place result: not a view of the graph, but made one by the planner. */
  ghost predicate InPlace(g: Graph, p: Plan, t: nat) {
    t < |p.viewSrc| && !g.IsView(t) && p.viewSrc[t].Some?
  }

  /** What each tensor occupies: its bytes padded to the alignment of the buffer. */
  function Pad(pad: seq<nat>, t: nat): nat { if t < |pad| then pad[t] else 0 }

  ghost predicate Sized(g: Graph, pad: seq<nat>) {
    && (forall t :: 0 <= t < g.Size() ==>
        0 < g.NBytes(t) <= Pad(pad, t) && (g.IsView(t) ==> Pad(pad, t) <= Pad(pad, g.Base(t))))
    && (forall t, u :: 0 <= t < g.Size() && 0 <= u < g.Size() && g.tensors[t].layout == g.tensors[u].layout ==>
          Pad(pad, t) == Pad(pad, u))
  }

  /** [addr, addr + size) lies in the range r. */
  ghost predicate Inside(addr: int, size: nat, r: Range) {
    r.addr <= addr && addr + size <= r.addr + r.size
  }

  ghost predicate Disjoint(r: Range, q: Range) {
    r.addr + r.size <= q.addr || q.addr + q.size <= r.addr
  }

  // ---------- The invariant, one part at a time ----------

  ghost predicate Shape(g: Graph, p: Plan, k: Books) {
    && |p.data| == |p.buffer| == |p.viewSrc| == |p.nChildren| == |p.nViews| == |k.attached| == g.Size()
    && (forall m :: m in k.pending ==> m in g.nodes)
    && (forall e :: e in k.edges ==> e.0 in k.pending && e.1 < |g.Src(e.0)|)
    && WellFormed(p.blocks)
  }

  ghost predicate Counts(g: Graph, p: Plan, k: Books) {
    forall t :: 0 <= t < g.Size() && t < |p.nChildren| && t < |p.nViews| && t < |k.attached| ==>
      p.nChildren[t] == |In(g, k, t)| && p.nViews[t] == |k.attached[t]|
  }

  /** A node is started only after everything it reads is in place and processed. */
  ghost predicate Order(g: Graph, p: Plan, k: Books) {
    && (forall m :: m in g.nodes && m !in k.pending ==> m in k.started)
    && (forall m :: m in k.started ==> m in g.nodes && Placed(p, m))
    && (forall m, j :: m in k.started && 0 <= j < |g.Src(m)| ==> Settled(g, p, k, g.Src(m)[j]))
  }

  ghost predicate Settled(g: Graph, p: Plan, k: Books, s: nat) {
    Placed(p, s) && s !in k.pending && g.Base(s) !in k.pending
  }

  ghost predicate Addresses(g: Graph, p: Plan) {
    forall t :: 0 <= t < |p.data| ==> AddressOk(g, p, t)
  }

  ghost predicate AddressOk(g: Graph, p: Plan, t: nat) {
    && t < |p.data| && t < |p.buffer| && t < |p.viewSrc|
    && (p.data[t].Some? <==> p.buffer[t] != NoBuffer)
    && (g.IsView(t) ==>
          && p.viewSrc[t] == Some(g.Base(t))
          && (p.data[t].Some? ==>
                && Placed(p, g.Base(t)) && t < |g.tensors|
                && p.data[t].value == p.data[g.Base(t)].value + g.tensors[t].offs
                && g.Base(t) < |p.buffer| && p.buffer[t] == p.buffer[g.Base(t)]))
    && (InPlace(g, p, t) ==>
          var s := p.viewSrc[t].value;
          !g.IsView(s) && Placed(p, s) && Mine(p, s) && Mine(p, t) && p.data[t] == p.data[s])
  }

  /** Who keeps whom: the attached tensors are exactly the views among the nodes and the
      in-place results that have not let go. */
  ghost predicate Attachments(g: Graph, p: Plan, k: Books) {
    && (forall s, v :: 0 <= s < |k.attached| && v in k.attached[s] ==> KeptBy(g, p, k, s, v))
    && (forall v :: 0 <= v < |p.viewSrc| ==> Keeper(g, p, k, v))
    && (forall v :: v in k.released ==> HasLetGo(g, k, v))
    && (forall v :: 0 <= v < |k.attached| && g.IsView(v) ==> k.attached[v] == {})
  }

  ghost predicate KeptBy(g: Graph, p: Plan, k: Books, s: nat, v: nat) {
    v < |p.viewSrc| && p.viewSrc[v] == Some(s) && v !in k.released
  }

  ghost predicate Keeper(g: Graph, p: Plan, k: Books, v: nat) {
    v < |p.viewSrc| && p.viewSrc[v].Some? && v !in k.released ==>
      p.viewSrc[v].value < |k.attached| && v in k.attached[p.viewSrc[v].value]
  }

  ghost predicate HasLetGo(g: Graph, k: Books, v: nat) {
    v < |k.attached| && v !in k.pending && In(g, k, v) == {} && k.attached[v] == {}
  }

  lemma SameAttachments(g: Graph, p: Plan, k: Books, p': Plan, k': Books)
    requires Attachments(g, p, k) && p'.viewSrc == p.viewSrc && k'.attached == k.attached
    requires k'.released == k.released && k'.edges == k.edges && k'.pending <= k.pending
    ensures Attachments(g, p', k')
  {
    forall s, v | 0 <= s < |k'.attached| && v in k'.attached[s] ensures KeptBy(g, p', k', s, v) {
      assert KeptBy(g, p, k, s, v);
    }
    forall v | 0 <= v < |p'.viewSrc| ensures Keeper(g, p', k', v) { assert Keeper(g, p, k, v); }
    forall v | v in k'.released ensures HasLetGo(g, k', v) {
      assert HasLetGo(g, k, v);
      assert In(g, k', v) == In(g, k, v);
    }
  }

  ghost predicate OwnHead(g: Graph, p: Plan, t: nat) {
    !g.IsView(t) && Placed(p, t) && Mine(p, t)
  }

  ghost predicate Owners(g: Graph, p: Plan, k: Books) {
    && (forall t :: t in k.hold ==> t in k.owner && k.owner[t] == t)
    && (forall s :: s in k.owner ==> OwnHead(g, p, s) && k.owner[s] in k.hold && s !in k.lingering)
  }

  /** Whoever may take over a view's memory is as large as what the view is a view of. */
  ghost predicate NoSmallerReuse(g: Graph, pad: seq<nat>) {
    forall x, j :: 0 <= x < g.Size() && g.tensors[x].inplace && 0 <= j < |g.Src(x)| ==>
      AsLargeAsBase(g, pad, x, g.Src(x)[j])
  }

  ghost predicate AsLargeAsBase(g: Graph, pad: seq<nat>, x: nat, v: nat) {
    v < g.Size() && x < g.Size() && g.IsView(v) && g.tensors[x].layout == g.tensors[v].layout ==>
      Pad(pad, v) == Pad(pad, g.Base(v))
  }

  /** Tensor t fits in size bytes, and fills them unless views are smaller than their bases. */
  ghost predicate Occupies(g: Graph, pad: seq<nat>, t: nat, size: nat) {
    Pad(pad, t) <= size && (NoSmallerReuse(g, pad) ==> Pad(pad, t) == size)
  }

  /** Byte x is free or somebody's. */
  ghost predicate Accounted(b: seq<FreeBlock>, k: Books, x: int) {
    Covers(b, x) || exists t :: t in k.hold && Within(x, k.hold[t].addr, k.hold[t].size)
  }

  /** Whatever byte was free or somebody's still is. */
  ghost predicate NothingLost(p: Plan, k: Books, p': Plan, k': Books) {
    forall x :: Accounted(p.blocks, k, x) ==> Accounted(p'.blocks, k', x)
  }

  /** No byte appears from nowhere, and none gets lost exactly if whole is true, which it is unless
      views smaller than their bases are reused. */
  ghost predicate SameBytes(g: Graph, pad: seq<nat>, p: Plan, k: Books, p': Plan, k': Books, whole: bool) {
    NothingLost(p', k', p, k) && (NothingLost(p, k, p', k') <==> whole) && (NoSmallerReuse(g, pad) ==> whole)
  }

  lemma BytesStay(g: Graph, pad: seq<nat>, p: Plan, k: Books, p': Plan, k': Books)
    requires p'.blocks == p.blocks && k'.hold == k.hold
    ensures SameBytes(g, pad, p, k, p', k', true)
  {
    forall x ensures Accounted(p'.blocks, k', x) <==> Accounted(p.blocks, k, x) {}
  }

  lemma BytesTwice(g: Graph, pad: seq<nat>, p: Plan, k: Books, p1: Plan, k1: Books, p2: Plan, k2: Books,
                   whole1: bool, whole2: bool)
    requires SameBytes(g, pad, p, k, p1, k1, whole1) && SameBytes(g, pad, p1, k1, p2, k2, whole2)
    ensures SameBytes(g, pad, p, k, p2, k2, whole1 && whole2)
  {
    hide Accounted, NoSmallerReuse;
  }

  // ---------- Where chains of in-place results end ----------

  /** Following the view sources n times from u leads to r, which is a view of nothing. */
  ghost predicate Leads(viewSrc: seq<Option<nat>>, u: nat, r: nat, n: nat)
    decreases n
  {
    && u < |viewSrc|
    && if n == 0 then u == r && viewSrc[u].None?
       else viewSrc[u].Some? && Leads(viewSrc, viewSrc[u].value, r, n - 1)
  }

  ghost predicate EndsAt(viewSrc: seq<Option<nat>>, u: nat, r: nat) {
    exists n: nat :: Leads(viewSrc, u, r, n)
  }

  lemma {:induction false} OneEnd(viewSrc: seq<Option<nat>>, u: nat, r: nat, n: nat, r': nat, n': nat)
    requires Leads(viewSrc, u, r, n) && Leads(viewSrc, u, r', n')
    ensures r == r'
    decreases n
  {
    if n == 0 {
    } else {
      OneEnd(viewSrc, viewSrc[u].value, r, n - 1, r', n' - 1);
    }
  }

  /** Tensor u is as large as the end of its chain. */
  ghost predicate AsLargeAsEnd(pad: seq<nat>, viewSrc: seq<Option<nat>>, u: nat) {
    forall r: nat :: EndsAt(viewSrc, u, r) ==> Pad(pad, u) == Pad(pad, r)
  }

  /** The chain of every tensor that owns memory ends at one that is as large as the memory. */
  ghost predicate Backed(pad: seq<nat>, p: Plan, k: Books) {
    forall u :: u in k.owner ==> exists r: nat :: BackedBy(pad, p, k, u, r)
  }

  ghost predicate BackedBy(pad: seq<nat>, p: Plan, k: Books, u: nat, r: nat) {
    u in k.owner && k.owner[u] in k.hold && EndsAt(p.viewSrc, u, r) && Pad(pad, r) == k.hold[k.owner[u]].size
  }

  lemma SameBacked(pad: seq<nat>, p: Plan, k: Books, p': Plan, k': Books)
    requires Backed(pad, p, k) && p'.viewSrc == p.viewSrc
    requires forall u :: u in k'.owner ==>
               && u in k.owner && k.owner[u] in k.hold && k'.owner[u] in k'.hold
               && k'.hold[k'.owner[u]] == k.hold[k.owner[u]]
    ensures Backed(pad, p', k')
  {
    forall u | u in k'.owner ensures exists r: nat :: BackedBy(pad, p', k', u, r) {
      var r: nat :| BackedBy(pad, p, k, u, r);
      assert BackedBy(pad, p', k', u, r);
    }
  }

  /** Whether an owner is as large as its memory, from its chain alone. */
  lemma LargeIffWhole(pad: seq<nat>, p: Plan, k: Books, u: nat)
    requires Backed(pad, p, k) && u in k.owner
    ensures k.owner[u] in k.hold
    ensures AsLargeAsEnd(pad, p.viewSrc, u) <==> Pad(pad, u) == k.hold[k.owner[u]].size
  {
    var r: nat :| BackedBy(pad, p, k, u, r);
    forall r': nat | EndsAt(p.viewSrc, u, r') ensures r' == r {
      var n: nat :| Leads(p.viewSrc, u, r, n);
      var n': nat :| Leads(p.viewSrc, u, r', n');
      OneEnd(p.viewSrc, u, r, n, r', n');
    }
  }

  ghost predicate Extents(g: Graph, pad: seq<nat>, p: Plan, k: Books)
  {
    forall s :: s in k.owner && Placed(p, s) && k.owner[s] in k.hold ==>
      p.data[s].value == k.hold[k.owner[s]].addr && Occupies(g, pad, s, k.hold[k.owner[s]].size)
  }

  ghost predicate Takeovers(g: Graph, p: Plan, k: Books) {
    forall s :: s in k.owner && k.owner[s] != s ==> TakenOver(g, p, k, s)
  }

  ghost predicate Chains(g: Graph, p: Plan, k: Books) {
    forall z :: z in k.owner && InPlace(g, p, z) ==> Chained(p, k, z)
  }

  /** An in-place result is the one that took over from its source. */
  ghost predicate Chained(p: Plan, k: Books, z: nat) {
    && z < |p.viewSrc| && p.viewSrc[z].Some? && z in k.owner
    && var s := p.viewSrc[z].value;
       s in k.owner && k.owner[s] == k.owner[z] != s && s in k.next && k.next[s] == z
  }

  /** s was taken over by next[s]: whatever else still concerns s is a read by that taker. */
  ghost predicate TakenOver(g: Graph, p: Plan, k: Books, s: nat) {
    && s in k.owner && s in k.next && k.next[s] in k.owner && k.owner[k.next[s]] == k.owner[s]
    && InPlace(g, p, k.next[s]) && p.viewSrc[k.next[s]] == Some(s)
    && s < |k.attached| && k.next[s] in k.attached[s]
    && (forall e :: e in In(g, k, s) ==> e.0 == k.next[s])
    && (forall v :: v in k.attached[s] && v != k.next[s] ==>
          (g.IsView(v) || v in k.lingering) && In(g, k, v) != {} && forall e :: e in In(g, k, v) ==> e.0 == k.next[s])
  }

  ghost predicate Holdings(k: Books, b: seq<FreeBlock>) {
    && (forall t :: t in k.hold ==> Apart(b, k.hold[t].addr, k.hold[t].size) && k.hold[t].size > 0)
    && (forall t, u :: t in k.hold && u in k.hold && t != u ==> Disjoint(k.hold[t], k.hold[u]))
  }

  /** Whatever a coming read or a node not yet processed needs is held: a read of a family
      whose block has a new owner is that owner's own read, at the same place. */
  ghost predicate Needs(g: Graph, p: Plan, k: Books) {
    && (forall t :: t in k.pending && OwnHead(g, p, t) ==> t in k.hold)
    && (forall z: nat :: InPlace(g, p, z) ==> p.viewSrc[z].value !in k.pending)
    && (forall e :: e in k.edges ==> NeedsEdge(g, p, k, e))
  }

  ghost predicate NeedsEdge(g: Graph, p: Plan, k: Books, e: (nat, nat)) {
    var s := g.Target(e);
    OwnHead(g, p, g.Base(s)) && g.Base(s) !in k.hold ==>
      && e.0 in k.hold && InPlace(g, p, e.0) && Placed(p, s) && Placed(p, e.0)
      && p.data[s] == p.data[e.0] && g.NBytes(s) == g.NBytes(e.0)
  }

  ghost predicate Quiet(g: Graph, k: Books, t: nat) {
    t < |k.attached| && In(g, k, t) == {} && k.attached[t] == {}
  }

  ghost predicate Stuck(k: Books, s: nat) {
    s < |k.attached| && s in k.next && k.next[s] in k.attached[s] && k.next[s] !in k.owner && k.next[s] !in k.lingering
  }

  /** Memory that nobody owns any more is never released a second time. */
  ghost predicate Gone(g: Graph, p: Plan, k: Books) {
    && (forall s :: 0 <= s < g.Size() && OwnHead(g, p, s) && s !in k.owner && s !in k.lingering ==>
          Quiet(g, k, s) || Stuck(k, s))
    && (forall w :: w in k.lingering ==> w < |k.attached| && k.attached[w] == {} && InPlace(g, p, w))
    && (forall s :: s in k.next ==> !g.IsView(k.next[s]))
  }

  /** A plan that aborted promises nothing. */
  datatype Outcome = Aborted | Running(p: Plan, k: Books)

  ghost predicate Framed(g: Graph, o: Outcome) {
    match o
    case Aborted => true
    case Running(p, k) => Shape(g, p, k) && Counts(g, p, k) && Order(g, p, k) && Addresses(g, p) && Attachments(g, p, k)
  }

  ghost predicate InCustody(g: Graph, pad: seq<nat>, o: Outcome)
  {
    match o
    case Aborted => true
    case Running(p, k) =>
      && Owners(g, p, k) && Extents(g, pad, p, k) && Chains(g, p, k) && Needs(g, p, k)
      && Gone(g, p, k) && Backed(pad, p, k)
  }

  /** x is exempt: the tensor that took over from it has let it go. */
  ghost predicate TakeoversBut(g: Graph, o: Outcome, x: nat) {
    match o
    case Aborted => true
    case Running(p, k) => forall s :: s in k.owner && s != x && k.owner[s] != s ==> TakenOver(g, p, k, s)
  }

  ghost predicate Held(o: Outcome) {
    match o
    case Aborted => true
    case Running(p, k) => Holdings(k, p.blocks)
  }

  ghost predicate InvBut(g: Graph, pad: seq<nat>, p: Plan, k: Books, x: nat)
  {
    && Framed(g, Running(p, k)) && InCustody(g, pad, Running(p, k))
    && TakeoversBut(g, Running(p, k), x) && Held(Running(p, k))
  }

  ghost predicate Inv(g: Graph, pad: seq<nat>, p: Plan, k: Books)
  {
    InvBut(g, pad, p, k, g.Size())
  }
}
