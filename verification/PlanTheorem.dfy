/** From the graph as it is built to the end of the walk: the counting pass sets up a sound
    plan, and every walk from it is safe. */
module PlanTheorem {
  import opened Wrappers
  import opened FreeList
  import opened GraphPlan
  import opened PlanSteps
  import opened PlanWalk
  import opened PlanSpec
  import opened PlanSafety
  import opened PlanReturn

  // ---------- The plan after the counting pass ----------

  ghost function ViewsOf(g: Graph, t: nat): set<nat> {
    set v | v in g.nodes && v != t && g.Base(v) == t
  }

  /** A view of a tensor that already has memory lies in that tensor's buffer. */
  ghost function BufferOf(g: Graph, data: seq<Option<int>>, buffer: seq<Buffer>, t: nat): Buffer
    requires t < |data| && t < |buffer|
  {
    if g.IsView(t) && data[t].Some? && g.Base(t) < |buffer| then buffer[g.Base(t)] else buffer[t]
  }

  ghost function Counted(g: Graph, data: seq<Option<int>>, buffer: seq<Buffer>, blocks: seq<FreeBlock>, top: int): Plan
    requires |data| == |buffer| == g.Size()
  {
    Plan(data,
         seq(g.Size(), t requires 0 <= t < g.Size() => BufferOf(g, data, buffer, t)),
         seq(g.Size(), t requires 0 <= t < g.Size() => if g.IsView(t) then Some(g.Base(t)) else None),
         seq(g.Size(), t requires 0 <= t < g.Size() => |ReadersOf(g, t)|),
         seq(g.Size(), t requires 0 <= t < g.Size() => |ViewsOf(g, t)|),
         blocks, top)
  }

  /** How tensors come to the planner: some have memory, in this buffer (held and apart) or in
      another one; a view has memory only if its base does. */
  ghost predicate Loaded(g: Graph, pad: seq<nat>, data: seq<Option<int>>, buffer: seq<Buffer>, blocks: seq<FreeBlock>) {
    && g.WellFormed() && Sized(g, pad) && WellFormed(blocks) && |data| == |buffer| == g.Size()
    && (forall t :: 0 <= t < g.Size() ==> LoadedAt(g, data, buffer, t))
    && (forall t :: 0 <= t < g.Size() && OwnLoaded(g, data, buffer, t) ==> Apart(blocks, data[t].value, Pad(pad, t)))
    && (forall t: nat, u: nat | OwnLoaded(g, data, buffer, t) && OwnLoaded(g, data, buffer, u) && t != u ::
          Disjoint(Range(data[t].value, Pad(pad, t)), Range(data[u].value, Pad(pad, u))))
  }

  ghost predicate OwnLoaded(g: Graph, data: seq<Option<int>>, buffer: seq<Buffer>, t: nat) {
    t < |data| && t < |buffer| && !g.IsView(t) && data[t].Some? && buffer[t] == Own
  }

  ghost predicate LoadedAt(g: Graph, data: seq<Option<int>>, buffer: seq<Buffer>, t: nat) {
    && t < |data| && t < |buffer| && t < |g.tensors| && g.Base(t) < |data|
    && (if g.IsView(t) then
          && (data[t].None? ==> buffer[t] == NoBuffer)
          && g.Base(t) < |buffer| && (buffer[t] == NoBuffer || buffer[t] == buffer[g.Base(t)])
          && (data[t].Some? ==> data[g.Base(t)].Some? && data[t].value == data[g.Base(t)].value + g.tensors[t].offs)
        else data[t].Some? <==> buffer[t] != NoBuffer)
  }

  ghost function Opening(g: Graph, pad: seq<nat>, data: seq<Option<int>>, buffer: seq<Buffer>): Books {
    var mine := set t | 0 <= t < g.Size() && OwnLoaded(g, data, buffer, t);
    Books(AllReads(g), set m | m in g.nodes, {},
          seq(g.Size(), t requires 0 <= t < g.Size() => ViewsOf(g, t)), {}, {}, map[],
          map t | t in mine :: t,
          map t | t in mine && t < |data| && data[t].Some? :: Range(data[t].value, Pad(pad, t)))
  }

  lemma OpeningFits(g: Graph, pad: seq<nat>, data: seq<Option<int>>, buffer: seq<Buffer>, blocks: seq<FreeBlock>,
                    top: int)
    requires Loaded(g, pad, data, buffer, blocks)
    ensures Fitting(g, Counted(g, data, buffer, blocks, top))
  {
    var p := Counted(g, data, buffer, blocks, top);
    forall t | 0 <= t < g.Size() ensures ViewFits(g, p, t) {
      assert g.TensorOk(t) && LoadedAt(g, data, buffer, t);
    }
  }

  lemma ReadIndexed(g: Graph, e: (nat, nat))
    requires e.0 in g.nodes && e.1 < |g.Src(e.0)|
    ensures e in AllReads(g)
  {
    var i :| 0 <= i < |g.nodes| && g.nodes[i] == e.0;
    assert e == (g.nodes[i], e.1);
  }

  lemma OpeningShape(g: Graph, pad: seq<nat>, data: seq<Option<int>>, buffer: seq<Buffer>, blocks: seq<FreeBlock>,
                     top: int)
    requires Loaded(g, pad, data, buffer, blocks)
    ensures var p, k := Counted(g, data, buffer, blocks, top), Opening(g, pad, data, buffer);
            Shape(g, p, k) && Counts(g, p, k) && Order(g, p, k) && After(g, k, [])
  {
    var p, k := Counted(g, data, buffer, blocks, top), Opening(g, pad, data, buffer);
    forall t ensures In(g, k, t) == ReadersOf(g, t) {}
    forall m | m in k.pending ensures Full(g, k, m) {
      forall j | 0 <= j < |g.Src(m)| ensures (m, j) in k.edges { ReadIndexed(g, (m, j)); }
    }
  }

  lemma OpeningAddresses(g: Graph, pad: seq<nat>, data: seq<Option<int>>, buffer: seq<Buffer>, blocks: seq<FreeBlock>,
                         top: int)
    requires Loaded(g, pad, data, buffer, blocks)
    ensures Addresses(g, Counted(g, data, buffer, blocks, top))
  {
    var p := Counted(g, data, buffer, blocks, top);
    forall t | 0 <= t < |p.data| ensures AddressOk(g, p, t) {
      assert g.TensorOk(t) && LoadedAt(g, data, buffer, t) && LoadedAt(g, data, buffer, g.Base(t));
    }
  }

  lemma OpeningAttachments(g: Graph, pad: seq<nat>, data: seq<Option<int>>, buffer: seq<Buffer>,
                           blocks: seq<FreeBlock>, top: int)
    requires Loaded(g, pad, data, buffer, blocks)
    ensures Attachments(g, Counted(g, data, buffer, blocks, top), Opening(g, pad, data, buffer))
  {
    var p, k := Counted(g, data, buffer, blocks, top), Opening(g, pad, data, buffer);
    forall s, v | 0 <= s < |k.attached| && v in k.attached[s] ensures KeptBy(g, p, k, s, v) {
      assert v in ViewsOf(g, s);
    }
    forall v | 0 <= v < |p.viewSrc| ensures Keeper(g, p, k, v) {
      assert g.TensorOk(v);
    }
    forall v | 0 <= v < |k.attached| && g.IsView(v) ensures k.attached[v] == {} {
      forall u ensures u !in ViewsOf(g, v) { if u in g.nodes { assert g.TensorOk(u); } }
    }
  }

  lemma OpeningHeads(g: Graph, data: seq<Option<int>>, buffer: seq<Buffer>, blocks: seq<FreeBlock>, top: int)
    requires |data| == |buffer| == g.Size()
    ensures var p := Counted(g, data, buffer, blocks, top);
            forall t: nat :: OwnHead(g, p, t) <==> t < g.Size() && OwnLoaded(g, data, buffer, t)
    ensures forall t: nat :: !InPlace(g, Counted(g, data, buffer, blocks, top), t)
  {
  }

  lemma OpeningBacked(g: Graph, pad: seq<nat>, data: seq<Option<int>>, buffer: seq<Buffer>, blocks: seq<FreeBlock>,
                      top: int)
    requires Loaded(g, pad, data, buffer, blocks)
    ensures Backed(pad, Counted(g, data, buffer, blocks, top), Opening(g, pad, data, buffer))
  {
    var p, k := Counted(g, data, buffer, blocks, top), Opening(g, pad, data, buffer);
    forall u | u in k.owner ensures exists r: nat :: BackedBy(pad, p, k, u, r) {
      assert Leads(p.viewSrc, u, u, 0);
      assert BackedBy(pad, p, k, u, u);
    }
  }

  lemma OpeningCustody(g: Graph, pad: seq<nat>, data: seq<Option<int>>, buffer: seq<Buffer>, blocks: seq<FreeBlock>,
                       top: int)
    requires Loaded(g, pad, data, buffer, blocks)
    ensures var o := Running(Counted(g, data, buffer, blocks, top), Opening(g, pad, data, buffer));
            InCustody(g, pad, o) && TakeoversBut(g, o, g.Size())
  {
    hide Backed, Needs, OwnHead, InPlace;
    OpeningHeads(g, data, buffer, blocks, top);
    OpeningBacked(g, pad, data, buffer, blocks, top);
    OpeningNeeds(g, pad, data, buffer, blocks, top);
  }

  lemma OpeningNeeds(g: Graph, pad: seq<nat>, data: seq<Option<int>>, buffer: seq<Buffer>, blocks: seq<FreeBlock>,
                     top: int)
    requires Loaded(g, pad, data, buffer, blocks)
    ensures Needs(g, Counted(g, data, buffer, blocks, top), Opening(g, pad, data, buffer))
  {
    var p, k := Counted(g, data, buffer, blocks, top), Opening(g, pad, data, buffer);
    OpeningHeads(g, data, buffer, blocks, top);
    forall e | e in k.edges ensures NeedsEdge(g, p, k, e) {}
  }

  lemma OpeningHeld(g: Graph, pad: seq<nat>, data: seq<Option<int>>, buffer: seq<Buffer>, blocks: seq<FreeBlock>,
                    top: int)
    requires Loaded(g, pad, data, buffer, blocks)
    ensures Held(Running(Counted(g, data, buffer, blocks, top), Opening(g, pad, data, buffer)))
  {
  }

  lemma OpeningIsSound(g: Graph, pad: seq<nat>, data: seq<Option<int>>, buffer: seq<Buffer>, blocks: seq<FreeBlock>,
                       top: int)
    requires Loaded(g, pad, data, buffer, blocks)
    ensures Fitting(g, Counted(g, data, buffer, blocks, top))
    ensures Sound(g, pad, Running(Counted(g, data, buffer, blocks, top), Opening(g, pad, data, buffer)))
    ensures After(g, Opening(g, pad, data, buffer), [])
  {
    OpeningFits(g, pad, data, buffer, blocks, top);
    OpeningShape(g, pad, data, buffer, blocks, top);
    OpeningAddresses(g, pad, data, buffer, blocks, top);
    OpeningAttachments(g, pad, data, buffer, blocks, top);
    OpeningCustody(g, pad, data, buffer, blocks, top);
    OpeningHeld(g, pad, data, buffer, blocks, top);
    OpeningRetains(g, pad, data, buffer, blocks, top);
  }

  lemma OpeningRetains(g: Graph, pad: seq<nat>, data: seq<Option<int>>, buffer: seq<Buffer>, blocks: seq<FreeBlock>,
                       top: int)
    requires Loaded(g, pad, data, buffer, blocks)
    ensures Retained(g, Counted(g, data, buffer, blocks, top), Opening(g, pad, data, buffer))
  {
    var k := Opening(g, pad, data, buffer);
    OpeningHeads(g, data, buffer, blocks, top);
    forall t ensures In(g, k, t) == ReadersOf(g, t) {}
    assert forall t :: Unfinished(g, k, t);
  }

  lemma LoadedSizes(g: Graph, pad: seq<nat>, data: seq<Option<int>>, buffer: seq<Buffer>, blocks: seq<FreeBlock>)
    requires Loaded(g, pad, data, buffer, blocks)
    ensures g.WellFormed() && |data| == |buffer| == g.Size()
  {
  }

  // ---------- Memory comes back ----------

  /** After these events t is still to be processed, or to be read, or is one that no node reads. */
  ghost predicate StillNeeded(g: Graph, evs: seq<Event>, t: nat) {
    || (t in g.nodes && Finish(t) !in evs)
    || (exists e :: e in ReadersOf(g, t) && Finish(e.0) !in evs)
    || ReadersOf(g, t) == {}
  }

  /** That holds of t or of a view of t. */
  ghost predicate FamilyNeeded(g: Graph, evs: seq<Event>, t: nat) {
    StillNeeded(g, evs, t) || exists v :: v in ViewsOf(g, t) && StillNeeded(g, evs, v)
  }

  /** Nobody holds memory whose family is done with. */
  ghost predicate NoneOverstays(g: Graph, evs: seq<Event>, k: Books) {
    forall t :: t in k.hold ==> FamilyNeeded(g, evs, t)
  }

  lemma UnfinishedIsNeeded(g: Graph, p: Plan, k: Books, evs: seq<Event>, t: nat)
    requires Shape(g, p, k) && After(g, k, evs) && Unfinished(g, k, t)
    ensures StillNeeded(g, evs, t)
  {
    if In(g, k, t) != {} {
      var e :| e in In(g, k, t);
      ReadIndexed(g, e);
      assert e in ReadersOf(g, t);
    }
  }

  lemma HeldIsNeeded(g: Graph, pad: seq<nat>, o: Outcome, evs: seq<Event>)
    requires Sound(g, pad, o) && o.Running? && After(g, o.k, evs)
    ensures NoneOverstays(g, evs, o.k)
  {
    hide After, StillNeeded, In, ReadersOf, Counts, Order;
    var p, k := o.p, o.k;
    forall t | t in k.hold ensures FamilyNeeded(g, evs, t) {
      assert Wanted(g, k, t);
      if Unfinished(g, k, t) {
        UnfinishedIsNeeded(g, p, k, evs, t);
      } else {
        var v :| v in k.attached[t];
        assert KeptBy(g, p, k, t, v);
        assert InPlace(g, p, v) ==> false;
        assert AddressOk(g, p, v);
        UnfinishedIsNeeded(g, p, k, evs, v);
      }
    }
  }

  // ---------- Every walk is safe ----------

  lemma SoundIsSafe(g: Graph, pad: seq<nat>, o: Outcome)
    requires Sound(g, pad, o) && o.Running?
    ensures MemorySafe(g, o.p, o.k)
  {
    PlanIsSafe(g, pad, o.p, o.k);
  }

  /** After every legal walk over every graph, whichever reads are still to come and whichever
      nodes are still to be processed, none of the memory they need has been freed or handed
      to a tensor other than the last reader itself, and nothing is held for a family that is done
      with.  Every byte that is free or held was so at the start; and all that were still are
      exactly if every release is whole. */
  lemma WalkIsSafe(g: Graph, pad: seq<nat>, data: seq<Option<int>>, buffer: seq<Buffer>, blocks: seq<FreeBlock>,
                   top: int, evs: seq<Event>) returns (k: Books)
    requires Loaded(g, pad, data, buffer, blocks) && Legal(g, evs)
    requires Fitting(g, Counted(g, data, buffer, blocks, top)) && forall ev :: ev in evs ==> ev.m < g.Size()
    requires Walk(g, pad, Counted(g, data, buffer, blocks, top), evs).Some?
    ensures After(g, k, evs) && MemorySafe(g, Walk(g, pad, Counted(g, data, buffer, blocks, top), evs).value, k)
    ensures NoneOverstays(g, evs, k)
    ensures forall t :: t in k.hold ==>
              HoldsItsPlace(g, pad, Walk(g, pad, Counted(g, data, buffer, blocks, top), evs).value, k, t)
    ensures SameBytes(g, pad, Counted(g, data, buffer, blocks, top), Opening(g, pad, data, buffer),
                      Walk(g, pad, Counted(g, data, buffer, blocks, top), evs).value, k,
                      WalkWhole(g, pad, Counted(g, data, buffer, blocks, top), evs))
  {
    hide SameBytes, NoneOverstays;
    OpeningIsSound(g, pad, data, buffer, blocks, top);
    var o := WalkKeeps(g, pad, Running(Counted(g, data, buffer, blocks, top), Opening(g, pad, data, buffer)), evs);
    PlanIsSafe(g, pad, o.p, o.k);
    HeldIsNeeded(g, pad, o, evs);
    HeldInPlace(g, pad, o);
    k := o.k;
  }

  /** What t holds is a block at t's own address, as large as the end of t's chain of view sources, and no
      larger than t unless views smaller than their bases are reused. */
  ghost predicate HoldsItsPlace(g: Graph, pad: seq<nat>, p: Plan, k: Books, t: nat) {
    && t in k.hold && OwnHead(g, p, t) && p.data[t].value == k.hold[t].addr
    && Occupies(g, pad, t, k.hold[t].size)
    && exists r: nat :: EndsAt(p.viewSrc, t, r) && k.hold[t].size == Pad(pad, r)
  }

  lemma HeldInPlace(g: Graph, pad: seq<nat>, o: Outcome)
    requires Sound(g, pad, o) && o.Running?
    ensures forall t :: t in o.k.hold ==> HoldsItsPlace(g, pad, o.p, o.k, t)
  {
    forall t | t in o.k.hold ensures HoldsItsPlace(g, pad, o.p, o.k, t) {
      assert t in o.k.owner && o.k.owner[t] == t;
      var r: nat :| BackedBy(pad, o.p, o.k, t, r);
    }
  }

  /** Byte x belongs to the buffer from the start: it is free, or a tensor comes with it. */
  ghost predicate Supplied(g: Graph, pad: seq<nat>, data: seq<Option<int>>, buffer: seq<Buffer>,
                           blocks: seq<FreeBlock>, x: int)
  {
    || Covers(blocks, x)
    || exists t: nat :: OwnLoaded(g, data, buffer, t) && t < |data| && Within(x, data[t].value, Pad(pad, t))
  }

  /** A tensor in this buffer, no view, that is never read itself or has a view that is never read. */
  ghost predicate NeverDone(g: Graph, p: Plan, t: nat) {
    && OwnHead(g, p, t)
    && (ReadersOf(g, t) == {} || exists v :: v in ViewsOf(g, t) && ReadersOf(g, v) == {})
  }

  /** Byte x is t's own; t's memory is as large as the end of its chain of view sources. */
  ghost predicate OwnByte(pad: seq<nat>, p: Plan, t: nat, x: int) {
    t < |p.data| && p.data[t].Some?
    && exists r: nat :: EndsAt(p.viewSrc, t, r) && Within(x, p.data[t].value, Pad(pad, r))
  }

  /** When every node has been processed and no release was of a part only, every byte of the buffer is
      free again, unless it belongs to a tensor that nobody reads or that has a view nobody reads. */
  lemma WalkGivesBack(g: Graph, pad: seq<nat>, data: seq<Option<int>>, buffer: seq<Buffer>, blocks: seq<FreeBlock>,
                      top: int, evs: seq<Event>)
    requires Loaded(g, pad, data, buffer, blocks) && Legal(g, evs)
    requires Fitting(g, Counted(g, data, buffer, blocks, top)) && forall ev :: ev in evs ==> ev.m < g.Size()
    requires Walk(g, pad, Counted(g, data, buffer, blocks, top), evs).Some?
    requires WalkWhole(g, pad, Counted(g, data, buffer, blocks, top), evs)
    requires forall m :: m in g.nodes ==> Finish(m) in evs
    ensures var p := Walk(g, pad, Counted(g, data, buffer, blocks, top), evs).value;
            forall x :: Supplied(g, pad, data, buffer, blocks, x) ==>
              Covers(p.blocks, x) || exists t: nat :: NeverDone(g, p, t) && OwnByte(pad, p, t, x)
  {
    hide Legal, Loaded, Fitting, Walk, WalkWhole, MemorySafe, NoSmallerReuse, After;
    LoadedSizes(g, pad, data, buffer, blocks);
    var k := WalkIsSafe(g, pad, data, buffer, blocks, top, evs);
    var p := Walk(g, pad, Counted(g, data, buffer, blocks, top), evs).value;
    forall x | Supplied(g, pad, data, buffer, blocks, x)
      ensures Covers(p.blocks, x) || exists t: nat :: NeverDone(g, p, t) && OwnByte(pad, p, t, x)
    {
      SuppliedIsAccounted(g, pad, data, buffer, blocks, x);
      assert Accounted(p.blocks, k, x);
      if !Covers(p.blocks, x) {
        var t :| t in k.hold && Within(x, k.hold[t].addr, k.hold[t].size);
        assert HoldsItsPlace(g, pad, p, k, t);
        NeededIsNeverDone(g, p, evs, t);
        assert OwnByte(pad, p, t, x);
      }
    }
  }

  lemma SuppliedIsAccounted(g: Graph, pad: seq<nat>, data: seq<Option<int>>, buffer: seq<Buffer>,
                            blocks: seq<FreeBlock>, x: int)
    requires Supplied(g, pad, data, buffer, blocks, x) && |data| == g.Size()
    ensures Accounted(blocks, Opening(g, pad, data, buffer), x)
  {
    if !Covers(blocks, x) {
      var t: nat :| OwnLoaded(g, data, buffer, t) && Within(x, data[t].value, Pad(pad, t));
      assert t in Opening(g, pad, data, buffer).hold;
    }
  }

  /** Once every node is processed, only never being read keeps a tensor. */
  lemma NeededIsNeverDone(g: Graph, p: Plan, evs: seq<Event>, t: nat)
    requires FamilyNeeded(g, evs, t) && OwnHead(g, p, t) && forall m :: m in g.nodes ==> Finish(m) in evs
    ensures NeverDone(g, p, t)
  {
    assert forall e :: e in AllReads(g) ==> e.0 in g.nodes;
  }

  /** After every legal walk every byte that was free or held still is, if and only if no release of
      the walk goes through a tensor smaller than the end of its chain of in-place results. */
  lemma WalkLosesNothingIff(g: Graph, pad: seq<nat>, data: seq<Option<int>>, buffer: seq<Buffer>,
                            blocks: seq<FreeBlock>, top: int, evs: seq<Event>) returns (k: Books)
    requires Loaded(g, pad, data, buffer, blocks) && Legal(g, evs)
    requires Fitting(g, Counted(g, data, buffer, blocks, top)) && forall ev :: ev in evs ==> ev.m < g.Size()
    requires Walk(g, pad, Counted(g, data, buffer, blocks, top), evs).Some?
    ensures var p := Counted(g, data, buffer, blocks, top);
            && MemorySafe(g, Walk(g, pad, p, evs).value, k)
            && ((forall x :: Accounted(blocks, Opening(g, pad, data, buffer), x) ==>
                   Accounted(Walk(g, pad, p, evs).value.blocks, k, x))
                <==> WalkWhole(g, pad, p, evs))
            && (NoSmallerReuse(g, pad) ==> WalkWhole(g, pad, p, evs))
  {
    hide MemorySafe, Accounted, Walk, WalkWhole, NoSmallerReuse, After;
    k := WalkIsSafe(g, pad, data, buffer, blocks, top, evs);
  }

  // ---------- The events of a walk ----------

  /** The start of the group of nodes that the position belongs to: after the last barrier. */
  function LastBarrier(order: seq<int>, ind: nat): (b: nat)
    requires ind <= |order|
    ensures b <= ind
  {
    if ind == 0 then 0 else if order[ind - 1] == -1 then ind else LastBarrier(order, ind - 1)
  }

  ghost predicate Positions(g: Graph, order: seq<int>) {
    forall i :: 0 <= i < |order| ==> -1 <= order[i] < |g.nodes|
  }

  /** Finishes for the positions a to b of the order. */
  ghost function Finishes(g: Graph, order: seq<int>, a: nat, b: nat): seq<Event>
    requires Positions(g, order) && a <= b <= |order| && LastBarrier(order, b) <= a
  {
    if a == b then []
    else
      NoBarrier(order, b, b - 1);
      Finishes(g, order, a, b - 1) + [Finish(g.nodes[order[b - 1]])]
  }

  lemma NoBarrier(order: seq<int>, b: nat, i: nat)
    requires i < b <= |order| && LastBarrier(order, b) <= i
    ensures order[i] != -1 && LastBarrier(order, i) == LastBarrier(order, b)
  {
  }

  /** What iteration `ind` of the walk does: without an order, one node; with one, the next
      node, or at a barrier the finishes of the whole group. */
  ghost function Iteration(g: Graph, order: seq<int>, ind: nat): seq<Event>
    requires Positions(g, order) && ind < if order == [] then |g.nodes| else |order|
  {
    if order == [] then [Start(g.nodes[ind]), Finish(g.nodes[ind])]
    else if order[ind] == -1 then Finishes(g, order, LastBarrier(order, ind), ind)
    else [Start(g.nodes[order[ind]])]
  }

  ghost function Events(g: Graph, order: seq<int>, ind: nat): seq<Event>
    requires Positions(g, order) && ind <= if order == [] then |g.nodes| else |order|
  {
    if ind == 0 then [] else Events(g, order, ind - 1) + Iteration(g, order, ind - 1)
  }

  ghost function AllEvents(g: Graph, order: seq<int>): seq<Event>
    requires Positions(g, order)
  {
    Events(g, order, if order == [] then |g.nodes| else |order|)
  }

  // ---------- Without an order, a topological graph is walked legally ----------

  ghost predicate Topological(g: Graph) {
    forall i, j, n :: 0 <= i < |g.nodes| && 0 <= j < |g.Src(g.nodes[i])| && i <= n < |g.nodes| ==>
      g.nodes[n] != g.Src(g.nodes[i])[j] && g.nodes[n] != g.Base(g.Src(g.nodes[i])[j])
  }

  lemma {:induction false} PlainEvents(g: Graph, ind: nat)
    requires ind <= |g.nodes|
    ensures |Events(g, [], ind)| == 2 * ind
    ensures forall i :: 0 <= i < ind ==>
              Events(g, [], ind)[2 * i] == Start(g.nodes[i]) && Events(g, [], ind)[2 * i + 1] == Finish(g.nodes[i])
  {
    if ind == 0 {
    } else {
      PlainEvents(g, ind - 1);
    }
  }

  lemma FinishedBefore(g: Graph, evs: seq<Event>, i: nat, t: nat)
    requires g.WellFormed() && evs == Events(g, [], |g.nodes|) && i < |g.nodes| && t in g.nodes
    requires forall n :: i <= n < |g.nodes| ==> g.nodes[n] != t
    ensures 2 * i <= |evs| && Finish(t) in evs[..2 * i]
  {
    PlainEvents(g, |g.nodes|);
    var n :| 0 <= n < |g.nodes| && g.nodes[n] == t;
    assert evs[..2 * i][2 * n + 1] == Finish(t);
  }

  lemma TopologicalIsLegal(g: Graph)
    requires g.WellFormed() && Topological(g)
    ensures Legal(g, AllEvents(g, []))
  {
    var evs := Events(g, [], |g.nodes|);
    PlainEvents(g, |g.nodes|);
    forall n | 0 <= n < |evs| ensures LegalAt(g, evs, n) {
      var i := n / 2;
      assert n == 2 * i || n == 2 * i + 1;
      PlainNew(g, evs, n);
      if n == 2 * i {
        forall j, t | 0 <= j < |g.Src(g.nodes[i])| && t in g.nodes
                      && (t == g.Src(g.nodes[i])[j] || t == g.Base(g.Src(g.nodes[i])[j]))
          ensures Finish(t) in evs[..n]
        {
          FinishedBefore(g, evs, i, t);
        }
      } else {
        assert evs[..n][2 * i] == Start(g.nodes[i]);
      }
    }
  }

  lemma PlainNew(g: Graph, evs: seq<Event>, n: nat)
    requires g.WellFormed() && evs == Events(g, [], |g.nodes|) && n < |evs|
    ensures evs[n] !in evs[..n] && evs[n].m in g.nodes && evs[n].m < g.Size()
  {
    PlainEventAt(g, evs, n);
    forall k | 0 <= k < n ensures evs[k] != evs[n] {
      PlainEventAt(g, evs, k);
      assert k / 2 < n / 2 || (k == 2 * (k / 2) && n == 2 * (k / 2) + 1);
    }
  }

  lemma PlainEventAt(g: Graph, evs: seq<Event>, n: nat)
    requires evs == Events(g, [], |g.nodes|) && n < |evs|
    ensures n / 2 < |g.nodes| && evs[n] == if n == 2 * (n / 2) then Start(g.nodes[n / 2]) else Finish(g.nodes[n / 2])
  {
    PlainEvents(g, |g.nodes|);
    var i := n / 2;
    assert n == 2 * i || n == 2 * i + 1;
  }

  // ---------- Running further ----------

  ghost predicate InRange(g: Graph, evs: seq<Event>) {
    forall ev :: ev in evs ==> ev.m < g.Size()
  }

  lemma WalkOne(g: Graph, pad: seq<nat>, p: Plan, evs: seq<Event>, ev: Event)
    requires Fitting(g, p) && InRange(g, evs) && ev.m < g.Size()
    ensures InRange(g, evs + [ev])
    ensures Walk(g, pad, p, evs + [ev]) ==
            match Walk(g, pad, p, evs) case None => None case Some(p1) => Apply(g, pad, p1, ev)
  {
    assert (evs + [ev])[..|evs|] == evs;
  }

  lemma {:induction false} WalkStaysAborted(g: Graph, pad: seq<nat>, p: Plan, evs: seq<Event>, more: seq<Event>)
    requires Fitting(g, p) && InRange(g, evs) && InRange(g, evs + more) && Walk(g, pad, p, evs).None?
    ensures Walk(g, pad, p, evs + more).None?
    decreases |more|
  {
    if more == [] {
      assert evs + more == evs;
    } else {
      var init := more[..|more| - 1];
      assert (evs + more)[..|evs + more| - 1] == evs + init;
      WalkStaysAborted(g, pad, p, evs, init);
    }
  }

  lemma LegalOfPrefix(g: Graph, evs: seq<Event>, all: seq<Event>)
    requires Legal(g, all) && evs <= all
    ensures Legal(g, evs) && InRange(g, evs)
  {
    forall n | 0 <= n < |evs| ensures LegalAt(g, evs, n) && evs[n].m < g.Size() {
      assert LegalAt(g, all, n);
      assert evs[..n] == all[..n];
    }
  }

  /** Aborting after some events is aborting the whole walk. */
  lemma AbortsWhole(g: Graph, pad: seq<nat>, p: Plan, evs: seq<Event>, all: seq<Event>)
    requires Fitting(g, p) && evs <= all && InRange(g, all) && InRange(g, evs) && Walk(g, pad, p, evs).None?
    ensures Walk(g, pad, p, all).None?
  {
    assert evs + all[|evs|..] == all;
    WalkStaysAborted(g, pad, p, evs, all[|evs|..]);
  }

  lemma {:induction false} EventsGrow(g: Graph, order: seq<int>, a: nat, b: nat)
    requires Positions(g, order) && a <= b <= if order == [] then |g.nodes| else |order|
    ensures Events(g, order, a) <= Events(g, order, b)
  {
    if a < b { EventsGrow(g, order, a, b - 1); }
  }

  lemma {:induction false} FinishesGrow(g: Graph, order: seq<int>, a: nat, i: nat, b: nat)
    requires Positions(g, order) && a <= i <= b <= |order| && LastBarrier(order, b) <= a
    ensures LastBarrier(order, i) <= a && Finishes(g, order, a, i) <= Finishes(g, order, a, b)
    decreases b - i
  {
    if i < b {
      NoBarrier(order, b, b - 1);
      FinishesGrow(g, order, a, i, b - 1);
    }
  }

  // ---------- The counting pass, part of the way ----------

  /** Reads of t by the first i nodes and by the first j sources of the next one. */
  ghost function SeenReads(g: Graph, i: nat, j: nat, t: nat): set<(nat, nat)> {
    set a, b | 0 <= a < |g.nodes| && 0 <= b < |g.Src(g.nodes[a])| && (a < i || (a == i && b < j))
               && g.Src(g.nodes[a])[b] == t :: (g.nodes[a], b)
  }

  ghost function SeenViews(g: Graph, i: nat, t: nat): set<nat>
    requires i <= |g.nodes|
  {
    set v | v in g.nodes[..i] && v != t && g.Base(v) == t
  }

  lemma SeeRead(g: Graph, i: nat, j: nat, t: nat)
    requires g.WellFormed() && i < |g.nodes| && j < |g.Src(g.nodes[i])|
    ensures |SeenReads(g, i, j + 1, t)| == |SeenReads(g, i, j, t)| + (if g.Src(g.nodes[i])[j] == t then 1 else 0)
  {
    var before, e := SeenReads(g, i, j, t), (g.nodes[i], j);
    assert e !in before;
    if g.Src(g.nodes[i])[j] == t {
      assert SeenReads(g, i, j + 1, t) == before + {e};
    } else {
      assert SeenReads(g, i, j + 1, t) == before;
    }
  }

  lemma SeeRow(g: Graph, i: nat, t: nat)
    requires i < |g.nodes|
    ensures SeenReads(g, i, |g.Src(g.nodes[i])|, t) == SeenReads(g, i + 1, 0, t)
  {
  }

  lemma SeenAll(g: Graph, t: nat)
    requires g.WellFormed() && t < g.Size()
    ensures SeenReads(g, |g.nodes|, 0, t) == ReadersOf(g, t)
    ensures SeenViews(g, |g.nodes|, t) == ViewsOf(g, t)
  {
    assert g.nodes[..|g.nodes|] == g.nodes;
  }

  lemma SeeView(g: Graph, i: nat, t: nat)
    requires g.WellFormed() && i < |g.nodes|
    ensures |SeenViews(g, i + 1, t)| ==
            |SeenViews(g, i, t)| + (if g.IsView(g.nodes[i]) && g.Base(g.nodes[i]) == t then 1 else 0)
  {
    var v := g.nodes[i];
    forall n | 0 <= n < i ensures g.nodes[n] != v {}
    SeenViewsGrow(g, i, v, t);
  }

  lemma SeenViewsGrow(g: Graph, i: nat, v: nat, t: nat)
    requires i < |g.nodes| && v == g.nodes[i] && v !in g.nodes[..i]
    ensures |SeenViews(g, i + 1, t)| == |SeenViews(g, i, t)| + (if g.IsView(v) && g.Base(v) == t then 1 else 0)
  {
    var before := SeenViews(g, i, t);
    assert g.nodes[..i + 1] == g.nodes[..i] + [v];
    if g.IsView(v) && g.Base(v) == t {
      assert SeenViews(g, i + 1, t) == before + {v};
    } else {
      assert SeenViews(g, i + 1, t) == before;
    }
  }
}
