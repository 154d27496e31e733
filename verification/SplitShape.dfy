/** Exactly where the splits begin and what they copy, from the graph and its allocators alone. */
module SplitShape {
  import opened GraphSplit

  /** The first j sources of tensor t that are on another backend than t. */
  function CrossingsOf(g: Graph, talloc: seq<nat>, t: nat, j: nat): seq<nat>
    requires g.WellFormed() && |talloc| == |g.tensors| && t < |g.tensors| && j <= |g.src[t]|
  {
    if j == 0 then []
    else
      assert g.TensorOk(t);
      CrossingsOf(g, talloc, t, j - 1) + if talloc[g.src[t][j - 1]] != talloc[t] then [g.src[t][j - 1]] else []
  }

  /** Those of the nodes from a to b that compute, in order. */
  function Crossings(g: Graph, talloc: seq<nat>, a: nat, b: nat): seq<nat>
    requires g.WellFormed() && |talloc| == |g.tensors| && b <= |g.nodes|
  {
    if b <= a then []
    else
      Crossings(g, talloc, a, b - 1)
      + if g.Computes(b - 1) then CrossingsOf(g, talloc, g.nodes[b - 1], |g.src[g.nodes[b - 1]]|) else []
  }

  /** Node n computes, on the backend of split k and not on that of the split before. */
  ghost predicate ChangesAt(g: Graph, talloc: seq<nat>, splits: seq<Split>, k: nat, n: nat) {
    && 0 < k < |splits| && g.Computes(n) && g.nodes[n] < |talloc|
    && talloc[g.nodes[n]] == splits[k].talloc && splits[k].talloc != splits[k - 1].talloc
  }

  ghost predicate Shaped(g: Graph, talloc: seq<nat>, s: Schedule, n: nat)
    requires g.WellFormed() && |talloc| == |g.tensors| && n <= |g.nodes|
  {
    && s.splits != [] && s.splits[0].talloc == FirstTalloc(g, talloc, 0)
    && (forall k :: 0 < k < |s.splits| ==> ChangesAt(g, talloc, s.splits, k, s.splits[k].start))
    && forall k :: 0 <= k < |s.splits| ==> CopiesCrossings(g, talloc, s.splits[k], EndOf(s, k, n))
  }

  ghost predicate CopiesCrossings(g: Graph, talloc: seq<nat>, p: Split, end: nat)
    requires g.WellFormed() && |talloc| == |g.tensors|
  {
    end <= |g.nodes| && p.inputs == Crossings(g, talloc, p.start, end)
  }

  /** The last split with more inputs. */
  function WithInputs(splits: seq<Split>, us: seq<nat>): seq<Split>
    requires splits != []
  {
    var last := splits[|splits| - 1];
    splits[|splits| - 1 := last.(inputs := last.inputs + us)]
  }

  lemma WithInputsTwice(splits: seq<Split>, us: seq<nat>, vs: seq<nat>)
    requires splits != []
    ensures WithInputs(splits, []) == splits
    ensures WithInputs(WithInputs(splits, us), vs) == WithInputs(splits, us + vs)
  {
    var last := splits[|splits| - 1];
    assert last.inputs + [] == last.inputs && (last.inputs + us) + vs == last.inputs + (us + vs);
  }

  /** Rewiring adds the crossing sources to the inputs of the last split. */
  lemma {:induction false} RewireFirstInputs(g: Graph, talloc: seq<nat>, s: Schedule, n: nat, j: nat)
    requires g.WellFormed() && |talloc| == |g.tensors| && Sized(g, s) && n < |g.nodes| && Amid(g, talloc, s, n, 0)
    requires j <= |g.src[g.nodes[n]]|
    ensures RewireFirst(g, s, g.nodes[n], j).splits == WithInputs(s.splits, CrossingsOf(g, talloc, g.nodes[n], j))
  {
    hide Amid, Rewire, WithInputs;
    if j == 0 {
      WithInputsTwice(s.splits, [], []);
    } else {
      RewireFirstInputs(g, talloc, s, n, j - 1);
      RewireFirstKeeps(g, talloc, s, n, j - 1);
      RewireInputs(g, talloc, RewireFirst(g, s, g.nodes[n], j - 1), n, j - 1);
      var us := CrossingsOf(g, talloc, g.nodes[n], j - 1);
      WithInputsTwice(s.splits, us, CrossingsOf(g, talloc, g.nodes[n], j)[|us|..]);
      assert us + CrossingsOf(g, talloc, g.nodes[n], j)[|us|..] == CrossingsOf(g, talloc, g.nodes[n], j);
    }
  }

  lemma RewireInputs(g: Graph, talloc: seq<nat>, s: Schedule, n: nat, j: nat)
    requires g.WellFormed() && |talloc| == |g.tensors| && Sized(g, s) && n < |g.nodes| && Amid(g, talloc, s, n, j)
    requires j < |g.src[g.nodes[n]]|
    ensures var us := CrossingsOf(g, talloc, g.nodes[n], j);
            us <= CrossingsOf(g, talloc, g.nodes[n], j + 1)
            && Rewire(g, s, g.nodes[n], j).splits
               == WithInputs(s.splits, CrossingsOf(g, talloc, g.nodes[n], j + 1)[|us|..])
  {
    var t := g.nodes[n];
    assert g.TensorOk(t);
    var u := g.src[t][j];
    assert s.src[t][j] == u;
    assert s.talloc[..|g.tensors|][u] == s.talloc[u] && s.talloc[..|g.tensors|][t] == s.talloc[t];
    WithInputsTwice(s.splits, [], []);
  }

  lemma OpenShape(g: Graph, talloc: seq<nat>, s: Schedule, n: nat)
    requires g.WellFormed() && |talloc| == |g.tensors| && n < |g.nodes| && g.Computes(n) && Shaped(g, talloc, s, n)
    ensures Shaped(g, talloc, Open(s, n, talloc[g.nodes[n]]), n)
  {
    var r := Open(s, n, talloc[g.nodes[n]]);
    forall k | 0 < k < |r.splits| ensures ChangesAt(g, talloc, r.splits, k, r.splits[k].start) {
      assert k < |s.splits| ==> ChangesAt(g, talloc, s.splits, k, s.splits[k].start);
    }
    forall k | 0 <= k < |r.splits| ensures CopiesCrossings(g, talloc, r.splits[k], EndOf(r, k, n)) {
      assert k < |s.splits| ==> CopiesCrossings(g, talloc, s.splits[k], EndOf(s, k, n));
    }
  }

  lemma NodeShape(g: Graph, talloc: seq<nat>, s: Schedule, n: nat, splits: seq<Split>)
    requires g.WellFormed() && |talloc| == |g.tensors| && n < |g.nodes| && Shaped(g, talloc, s, n)
    requires Last(s).start <= n
    requires splits == if g.Computes(n)
             then WithInputs(s.splits, CrossingsOf(g, talloc, g.nodes[n], |g.src[g.nodes[n]]|))
             else s.splits
    ensures Shaped(g, talloc, s.(splits := splits), n + 1)
  {
    var r := s.(splits := splits);
    forall k | 0 < k < |r.splits| ensures ChangesAt(g, talloc, r.splits, k, r.splits[k].start) {
      assert ChangesAt(g, talloc, s.splits, k, s.splits[k].start);
    }
    forall k | 0 <= k < |r.splits| ensures CopiesCrossings(g, talloc, r.splits[k], EndOf(r, k, n + 1)) {
      assert CopiesCrossings(g, talloc, s.splits[k], EndOf(s, k, n));
    }
  }

  lemma StepShape(g: Graph, talloc: seq<nat>, s: Schedule, n: nat)
    requires g.WellFormed() && |talloc| == |g.tensors| && n < |g.nodes| && Sized(g, s) && Seen(g, talloc, s, n)
    requires Shaped(g, talloc, s, n)
    ensures Shaped(g, talloc, StepNode(g, s, n), n + 1)
  {
    hide Shaped, AllDone, Untouched, InputOk;
    var t := g.nodes[n];
    assert s.talloc[t] == s.talloc[..|g.tensors|][t] == talloc[t];
    if g.Computes(n) {
      var r := Open(s, n, talloc[t]);
      OpenKeeps(g, talloc, s, n);
      OpenShape(g, talloc, s, n);
      RewireFirstInputs(g, talloc, r, n, |g.src[t]|);
      NodeShape(g, talloc, r, n, StepNode(g, s, n).splits);
      SameSplits(g, talloc, r.(splits := StepNode(g, s, n).splits), StepNode(g, s, n), n + 1);
    } else {
      NodeShape(g, talloc, s, n, s.splits);
      SameSplits(g, talloc, s.(splits := s.splits), StepNode(g, s, n), n + 1);
    }
  }

  lemma SameSplits(g: Graph, talloc: seq<nat>, s: Schedule, r: Schedule, n: nat)
    requires g.WellFormed() && |talloc| == |g.tensors| && n <= |g.nodes| && r.splits == s.splits
    requires Shaped(g, talloc, s, n)
    ensures Shaped(g, talloc, r, n)
  {
    forall k | 0 <= k < |r.splits| ensures CopiesCrossings(g, talloc, r.splits[k], EndOf(r, k, n)) {
      assert CopiesCrossings(g, talloc, s.splits[k], EndOf(s, k, n));
    }
  }

  lemma {:induction false} StepsShape(g: Graph, talloc: seq<nat>, n: nat)
    requires g.WellFormed() && |talloc| == |g.tensors| && n <= |g.nodes|
    ensures Shaped(g, talloc, Steps(g, talloc, n), n)
  {
    hide Seen, StepNode, Sized;
    if n == 0 {
    } else {
      StepsShape(g, talloc, n - 1);
      StepsSeen(g, talloc, n - 1);
      StepShape(g, talloc, Steps(g, talloc, n - 1), n - 1);
    }
  }

  /** The first split has the allocator of the first node that is no view; every other one begins at a
      node that computes on another backend than the split before; and a split copies in exactly the
      sources that its nodes read from other backends, one by one. */
  lemma SplitsBeginAndCopy(g: Graph, talloc: seq<nat>)
    requires g.WellFormed() && |talloc| == |g.tensors|
    ensures var s := SplitGraph(g, talloc);
            && s.splits != []
            && (forall n :: 0 <= n < |g.nodes| && g.tensors[g.nodes[n]].base == g.nodes[n]
                            && (forall m :: 0 <= m < n ==> g.tensors[g.nodes[m]].base != g.nodes[m]) ==>
                  s.splits[0].talloc == talloc[g.nodes[n]])
            && (forall k :: 0 < k < |s.splits| ==> ChangesAt(g, talloc, s.splits, k, s.splits[k].start))
            && forall k :: 0 <= k < |s.splits| ==> CopiesCrossings(g, talloc, s.splits[k], s.splits[k].end)
  {
    hide SplitGraph, Shaped;
    SplitGraphShape(g, talloc);
    ShapeMeans(g, talloc, SplitGraph(g, talloc));
  }

  lemma SplitGraphShape(g: Graph, talloc: seq<nat>)
    requires g.WellFormed() && |talloc| == |g.tensors|
    ensures Shaped(g, talloc, SplitGraph(g, talloc), |g.nodes|) && Last(SplitGraph(g, talloc)).end == |g.nodes|
  {
    var p, s := Steps(g, talloc, |g.nodes|), SplitGraph(g, talloc);
    StepsShape(g, talloc, |g.nodes|);
    hide Steps;
    forall k | 0 < k < |s.splits| ensures ChangesAt(g, talloc, s.splits, k, s.splits[k].start) {
      assert ChangesAt(g, talloc, p.splits, k, p.splits[k].start);
    }
    forall k | 0 <= k < |s.splits| ensures CopiesCrossings(g, talloc, s.splits[k], EndOf(s, k, |g.nodes|)) {
      assert CopiesCrossings(g, talloc, p.splits[k], EndOf(p, k, |g.nodes|));
    }
  }

  lemma ShapeMeans(g: Graph, talloc: seq<nat>, s: Schedule)
    requires g.WellFormed() && |talloc| == |g.tensors| && Shaped(g, talloc, s, |g.nodes|) && Last(s).end == |g.nodes|
    ensures forall n :: 0 <= n < |g.nodes| && g.tensors[g.nodes[n]].base == g.nodes[n]
                        && (forall m :: 0 <= m < n ==> g.tensors[g.nodes[m]].base != g.nodes[m]) ==>
              s.splits[0].talloc == talloc[g.nodes[n]]
    ensures forall k :: 0 < k < |s.splits| ==> ChangesAt(g, talloc, s.splits, k, s.splits[k].start)
    ensures forall k :: 0 <= k < |s.splits| ==> CopiesCrossings(g, talloc, s.splits[k], s.splits[k].end)
  {
    forall n | 0 <= n < |g.nodes| && g.tensors[g.nodes[n]].base == g.nodes[n]
               && (forall m :: 0 <= m < n ==> g.tensors[g.nodes[m]].base != g.nodes[m])
      ensures s.splits[0].talloc == talloc[g.nodes[n]]
    {
      FirstAt(g, talloc, 0, n);
    }
    forall k | 0 <= k < |s.splits| ensures CopiesCrossings(g, talloc, s.splits[k], s.splits[k].end) {
      assert CopiesCrossings(g, talloc, s.splits[k], EndOf(s, k, |g.nodes|));
    }
  }

  lemma {:induction false} FirstAt(g: Graph, talloc: seq<nat>, i: nat, n: nat)
    requires g.WellFormed() && |talloc| == |g.tensors| && i <= n < |g.nodes|
    requires g.tensors[g.nodes[n]].base == g.nodes[n]
    requires forall m :: i <= m < n ==> g.tensors[g.nodes[m]].base != g.nodes[m]
    ensures FirstTalloc(g, talloc, i) == talloc[g.nodes[n]]
    decreases n - i
  {
    if i < n { FirstAt(g, talloc, i + 1, n); }
  }
}
