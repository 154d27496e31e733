/** The scheduler's pass 4 and its execution loop, in place. */
module BackendScheduler {
  import opened GraphSplit
  import opened SplitExecution

  predicate WithinLimits(s: Schedule) {
    |s.splits| <= MAX_SPLITS && forall k :: 0 <= k < |s.splits| ==> |s.splits[k].inputs| <= MAX_SPLIT_INPUTS
  }

  lemma RewireLimits(g: Graph, s: Schedule, t: nat, j: nat)
    requires g.WellFormed() && Sized(g, s) && t < |g.tensors| && j < |g.src[t]| && WithinLimits(Rewire(g, s, t, j))
    ensures WithinLimits(s)
  {
    var r := Rewire(g, s, t, j);
    forall k | 0 <= k < |s.splits| ensures |s.splits[k].inputs| <= MAX_SPLIT_INPUTS {
      assert |s.splits[k].inputs| <= |r.splits[k].inputs|;
    }
  }

  lemma NoneRewired(g: Graph, s: Schedule, t: nat)
    requires g.WellFormed() && Sized(g, s) && t < |g.tensors|
    ensures RewireFirst(g, s, t, 0) == s
  {
  }

  /** Once a limit is exceeded it stays exceeded. */
  lemma {:induction false} RewireFirstLimits(g: Graph, s: Schedule, t: nat, j: nat, n: nat)
    requires g.WellFormed() && Sized(g, s) && t < |g.tensors| && j <= n <= |g.src[t]|
             && WithinLimits(RewireFirst(g, s, t, n))
    ensures WithinLimits(RewireFirst(g, s, t, j))
  {
    if j < n {
      RewireLimits(g, RewireFirst(g, s, t, n - 1), t, n - 1);
      RewireFirstLimits(g, s, t, j, n - 1);
    }
  }

  lemma OpenLimits(s: Schedule, n: nat, a: nat)
    requires s.splits != [] && WithinLimits(Open(s, n, a))
    ensures WithinLimits(s)
  {
    var r := Open(s, n, a);
    forall k | 0 <= k < |s.splits| ensures |s.splits[k].inputs| <= MAX_SPLIT_INPUTS {
      assert s.splits[k].inputs == r.splits[k].inputs;
    }
  }

  lemma {:induction false} StepsLimits(g: Graph, talloc: seq<nat>, j: nat, n: nat)
    requires g.WellFormed() && |talloc| == |g.tensors| && j <= n <= |g.nodes| && WithinLimits(Steps(g, talloc, n))
    ensures WithinLimits(Steps(g, talloc, j))
  {
    if j < n {
      var s, t := Steps(g, talloc, n - 1), g.nodes[n - 1];
      if !g.tensors[t].viewOp {
        RewireFirstLimits(g, Open(s, n - 1, s.talloc[t]), t, 0, |g.src[t]|);
        OpenLimits(s, n - 1, s.talloc[t]);
      }
      StepsLimits(g, talloc, j, n - 1);
    }
  }

  class Scheduler {
    const g: Graph
    var nodeTalloc: seq<nat>
    var nodeCopies: map<(nat, nat), nat>
    var splits: seq<Split>
    var src: seq<seq<nat>>

    constructor (g: Graph, talloc: seq<nat>)
      ensures this.g == g && nodeTalloc == talloc && nodeCopies == map[] && splits == [] && src == g.src
    {
      this.g, nodeTalloc, nodeCopies, splits, src := g, talloc, map[], [], g.src;
    }

    function S(): Schedule
      reads this
    {
      Schedule(splits, nodeCopies, src, nodeTalloc)
    }

    /** Cuts the graph.  False: an assertion on the number of splits or inputs fails. */
    method SplitGraph() returns (ok: bool)
      requires g.WellFormed() && |nodeTalloc| == |g.tensors| && nodeCopies == map[] && src == g.src
      modifies this
      ensures ok <==> WithinLimits(GraphSplit.SplitGraph(g, old(nodeTalloc)))
      ensures ok ==> S() == GraphSplit.SplitGraph(g, old(nodeTalloc))
    {
      ghost var talloc := nodeTalloc;
      FindFirst();
      for i := 0 to |g.nodes|
        invariant S() == Steps(g, talloc, i) && WithinLimits(S())
      {
        ok := VisitNode(i);
        if !ok {
          if WithinLimits(Steps(g, talloc, |g.nodes|)) { StepsLimits(g, talloc, i + 1, |g.nodes|); }
          EndKeepsLimits(Steps(g, talloc, |g.nodes|), |g.nodes|);
          return;
        }
      }
      EndKeepsLimits(S(), |g.nodes|);
      splits := splits[|splits| - 1 := splits[|splits| - 1].(end := |g.nodes|)];
      ok := true;
    }

    lemma EndKeepsLimits(s: Schedule, n: nat)
      requires s.splits != []
      ensures WithinLimits(WithLast(s, Last(s).(end := n))) <==> WithinLimits(s)
    {
      var r := WithLast(s, Last(s).(end := n));
      forall k | 0 <= k < |s.splits| ensures r.splits[k].inputs == s.splits[k].inputs {}
    }

    /** The first split gets the allocator of the first node that is no view. */
    method FindFirst()
      requires g.WellFormed() && |nodeTalloc| == |g.tensors|
      modifies this`splits
      ensures splits == [Split(FirstTalloc(g, nodeTalloc, 0), 0, 0, [])]
    {
      var first := 0;
      var i := 0;
      while i < |g.nodes|
        invariant i <= |g.nodes| && first == 0
        invariant FirstTalloc(g, nodeTalloc, 0) == FirstTalloc(g, nodeTalloc, i)
      {
        var node := g.nodes[i];
        if g.tensors[node].base == node {
          first := nodeTalloc[node];
          break;
        }
        i := i + 1;
      }
      splits := [Split(first, 0, 0, [])];
    }

    method VisitNode(i: nat) returns (ok: bool)
      requires g.WellFormed() && Sized(g, S()) && i < |g.nodes| && WithinLimits(S())
      modifies this
      ensures ok <==> WithinLimits(StepNode(g, old(S()), i))
      ensures ok ==> S() == StepNode(g, old(S()), i)
    {
      hide Rewire, WithinLimits, RewireFirst;
      var node := g.nodes[i];
      if g.tensors[node].viewOp {
        return true;
      }
      ghost var entered := Open(S(), i, nodeTalloc[node]);
      ok := OpenSplit(i, nodeTalloc[node]);
      if ok {
        ok := VisitSources(node);
      } else if WithinLimits(RewireFirst(g, entered, node, |g.src[node]|)) {
        RewireFirstLimits(g, entered, node, 0, |g.src[node]|);
        NoneRewired(g, entered, node);
      }
    }

    method VisitSources(node: nat) returns (ok: bool)
      requires g.WellFormed() && Sized(g, S()) && node < |g.tensors| && WithinLimits(S())
      modifies this
      ensures ok <==> WithinLimits(RewireFirst(g, old(S()), node, |g.src[node]|))
      ensures ok ==> S() == RewireFirst(g, old(S()), node, |g.src[node]|)
    {
      hide Rewire, WithinLimits;
      ghost var s0 := S();
      for j := 0 to |g.src[node]|
        invariant Sized(g, S()) && S() == RewireFirst(g, s0, node, j) && WithinLimits(S())
      {
        ok := VisitSource(node, j);
        if !ok {
          if WithinLimits(RewireFirst(g, s0, node, |g.src[node]|)) {
            RewireFirstLimits(g, s0, node, j + 1, |g.src[node]|);
          }
          return;
        }
      }
      ok := true;
    }

    method OpenSplit(i: nat, talloc: nat) returns (ok: bool)
      requires splits != [] && WithinLimits(S())
      modifies this`splits
      ensures ok <==> WithinLimits(Open(old(S()), i, talloc))
      ensures ok ==> S() == Open(old(S()), i, talloc)
    {
      var cur := |splits| - 1;
      if splits[cur].talloc != talloc {
        splits := splits[cur := splits[cur].(end := i)];
        if cur + 1 >= MAX_SPLITS {
          return false;
        }
        splits := splits + [Split(talloc, i, 0, [])];
      }
      ok := true;
    }

    /** A source on another backend becomes an input of the split and is replaced by its copy. */
    method VisitSource(node: nat, j: nat) returns (ok: bool)
      requires g.WellFormed() && Sized(g, S()) && node < |g.tensors| && j < |g.src[node]| && WithinLimits(S())
      modifies this
      ensures ok <==> WithinLimits(Rewire(g, old(S()), node, j))
      ensures ok ==> S() == Rewire(g, old(S()), node, j)
    {
      ghost var s0 := S();
      var cur := |splits| - 1;
      var u := src[node][j];
      ok := true;
      if nodeTalloc[u] != nodeTalloc[node] {
        if |splits[cur].inputs| >= MAX_SPLIT_INPUTS {
          assert |Rewire(g, s0, node, j).splits[cur].inputs| > MAX_SPLIT_INPUTS;
          return false;
        }
        splits := splits[cur := splits[cur].(inputs := splits[cur].inputs + [u])];
        if (u, splits[cur].talloc) !in nodeCopies {
          nodeCopies := nodeCopies[(u, splits[cur].talloc) := |src|];
          src := src + [[]];
          nodeTalloc := nodeTalloc + [splits[cur].talloc];
        }
        src := Replaced(src, node, j, nodeCopies[(u, splits[cur].talloc)]);
      }
    }
  }

  lemma SameSize<V>(g: Graph, s: Schedule, m: seq<V>, m': seq<V>)
    requires Ready(g, s, m) && |m'| == |m|
    ensures Ready(g, s, m') && Fits(g, s.src, m')
  {
  }

  /** Runs the splits in order: copies in, then nodes. */
  method ComputeSplits<V>(g: Graph, f: Meaning<V>, s: Schedule, mem: seq<V>) returns (m: seq<V>)
    requires Ready(g, s, mem)
    ensures m == RunSplits(g, f, s, mem, |s.splits|)
  {
    m := mem;
    for k := 0 to |s.splits|
      invariant |m| == |mem| && m == RunSplits(g, f, s, mem, k)
    {
      SameSize(g, s, mem, m);
      m := ComputeSplit(g, f, s, m, k);
    }
  }

  method ComputeSplit<V>(g: Graph, f: Meaning<V>, s: Schedule, mem: seq<V>, k: nat) returns (m: seq<V>)
    requires Ready(g, s, mem) && k < |s.splits|
    ensures m == RunSplit(g, f, s, mem, k)
  {
    m := mem;
    for i := 0 to |s.splits[k].inputs|
      invariant |m| == |mem| && m == CopyInputs(g, f, s, mem, k, i)
    {
      var u := s.splits[k].inputs[i];
      m := m[s.copies[(u, s.splits[k].talloc)] := Value(g, f, m, u)];
    }
    SameSize(g, s, mem, m);
    ghost var copied := m;
    var n, end := s.splits[k].start, s.splits[k].end;
    while n < end
      invariant n <= end || n == s.splits[k].start
      invariant m == Exec(g, f, s.src, copied, s.splits[k].start, if n <= end then n else end)
    {
      SameSize(g, s, mem, m);
      m := Compute(g, f, s.src, m, n);
      n := n + 1;
    }
  }
}
