/** The condition of `SplitExecution` is exact: where a node is overtaken, some meaning of the
    ops tells the split run from the whole one. */
module SplitNecessity {
  import opened GraphSplit
  import opened SplitExecution

  /** After the first split, each one begins at a node that computes on another backend. */
  ghost predicate Changes(g: Graph, talloc: seq<nat>, s: Schedule) {
    forall k: nat :: 0 < k < |s.splits| ==> ChangesAt(g, talloc, s, k)
  }

  ghost predicate ChangesAt(g: Graph, talloc: seq<nat>, s: Schedule, k: nat) {
    && 0 < k < |s.splits| && g.Computes(s.splits[k].start) && g.nodes[s.splits[k].start] < |talloc|
    && talloc[g.nodes[s.splits[k].start]] == s.splits[k].talloc != s.splits[k - 1].talloc
  }

  lemma RewireKeepsChanges(g: Graph, talloc: seq<nat>, s: Schedule, t: nat, j: nat)
    requires g.WellFormed() && Sized(g, s) && t < |g.tensors| && j < |g.src[t]| && Changes(g, talloc, s)
    ensures Changes(g, talloc, Rewire(g, s, t, j))
  {
    var r := Rewire(g, s, t, j);
    forall k: nat | 0 < k < |r.splits| ensures ChangesAt(g, talloc, r, k) {
      assert ChangesAt(g, talloc, s, k);
    }
  }

  lemma {:induction false} RewireFirstKeepsChanges(g: Graph, talloc: seq<nat>, s: Schedule, t: nat, j: nat)
    requires g.WellFormed() && Sized(g, s) && t < |g.tensors| && j <= |g.src[t]| && Changes(g, talloc, s)
    ensures Changes(g, talloc, RewireFirst(g, s, t, j))
  {
    if j == 0 {
    } else {
      hide Changes, Sized, Rewire;
      RewireFirstKeepsChanges(g, talloc, s, t, j - 1);
      RewireKeepsChanges(g, talloc, RewireFirst(g, s, t, j - 1), t, j - 1);
    }
  }

  lemma OpenKeepsChanges(g: Graph, talloc: seq<nat>, s: Schedule, n: nat)
    requires g.WellFormed() && s.splits != [] && g.Computes(n) && |talloc| == |g.tensors| && Changes(g, talloc, s)
    ensures Changes(g, talloc, Open(s, n, talloc[g.nodes[n]]))
  {
    var r := Open(s, n, talloc[g.nodes[n]]);
    forall k: nat | 0 < k < |r.splits| ensures ChangesAt(g, talloc, r, k) {
      assert k < |s.splits| ==> ChangesAt(g, talloc, s, k);
    }
  }

  lemma StepKeepsChanges(g: Graph, talloc: seq<nat>, s: Schedule, n: nat)
    requires g.WellFormed() && |talloc| == |g.tensors| && Seen(g, talloc, s, n) && Changes(g, talloc, s)
             && n < |g.nodes|
    ensures Changes(g, talloc, StepNode(g, s, n))
  {
    hide Changes;
    var t := g.nodes[n];
    assert s.talloc[t] == s.talloc[..|g.tensors|][t] == talloc[t];
    if !g.tensors[t].viewOp {
      OpenKeepsChanges(g, talloc, s, n);
      RewireFirstKeepsChanges(g, talloc, Open(s, n, talloc[t]), t, |g.src[t]|);
    }
  }

  lemma {:induction false} StepsChange(g: Graph, talloc: seq<nat>, n: nat)
    requires g.WellFormed() && |talloc| == |g.tensors| && n <= |g.nodes|
    ensures Changes(g, talloc, Steps(g, talloc, n))
  {
    hide Seen, Sized, StepNode;
    if n == 0 {
    } else {
      StepsChange(g, talloc, n - 1);
      StepsSeen(g, talloc, n - 1);
      StepKeepsChanges(g, talloc, Steps(g, talloc, n - 1), n - 1);
    }
  }

  lemma SplitGraphChanges(g: Graph, talloc: seq<nat>)
    requires g.WellFormed() && |talloc| == |g.tensors|
    ensures Changes(g, talloc, SplitGraph(g, talloc))
  {
    StepsChange(g, talloc, |g.nodes|);
    var p, s := Steps(g, talloc, |g.nodes|), SplitGraph(g, talloc);
    forall k: nat | 0 < k < |s.splits| ensures ChangesAt(g, talloc, s, k) {
      assert ChangesAt(g, talloc, p, k);
    }
  }

  lemma {:induction false} FindSplit(g: Graph, talloc: seq<nat>, s: Schedule, m: nat, k: nat) returns (r: nat)
    requires Scheduled(g, talloc, s) && k < |s.splits| && m < s.splits[k].end
    ensures Within(s, r, m) && r <= k
  {
    if s.splits[k].start <= m {
      r := k;
    } else {
      assert s.splits[k - 1].end == s.splits[k].start;
      r := FindSplit(g, talloc, s, m, k - 1);
    }
  }

  lemma {:induction false} EndsGrow(g: Graph, talloc: seq<nat>, s: Schedule, a: nat, b: nat)
    requires Scheduled(g, talloc, s) && a < b < |s.splits|
    ensures s.splits[a].end <= s.splits[b].start
    decreases b - a
  {
    assert s.splits[b - 1].end == s.splits[b].start;
    if a < b - 1 { EndsGrow(g, talloc, s, a, b - 1); }
  }

  /** The node that overtakes and the node overtaken are in one split. */
  lemma OneSplit(g: Graph, talloc: seq<nat>, s: Schedule, p: nat, i: nat, j: nat) returns (k: nat)
    requires Scheduled(g, talloc, s) && Changes(g, talloc, s) && Overtaken(g, talloc, p, i, j)
    ensures Within(s, k, p) && Within(s, k, i)
  {
    k := FindSplit(g, talloc, s, p, |s.splits| - 1);
    if s.splits[k].end <= i {
      var h := FindSplit(g, talloc, s, i, |s.splits| - 1);
      NotSplitBetween(g, talloc, s, p, i, j, k, h);
    }
  }

  lemma BackendChanges(g: Graph, talloc: seq<nat>, s: Schedule, p: nat, k: nat, i: nat)
    requires Scheduled(g, talloc, s) && Changes(g, talloc, s) && Within(s, k, p) && g.Computes(p) && g.Computes(i)
    requires k + 1 < |s.splits| && s.splits[k + 1].start <= i
    ensures !SameBackend(g, talloc, p, i)
  {
    var q := s.splits[k + 1].start;
    assert ChangesAt(g, talloc, s, k + 1) && s.splits[k + 1 - 1].end == s.splits[k + 1].start;
    assert NodeDone(g, talloc, s, k, p);
    assert talloc[g.nodes[p]] != talloc[g.nodes[q]];
  }

  lemma NotSplitBetween(g: Graph, talloc: seq<nat>, s: Schedule, p: nat, i: nat, j: nat, k: nat, h: nat)
    requires Scheduled(g, talloc, s) && Changes(g, talloc, s) && Overtaken(g, talloc, p, i, j)
    requires Within(s, k, p) && Within(s, h, i)
    ensures Within(s, k, i)
  {
    if k < h {
      if k + 1 < h { EndsGrow(g, talloc, s, k + 1, h); }
      BackendChanges(g, talloc, s, p, k, i);
    } else if h < k {
      EndsGrow(g, talloc, s, h, k);
    }
  }

  // ---------- A meaning that tells the runs apart ----------

  /** Node p counts up, node i passes on its source j, every other node changes nothing. */
  function Telling(g: Graph, p: nat, i: nat, j: nat): Meaning<int>
    requires p < |g.nodes| && i < |g.nodes|
  {
    Meaning((t: nat, args: seq<int>, held: int) =>
              if t == g.nodes[i] && j < |args| then args[j] else if t == g.nodes[p] then held + 1 else held,
            (t: nat, x: int) => x)
  }

  /** Nodes a to b are neither of the two. */
  ghost predicate Idle(g: Graph, p: nat, i: nat, a: nat, b: nat) {
    b <= |g.nodes| && !(a <= p < b) && !(a <= i < b)
  }

  lemma {:induction false} IdleKeeps(g: Graph, p: nat, i: nat, j: nat, src: seq<seq<nat>>, mem: seq<int>, a: nat,
                                     b: nat)
    requires Fits(g, src, mem) && p < |g.nodes| && i < |g.nodes| && Idle(g, p, i, a, b)
    ensures Exec(g, Telling(g, p, i, j), src, mem, a, b) == mem
  {
    if a < b {
      IdleKeeps(g, p, i, j, src, mem, a, b - 1);
      IdleNode(g, p, i, j, src, mem, b - 1);
    }
  }

  lemma IdleNode(g: Graph, p: nat, i: nat, j: nat, src: seq<seq<nat>>, mem: seq<int>, q: nat)
    requires Fits(g, src, mem) && p < |g.nodes| && i < |g.nodes| && q < |g.nodes| && q != p && q != i
    ensures Compute(g, Telling(g, p, i, j), src, mem, q) == mem
  {
    assert g.nodes[q] != g.nodes[p] && g.nodes[q] != g.nodes[i];
  }

  /** From node a before p to node b after i: the base of p counts up, and the base of i gets
      what source j is worth then. */
  lemma TellingRuns(g: Graph, p: nat, i: nat, j: nat, src: seq<seq<nat>>, mem: seq<int>, a: nat, b: nat)
    requires Fits(g, src, mem) && a <= p < i < b <= |g.nodes| && g.Computes(p) && g.Computes(i)
    requires j < |src[g.nodes[i]]|
    ensures var c := g.tensors[g.nodes[p]].base;
            c < |mem| && g.tensors[g.nodes[i]].base < |mem| &&
            Exec(g, Telling(g, p, i, j), src, mem, a, b)[g.tensors[g.nodes[i]].base] ==
            Value(g, Telling(g, p, i, j), mem[c := mem[c] + 1], src[g.nodes[i]][j])
  {
    hide Exec;
    var f := Telling(g, p, i, j);
    assert g.TensorOk(g.nodes[p]) && g.TensorOk(g.nodes[i]);
    ExecInTwo(g, f, src, mem, a, p, b);
    IdleKeeps(g, p, i, j, src, mem, a, p);
    ExecInTwo(g, f, src, mem, p, p + 1, b);
    ExecOne(g, f, src, mem, p);
    CountsUp(g, p, i, j, src, mem);
    var up := Compute(g, f, src, mem, p);
    ExecInTwo(g, f, src, up, p + 1, i, b);
    IdleKeeps(g, p, i, j, src, up, p + 1, i);
    ExecInTwo(g, f, src, up, i, i + 1, b);
    ExecOne(g, f, src, up, i);
    PassesOn(g, p, i, j, src, up);
    IdleKeeps(g, p, i, j, src, Compute(g, f, src, up, i), i + 1, b);
  }

  lemma ExecOne<V>(g: Graph, f: Meaning<V>, src: seq<seq<nat>>, mem: seq<V>, n: nat)
    requires Fits(g, src, mem) && n < |g.nodes|
    ensures Exec(g, f, src, mem, n, n + 1) == Compute(g, f, src, mem, n)
  {
    assert Exec(g, f, src, mem, n, n) == mem;
  }

  lemma CountsUp(g: Graph, p: nat, i: nat, j: nat, src: seq<seq<nat>>, mem: seq<int>)
    requires Fits(g, src, mem) && p < |g.nodes| && i < |g.nodes| && p != i && g.Computes(p)
    ensures var c := g.tensors[g.nodes[p]].base;
            c < |mem| && Compute(g, Telling(g, p, i, j), src, mem, p) == mem[c := mem[c] + 1]
  {
    assert g.TensorOk(g.nodes[p]) && g.nodes[p] != g.nodes[i];
  }

  lemma PassesOn(g: Graph, p: nat, i: nat, j: nat, src: seq<seq<nat>>, mem: seq<int>)
    requires Fits(g, src, mem) && p < |g.nodes| && i < |g.nodes| && g.Computes(i) && j < |src[g.nodes[i]]|
    ensures var c := g.tensors[g.nodes[i]].base;
            c < |mem| && Compute(g, Telling(g, p, i, j), src, mem, i)[c]
              == Value(g, Telling(g, p, i, j), mem, src[g.nodes[i]][j])
  {
    assert g.TensorOk(g.nodes[i]);
  }

  /** The splits without the two nodes leave the graph's tensors alone. */
  lemma {:induction false} IdleSplits(g: Graph, talloc: seq<nat>, s: Schedule, p: nat, i: nat, j: nat, mem: seq<int>,
                                      a: nat, b: nat)
    requires Scheduled(g, talloc, s) && Ready(g, s, mem) && p < |g.nodes| && i < |g.nodes| && a <= b <= |s.splits|
    requires forall k: nat :: a <= k < b ==> Idle(g, p, i, s.splits[k].start, s.splits[k].end)
    ensures RunSplits(g, Telling(g, p, i, j), s, mem, b)[..|g.tensors|] ==
            RunSplits(g, Telling(g, p, i, j), s, mem, a)[..|g.tensors|]
  {
    if a < b {
      var f := Telling(g, p, i, j);
      IdleSplits(g, talloc, s, p, i, j, mem, a, b - 1);
      var m := CopyInputs(g, f, s, RunSplits(g, f, s, mem, b - 1), b - 1, |s.splits[b - 1].inputs|);
      assert Idle(g, p, i, s.splits[b - 1].start, s.splits[b - 1].end);
      IdleKeeps(g, p, i, j, s.src, m, s.splits[b - 1].start, s.splits[b - 1].end);
    }
  }

  function Zeros(n: nat): (r: seq<int>)
    ensures |r| == n
  {
    seq(n, _ => 0)
  }

  lemma WholeTells(g: Graph, talloc: seq<nat>, p: nat, i: nat, j: nat)
    requires g.WellFormed() && |talloc| == |g.tensors| && Overtaken(g, talloc, p, i, j)
    requires Fits(g, g.src, Zeros(|g.tensors|))
    ensures g.tensors[g.nodes[i]].base < |g.tensors|
    ensures Whole(g, Telling(g, p, i, j), Zeros(|g.tensors|))[g.tensors[g.nodes[i]].base] == 1
  {
    assert g.TensorOk(g.nodes[i]) && g.TensorOk(g.nodes[p]) && g.TensorOk(g.src[g.nodes[i]][j]);
    TellingRuns(g, p, i, j, g.src, Zeros(|g.tensors|), 0, |g.nodes|);
  }

  lemma SplitTells(g: Graph, talloc: seq<nat>, s: Schedule, p: nat, i: nat, j: nat, k: nat, split: seq<int>)
    requires Scheduled(g, talloc, s) && Overtaken(g, talloc, p, i, j) && Within(s, k, p) && Within(s, k, i)
    requires Ready(g, s, split) && split[..|g.tensors|] == Zeros(|g.tensors|)
    ensures g.tensors[g.nodes[i]].base < |g.tensors|
    ensures RunSplit(g, Telling(g, p, i, j), s, split, k)[g.tensors[g.nodes[i]].base] == 0
  {
    var f, t, u := Telling(g, p, i, j), g.nodes[i], g.src[g.nodes[i]][j];
    var copied := CopyInputs(g, f, s, split, k, |s.splits[k].inputs|);
    assert g.TensorOk(t) && g.TensorOk(u) && g.TensorOk(g.nodes[p]);
    assert NodeDone(g, talloc, s, k, i) && SourceDone(g, talloc, s, k, t, j);
    var h :| 0 <= h < |s.splits[k].inputs| && s.splits[k].inputs[h] == u;
    InputsCopied(g, f, talloc, s, split, k, |s.splits[k].inputs|, h);
    assert split[g.tensors[u].base] == Zeros(|g.tensors|)[g.tensors[u].base];
    TellingRuns(g, p, i, j, s.src, copied, s.splits[k].start, s.splits[k].end);
  }

  /** Where a node is overtaken, the splits leave its tensor with a value of before. */
  lemma OvertakenTells(g: Graph, talloc: seq<nat>, p: nat, i: nat, j: nat)
    requires g.WellFormed() && |talloc| == |g.tensors| && Overtaken(g, talloc, p, i, j)
    ensures !SplitsMean(g, talloc, Telling(g, p, i, j), Zeros(|SplitGraph(g, talloc).src|))
  {
    var s, f := SplitGraph(g, talloc), Telling(g, p, i, j);
    SplitGraphScheduled(g, talloc);
    SplitGraphChanges(g, talloc);
    hide SplitGraph;
    var mem := Zeros(|s.src|);
    ScheduledIsReady(g, talloc, s, mem);
    assert mem[..|g.tensors|] == Zeros(|g.tensors|);
    var k := OneSplit(g, talloc, s, p, i, j);
    NotInOthers(g, talloc, s, p, i, k);
    IdleSplits(g, talloc, s, p, i, j, mem, 0, k);
    SplitTells(g, talloc, s, p, i, j, k, RunSplits(g, f, s, mem, k));
    IdleSplits(g, talloc, s, p, i, j, mem, k + 1, |s.splits|);
    WholeTells(g, talloc, p, i, j);
    var b := g.tensors[g.nodes[i]].base;
    assert RunSplits(g, f, s, mem, k + 1)[..|g.tensors|][b] == 0;
  }

  lemma NotInOthers(g: Graph, talloc: seq<nat>, s: Schedule, p: nat, i: nat, k: nat)
    requires Scheduled(g, talloc, s) && Within(s, k, p) && Within(s, k, i)
    ensures forall h: nat :: h < |s.splits| && h != k ==> Idle(g, p, i, s.splits[h].start, s.splits[h].end)
  {
    forall h: nat | h < |s.splits| && h != k ensures Idle(g, p, i, s.splits[h].start, s.splits[h].end) {
      if h < k { EndsGrow(g, talloc, s, h, k); } else { EndsGrow(g, talloc, s, k, h); }
    }
  }

  /** The splits do what the whole graph does, for this meaning from this memory. */
  ghost predicate SplitsMean(g: Graph, talloc: seq<nat>, f: Meaning<int>, mem: seq<int>)
    requires g.WellFormed() && |talloc| == |g.tensors|
  {
    && Ready(g, SplitGraph(g, talloc), mem) && Fits(g, g.src, mem[..|g.tensors|])
    && InSplits(g, f, talloc, mem) == Whole(g, f, mem[..|g.tensors|])
  }

  /** Splitting preserves what the graph does, whatever its ops mean, if and only if no node
      is overtaken: no copy is made before the last write of what it copies. */
  lemma SplittingPreservesIff(g: Graph, talloc: seq<nat>)
    requires g.WellFormed() && |talloc| == |g.tensors|
    ensures NoneOvertaken(g, talloc) <==>
            forall f, mem | |mem| == |SplitGraph(g, talloc).src| :: SplitsMean(g, talloc, f, mem)
  {
    if NoneOvertaken(g, talloc) {
      forall f: Meaning<int>, mem: seq<int> | |mem| == |SplitGraph(g, talloc).src|
        ensures SplitsMean(g, talloc, f, mem) {
        SplittingPreserves(g, f, talloc, mem);
      }
    }
    forall p: nat, i: nat, j: nat | Overtaken(g, talloc, p, i, j)
      ensures !SplitsMean(g, talloc, Telling(g, p, i, j), Zeros(|SplitGraph(g, talloc).src|))
    {
      OvertakenTells(g, talloc, p, i, j);
    }
  }

  /** An op in place on a tensor of another backend, and a reader of that tensor in the same split:
      the reader gets the copy made before the op ran. */
  lemma InPlaceAcrossBackends()
    ensures var g := Graph([Tensor(0, false), Tensor(0, false), Tensor(2, false)], [[], [0], [0]], [1, 2]);
            var talloc: seq<nat> := [1, 0, 0];
            && g.WellFormed() && |talloc| == |g.tensors| && Overtaken(g, talloc, 0, 1, 0)
            && !SplitsMean(g, talloc, Telling(g, 0, 1, 0), Zeros(|SplitGraph(g, talloc).src|))
  {
    hide SplitGraph, SplitsMean, Telling;
    var g := Graph([Tensor(0, false), Tensor(0, false), Tensor(2, false)], [[], [0], [0]], [1, 2]);
    var talloc: seq<nat> := [1, 0, 0];
    forall t | 0 <= t < 3 ensures g.TensorOk(t) {
      assert t == 0 || t == 1 || t == 2;
    }
    OvertakenTells(g, talloc, 0, 1, 0);
  }
}
