/** Running a graph whole and running it split by split: when both give the same memory. */
module SplitExecution {
  import opened GraphSplit

  /** What the ops and views of a graph mean: an op's result from its sources and what its
      memory held, a view's value from what the memory of its base holds. */
  datatype Meaning<!V> = Meaning(op: (nat, seq<V>, V) -> V, view: (nat, V) -> V)

  ghost predicate Fits<V>(g: Graph, src: seq<seq<nat>>, mem: seq<V>) {
    && g.WellFormed() && |g.tensors| <= |mem| == |src|
    && (forall t, j :: 0 <= t < |g.tensors| && 0 <= j < |src[t]| ==> src[t][j] < |mem|)
  }

  /** A tensor of the graph is read through its base; a copy is read itself. */
  function Value<V>(g: Graph, f: Meaning<V>, mem: seq<V>, u: nat): V
    requires g.WellFormed() && |g.tensors| <= |mem| && u < |mem|
  {
    assert u < |g.tensors| ==> g.TensorOk(u);
    if u < |g.tensors| then f.view(u, mem[g.tensors[u].base]) else mem[u]
  }

  function Values<V>(g: Graph, f: Meaning<V>, mem: seq<V>, us: seq<nat>): (r: seq<V>)
    requires g.WellFormed() && |g.tensors| <= |mem| && forall j :: 0 <= j < |us| ==> us[j] < |mem|
    ensures |r| == |us| && forall j :: 0 <= j < |us| ==> r[j] == Value(g, f, mem, us[j])
  {
    seq(|us|, j requires 0 <= j < |us| => Value(g, f, mem, us[j]))
  }

  /** Node n computed with these sources. */
  function Compute<V>(g: Graph, f: Meaning<V>, src: seq<seq<nat>>, mem: seq<V>, n: nat): (r: seq<V>)
    requires Fits(g, src, mem) && n < |g.nodes|
    ensures |r| == |mem|
  {
    var t := g.nodes[n];
    assert g.TensorOk(t);
    if !g.Computes(n) then mem
    else mem[g.tensors[t].base := f.op(t, Values(g, f, mem, src[t]), mem[g.tensors[t].base])]
  }

  /** Nodes a to b computed in order. */
  function Exec<V>(g: Graph, f: Meaning<V>, src: seq<seq<nat>>, mem: seq<V>, a: nat, b: nat): (r: seq<V>)
    requires Fits(g, src, mem) && b <= |g.nodes|
    ensures |r| == |mem|
  {
    if b <= a then mem else Compute(g, f, src, Exec(g, f, src, mem, a, b - 1), b - 1)
  }

  ghost predicate Ready<V>(g: Graph, s: Schedule, mem: seq<V>) {
    && Fits(g, s.src, mem) && Sized(g, s)
    && (forall k :: 0 <= k < |s.splits| ==> s.splits[k].end <= |g.nodes|)
    && (forall k, i :: 0 <= k < |s.splits| && 0 <= i < |s.splits[k].inputs| ==>
          s.splits[k].inputs[i] < |g.tensors| && (s.splits[k].inputs[i], s.splits[k].talloc) in s.copies)
  }

  /** The first i inputs of split k copied to its backend. */
  function CopyInputs<V>(g: Graph, f: Meaning<V>, s: Schedule, mem: seq<V>, k: nat, i: nat): (r: seq<V>)
    requires Ready(g, s, mem) && k < |s.splits| && i <= |s.splits[k].inputs|
    ensures |r| == |mem| && r[..|g.tensors|] == mem[..|g.tensors|]
  {
    if i == 0 then mem
    else
      var m := CopyInputs(g, f, s, mem, k, i - 1);
      var u := s.splits[k].inputs[i - 1];
      m[s.copies[(u, s.splits[k].talloc)] := Value(g, f, m, u)]
  }

  function RunSplit<V>(g: Graph, f: Meaning<V>, s: Schedule, mem: seq<V>, k: nat): (r: seq<V>)
    requires Ready(g, s, mem) && k < |s.splits|
    ensures |r| == |mem|
  {
    Exec(g, f, s.src, CopyInputs(g, f, s, mem, k, |s.splits[k].inputs|), s.splits[k].start, s.splits[k].end)
  }

  /** The first k splits run one after the other. */
  function RunSplits<V>(g: Graph, f: Meaning<V>, s: Schedule, mem: seq<V>, k: nat): (r: seq<V>)
    requires Ready(g, s, mem) && k <= |s.splits|
    ensures |r| == |mem|
  {
    if k == 0 then mem else RunSplit(g, f, s, RunSplits(g, f, s, mem, k - 1), k - 1)
  }

  // ---------- When the splits see what the whole graph sees ----------

  /** All nodes from p to i that compute are on one backend. */
  ghost predicate SameBackend(g: Graph, talloc: seq<nat>, p: nat, i: nat) {
    forall m: nat :: p <= m <= i && g.Computes(m) && g.nodes[m] < |talloc| && i < |g.nodes| && g.nodes[i] < |talloc| ==>
      talloc[g.nodes[m]] == talloc[g.nodes[i]]
  }

  /** Node p writes what source j of the later node i, which is on another backend, reads,
      and no change of backend lies between them. */
  ghost predicate Overtaken(g: Graph, talloc: seq<nat>, p: nat, i: nat, j: nat) {
    && p < i < |g.nodes| && g.Computes(p) && g.Computes(i) && SameBackend(g, talloc, p, i)
    && g.nodes[i] < |g.src| && j < |g.src[g.nodes[i]]|
    && g.nodes[i] < |talloc| && g.src[g.nodes[i]][j] < |talloc| && g.src[g.nodes[i]][j] < |g.tensors|
    && talloc[g.src[g.nodes[i]][j]] != talloc[g.nodes[i]]
    && g.tensors[g.nodes[p]].base == g.tensors[g.src[g.nodes[i]][j]].base
  }

  ghost predicate NoneOvertaken(g: Graph, talloc: seq<nat>) {
    forall p: nat, i: nat, j: nat :: !Overtaken(g, talloc, p, i, j)
  }

  ghost predicate RootShares(g: Graph, talloc: seq<nat>, t: nat) {
    t < |g.tensors| && t < |talloc| && g.tensors[t].base < |talloc| && talloc[g.tensors[t].base] == talloc[t]
  }

  /** A tensor that shares the allocator of the tensor whose memory it uses is never overtaken. */
  lemma SharedRootsSuffice(g: Graph, talloc: seq<nat>)
    requires g.WellFormed() && |talloc| == |g.tensors| && forall t :: 0 <= t < |g.tensors| ==> RootShares(g, talloc, t)
    ensures NoneOvertaken(g, talloc)
  {
    forall p: nat, i: nat, j: nat ensures !Overtaken(g, talloc, p, i, j) {
      assert i < |g.nodes| ==> g.TensorOk(g.nodes[i]);
      assert p < |g.nodes| ==> RootShares(g, talloc, g.nodes[p]);
      if i < |g.nodes| && j < |g.src[g.nodes[i]]| { assert RootShares(g, talloc, g.src[g.nodes[i]][j]); }
    }
  }

  lemma {:induction false} ExecInTwo<V>(g: Graph, f: Meaning<V>, src: seq<seq<nat>>, mem: seq<V>, a: nat, b: nat,
                                        c: nat)
    requires Fits(g, src, mem) && a <= b <= c <= |g.nodes|
    ensures Exec(g, f, src, mem, a, c) == Exec(g, f, src, Exec(g, f, src, mem, a, b), b, c)
  {
    hide Compute, Fits;
    if b < c { ExecInTwo(g, f, src, mem, a, b, c - 1); }
  }

  ghost predicate Writes(g: Graph, p: nat, x: nat) {
    g.Computes(p) && g.tensors[g.nodes[p]].base == x
  }

  lemma {:induction false} Unwritten<V>(g: Graph, f: Meaning<V>, src: seq<seq<nat>>, mem: seq<V>, a: nat, b: nat,
                                        x: nat)
    requires Fits(g, src, mem) && b <= |g.nodes| && x < |mem|
    requires forall p: nat :: a <= p < b ==> !Writes(g, p, x)
    ensures Exec(g, f, src, mem, a, b)[x] == mem[x]
  {
    if a < b {
      Unwritten(g, f, src, mem, a, b - 1, x);
      assert !Writes(g, b - 1, x);
    }
  }

  lemma CopiesUnwritten<V>(g: Graph, f: Meaning<V>, src: seq<seq<nat>>, mem: seq<V>, a: nat, b: nat, x: nat)
    requires Fits(g, src, mem) && b <= |g.nodes| && |g.tensors| <= x < |mem|
    ensures Exec(g, f, src, mem, a, b)[x] == mem[x]
  {
    forall p: nat | a <= p < b ensures !Writes(g, p, x) {
      assert g.TensorOk(g.nodes[p]);
    }
    Unwritten(g, f, src, mem, a, b, x);
  }

  lemma SameValue<V>(g: Graph, f: Meaning<V>, m: seq<V>, m': seq<V>, u: nat)
    requires g.WellFormed() && |g.tensors| <= |m| && |g.tensors| <= |m'| && u < |g.tensors| && g.tensors[u].base < |m|
    requires g.tensors[u].base < |m'| && m[g.tensors[u].base] == m'[g.tensors[u].base]
    ensures Value(g, f, m, u) == Value(g, f, m', u)
  {
  }

  /** After the copying, the copy of an input holds the input's value. */
  lemma {:induction false} InputsCopied<V>(g: Graph, f: Meaning<V>, talloc: seq<nat>, s: Schedule, mem: seq<V>,
                                           k: nat, i: nat, h: nat)
    requires Ready(g, s, mem) && CopiesOk(g, talloc, s) && k < |s.splits| && h < i <= |s.splits[k].inputs|
    ensures var u := s.splits[k].inputs[h];
            CopyInputs(g, f, s, mem, k, i)[s.copies[(u, s.splits[k].talloc)]] == Value(g, f, mem, u)
  {
    var u, v, a := s.splits[k].inputs[h], s.splits[k].inputs[i - 1], s.splits[k].talloc;
    var m := CopyInputs(g, f, s, mem, k, i - 1);
    CopyingKeepsValue(g, f, s, mem, k, i - 1, v);
    if u != v {
      assert s.copies[(u, a)] != s.copies[(v, a)];
      InputsCopied(g, f, talloc, s, mem, k, i - 1, h);
    }
  }

  lemma CopyingKeepsValue<V>(g: Graph, f: Meaning<V>, s: Schedule, mem: seq<V>, k: nat, i: nat, u: nat)
    requires Ready(g, s, mem) && k < |s.splits| && i <= |s.splits[k].inputs| && u < |g.tensors|
    ensures Value(g, f, CopyInputs(g, f, s, mem, k, i), u) == Value(g, f, mem, u)
  {
    var m := CopyInputs(g, f, s, mem, k, i);
    assert g.TensorOk(u);
    var b := g.tensors[u].base;
    assert m[b] == m[..|g.tensors|][b] == mem[..|g.tensors|][b] == mem[b];
  }

  /** The finished schedule of a graph, as the proofs use it. */
  ghost predicate Scheduled(g: Graph, talloc: seq<nat>, s: Schedule) {
    && g.WellFormed() && |talloc| == |g.tensors| && CopiesOk(g, talloc, s)
    && (forall k: nat, m: nat :: Within(s, k, m) ==> NodeDone(g, talloc, s, k, m))
    && (forall k :: 0 <= k < |s.splits| ==> s.splits[k].start <= s.splits[k].end <= |g.nodes|)
    && s.splits != [] && s.splits[0].start == 0 && Last(s).end == |g.nodes|
    && (forall k :: 0 < k < |s.splits| ==> s.splits[k - 1].end == s.splits[k].start)
  }

  lemma {:induction false} EndsWithin(s: Schedule, n: nat, k: nat)
    requires forall k :: 0 <= k < |s.splits| ==> s.splits[k].start <= s.splits[k].end
    requires forall k :: 0 < k < |s.splits| ==> s.splits[k - 1].end == s.splits[k].start
    requires s.splits != [] && Last(s).end == n && k < |s.splits|
    ensures s.splits[k].end <= n
    decreases |s.splits| - k
  {
    if k < |s.splits| - 1 {
      EndsWithin(s, n, k + 1);
      assert s.splits[k + 1 - 1].end == s.splits[k + 1].start;
    }
  }

  lemma SplitGraphScheduled(g: Graph, talloc: seq<nat>)
    requires g.WellFormed() && |talloc| == |g.tensors|
    ensures Scheduled(g, talloc, SplitGraph(g, talloc))
  {
    hide SplitGraph, NodeDone, CopiesOk;
    SplitsAreRight(g, talloc);
    var s := SplitGraph(g, talloc);
    forall k: nat | k < |s.splits| ensures s.splits[k].end <= |g.nodes| { EndsWithin(s, |g.nodes|, k); }
  }

  lemma ScheduledIsReady<V>(g: Graph, talloc: seq<nat>, s: Schedule, mem: seq<V>)
    requires Scheduled(g, talloc, s) && |mem| == |s.src|
    ensures Ready(g, s, mem) && Fits(g, g.src, mem[..|g.tensors|])
  {
    forall t, j | 0 <= t < |g.tensors| && 0 <= j < |g.src[t]| ensures g.src[t][j] < |g.tensors| {
      assert g.TensorOk(t);
    }
    forall k, i | 0 <= k < |s.splits| && 0 <= i < |s.splits[k].inputs|
      ensures s.splits[k].inputs[i] < |g.tensors| && (s.splits[k].inputs[i], s.splits[k].talloc) in s.copies
    {
      assert InputOk(talloc, s, k, s.splits[k].inputs[i]);
    }
  }

  /** Inside a split nothing writes what was copied before the node that reads the copy. */
  lemma NotOvertakenInSplit(g: Graph, talloc: seq<nat>, s: Schedule, k: nat, m: nat, j: nat, u: nat, p: nat)
    requires Scheduled(g, talloc, s) && NoneOvertaken(g, talloc) && Within(s, k, m) && g.Computes(m)
    requires j < |g.src[g.nodes[m]]| && g.src[g.nodes[m]][j] == u < |talloc| && talloc[u] != s.splits[k].talloc
    requires s.splits[k].start <= p < m
    ensures !Writes(g, p, g.tensors[u].base)
  {
    assert g.TensorOk(g.nodes[m]);
    assert NodeDone(g, talloc, s, k, m);
    forall q: nat | p <= q <= m && g.Computes(q) ensures talloc[g.nodes[q]] == talloc[g.nodes[m]] {
      assert Within(s, k, q) && NodeDone(g, talloc, s, k, q);
    }
    assert !Overtaken(g, talloc, p, m, j);
  }

  /** Source j of node m has the same value in both runs. */
  lemma ArgumentAgrees<V>(g: Graph, f: Meaning<V>, talloc: seq<nat>, s: Schedule, k: nat, m: nat, j: nat,
                          whole: seq<V>, split: seq<V>)
    requires Scheduled(g, talloc, s) && NoneOvertaken(g, talloc) && Within(s, k, m) && g.Computes(m)
    requires |split| == |s.src| && |whole| == |g.tensors| && whole == split[..|g.tensors|]
    requires j < |g.src[g.nodes[m]]|
    requires Ready(g, s, split) && Fits(g, g.src, whole)
    requires var copied := CopyInputs(g, f, s, split, k, |s.splits[k].inputs|);
             Exec(g, f, g.src, whole, s.splits[k].start, m)
               == Exec(g, f, s.src, copied, s.splits[k].start, m)[..|g.tensors|]
    ensures var copied := CopyInputs(g, f, s, split, k, |s.splits[k].inputs|);
            j < |s.src[g.nodes[m]]| &&
            Value(g, f, Exec(g, f, s.src, copied, s.splits[k].start, m), s.src[g.nodes[m]][j]) ==
            Value(g, f, Exec(g, f, g.src, whole, s.splits[k].start, m), g.src[g.nodes[m]][j])
  {
    var t, a := g.nodes[m], s.splits[k].start;
    var u, copied := g.src[t][j], CopyInputs(g, f, s, split, k, |s.splits[k].inputs|);
    var now, now' := Exec(g, f, g.src, whole, a, m), Exec(g, f, s.src, copied, a, m);
    assert NodeDone(g, talloc, s, k, m) && SourceDone(g, talloc, s, k, t, j) && g.TensorOk(t) && g.TensorOk(u);
    var b := g.tensors[u].base;
    if talloc[u] == s.splits[k].talloc {
      assert now[b] == now'[..|g.tensors|][b] == now'[b];
      SameValue(g, f, now, now', u);
    } else {
      var c := s.copies[(u, s.splits[k].talloc)];
      var h :| 0 <= h < |s.splits[k].inputs| && s.splits[k].inputs[h] == u;
      InputsCopied(g, f, talloc, s, split, k, |s.splits[k].inputs|, h);
      CopiesUnwritten(g, f, s.src, copied, a, m, c);
      forall p: nat | a <= p < m ensures !Writes(g, p, b) { NotOvertakenInSplit(g, talloc, s, k, m, j, u, p); }
      Unwritten(g, f, g.src, whole, a, m, b);
      assert whole[b] == split[b];
      SameValue(g, f, now, split, u);
    }
  }

  lemma NodeAgrees<V>(g: Graph, f: Meaning<V>, talloc: seq<nat>, s: Schedule, k: nat, m: nat, whole: seq<V>,
                      split: seq<V>)
    requires Scheduled(g, talloc, s) && NoneOvertaken(g, talloc) && Within(s, k, m)
    requires |split| == |s.src| && |whole| == |g.tensors| && whole == split[..|g.tensors|]
    requires Ready(g, s, split) && Fits(g, g.src, whole)
    requires var copied := CopyInputs(g, f, s, split, k, |s.splits[k].inputs|);
             Exec(g, f, g.src, whole, s.splits[k].start, m)
               == Exec(g, f, s.src, copied, s.splits[k].start, m)[..|g.tensors|]
    ensures var copied := CopyInputs(g, f, s, split, k, |s.splits[k].inputs|);
            Exec(g, f, g.src, whole, s.splits[k].start, m + 1)
              == Exec(g, f, s.src, copied, s.splits[k].start, m + 1)[..|g.tensors|]
  {
    var copied, a := CopyInputs(g, f, s, split, k, |s.splits[k].inputs|), s.splits[k].start;
    var now, now' := Exec(g, f, g.src, whole, a, m), Exec(g, f, s.src, copied, a, m);
    if g.Computes(m) {
      var t := g.nodes[m];
      assert g.TensorOk(t) && |s.src[t]| == |g.src[t]|;
      assert Values(g, f, now, g.src[t]) == Values(g, f, now', s.src[t]) by {
        forall j: nat | j < |g.src[t]| ensures Value(g, f, now, g.src[t][j]) == Value(g, f, now', s.src[t][j]) {
          ArgumentAgrees(g, f, talloc, s, k, m, j, whole, split);
        }
      }
      assert now[g.tensors[t].base] == now'[..|g.tensors|][g.tensors[t].base];
    }
    assert Compute(g, f, g.src, now, m) == Compute(g, f, s.src, now', m)[..|g.tensors|];
  }

  lemma {:induction false} PartAgrees<V>(g: Graph, f: Meaning<V>, talloc: seq<nat>, s: Schedule, k: nat, m: nat,
                                         whole: seq<V>, split: seq<V>)
    requires Scheduled(g, talloc, s) && NoneOvertaken(g, talloc) && k < |s.splits|
             && s.splits[k].start <= m <= s.splits[k].end
    requires |split| == |s.src| && |whole| == |g.tensors| && whole == split[..|g.tensors|]
    requires Ready(g, s, split) && Fits(g, g.src, whole)
    ensures var copied := CopyInputs(g, f, s, split, k, |s.splits[k].inputs|);
            Exec(g, f, g.src, whole, s.splits[k].start, m)
              == Exec(g, f, s.src, copied, s.splits[k].start, m)[..|g.tensors|]
    decreases m
  {
    if m > s.splits[k].start {
      PartAgrees(g, f, talloc, s, k, m - 1, whole, split);
      NodeAgrees(g, f, talloc, s, k, m - 1, whole, split);
    }
  }

  lemma {:induction false} SplitsAgree<V>(g: Graph, f: Meaning<V>, talloc: seq<nat>, s: Schedule, k: nat,
                                          whole: seq<V>, split: seq<V>)
    requires Scheduled(g, talloc, s) && NoneOvertaken(g, talloc) && k <= |s.splits|
    requires |split| == |s.src| && |whole| == |g.tensors| && whole == split[..|g.tensors|]
    requires Ready(g, s, split) && Fits(g, g.src, whole)
    ensures var n := if k == 0 then 0 else s.splits[k - 1].end;
            Exec(g, f, g.src, whole, 0, n) == RunSplits(g, f, s, split, k)[..|g.tensors|]
  {
    if k == 0 {
    } else {
      SplitsAgree(g, f, talloc, s, k - 1, whole, split);
      var a, b := s.splits[k - 1].start, s.splits[k - 1].end;
      assert k > 1 ==> s.splits[k - 1 - 1].end == a;
      PartAgrees(g, f, talloc, s, k - 1, b, Exec(g, f, g.src, whole, 0, a), RunSplits(g, f, s, split, k - 1));
      ExecInTwo(g, f, g.src, whole, 0, a, b);
    }
  }

  /** The memory after the whole graph has run. */
  function Whole<V>(g: Graph, f: Meaning<V>, mem: seq<V>): seq<V>
    requires Fits(g, g.src, mem)
  {
    Exec(g, f, g.src, mem, 0, |g.nodes|)
  }

  /** The memory of the graph's tensors after all splits have run. */
  function InSplits<V>(g: Graph, f: Meaning<V>, talloc: seq<nat>, mem: seq<V>): seq<V>
    requires g.WellFormed() && |talloc| == |g.tensors| && Ready(g, SplitGraph(g, talloc), mem)
  {
    RunSplits(g, f, SplitGraph(g, talloc), mem, |SplitGraph(g, talloc).splits|)[..|g.tensors|]
  }

  /** Whatever the ops mean and whatever the copies hold at first: if no node is overtaken,
      running the splits leaves every tensor as running the whole graph does. */
  lemma SplittingPreserves<V>(g: Graph, f: Meaning<V>, talloc: seq<nat>, mem: seq<V>)
    requires g.WellFormed() && |talloc| == |g.tensors| && NoneOvertaken(g, talloc)
             && |mem| == |SplitGraph(g, talloc).src|
    ensures Ready(g, SplitGraph(g, talloc), mem) && Fits(g, g.src, mem[..|g.tensors|])
    ensures InSplits(g, f, talloc, mem) == Whole(g, f, mem[..|g.tensors|])
  {
    hide NoneOvertaken, SplitGraph, Ready, Fits;
    SplitGraphScheduled(g, talloc);
    var s := SplitGraph(g, talloc);
    ScheduledIsReady(g, talloc, s, mem);
    SplitsAgree(g, f, talloc, s, |s.splits|, mem[..|g.tensors|], mem);
  }
}
