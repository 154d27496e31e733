/** Cutting a graph into splits, one backend each: what pass 4 of the scheduler computes. */
module GraphSplit {
  const MAX_SPLITS: nat := 256
  const MAX_SPLIT_INPUTS: nat := 16

  /** base is the tensor whose memory this one uses: itself, or the source of the view.  A view
      op only names memory; any other op writes the memory of its base. */
  datatype Tensor = Tensor(base: nat, viewOp: bool)

  datatype Graph = Graph(tensors: seq<Tensor>, src: seq<seq<nat>>, nodes: seq<nat>) {
    ghost predicate WellFormed() {
      && |src| == |tensors|
      && (forall t :: 0 <= t < |tensors| ==> TensorOk(t))
      && (forall n :: 0 <= n < |nodes| ==> nodes[n] < |tensors|)
      && (forall n, m :: 0 <= n < m < |nodes| ==> nodes[n] != nodes[m])
    }

    ghost predicate TensorOk(t: nat) {
      && t < |tensors| && t < |src| && tensors[t].base < |tensors|
      && tensors[tensors[t].base].base == tensors[t].base
      && forall j :: 0 <= j < |src[t]| ==> src[t][j] < |tensors|
    }

    predicate Computes(n: nat) { n < |nodes| && nodes[n] < |tensors| && !tensors[nodes[n]].viewOp }
  }

  /** Nodes start to end run on the backend of talloc, after the inputs have been copied there. */
  datatype Split = Split(talloc: nat, start: nat, end: nat, inputs: seq<nat>)

  /** Allocators are numbered by backend.  copies[(t, b)] is the copy of tensor t on backend b;
      copies are tensors too, numbered after those of the graph. */
  datatype Schedule = Schedule(splits: seq<Split>, copies: map<(nat, nat), nat>, src: seq<seq<nat>>, talloc: seq<nat>)

  function Last(s: Schedule): Split
    requires s.splits != []
  {
    s.splits[|s.splits| - 1]
  }

  function WithLast(s: Schedule, p: Split): Schedule
    requires s.splits != []
  {
    s.(splits := s.splits[|s.splits| - 1 := p])
  }

  /** The allocator of the first node from n on that is no view; 0 stands for the allocator
      left over from the last call if there is none. */
  function FirstTalloc(g: Graph, talloc: seq<nat>, n: nat): nat
    decreases |g.nodes| - n
  {
    if n >= |g.nodes| then 0
    else if g.nodes[n] < |g.tensors| && g.nodes[n] < |talloc| && g.tensors[g.nodes[n]].base == g.nodes[n]
      then talloc[g.nodes[n]]
    else FirstTalloc(g, talloc, n + 1)
  }

  function Start(g: Graph, talloc: seq<nat>): Schedule {
    Schedule([Split(FirstTalloc(g, talloc, 0), 0, 0, [])], map[], g.src, talloc)
  }

  /** A new split begins at node n if the backend changes there. */
  function Open(s: Schedule, n: nat, a: nat): Schedule
    requires s.splits != []
  {
    if Last(s).talloc == a then s
    else s.(splits := WithLast(s, Last(s).(end := n)).splits + [Split(a, n, 0, [])])
  }

  ghost predicate Sized(g: Graph, s: Schedule) {
    && s.splits != [] && |s.src| == |s.talloc| >= |g.tensors| == |g.src|
    && (forall t :: 0 <= t < |g.tensors| ==> |s.src[t]| == |g.src[t]| && forall j :: 0 <= j < |s.src[t]| ==>
        s.src[t][j] < |s.talloc|)
    && (forall c :: c in s.copies ==> |g.tensors| <= s.copies[c] < |s.src|)
  }

  lemma StartSized(g: Graph, talloc: seq<nat>)
    requires g.WellFormed() && |talloc| == |g.tensors|
    ensures Sized(g, Start(g, talloc))
  {
    forall t, j | 0 <= t < |g.tensors| && 0 <= j < |g.src[t]| ensures g.src[t][j] < |talloc| {
      assert g.TensorOk(t);
    }
  }

  /** Source j of tensor t replaced by its copy if it is on another backend. */
  function Rewire(g: Graph, s: Schedule, t: nat, j: nat): (r: Schedule)
    requires g.WellFormed() && Sized(g, s) && t < |g.tensors| && j < |g.src[t]|
    ensures Sized(g, r)
  {
    var u, a := s.src[t][j], Last(s).talloc;
    if s.talloc[u] == s.talloc[t] then s
    else
      var s1 := WithLast(s, Last(s).(inputs := Last(s).inputs + [u]));
      if (u, a) in s.copies then s1.(src := Replaced(s1.src, t, j, s.copies[(u, a)]))
      else
        var c := |s.src|;
        s1.(copies := s1.copies[(u, a) := c], src := Replaced(s1.src, t, j, c) + [[]], talloc := s1.talloc + [a])
  }

  function Replaced(src: seq<seq<nat>>, t: nat, j: nat, c: nat): seq<seq<nat>>
    requires t < |src| && j < |src[t]|
  {
    var row: seq<nat> := src[t][j := c];
    src[t := row]
  }

  function RewireFirst(g: Graph, s: Schedule, t: nat, j: nat): (r: Schedule)
    requires g.WellFormed() && Sized(g, s) && t < |g.tensors| && j <= |g.src[t]|
    ensures Sized(g, r)
  {
    if j == 0 then s else Rewire(g, RewireFirst(g, s, t, j - 1), t, j - 1)
  }

  function StepNode(g: Graph, s: Schedule, n: nat): (r: Schedule)
    requires g.WellFormed() && Sized(g, s) && n < |g.nodes|
    ensures Sized(g, r)
  {
    var t := g.nodes[n];
    if g.tensors[t].viewOp then s
    else RewireFirst(g, Open(s, n, s.talloc[t]), t, |g.src[t]|)
  }

  function Steps(g: Graph, talloc: seq<nat>, n: nat): (r: Schedule)
    requires g.WellFormed() && |talloc| == |g.tensors| && n <= |g.nodes|
    ensures Sized(g, r)
  {
    if n == 0 then
      StartSized(g, talloc);
      Start(g, talloc)
    else StepNode(g, Steps(g, talloc, n - 1), n - 1)
  }

  function SplitGraph(g: Graph, talloc: seq<nat>): (r: Schedule)
    requires g.WellFormed() && |talloc| == |g.tensors|
    ensures Sized(g, r)
  {
    var s := Steps(g, talloc, |g.nodes|);
    WithLast(s, Last(s).(end := |g.nodes|))
  }

  // ---------- What every step keeps ----------

  /** Where split k ends if the nodes before n have been seen. */
  function EndOf(s: Schedule, k: nat, n: nat): nat
    requires k < |s.splits|
  {
    if k == |s.splits| - 1 then n else s.splits[k].end
  }

  predicate InSplit(s: Schedule, k: nat, m: nat, n: nat) {
    k < |s.splits| && s.splits[k].start <= m < EndOf(s, k, n)
  }

  /** The splits are consecutive intervals from 0 to n. */
  ghost predicate Tiled(s: Schedule, n: nat) {
    && s.splits != [] && s.splits[0].start == 0
    && (forall k :: 0 <= k < |s.splits| ==> s.splits[k].start <= EndOf(s, k, n))
    && (forall k :: 0 < k < |s.splits| ==> s.splits[k].start == s.splits[k - 1].end)
  }

  /** Copies are new tensors, one for each tensor and backend, and belong to that backend. */
  ghost predicate CopiesOk(g: Graph, talloc: seq<nat>, s: Schedule) {
    && Sized(g, s) && |talloc| == |g.tensors| && s.talloc[..|g.tensors|] == talloc
    && (forall c :: c in s.copies ==> c.0 < |g.tensors| && s.talloc[s.copies[c]] == c.1)
    && (forall c, d :: c in s.copies && d in s.copies && c != d ==> s.copies[c] != s.copies[d])
    && (forall k, i :: 0 <= k < |s.splits| && 0 <= i < |s.splits[k].inputs| ==>
        InputOk(talloc, s, k, s.splits[k].inputs[i]))
  }

  /** What split k has copied comes from another backend. */
  ghost predicate InputOk(talloc: seq<nat>, s: Schedule, k: nat, u: nat) {
    && k < |s.splits| && u < |talloc| && talloc[u] != s.splits[k].talloc
    && (u, s.splits[k].talloc) in s.copies
  }

  /** Source j of tensor t is itself if it is on the backend, else its copy there. */
  ghost predicate SourceDone(g: Graph, talloc: seq<nat>, s: Schedule, k: nat, t: nat, j: nat) {
    && k < |s.splits| && t < |g.src| && t < |s.src| && j < |g.src[t]| && j < |s.src[t]|
    && g.src[t][j] < |talloc|
    && var u, a := g.src[t][j], s.splits[k].talloc;
       if talloc[u] == a then s.src[t][j] == u
       else u in s.splits[k].inputs && (u, a) in s.copies && s.src[t][j] == s.copies[(u, a)]
  }

  ghost predicate NodeDone(g: Graph, talloc: seq<nat>, s: Schedule, k: nat, m: nat) {
    g.Computes(m) ==>
      && k < |s.splits| && g.nodes[m] < |talloc| && talloc[g.nodes[m]] == s.splits[k].talloc
      && g.nodes[m] < |g.src| && forall j :: 0 <= j < |g.src[g.nodes[m]]| ==> SourceDone(g, talloc, s, k, g.nodes[m], j)
  }

  ghost predicate AllDone(g: Graph, talloc: seq<nat>, s: Schedule, n: nat) {
    forall k: nat, m: nat :: InSplit(s, k, m, n) ==> NodeDone(g, talloc, s, k, m)
  }

  /** The sources of nodes not seen yet are as they were. */
  ghost predicate Untouched(g: Graph, s: Schedule, n: nat) {
    forall m :: n <= m < |g.nodes| ==> SameSources(g, s, g.nodes[m])
  }

  ghost predicate SameSources(g: Graph, s: Schedule, t: nat) {
    t < |g.src| && t < |s.src| && s.src[t] == g.src[t]
  }

  ghost predicate DoneAtLast(g: Graph, talloc: seq<nat>, s: Schedule, t: nat, j: nat) {
    s.splits != [] && SourceDone(g, talloc, s, |s.splits| - 1, t, j)
  }

  /** Half way through node n: its first j sources are done. */
  ghost predicate HalfDone(g: Graph, talloc: seq<nat>, s: Schedule, n: nat, j: nat) {
    && n < |g.nodes| && g.nodes[n] < |g.src| && g.nodes[n] < |s.src| && g.nodes[n] < |talloc| && s.splits != []
    && Last(s).talloc == talloc[g.nodes[n]] && |s.src[g.nodes[n]]| == |g.src[g.nodes[n]]|
    && (forall i :: 0 <= i < j ==> DoneAtLast(g, talloc, s, g.nodes[n], i))
    && (forall i :: j <= i < |g.src[g.nodes[n]]| ==> s.src[g.nodes[n]][i] == g.src[g.nodes[n]][i])
  }

  lemma OpenKeeps(g: Graph, talloc: seq<nat>, s: Schedule, n: nat)
    requires g.WellFormed() && CopiesOk(g, talloc, s) && Tiled(s, n) && AllDone(g, talloc, s, n) && Untouched(g, s, n)
    requires n < |g.nodes|
    ensures var r := Open(s, n, talloc[g.nodes[n]]);
            CopiesOk(g, talloc, r) && Tiled(r, n) && AllDone(g, talloc, r, n) && Untouched(g, r, n + 1)
              && HalfDone(g, talloc, r, n, 0)
  {
    var r := Open(s, n, talloc[g.nodes[n]]);
    forall k: nat, m: nat | InSplit(r, k, m, n) ensures NodeDone(g, talloc, r, k, m) {
      assert NodeDone(g, talloc, s, k, m);
      if g.Computes(m) {
        forall j | 0 <= j < |g.src[g.nodes[m]]| ensures SourceDone(g, talloc, r, k, g.nodes[m], j) {
          assert SourceDone(g, talloc, s, k, g.nodes[m], j);
        }
      }
    }
    forall k, i | 0 <= k < |r.splits| && 0 <= i < |r.splits[k].inputs|
      ensures InputOk(talloc, r, k, r.splits[k].inputs[i]) {
      assert InputOk(talloc, s, k, s.splits[k].inputs[i]);
    }
  }

  lemma RewireKeepsCopies(g: Graph, talloc: seq<nat>, s: Schedule, t: nat, j: nat)
    requires g.WellFormed() && CopiesOk(g, talloc, s) && t < |g.tensors| && j < |g.src[t]|
    requires talloc[t] == Last(s).talloc && s.src[t][j] == g.src[t][j]
    ensures CopiesOk(g, talloc, Rewire(g, s, t, j))
  {
    var r, u := Rewire(g, s, t, j), s.src[t][j];
    assert g.TensorOk(t);
    assert s.talloc[u] == s.talloc[..|g.tensors|][u] == talloc[u] && s.talloc[t] == talloc[t] by {
      assert s.talloc[..|g.tensors|][t] == talloc[t];
    }
    assert r.talloc[..|g.tensors|] == s.talloc[..|g.tensors|];
    forall k, i | 0 <= k < |r.splits| && 0 <= i < |r.splits[k].inputs|
      ensures InputOk(talloc, r, k, r.splits[k].inputs[i]) {
      if i < |s.splits[k].inputs| { assert InputOk(talloc, s, k, s.splits[k].inputs[i]); }
    }
  }

  lemma RewireDoes(g: Graph, talloc: seq<nat>, s: Schedule, n: nat, j: nat)
    requires g.WellFormed() && CopiesOk(g, talloc, s) && n < |g.nodes|
    requires HalfDone(g, talloc, s, n, j) && j < |g.src[g.nodes[n]]|
    ensures HalfDone(g, talloc, Rewire(g, s, g.nodes[n], j), n, j + 1)
  {
    var t := g.nodes[n];
    var r := Rewire(g, s, t, j);
    var u := s.src[t][j];
    assert g.TensorOk(t);
    assert s.talloc[..|g.tensors|][u] == talloc[u] && s.talloc[..|g.tensors|][t] == talloc[t];
    forall i | 0 <= i < j ensures DoneAtLast(g, talloc, r, t, i) {
      assert DoneAtLast(g, talloc, s, t, i);
    }
    assert DoneAtLast(g, talloc, r, t, j);
  }

  lemma RewireLeaves(g: Graph, talloc: seq<nat>, s: Schedule, n: nat, j: nat)
    requires g.WellFormed() && CopiesOk(g, talloc, s) && Tiled(s, n) && AllDone(g, talloc, s, n)
             && Untouched(g, s, n + 1)
    requires n < |g.nodes| && j < |g.src[g.nodes[n]]|
    ensures var r := Rewire(g, s, g.nodes[n], j);
            Tiled(r, n) && AllDone(g, talloc, r, n) && Untouched(g, r, n + 1) && Last(r).talloc == Last(s).talloc
  {
    var t := g.nodes[n];
    var r := Rewire(g, s, t, j);
    forall k: nat, m: nat | InSplit(r, k, m, n) ensures NodeDone(g, talloc, r, k, m) {
      assert InSplit(s, k, m, n) && NodeDone(g, talloc, s, k, m);
      if g.Computes(m) {
        forall i | 0 <= i < |g.src[g.nodes[m]]| ensures SourceDone(g, talloc, r, k, g.nodes[m], i) {
          assert SourceDone(g, talloc, s, k, g.nodes[m], i);
        }
      }
    }
    forall m | n + 1 <= m < |g.nodes| ensures SameSources(g, r, g.nodes[m]) {
      assert SameSources(g, s, g.nodes[m]);
    }
  }

  /** What holds when the nodes before n have been seen. */
  ghost predicate Seen(g: Graph, talloc: seq<nat>, s: Schedule, n: nat) {
    CopiesOk(g, talloc, s) && Tiled(s, n) && AllDone(g, talloc, s, n) && Untouched(g, s, n)
  }

  /** In the middle of node n, with the first j sources done. */
  ghost predicate Amid(g: Graph, talloc: seq<nat>, s: Schedule, n: nat, j: nat) {
    && CopiesOk(g, talloc, s) && Tiled(s, n) && AllDone(g, talloc, s, n) && Untouched(g, s, n + 1)
    && HalfDone(g, talloc, s, n, j)
  }

  lemma RewireKeeps(g: Graph, talloc: seq<nat>, s: Schedule, n: nat, j: nat)
    requires g.WellFormed() && Amid(g, talloc, s, n, j) && n < |g.nodes| && j < |g.src[g.nodes[n]]|
    ensures Sized(g, s) && Amid(g, talloc, Rewire(g, s, g.nodes[n], j), n, j + 1)
  {
    hide Tiled, AllDone, Untouched, SourceDone, InputOk;
    RewireKeepsCopies(g, talloc, s, g.nodes[n], j);
    RewireLeaves(g, talloc, s, n, j);
    RewireDoes(g, talloc, s, n, j);
  }

  lemma {:induction false} RewireFirstKeeps(g: Graph, talloc: seq<nat>, s: Schedule, n: nat, j: nat)
    requires g.WellFormed() && Sized(g, s) && n < |g.nodes| && Amid(g, talloc, s, n, 0) && j <= |g.src[g.nodes[n]]|
    ensures Amid(g, talloc, RewireFirst(g, s, g.nodes[n], j), n, j)
  {
    hide Amid, Sized, Rewire;
    if j == 0 {
    } else {
      RewireFirstKeeps(g, talloc, s, n, j - 1);
      RewireKeeps(g, talloc, RewireFirst(g, s, g.nodes[n], j - 1), n, j - 1);
    }
  }

  /** A node whose sources are all done is done. */
  lemma NodeFinished(g: Graph, talloc: seq<nat>, s: Schedule, n: nat)
    requires g.WellFormed() && n < |g.nodes| && Tiled(s, n) && AllDone(g, talloc, s, n) && Untouched(g, s, n + 1)
    requires HalfDone(g, talloc, s, n, |g.src[g.nodes[n]]|)
    ensures Tiled(s, n + 1) && AllDone(g, talloc, s, n + 1)
  {
    forall k: nat, m: nat | InSplit(s, k, m, n + 1) ensures NodeDone(g, talloc, s, k, m) {
      if m == n && k == |s.splits| - 1 {
        forall j | 0 <= j < |g.src[g.nodes[n]]| ensures SourceDone(g, talloc, s, k, g.nodes[n], j) {
          assert DoneAtLast(g, talloc, s, g.nodes[n], j);
        }
      } else if k < |s.splits| - 1 {
        SplitsBefore(s, n, k);
        assert InSplit(s, k, m, n);
      } else {
        assert InSplit(s, k, m, n);
      }
    }
  }

  lemma {:induction false} SplitsBefore(s: Schedule, n: nat, k: nat)
    requires Tiled(s, n) && k < |s.splits|
    ensures EndOf(s, k, n) <= n
    decreases |s.splits| - k
  {
    if k < |s.splits| - 1 {
      SplitsBefore(s, n, k + 1);
      assert s.splits[k + 1].start == s.splits[k + 1 - 1].end;
    }
  }

  lemma StepKeeps(g: Graph, talloc: seq<nat>, s: Schedule, n: nat)
    requires g.WellFormed() && Seen(g, talloc, s, n) && n < |g.nodes|
    ensures Seen(g, talloc, StepNode(g, s, n), n + 1)
  {
    var t := g.nodes[n];
    assert s.talloc[t] == s.talloc[..|g.tensors|][t] == talloc[t];
    if g.tensors[t].viewOp {
      ViewPassed(g, talloc, s, n);
    } else {
      hide CopiesOk, AllDone, Tiled, Untouched, HalfDone;
      OpenKeeps(g, talloc, s, n);
      RewireFirstKeeps(g, talloc, Open(s, n, talloc[t]), n, |g.src[t]|);
      NodeFinished(g, talloc, StepNode(g, s, n), n);
    }
  }

  lemma ViewPassed(g: Graph, talloc: seq<nat>, s: Schedule, n: nat)
    requires g.WellFormed() && Seen(g, talloc, s, n) && n < |g.nodes| && g.tensors[g.nodes[n]].viewOp
    ensures Seen(g, talloc, s, n + 1)
  {
    forall k: nat, m: nat | InSplit(s, k, m, n + 1) ensures NodeDone(g, talloc, s, k, m) {
      if m != n {
        SplitsBefore(s, n, k);
        assert InSplit(s, k, m, n);
      }
    }
  }

  lemma StartSeen(g: Graph, talloc: seq<nat>)
    requires g.WellFormed() && |talloc| == |g.tensors|
    ensures Seen(g, talloc, Start(g, talloc), 0)
  {
    StartSized(g, talloc);
  }

  lemma {:induction false} StepsSeen(g: Graph, talloc: seq<nat>, n: nat)
    requires g.WellFormed() && |talloc| == |g.tensors| && n <= |g.nodes|
    ensures Seen(g, talloc, Steps(g, talloc, n), n)
  {
    hide Seen, Sized, StepNode, Start;
    if n == 0 {
      StartSeen(g, talloc);
    } else {
      StepsSeen(g, talloc, n - 1);
      StepKeeps(g, talloc, Steps(g, talloc, n - 1), n - 1);
    }
  }

  // ---------- The finished splits ----------

  ghost predicate Within(s: Schedule, k: nat, m: nat) {
    k < |s.splits| && s.splits[k].start <= m < s.splits[k].end
  }

  /** Ending the last split changes no node's sources. */
  lemma EndedNodeDone(g: Graph, talloc: seq<nat>, k: nat, m: nat)
    requires g.WellFormed() && |talloc| == |g.tensors| && Seen(g, talloc, Steps(g, talloc, |g.nodes|), |g.nodes|)
    requires Within(SplitGraph(g, talloc), k, m)
    ensures NodeDone(g, talloc, SplitGraph(g, talloc), k, m)
  {
    var p, s := Steps(g, talloc, |g.nodes|), SplitGraph(g, talloc);
    assert InSplit(p, k, m, |g.nodes|) && NodeDone(g, talloc, p, k, m);
    if g.Computes(m) {
      forall j | 0 <= j < |g.src[g.nodes[m]]| ensures SourceDone(g, talloc, s, k, g.nodes[m], j) {
        assert SourceDone(g, talloc, p, k, g.nodes[m], j);
      }
    }
  }

  /** The splits are consecutive intervals that cover all nodes; every node that computes has
      the backend of its split, and so has every source after rewriting: the source itself, or
      a copy that is made at the start of the split. */
  lemma SplitsAreRight(g: Graph, talloc: seq<nat>)
    requires g.WellFormed() && |talloc| == |g.tensors|
    ensures var s := SplitGraph(g, talloc);
            && s.splits != [] && s.splits[0].start == 0 && Last(s).end == |g.nodes|
            && (forall k :: 0 < k < |s.splits| ==> s.splits[k - 1].end == s.splits[k].start)
            && (forall k :: 0 <= k < |s.splits| ==> s.splits[k].start <= s.splits[k].end)
            && CopiesOk(g, talloc, s)
            && (forall k: nat, m: nat :: Within(s, k, m) ==> NodeDone(g, talloc, s, k, m))
  {
    var n := |g.nodes|;
    var p := Steps(g, talloc, n);
    var s := SplitGraph(g, talloc);
    StepsSeen(g, talloc, n);
    forall k: nat, m: nat | Within(s, k, m) ensures NodeDone(g, talloc, s, k, m) {
      EndedNodeDone(g, talloc, k, m);
    }
    forall k, i | 0 <= k < |s.splits| && 0 <= i < |s.splits[k].inputs|
      ensures InputOk(talloc, s, k, s.splits[k].inputs[i]) {
      assert InputOk(talloc, p, k, p.splits[k].inputs[i]);
    }
  }

  /** Whatever a node reads after rewriting is on its own backend. */
  lemma SourcesShareBackend(g: Graph, talloc: seq<nat>, k: nat, m: nat, j: nat)
    requires g.WellFormed() && |talloc| == |g.tensors| && Within(SplitGraph(g, talloc), k, m)
    requires g.Computes(m) && j < |g.src[g.nodes[m]]|
    ensures var s := SplitGraph(g, talloc);
            && s.talloc[g.nodes[m]] == s.splits[k].talloc
            && s.talloc[s.src[g.nodes[m]][j]] == s.splits[k].talloc
  {
    var s := SplitGraph(g, talloc);
    SplitsAreRight(g, talloc);
    assert NodeDone(g, talloc, s, k, m) && SourceDone(g, talloc, s, k, g.nodes[m], j);
    assert forall t :: 0 <= t < |talloc| ==> s.talloc[t] == s.talloc[..|g.tensors|][t] == talloc[t];
  }
}
