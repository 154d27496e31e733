/** Which nodes have been started and which finished, from the order alone. */
module PlanOrder {
  import opened GraphPlan
  import opened PlanSpec
  import opened PlanTheorem

  /** Iteration i names node m. */
  ghost predicate NamedAt(g: Graph, order: seq<int>, i: nat, m: nat) {
    i < |order| && 0 <= order[i] < |g.nodes| && g.nodes[order[i]] == m
  }

  /** A barrier stands at j. */
  predicate Barrier(order: seq<int>, j: nat) { j < |order| && order[j] == -1 }

  /** A group begins at the front or behind a barrier, and has none in it. */
  lemma {:induction false} GroupBegins(order: seq<int>, ind: nat)
    requires ind <= |order|
    ensures var b := LastBarrier(order, ind);
            && (b == 0 || Barrier(order, b - 1))
            && forall i :: b <= i < ind ==> !Barrier(order, i)
  {
    if ind > 0 && order[ind - 1] != -1 { GroupBegins(order, ind - 1); }
  }

  /** The nodes of a group are finished one by one in their order. */
  lemma {:induction false} FinishesAt(g: Graph, order: seq<int>, a: nat, b: nat)
    requires Positions(g, order) && a <= b <= |order| && LastBarrier(order, b) <= a
    ensures |Finishes(g, order, a, b)| == b - a
    ensures forall i :: a <= i < b ==>
              0 <= order[i] < |g.nodes| && Finishes(g, order, a, b)[i - a] == Finish(g.nodes[order[i]])
  {
    if a < b {
      NoBarrier(order, b, b - 1);
      FinishesAt(g, order, a, b - 1);
    }
  }

  lemma GroupFinishes(g: Graph, order: seq<int>, ind: nat, m: nat)
    requires Positions(g, order) && ind <= |order|
    ensures var evs := Finishes(g, order, LastBarrier(order, ind), ind);
            && Start(m) !in evs
            && (Finish(m) in evs <==> exists i: nat :: LastBarrier(order, ind) <= i < ind && NamedAt(g, order, i, m))
  {
    var a := LastBarrier(order, ind);
    var evs := Finishes(g, order, a, ind);
    FinishesAt(g, order, a, ind);
    forall i | 0 <= i < |evs| ensures evs[i] == Finish(g.nodes[order[a + i]]) { assert a <= a + i < ind; }
    if Finish(m) in evs {
      var i :| 0 <= i < |evs| && evs[i] == Finish(m);
      assert NamedAt(g, order, a + i, m);
    }
    forall i: nat | a <= i < ind && NamedAt(g, order, i, m) ensures Finish(m) in evs { assert evs[i - a] == Finish(m); }
  }

  /** After `ind` iterations of an ordered walk the nodes named so far have been started, and those with
      a barrier behind them finished. */
  lemma {:induction false} EventsOfOrder(g: Graph, order: seq<int>, ind: nat, m: nat)
    requires Positions(g, order) && order != [] && ind <= |order|
    ensures Start(m) in Events(g, order, ind) <==> exists i: nat :: i < ind && NamedAt(g, order, i, m)
    ensures Finish(m) in Events(g, order, ind) <==>
            exists i: nat, j: nat :: i < j < ind && NamedAt(g, order, i, m) && Barrier(order, j)
  {
    hide Positions, Finishes;
    if ind > 0 {
      EventsOfOrder(g, order, ind - 1, m);
      GroupFinishes(g, order, ind - 1, m);
      GroupBegins(order, ind - 1);
      InRangeOrBarrier(g, order, ind - 1);
      var e := Iteration(g, order, ind - 1);
      if Barrier(order, ind - 1) {
        var a := LastBarrier(order, ind - 1);
        if Finish(m) in e {
          var i: nat :| a <= i < ind - 1 && NamedAt(g, order, i, m);
          assert i < ind - 1 < ind && Barrier(order, ind - 1);
        }
        forall i: nat, j: nat | i < j < ind && NamedAt(g, order, i, m) && Barrier(order, j)
          ensures Finish(m) in Events(g, order, ind)
        {
          if i < a { assert i < a - 1 < ind - 1 && Barrier(order, a - 1); }
        }
      } else {
        assert e == [Start(g.nodes[order[ind - 1]])];
        assert NamedAt(g, order, ind - 1, m) <==> g.nodes[order[ind - 1]] == m;
        assert (exists i: nat :: i < ind && NamedAt(g, order, i, m)) <==>
               (exists i: nat :: i < ind - 1 && NamedAt(g, order, i, m)) || NamedAt(g, order, ind - 1, m);
      }
    }
  }

  lemma InRangeOrBarrier(g: Graph, order: seq<int>, i: nat)
    requires Positions(g, order) && i < |order|
    ensures Barrier(order, i) <==> !(0 <= order[i] < |g.nodes|)
  {
  }
}
