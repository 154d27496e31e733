/** A list of siblings by position, as the nodes of an array hold it. */
module TrieRows {
  import opened Wrappers
  import opened PatriciaTrie
  import opened DictionaryRuns

  datatype Row<P> = Row(edge: Word, prop: Option<P>, children: Trie<P>)

  function Prepend<P>(rows: seq<Row<P>>, t: Trie<P>): Trie<P> {
    if rows == [] then t else Cons(rows[0].edge, rows[0].prop, rows[0].children, Prepend(rows[1..], t))
  }

  function Assemble<P>(rows: seq<Row<P>>): Trie<P> { Prepend(rows, Nil) }

  lemma {:induction false} PrependAppend<P>(a: seq<Row<P>>, b: seq<Row<P>>, t: Trie<P>)
    ensures Prepend(a + b, t) == Prepend(a, Prepend(b, t))
  {
    if a == [] {
      assert a + b == b;
    } else {
      assert (a + b)[1..] == a[1..] + b;
      PrependAppend(a[1..], b, t);
    }
  }

  /** All nodes of the rows come before a word that starts with `c`. */
  predicate AllBefore<P>(rows: seq<Row<P>>, c: int) {
    forall k :: 0 <= k < |rows| ==> rows[k].edge != [] && c < rows[k].edge[0]
  }

  lemma {:induction false} InsertPasses<P>(rows: seq<Row<P>>, t: Trie<P>, w: Word, x: P)
    requires w != [] && AllBefore(rows, w[0])
    ensures Insert(Prepend(rows, t), w, x) ==
            match Insert(t, w, x) case None => None case Some(t') => Some(Prepend(rows, t'))
    ensures DividesInner(Prepend(rows, t), w) == DividesInner(t, w)
  {
    if rows == [] {
    } else {
      assert AllBefore(rows[1..], w[0]) by {
        forall k | 0 <= k < |rows| - 1 ensures rows[1..][k].edge != [] && w[0] < rows[1..][k].edge[0] {}
      }
      InsertPasses(rows[1..], t, w, x);
    }
  }

  lemma {:induction false} LookupPasses<P>(rows: seq<Row<P>>, t: Trie<P>, w: Word, i: nat)
    requires i < |w| && AllBefore(rows, w[i])
    ensures GetWordProperty(Prepend(rows, t), w, i) == GetWordProperty(t, w, i)
  {
    if rows == [] {
    } else {
      assert AllBefore(rows[1..], w[i]) by {
        forall k | 0 <= k < |rows| - 1 ensures rows[1..][k].edge != [] && w[i] < rows[1..][k].edge[0] {}
      }
      LookupPasses(rows[1..], t, w, i);
    }
  }

  /** The list cut before row k. */
  lemma CutAt<P>(rows: seq<Row<P>>, k: nat)
    requires k <= |rows|
    ensures Assemble(rows) == Prepend(rows[..k], Assemble(rows[k..]))
    ensures k < |rows| ==>
              Assemble(rows[k..]) == Cons(rows[k].edge, rows[k].prop, rows[k].children, Assemble(rows[k + 1..]))
  {
    assert rows == rows[..k] + rows[k..];
    PrependAppend(rows[..k], rows[k..], Nil);
    if k < |rows| { assert rows[k..][1..] == rows[k + 1..]; }
  }

  lemma {:induction false} RowsWellFormed<P>(rows: seq<Row<P>>, k: nat)
    requires WellFormed(Assemble(rows)) && k < |rows|
    ensures rows[k].edge != [] && WellFormed(rows[k].children)
  {
    if k == 0 {
    } else {
      RowsWellFormed(rows[1..], k - 1);
    }
  }

  /** What adding w does to the list, by the first row that does not come before w. */
  lemma AddAtRow<P>(rows: seq<Row<P>>, k: nat, w: Word, x: P)
    requires w != [] && k <= |rows| && AllBefore(rows[..k], w[0])
    requires k < |rows| ==> rows[k].edge != [] && rows[k].edge[0] <= w[0]
    ensures var t := Assemble(rows[k..]);
            && (Insert(Assemble(rows), w, x) ==
                match Insert(t, w, x) case None => None case Some(t') => Some(Prepend(rows[..k], t')))
            && (DividesInner(Assemble(rows), w) <==> DividesInner(t, w))
    ensures k == |rows| || rows[k].edge[0] < w[0] ==>
              !DividesInner(Assemble(rows), w) &&
              Insert(Assemble(rows), w, x) == Some(Assemble(rows[..k] + [Row(w, Some(x), Nil)] + rows[k..]))
  {
    CutAt(rows, k);
    InsertPasses(rows[..k], Assemble(rows[k..]), w, x);
    if k == |rows| || rows[k].edge[0] < w[0] {
      var n := Row(w, Some(x), Nil);
      assert rows[..k] + [n] + rows[k..] == rows[..k] + ([n] + rows[k..]);
      PrependAppend(rows[..k], [n] + rows[k..], Nil);
      assert ([n] + rows[k..])[1..] == rows[k..];
    }
  }

  lemma ReplaceRow<P>(rows: seq<Row<P>>, k: nat, n: Row<P>)
    requires k < |rows|
    ensures Assemble(rows[k := n]) == Prepend(rows[..k], Cons(n.edge, n.prop, n.children, Assemble(rows[k + 1..])))
  {
    CutAt(rows[k := n], k);
    assert rows[k := n][..k] == rows[..k] && rows[k := n][k + 1..] == rows[k + 1..];
  }

  /** Row k is where w goes: both start with the same code point. */
  ghost predicate MeetsRow<P>(rows: seq<Row<P>>, k: nat, w: Word) {
    && w != [] && k < |rows| && AllBefore(rows[..k], w[0])
    && rows[k].edge != [] && rows[k].edge[0] == w[0]
  }

  lemma AddAtSameWord<P>(rows: seq<Row<P>>, k: nat, w: Word, x: P)
    requires MeetsRow(rows, k, w) && rows[k].edge == w
    ensures !DividesInner(Assemble(rows), w)
    ensures Insert(Assemble(rows), w, x) ==
            if rows[k].prop.Some? then None else Some(Assemble(rows[k := rows[k].(prop := Some(x))]))
  {
    AddAtRow(rows, k, w, x);
    CutAt(rows, k);
    SharedIsCommon(w, w, |w|);
    ReplaceRow(rows, k, rows[k].(prop := Some(x)));
  }

  lemma AddBelow<P>(rows: seq<Row<P>>, k: nat, w: Word, x: P)
    requires MeetsRow(rows, k, w) && rows[k].edge < w
    ensures var l := rows[k].edge;
            && (DividesInner(Assemble(rows), w) <==> DividesInner(rows[k].children, w[|l|..]))
            && (Insert(Assemble(rows), w, x) ==
                match Insert(rows[k].children, w[|l|..], x)
                case None => None
                case Some(c) => Some(Assemble(rows[k := rows[k].(children := c)])))
  {
    var l := rows[k].edge;
    AddAtRow(rows, k, w, x);
    CutAt(rows, k);
    SharedIsCommon(w, l, |l|);
    match Insert(rows[k].children, w[|l|..], x)
    case None =>
    case Some(c) => ReplaceRow(rows, k, rows[k].(children := c));
  }

  /** The lower part of row k after i code points. */
  function Lower<P>(row: Row<P>, i: nat): Row<P>
    requires i <= |row.edge|
  {
    Row(row.edge[i..], row.prop, row.children)
  }

  lemma InsertDividing<P>(t: Trie<P>, w: Word, x: P, i: nat)
    requires t.Cons? && t.edge != [] && w != [] && w[0] == t.edge[0] && i == CommonPrefix(w, t.edge) < |t.edge|
    ensures i > 0 && (DividesInner(t, w) <==> t.prop.None?)
    ensures var lower := Cons(t.edge[i..], t.prop, t.children, Nil);
            if i == |w| then Insert(t, w, x) == Some(Cons(w, Some(x), lower, t.rest))
            else
              && !DividesInner(lower, w[i..]) && Insert(lower, w[i..], x).Some?
              && Insert(t, w, x) == Some(Cons(w[..i], None, Insert(lower, w[i..], x).value, t.rest))
  {
    FirstInCommon(w, t.edge);
    var lower := Cons(t.edge[i..], t.prop, t.children, Nil);
    assert Insert(t, w, x) == Split(t, w, x, i);
    if i < |w| { InsertBranch(lower, w[i..], x); }
  }

  lemma AddDividing<P>(rows: seq<Row<P>>, k: nat, w: Word, x: P, i: nat)
    requires MeetsRow(rows, k, w) && i == CommonPrefix(w, rows[k].edge) < |rows[k].edge|
    ensures i > 0 && (DividesInner(Assemble(rows), w) <==> rows[k].prop.None?)
    ensures var lower := Assemble([Lower(rows[k], i)]);
            if i == |w| then
              Insert(Assemble(rows), w, x) == Some(Assemble(rows[k := Row(w, Some(x), lower)]))
            else
              && !DividesInner(lower, w[i..]) && Insert(lower, w[i..], x).Some?
              && Insert(Assemble(rows), w, x) ==
                 Some(Assemble(rows[k := Row(w[..i], None, Insert(lower, w[i..], x).value)]))
  {
    var lower := Assemble([Lower(rows[k], i)]);
    AddAtRow(rows, k, w, x);
    CutAt(rows, k);
    CutAt([Lower(rows[k], i)], 0);
    InsertDividing(Assemble(rows[k..]), w, x, i);
    hide Insert, DividesInner, CommonPrefix;
    if i == |w| {
      ReplaceRow(rows, k, Row(w, Some(x), lower));
    } else {
      ReplaceRow(rows, k, Row(w[..i], None, Insert(lower, w[i..], x).value));
    }
  }

  lemma LowerWellFormed<P>(rows: seq<Row<P>>, k: nat, i: nat)
    requires WellFormed(Assemble(rows)) && k < |rows| && i < |rows[k].edge|
    ensures WellFormed(Assemble([Lower(rows[k], i)]))
  {
    CutAt(rows, k);
    PrependWellFormed(rows[..k], Assemble(rows[k..]));
    CutAt([Lower(rows[k], i)], 0);
  }

  lemma {:induction false} PrependWellFormed<P>(rows: seq<Row<P>>, t: Trie<P>)
    requires WellFormed(Prepend(rows, t))
    ensures WellFormed(t)
  {
    if rows == [] {
    } else {
      PrependWellFormed(rows[1..], t);
    }
  }

  /** What the lookup of w from i on comes to, by the first row that does not come before it. */
  lemma LookupAtRow<P>(rows: seq<Row<P>>, k: nat, w: Word, i: nat)
    requires i < |w| && k <= |rows| && AllBefore(rows[..k], w[i..][0])
    requires k < |rows| ==> rows[k].edge != [] && rows[k].edge[0] <= w[i..][0]
    ensures w[i] == w[i..][0]
    ensures GetWordProperty(Assemble(rows), w, i) ==
            if k == |rows| || w[i] > rows[k].edge[0] || |w| < |rows[k].edge| then Found(None)
            else
              var l := rows[k].edge;
              if |w| - i < |l| && w[i..] <= l then OutOfRange
              else if !(l <= w[i..]) then Found(None)
              else if i + |l| == |w| then Found(rows[k].prop)
              else GetWordProperty(rows[k].children, w, i + |l|)
  {
    CutAt(rows, k);
    LookupPasses(rows[..k], Assemble(rows[k..]), w, i);
    assert forall n :: i <= n <= |w| ==> w[i..n] == w[i..][..n - i];
  }

  lemma LookupAtEnd<P>(t: Trie<P>, w: Word)
    ensures GetWordProperty(t, w, |w|) == Found(None)
  {
  }
}
