/** The Patricia trie as a value: what insertion and lookup compute, and the finite map from
    words to properties that they refine. */
module PatriciaTrie {
  import opened Wrappers

  type Word = seq<int>

  /** A list of sibling nodes: the first node with its children, and the nodes after it.  A
      node with a property ends a word. */
  datatype Trie<P> = Nil | Cons(edge: Word, prop: Option<P>, children: Trie<P>, rest: Trie<P>)

  /** Siblings descend by first code point, labels are not empty, and a node that ends no word
      has at least two children. */
  ghost predicate WellFormed<P>(t: Trie<P>) {
    match t
    case Nil => true
    case Cons(l, p, c, r) =>
      && l != [] && (r.Cons? ==> r.edge != [] && r.edge[0] < l[0])
      && (p.None? ==> c.Cons? && c.rest.Cons?)
      && WellFormed(c) && WellFormed(r)
  }

  // ---------- Lookup ----------

  function Find<P>(t: Trie<P>, w: Word): Option<P> {
    match t
    case Nil => None
    case Cons(l, p, c, r) =>
      if w == [] || l == [] || w[0] > l[0] then None
      else if w[0] < l[0] then Find(r, w)
      else if !(l <= w) then None
      else if |w| == |l| then p
      else Find(c, w[|l|..])
  }

  /** The words of a trie with their properties, by the labels along each path. */
  function Entries<P(==)>(t: Trie<P>): set<(Word, P)> {
    match t
    case Nil => {}
    case Cons(l, p, c, r) =>
      (if p.Some? then {(l, p.value)} else {}) + (set e | e in Entries(c) :: (l + e.0, e.1)) + Entries(r)
  }

  lemma {:induction false} EntriesBelow<P>(t: Trie<P>, e: (Word, P))
    requires WellFormed(t) && e in Entries(t)
    ensures t.Cons? && e.0 != [] && e.0[0] <= t.edge[0]
  {
    if e in Entries(t.rest) {
      EntriesBelow(t.rest, e);
    }
  }

  lemma Below<P>(c: Trie<P>, l: Word, w: Word, x: P)
    ensures (w, x) in (set e | e in Entries(c) :: (l + e.0, e.1)) <==> l <= w && (w[|l|..], x) in Entries(c)
  {
    if l <= w && (w[|l|..], x) in Entries(c) {
      var e := (w[|l|..], x);
      assert l + e.0 == w;
    }
    forall e | e in Entries(c) && (l + e.0, e.1) == (w, x) ensures l <= w && e == (w[|l|..], x) {
      assert (l + e.0)[|l|..] == e.0;
    }
  }

  /** Lookup finds exactly the words of the trie. */
  lemma {:induction false} FindsEntries<P>(t: Trie<P>, w: Word, x: P)
    requires WellFormed(t)
    ensures Find(t, w) == Some(x) <==> (w, x) in Entries(t)
    decreases t
  {
    match t
    case Nil =>
    case Cons(l, p, c, r) =>
      FindsEntries(r, w, x);
      if (w, x) in Entries(r) { EntriesBelow(r, (w, x)); }
      Below(c, l, w, x);
      if l <= w {
        assert |w| == |l| ==> w == l;
        FindsEntries(c, w[|l|..], x);
        if (w[|l|..], x) in Entries(c) { EntriesBelow(c, (w[|l|..], x)); }
      }
  }

  // ---------- Insertion ----------

  function CommonPrefix(a: Word, b: Word): (n: nat)
    ensures n <= |a| && n <= |b| && a[..n] == b[..n]
    ensures n < |a| && n < |b| ==> a[n] != b[n]
  {
    if a == [] || b == [] || a[0] != b[0] then 0 else 1 + CommonPrefix(a[1..], b[1..])
  }

  /** The trie with word w added.  None: the word is already there. */
  function Insert<P>(t: Trie<P>, w: Word, x: P): Option<Trie<P>>
    requires w != []
    decreases |w|, t
  {
    match t
    case Nil => Some(Cons(w, Some(x), Nil, Nil))
    case Cons(l, p, c, r) =>
      if l == [] || w[0] > l[0] then Some(Cons(w, Some(x), Nil, t))
      else if w[0] < l[0] then
        match Insert(r, w, x)
        case None => None
        case Some(r') => Some(Cons(l, p, c, r'))
      else
        var i := CommonPrefix(w, l);
        if i == |l| && i == |w| then
          if p.Some? then None else Some(Cons(l, Some(x), c, r))
        else if i == |l| then
          match Insert(c, w[i..], x)
          case None => None
          case Some(c') => Some(Cons(l, p, c', r))
        else
          Split(t, w, x, i)
  }

  /** The first node divided after i code points; w becomes the upper part or a new branch. */
  function Split<P>(t: Trie<P>, w: Word, x: P, i: nat): Option<Trie<P>>
    requires t.Cons? && 0 < i <= |w| && i < |t.edge|
    decreases |w|, t, 0
  {
    var lower := Cons(t.edge[i..], t.prop, t.children, Nil);
    if i == |w| then Some(Cons(w, Some(x), lower, t.rest))
    else
      match Insert(lower, w[i..], x)
      case None => None
      case Some(c) => Some(Cons(w[..i], None, c, t.rest))
  }

  // ---------- Insertion adds one word ----------

  /** Looking a word up below a node is looking up what the node's label leaves of it. */
  lemma FindUnder<P>(l: Word, p: Option<P>, c: Trie<P>, r: Trie<P>, u: Word)
    requires l != []
    ensures Find(Cons(l, p, c, r), l + u) == if u == [] then p else Find(c, u)
  {
    assert (l + u)[|l|..] == u;
  }

  lemma FindNotUnder<P>(l: Word, p: Option<P>, c: Trie<P>, r: Trie<P>, w: Word)
    requires l != [] && w != [] && !(l <= w)
    ensures Find(Cons(l, p, c, r), w) == if w[0] < l[0] then Find(r, w) else None
  {
  }

  ghost predicate AddsWord<P>(t: Trie<P>, t': Trie<P>, w: Word, x: P) {
    Find(t', w) == Some(x) && forall u :: u != w ==> Find(t', u) == Find(t, u)
  }

  lemma PrefixInTwo(l: Word, i: nat, u: Word)
    requires i <= |l|
    ensures l <= u <==> l[..i] <= u && l[i..] <= u[i..]
  {
    assert l == l[..i] + l[i..];
    if l[..i] <= u && l[i..] <= u[i..] {
      assert u == l[..i] + u[i..] == l[..i] + (l[i..] + u[i..][|l| - i..]);
      assert u == l + u[i..][|l| - i..];
    }
    if l <= u {
      assert u == l + u[|l|..];
      assert u[i..] == l[i..] + u[|l|..];
    }
  }

  /** Dividing a node changes no lookup. */
  lemma DividingKeepsWords<P>(t: Trie<P>, i: nat, u: Word)
    requires WellFormed(t) && t.Cons? && 0 < i < |t.edge|
    ensures Find(Cons(t.edge[..i], None, Cons(t.edge[i..], t.prop, t.children, Nil), t.rest), u) == Find(t, u)
  {
    var l := t.edge;
    var lower := Cons(l[i..], t.prop, t.children, Nil);
    PrefixInTwo(l, i, u);
    if l[..i] <= u {
      assert u == l[..i] + u[i..];
      FindUnder(l[..i], None, lower, t.rest, u[i..]);
      if l <= u {
        assert u[i..] == l[i..] + u[|l|..] && u == l + u[|l|..];
        FindUnder(l[i..], t.prop, t.children, Nil, u[|l|..]);
      } else if u[i..] != [] {
        FindNotUnder(l[i..], t.prop, t.children, Nil, u[i..]);
      }
      assert u[0] == l[0];
    } else if u != [] {
      assert l[..i][0] == l[0];
      FindNotUnder(l, t.prop, t.children, t.rest, u);
      FindNotUnder(l[..i], None, lower, t.rest, u);
    }
  }

  lemma FindUpper<P>(l: Word, p: Option<P>, q: Option<P>, c: Trie<P>, r: Trie<P>, u: Word)
    requires l != [] && u != l
    ensures Find(Cons(l, p, c, r), u) == Find(Cons(l, q, c, r), u)
  {
  }

  lemma FindChildrenChanged<P>(l: Word, p: Option<P>, c: Trie<P>, c': Trie<P>, r: Trie<P>, w: Word, x: P)
    requires l != [] && w != [] && AddsWord(c, c', w, x)
    ensures AddsWord(Cons(l, p, c, r), Cons(l, p, c', r), l + w, x)
  {
    var t, t' := Cons(l, p, c, r), Cons(l, p, c', r);
    FindUnder(l, p, c', r, w);
    forall u | u != l + w ensures Find(t', u) == Find(t, u) {
      if l <= u {
        assert u == l + u[|l|..];
        FindUnder(l, p, c, r, u[|l|..]);
        FindUnder(l, p, c', r, u[|l|..]);
      } else if u != [] {
        FindNotUnder(l, p, c, r, u);
        FindNotUnder(l, p, c', r, u);
      }
    }
  }

  lemma FindRestChanged<P>(l: Word, p: Option<P>, c: Trie<P>, r: Trie<P>, r': Trie<P>, w: Word, x: P)
    requires l != [] && w != [] && w[0] < l[0] && AddsWord(r, r', w, x)
    ensures AddsWord(Cons(l, p, c, r), Cons(l, p, c, r'), w, x)
  {
    var t, t' := Cons(l, p, c, r), Cons(l, p, c, r');
    forall u | u != w ensures Find(t', u) == Find(t, u) {
      if l <= u {
        assert u == l + u[|l|..];
        FindUnder(l, p, c, r, u[|l|..]);
        FindUnder(l, p, c, r', u[|l|..]);
      } else if u != [] {
        FindNotUnder(l, p, c, r, u);
        FindNotUnder(l, p, c, r', u);
      }
    }
  }

  lemma {:induction false} FirstsBelow<P>(t: Trie<P>, w: Word)
    requires WellFormed(t) && w != [] && (t.Nil? || w[0] > t.edge[0])
    ensures Find(t, w) == None
  {
  }

  /** Insertion succeeds exactly for a new word; then that word is found with its property,
      every other lookup gives what it gave, and the trie stays well formed. */
  lemma {:induction false} InsertAdds<P>(t: Trie<P>, w: Word, x: P)
    requires WellFormed(t) && w != []
    ensures Insert(t, w, x).Some? <==> Find(t, w).None?
    ensures Insert(t, w, x).Some? ==> AddsWord(t, Insert(t, w, x).value, w, x)
    decreases |w|, t
  {
    match t
    case Nil =>
      assert w[|w|..] == [];
    case Cons(l, p, c, r) =>
      if w[0] > l[0] {
        NewFirst(t, w, x);
      } else if w[0] < l[0] {
        InsertAdds(r, w, x);
        if Insert(r, w, x).Some? { FindRestChanged(l, p, c, r, Insert(r, w, x).value, w, x); }
      } else {
        var i := CommonPrefix(w, l);
        FirstInCommon(w, l);
        if i == |l| && i == |w| {
          InsertAtNode(t, w, x);
        } else if i == |l| {
          InsertAdds(c, w[i..], x);
          assert w == l + w[i..];
          FindUnder(l, p, c, r, w[i..]);
          if Insert(c, w[i..], x).Some? { FindChildrenChanged(l, p, c, Insert(c, w[i..], x).value, r, w[i..], x); }
        } else {
          SplitAdds(t, w, x, i);
        }
      }
  }

  lemma FirstInCommon(a: Word, b: Word)
    requires a != [] && b != [] && a[0] == b[0]
    ensures CommonPrefix(a, b) > 0
  {
  }

  lemma NewFirst<P>(t: Trie<P>, w: Word, x: P)
    requires WellFormed(t) && w != [] && (t.Nil? || w[0] > t.edge[0])
    ensures Find(t, w).None? && AddsWord(t, Cons(w, Some(x), Nil, t), w, x)
  {
    var t' := Cons(w, Some(x), Nil, t);
    forall u | u != w ensures Find(t', u) == Find(t, u) {
      if w <= u {
        assert u == w + u[|w|..];
        FindUnder(w, Some(x), Nil, t, u[|w|..]);
      } else if u != [] {
        FindNotUnder(w, Some(x), Nil, t, u);
      }
    }
  }

  lemma InsertAtNode<P>(t: Trie<P>, w: Word, x: P)
    requires WellFormed(t) && t.Cons? && w != [] && CommonPrefix(w, t.edge) == |w| == |t.edge|
    ensures Insert(t, w, x).Some? <==> Find(t, w).None?
    ensures Insert(t, w, x).Some? ==> AddsWord(t, Insert(t, w, x).value, w, x)
  {
    assert w == w[..|w|] == t.edge[..|w|] == t.edge;
    forall u | u != w ensures Find(Cons(t.edge, Some(x), t.children, t.rest), u) == Find(t, u) {
      FindUpper(t.edge, Some(x), t.prop, t.children, t.rest, u);
    }
  }

  lemma SplitAdds<P>(t: Trie<P>, w: Word, x: P, i: nat)
    requires WellFormed(t) && t.Cons? && 0 < i <= |w| && i < |t.edge| && w[..i] == t.edge[..i]
    requires i < |w| ==> w[i] != t.edge[i]
    ensures Find(t, w).None? && Split(t, w, x, i).Some? && AddsWord(t, Split(t, w, x, i).value, w, x)
    decreases |w|, t, 0
  {
    var l, p, c, r := t.edge, t.prop, t.children, t.rest;
    var lower := Cons(l[i..], p, c, Nil);
    var middle := Cons(l[..i], None, lower, r);
    forall u ensures Find(middle, u) == Find(t, u) { DividingKeepsWords(t, i, u); }
    if i == |w| {
      assert w == w[..i];
      forall u | u != w ensures Find(Cons(w, Some(x), lower, r), u) == Find(t, u) {
        FindUpper(w, Some(x), None, lower, r, u);
      }
      FindUnder(w, None, lower, r, []);
      assert w + [] == w;
    } else {
      InsertBranch(lower, w[i..], x);
      assert w == l[..i] + w[i..];
      FindChildrenChanged(l[..i], None, lower, Insert(lower, w[i..], x).value, r, w[i..], x);
      FindUnder(l[..i], None, lower, r, w[i..]);
    }
  }

  /** A word that differs from a lone node in its first code point becomes its sibling. */
  lemma InsertBranch<P>(t: Trie<P>, w: Word, x: P)
    requires t.Cons? && t.rest == Nil && t.edge != [] && w != [] && w[0] != t.edge[0]
    ensures Insert(t, w, x)
            == Some(if w[0] > t.edge[0] then Cons(w, Some(x), Nil, t) else t.(rest := Cons(w, Some(x), Nil, Nil)))
    ensures Find(t, w).None? && AddsWord(t, Insert(t, w, x).value, w, x)
  {
    var n := Cons(w, Some(x), Nil, Nil);
    assert AddsWord(Nil, n, w, x);
    if w[0] < t.edge[0] {
      FindRestChanged(t.edge, t.prop, t.children, Nil, n, w, x);
    } else {
      forall u | u != w ensures Find(Cons(w, Some(x), Nil, t), u) == Find(t, u) {
        if w <= u {
          assert u == w + u[|w|..];
          FindUnder(w, Some(x), Nil, t, u[|w|..]);
        } else if u != [] {
          FindNotUnder(w, Some(x), Nil, t, u);
        }
      }
    }
  }

  // ---------- Insertion keeps the trie well formed ----------

  /** Insertion only puts the new word's first code point in front, and takes no node away. */
  lemma {:induction false} InsertShape<P>(t: Trie<P>, w: Word, x: P)
    requires WellFormed(t) && w != [] && Insert(t, w, x).Some?
    ensures var t' := Insert(t, w, x).value;
            && t'.Cons? && t'.edge != [] && t'.edge[0] == (if t.Nil? || w[0] > t.edge[0] then w[0] else t.edge[0])
            && (t.Cons? && t.rest.Cons? ==> t'.rest.Cons?)
    decreases |w|, t
  {
    if t.Cons? && w[0] < t.edge[0] {
      InsertShape(t.rest, w, x);
    } else if t.Cons? && w[0] == t.edge[0] {
      FirstInCommon(w, t.edge);
    }
  }

  lemma SplitWellFormed<P>(t: Trie<P>, w: Word, x: P, i: nat)
    requires WellFormed(t) && t.Cons? && 0 < i <= |w| && i < |t.edge| && w[..i] == t.edge[..i]
    requires i < |w| ==> w[i] != t.edge[i]
    ensures Split(t, w, x, i).Some? && WellFormed(Split(t, w, x, i).value)
  {
    assert w[..i][0] == t.edge[0];
    var lower := Cons(t.edge[i..], t.prop, t.children, Nil);
    assert WellFormed(lower);
    if i < |w| {
      InsertBranch(lower, w[i..], x);
      var n := Cons(w[i..], Some(x), Nil, Nil);
      assert w[i] < t.edge[i] ==> WellFormed(n) && WellFormed(lower.(rest := n));
    }
  }

  lemma {:induction false} InsertWellFormed<P>(t: Trie<P>, w: Word, x: P)
    requires WellFormed(t) && w != [] && Insert(t, w, x).Some?
    ensures WellFormed(Insert(t, w, x).value)
    decreases |w|, t
  {
    match t
    case Nil =>
    case Cons(l, p, c, r) =>
      if w[0] > l[0] {
      } else if w[0] < l[0] {
        InsertWellFormed(r, w, x);
        InsertShape(r, w, x);
      } else {
        var i := CommonPrefix(w, l);
        FirstInCommon(w, l);
        if i == |l| && i == |w| {
        } else if i == |l| {
          InsertWellFormed(c, w[i..], x);
          InsertShape(c, w[i..], x);
        } else {
          SplitWellFormed(t, w, x, i);
        }
      }
  }

  // ---------- Canonical form ----------

  /** Some word below the first node. */
  function SomeWord<P>(t: Trie<P>): (w: Word)
    requires WellFormed(t) && t.Cons?
    ensures t.edge <= w && Find(t, w).Some?
  {
    if t.prop.Some? then
      assert t.edge[|t.edge|..] == [];
      t.edge
    else
      var u := SomeWord(t.children);
      assert (t.edge + u)[|t.edge|..] == u;
      t.edge + u
  }

  ghost predicate SameWords<P>(a: Trie<P>, b: Trie<P>) {
    forall w :: Find(a, w) == Find(b, w)
  }

  lemma FoundBelow<P>(t: Trie<P>, w: Word)
    requires WellFormed(t) && Find(t, w).Some?
    ensures t.Cons? && w != [] && w[0] <= t.edge[0] && (w[0] == t.edge[0] ==> t.edge <= w)
  {
  }

  /** The first label of one trie is a prefix of the other's. */
  lemma FirstLabelsAgree<P>(a: Trie<P>, b: Trie<P>)
    requires WellFormed(a) && WellFormed(b) && a.Cons? && SameWords(a, b)
    ensures b.Cons? && a.edge[0] == b.edge[0] && (a.edge <= b.edge || b.edge <= a.edge)
  {
    var u := SomeWord(a);
    assert Find(b, u) == Find(a, u);
    FoundBelow(b, u);
    var v := SomeWord(b);
    assert Find(a, v) == Find(b, v);
    FoundBelow(a, v);
  }

  /** A label cannot be a proper prefix of the other: its node ends a word or branches there. */
  lemma FirstLabelNotShorter<P>(a: Trie<P>, b: Trie<P>)
    requires WellFormed(a) && WellFormed(b) && a.Cons? && b.Cons? && SameWords(a, b) && a.edge <= b.edge
    ensures a.edge == b.edge
  {
    var l, m := a.edge, b.edge;
    if a.prop.Some? {
      FindUnder(l, a.prop, a.children, a.rest, []);
      assert l + [] == l && Find(b, l) == Find(a, l);
      FoundBelow(b, l);
    } else {
      var c := a.children;
      var u, v := SomeWord(c), SomeWord(c.rest);
      FindUnder(l, a.prop, c, a.rest, u);
      FindUnder(l, a.prop, c, a.rest, v);
      FindInRest(c, v);
      assert Find(b, l + u) == Find(a, l + u) && Find(b, l + v) == Find(a, l + v);
      FoundBelow(b, l + u);
      FoundBelow(b, l + v);
      assert (l + u)[|l|] == u[0] && (l + v)[|l|] == v[0];
    }
  }

  lemma FindInRest<P>(t: Trie<P>, w: Word)
    requires WellFormed(t) && t.Cons? && w != [] && w[0] < t.edge[0]
    ensures Find(t, w) == Find(t.rest, w)
  {
  }

  /** Two well-formed tries with the same words and properties are the same trie. */
  lemma {:induction false} Canonical<P>(a: Trie<P>, b: Trie<P>)
    requires WellFormed(a) && WellFormed(b) && SameWords(a, b)
    ensures a == b
    decreases a
  {
    if a.Cons? {
      FirstLabelsAgree(a, b);
      if a.edge <= b.edge { FirstLabelNotShorter(a, b); } else { FirstLabelNotShorter(b, a); }
      SameBelow(a, b);
      Canonical(a.children, b.children);
      Canonical(a.rest, b.rest);
    } else if b.Cons? {
      FirstLabelsAgree(b, a);
    }
  }

  lemma SameBelow<P>(a: Trie<P>, b: Trie<P>)
    requires WellFormed(a) && WellFormed(b) && a.Cons? && b.Cons? && SameWords(a, b) && a.edge == b.edge
    ensures a.prop == b.prop && SameWords(a.children, b.children) && SameWords(a.rest, b.rest)
  {
    var l := a.edge;
    assert l + [] == l;
    FindUnder(l, a.prop, a.children, a.rest, []);
    FindUnder(l, b.prop, b.children, b.rest, []);
    forall u ensures Find(a.children, u) == Find(b.children, u) {
      if u != [] {
        FindUnder(l, a.prop, a.children, a.rest, u);
        FindUnder(l, b.prop, b.children, b.rest, u);
        assert Find(a, l + u) == Find(b, l + u);
      }
    }
    forall u ensures Find(a.rest, u) == Find(b.rest, u) {
      if u != [] && u[0] < l[0] {
        assert Find(a, u) == Find(b, u);
      } else if u != [] {
        FirstsBelow(a.rest, u);
        FirstsBelow(b.rest, u);
      }
    }
  }
}
