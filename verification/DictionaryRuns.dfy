/** What the dictionary's code does with a trie, with the two places where it goes wrong:
    dividing a node that ends no word, and reading past the end of the word looked up. */
module DictionaryRuns {
  import opened Wrappers
  import opened PatriciaTrie

  const MAX_WORD_LENGTH: nat := 48

  // ---------- Adding a word ----------

  /** Adding w divides a node that ends no word. */
  predicate DividesInner<P>(t: Trie<P>, w: Word)
    requires w != []
    decreases t
  {
    match t
    case Nil => false
    case Cons(l, p, c, r) =>
      if l == [] || w[0] > l[0] then false
      else if w[0] < l[0] then DividesInner(r, w)
      else
        var i := CommonPrefix(w, l);
        if i < |l| then p.None? else i < |w| && DividesInner(c, w[i..])
  }

  datatype AddResult<P> = Added(trie: Trie<P>) | Rejected | Fault

  /** The copying constructor of a node dereferences the property it copies, so dividing a
      node without one is a fault. */
  function AddWord<P>(t: Trie<P>, w: Word, x: P): AddResult<P> {
    if w == [] || |w| > MAX_WORD_LENGTH then Rejected
    else if DividesInner(t, w) then Fault
    else match Insert(t, w, x)
      case None => Rejected
      case Some(t') => Added(t')
  }

  /** A word is added exactly if it is new, 1 to 48 code points long and divides no inner node. */
  lemma AddsExactlyNewWords<P>(t: Trie<P>, w: Word, x: P)
    requires WellFormed(t)
    ensures AddWord(t, w, x).Added? <==>
            0 < |w| <= MAX_WORD_LENGTH && Find(t, w).None? && !DividesInner(t, w)
    ensures AddWord(t, w, x).Fault? <==> 0 < |w| <= MAX_WORD_LENGTH && DividesInner(t, w)
    ensures AddWord(t, w, x).Added? ==>
              WellFormed(AddWord(t, w, x).trie) && AddsWord(t, AddWord(t, w, x).trie, w, x)
  {
    if 0 < |w| <= MAX_WORD_LENGTH {
      InsertAdds(t, w, x);
      if Insert(t, w, x).Some? { InsertWellFormed(t, w, x); }
    }
  }

  // ---------- When adding a word faults, in terms of the words ----------

  ghost predicate IsWord<P>(t: Trie<P>, u: Word) { Find(t, u).Some? }

  /** q is no word, and two words go on differently after q. */
  ghost predicate BranchPoint<P>(t: Trie<P>, q: Word) {
    && !IsWord(t, q)
    && exists u, v :: IsWord(t, u) && IsWord(t, v) && PartAfter(q, u, v)
  }

  ghost predicate PartAfter(q: Word, u: Word, v: Word) {
    q < u && q < v && u[|q|] != v[|q|]
  }

  /** Of the code points of q, w shares exactly the first n. */
  predicate Leaves(w: Word, q: Word, n: nat) {
    n <= |w| && n < |q| && w[..n] == q[..n] && (n < |w| ==> w[n] != q[n])
  }

  /** w leaves the way to a branch point q after n code points, where every word that has
      come that far goes on to q. */
  ghost predicate LeavesBranch<P>(t: Trie<P>, w: Word, q: Word, n: nat) {
    && 0 < n && Leaves(w, q, n) && BranchPoint(t, q)
    && forall u :: IsWord(t, u) && q[..n] <= u ==> q <= u
  }

  /** Below a node that ends no word, words go on differently after its label. */
  lemma LabelBranches<P>(t: Trie<P>)
    requires WellFormed(t) && t.Cons? && t.prop.None?
    ensures BranchPoint(t, t.edge)
  {
    var l, c := t.edge, t.children;
    FindUnder(l, t.prop, c, t.rest, []);
    assert l + [] == l;
    var u, v := SomeWord(c), SomeWord(c.rest);
    FindUnder(l, t.prop, c, t.rest, u);
    FindUnder(l, t.prop, c, t.rest, v);
    FindInRest(c, v);
    assert IsWord(t, l + u) && IsWord(t, l + v);
    assert (l + u)[|l|] == u[0] && (l + v)[|l|] == v[0];
    assert PartAfter(l, l + u, l + v);
  }

  lemma DividedNodeIsLeft<P>(t: Trie<P>, w: Word)
    requires WellFormed(t) && t.Cons? && t.prop.None? && w != [] && w[0] == t.edge[0]
    requires CommonPrefix(w, t.edge) < |t.edge|
    ensures LeavesBranch(t, w, t.edge, CommonPrefix(w, t.edge))
  {
    FirstInCommon(w, t.edge);
    LabelBranches(t);
    forall x | IsWord(t, x) && t.edge[..CommonPrefix(w, t.edge)] <= x ensures t.edge <= x {
      FoundBelow(t, x);
    }
  }

  lemma BranchInChildren<P>(t: Trie<P>, q: Word)
    requires WellFormed(t) && t.Cons? && q != []
    ensures BranchPoint(t, t.edge + q) <==> BranchPoint(t.children, q)
  {
    hide Find;
    var l, c := t.edge, t.children;
    FindUnder(l, t.prop, c, t.rest, q);
    if BranchPoint(c, q) {
      var u, v :| IsWord(c, u) && IsWord(c, v) && PartAfter(q, u, v);
      FindUnder(l, t.prop, c, t.rest, u);
      FindUnder(l, t.prop, c, t.rest, v);
      assert IsWord(t, l + u) && IsWord(t, l + v) && PartAfter(l + q, l + u, l + v);
    }
    if BranchPoint(t, l + q) {
      var u, v :| IsWord(t, u) && IsWord(t, v) && PartAfter(l + q, u, v);
      assert u == l + u[|l|..] && v == l + v[|l|..];
      FindUnder(l, t.prop, c, t.rest, u[|l|..]);
      FindUnder(l, t.prop, c, t.rest, v[|l|..]);
      assert IsWord(c, u[|l|..]) && IsWord(c, v[|l|..]) && PartAfter(q, u[|l|..], v[|l|..]);
    }
  }

  lemma LeavesInChildren<P>(t: Trie<P>, w: Word, q: Word, n: nat)
    requires WellFormed(t) && t.Cons? && 0 < n
    ensures LeavesBranch(t.children, w, q, n) <==> LeavesBranch(t, t.edge + w, t.edge + q, |t.edge| + n)
  {
    var l, c := t.edge, t.children;
    assert Leaves(w, q, n) <==> Leaves(l + w, l + q, |l| + n) by {
      assert n <= |w| ==> (l + w)[..|l| + n] == l + w[..n];
      assert n <= |q| ==> (l + q)[..|l| + n] == l + q[..n];
      if n <= |w| && n <= |q| { assert (l + w[..n])[|l|..] == w[..n] && (l + q[..n])[|l|..] == q[..n]; }
    }
    if Leaves(w, q, n) {
      BranchInChildren(t, q);
      assert (l + q)[..|l| + n] == l + q[..n];
      if forall u :: IsWord(c, u) && q[..n] <= u ==> q <= u {
        forall u | IsWord(t, u) && l + q[..n] <= u ensures l + q <= u {
          assert u == l + u[|l|..];
          FindUnder(l, t.prop, c, t.rest, u[|l|..]);
          assert IsWord(c, u[|l|..]);
        }
      }
      if forall u :: IsWord(t, u) && l + q[..n] <= u ==> l + q <= u {
        forall u | IsWord(c, u) && q[..n] <= u ensures q <= u {
          FindUnder(l, t.prop, c, t.rest, u);
          assert IsWord(t, l + u);
          assert (l + u)[|l|..] == u;
        }
      }
    }
  }

  lemma LeavesInRest<P>(t: Trie<P>, w: Word, q: Word, n: nat)
    requires WellFormed(t) && t.Cons? && q != [] && q[0] < t.edge[0]
    ensures LeavesBranch(t, w, q, n) <==> LeavesBranch(t.rest, w, q, n)
  {
    forall u | u != [] && u[0] == q[0] ensures IsWord(t, u) <==> IsWord(t.rest, u) { FindInRest(t, u); }
  }

  /** Below the first node some word does not go on to a place beyond its label. */
  lemma WordElsewhere<P>(t: Trie<P>, q: Word) returns (x: Word)
    requires WellFormed(t) && t.Cons? && t.edge < q
    ensures IsWord(t, x) && t.edge <= x && !(q <= x)
  {
    var l, c := t.edge, t.children;
    if t.prop.Some? {
      FindUnder(l, t.prop, c, t.rest, []);
      x := l;
      assert l + [] == l;
    } else {
      var u, v := SomeWord(c), SomeWord(c.rest);
      FindUnder(l, t.prop, c, t.rest, u);
      FindUnder(l, t.prop, c, t.rest, v);
      FindInRest(c, v);
      assert (l + u)[|l|] == u[0] && (l + v)[|l|] == v[0];
      x := if q[|l|] == u[0] then l + v else l + u;
    }
  }

  lemma {:induction false} DividesLeaves<P>(t: Trie<P>, w: Word) returns (q: Word, n: nat)
    requires WellFormed(t) && w != [] && DividesInner(t, w)
    ensures LeavesBranch(t, w, q, n)
    decreases t
  {
    if w[0] < t.edge[0] {
      q, n := DividesLeaves(t.rest, w);
      StartsBelow(t.rest, w, q, n);
      LeavesInRest(t, w, q, n);
    } else {
      q, n := t.edge, CommonPrefix(w, t.edge);
      if n < |t.edge| {
        DividedNodeIsLeft(t, w);
      } else {
        var w' := w[n..];
        q, n := DividesLeaves(t.children, w');
        LeavesInChildren(t, w', q, n);
        q, n := t.edge + q, |t.edge| + n;
        assert w == t.edge + w';
      }
    }
  }

  lemma StartsBelow<P>(t: Trie<P>, w: Word, q: Word, n: nat)
    requires WellFormed(t) && LeavesBranch(t, w, q, n)
    ensures t.Cons? && q != [] && w != [] && q[0] == w[0] <= t.edge[0]
  {
    var u, v :| IsWord(t, u) && IsWord(t, v) && PartAfter(q, u, v);
    FoundBelow(t, u);
    assert w[0] == w[..n][0] && q[0] == q[..n][0];
  }

  lemma {:induction false} LeavesDivides<P>(t: Trie<P>, w: Word, q: Word, n: nat)
    requires WellFormed(t) && LeavesBranch(t, w, q, n)
    ensures w != [] && DividesInner(t, w)
    decreases t
  {
    StartsBelow(t, w, q, n);
    if q[0] < t.edge[0] {
      LeavesInRest(t, w, q, n);
      LeavesDivides(t.rest, w, q, n);
    } else {
      EdgeBefore(t, q);
      if q == t.edge {
        FindUnder(t.edge, t.prop, t.children, t.rest, []);
        assert t.edge + [] == t.edge;
        SharedIsCommon(w, q, n);
      } else {
        var x := WordElsewhere(t, q);
        PrefixesAgree(t.edge, q, x, n);
        var k := |t.edge|;
        assert w == t.edge + w[k..] && q == t.edge + q[k..] by { assert w[..k] == w[..n][..k] == q[..n][..k]; }
        LeavesInChildren(t, w[k..], q[k..], n - k);
        LeavesDivides(t.children, w[k..], q[k..], n - k);
        SharedIsCommon(w, t.edge, k);
      }
    }
  }

  /** A branch point that starts like the first node lies at its label or beyond. */
  lemma EdgeBefore<P>(t: Trie<P>, q: Word)
    requires WellFormed(t) && t.Cons? && BranchPoint(t, q) && q != [] && q[0] == t.edge[0]
    ensures t.edge <= q
  {
    var u, v :| IsWord(t, u) && IsWord(t, v) && PartAfter(q, u, v);
    FoundBelow(t, u);
    FoundBelow(t, v);
    PrefixesAgree(t.edge, u, v, |q| + 1);
    assert |t.edge| <= |q| ==> t.edge == u[..|q|][..|t.edge|];
  }

  /** Two words that go on from l agree as far as l goes. */
  lemma PrefixesAgree(l: Word, u: Word, v: Word, n: nat)
    requires l <= u && l <= v
    ensures n <= |l| ==> u[..n] <= v && (n > 0 ==> u[n - 1] == v[n - 1])
  {
    if 0 < n <= |l| {
      assert u[..n] == l[..n] == v[..n];
      assert u[n - 1] == l[n - 1] == v[n - 1];
    }
  }

  lemma {:induction false} SharedIsCommon(a: Word, b: Word, n: nat)
    requires n <= |a| && n <= |b| && a[..n] == b[..n] && (n < |a| && n < |b| ==> a[n] != b[n])
    ensures CommonPrefix(a, b) == n
  {
    if n == 0 {
    } else {
      assert a[0] == a[..n][0] == b[..n][0];
      assert a[1..][..n - 1] == a[..n][1..] == b[..n][1..] == b[1..][..n - 1];
      SharedIsCommon(a[1..], b[1..], n - 1);
    }
  }

  /** In terms of the words: adding w faults if and only if it leaves the way to a branch
      point that is no word, at a place where all words go on to that branch point. */
  lemma FaultsIff<P>(t: Trie<P>, w: Word, x: P)
    requires WellFormed(t)
    ensures AddWord(t, w, x).Fault? <==>
            |w| <= MAX_WORD_LENGTH && exists q, n: nat :: LeavesBranch(t, w, q, n)
  {
    if w != [] && DividesInner(t, w) {
      var q, n := DividesLeaves(t, w);
    }
    forall q, n: nat | LeavesBranch(t, w, q, n) ensures w != [] && DividesInner(t, w) {
      LeavesDivides(t, w, q, n);
    }
  }

  // ---------- Runs ----------

  /** Adds the words in order.  None: some word was rejected or faulted. */
  function AddAll<P>(ws: seq<(Word, P)>): Option<Trie<P>> {
    if ws == [] then Some(Nil)
    else match AddAll(ws[..|ws| - 1])
      case None => None
      case Some(t) =>
        match AddWord(t, ws[|ws| - 1].0, ws[|ws| - 1].1)
        case Added(t') => Some(t')
        case _ => None
  }

  /** A dictionary holds exactly the words that were added, with their properties. */
  lemma {:induction false} HoldsWhatWasAdded<P>(ws: seq<(Word, P)>)
    requires AddAll(ws).Some?
    ensures WellFormed(AddAll(ws).value)
    ensures forall w, x :: Find(AddAll(ws).value, w) == Some(x) <==> (w, x) in ws
    decreases |ws|
  {
    if ws == [] {
    } else {
      var init, e := ws[..|ws| - 1], ws[|ws| - 1];
      HoldsWhatWasAdded(init);
      AddsExactlyNewWords(AddAll(init).value, e.0, e.1);
      assert ws == init + [e];
    }
  }

  /** The order in which words are added leaves no trace in the trie. */
  lemma OrderDoesNotMatter<P>(a: seq<(Word, P)>, b: seq<(Word, P)>)
    requires AddAll(a).Some? && AddAll(b).Some?
    requires forall e :: e in a <==> e in b
    ensures AddAll(a) == AddAll(b)
  {
    HoldsWhatWasAdded(a);
    HoldsWhatWasAdded(b);
    var t, u := AddAll(a).value, AddAll(b).value;
    forall w ensures Find(t, w) == Find(u, w) {
      if Find(t, w).Some? { assert (w, Find(t, w).value) in a; }
      if Find(u, w).Some? { assert (w, Find(u, w).value) in b; }
    }
    Canonical(t, u);
  }

  // ---------- Looking a word up ----------

  datatype Lookup<P> = Found(prop: Option<P>) | OutOfRange

  /** The lookup as it is coded, from code point i of w on: the length test compares the label
      with the whole word and not with what is left of it. */
  function GetWordProperty<P>(t: Trie<P>, w: Word, i: nat): Lookup<P>
    requires i <= |w|
  {
    match t
    case Nil => Found(None)
    case Cons(l, p, c, r) =>
      if i == |w| || l == [] then Found(None)
      else if w[i] < l[0] then GetWordProperty(r, w, i)
      else if w[i] > l[0] || |w| < |l| then Found(None)
      else if |w| - i < |l| then (if w[i..] <= l then OutOfRange else Found(None))
      else if w[i..i + |l|] != l then Found(None)
      else if i + |l| == |w| then Found(p)
      else GetWordProperty(c, w, i + |l|)
  }

  /** Below the first level, w ends inside a label that is no longer than w. */
  predicate EndsInside<P>(t: Trie<P>, w: Word, i: nat)
    requires i <= |w|
  {
    match t
    case Nil => false
    case Cons(l, p, c, r) =>
      i < |w| && l != [] &&
      (if w[i] < l[0] then EndsInside(r, w, i)
       else if |w| - i < |l| then |l| <= |w| && w[i..] <= l
       else l <= w[i..] && EndsInside(c, w, i + |l|))
  }

  lemma {:induction false} LookupByLabels<P>(t: Trie<P>, w: Word, i: nat)
    requires WellFormed(t) && i <= |w|
    ensures GetWordProperty(t, w, i) == if EndsInside(t, w, i) then OutOfRange else Found(Find(t, w[i..]))
    decreases t
  {
    match t
    case Nil =>
    case Cons(l, p, c, r) =>
      if i < |w| {
        if w[i] < l[0] {
          LookupByLabels(r, w, i);
        } else if |l| <= |w| - i {
          assert w[i..][..|l|] == w[i..i + |l|];
          assert w[i..][|l|..] == w[i + |l|..];
          LookupByLabels(c, w, i + |l|);
        }
      }
  }

  /** A place where a node ends: a word, or a branch point. */
  ghost predicate Stop<P>(t: Trie<P>, q: Word) { IsWord(t, q) || BranchPoint(t, q) }

  /** w ends between two stops p and q with none in between, p being the beginning of all words
      if there is none, and q lies at most `len` code points after p. */
  ghost predicate EndsBetween<P>(t: Trie<P>, w: Word, len: nat, p: Word, q: Word) {
    && p < w < q && (p == [] || Stop(t, p)) && Stop(t, q)
    && (forall r :: p < r < q ==> !Stop(t, r))
    && |q| - |p| <= len
  }

  lemma StopBelow<P>(t: Trie<P>, q: Word)
    requires WellFormed(t) && Stop(t, q) && q != []
    ensures t.Cons? && q[0] <= t.edge[0] && (q[0] == t.edge[0] ==> t.edge <= q)
  {
    if IsWord(t, q) {
      FoundBelow(t, q);
    } else {
      var u, v :| IsWord(t, u) && IsWord(t, v) && PartAfter(q, u, v);
      FoundBelow(t, u);
      assert u[0] == u[..|q|][0];
      if q[0] == t.edge[0] { EdgeBefore(t, q); }
    }
  }

  lemma StopInRest<P>(t: Trie<P>, q: Word)
    requires WellFormed(t) && t.Cons? && q != [] && q[0] < t.edge[0]
    ensures Stop(t, q) <==> Stop(t.rest, q)
  {
    forall u | u != [] && u[0] == q[0] ensures IsWord(t, u) <==> IsWord(t.rest, u) { FindInRest(t, u); }
  }

  lemma StopInChildren<P>(t: Trie<P>, q: Word)
    requires WellFormed(t) && t.Cons? && q != []
    ensures Stop(t, t.edge + q) <==> Stop(t.children, q)
  {
    FindUnder(t.edge, t.prop, t.children, t.rest, q);
    BranchInChildren(t, q);
  }

  lemma StopAtLabel<P>(t: Trie<P>)
    requires WellFormed(t) && t.Cons?
    ensures Stop(t, t.edge)
  {
    if t.prop.Some? {
      FindUnder(t.edge, t.prop, t.children, t.rest, []);
      assert t.edge + [] == t.edge;
    } else {
      LabelBranches(t);
    }
  }
  lemma BetweenInRest<P>(t: Trie<P>, w: Word, len: nat, p: Word, q: Word)
    requires WellFormed(t) && t.Cons? && w != [] && w[0] < t.edge[0]
    ensures EndsBetween(t, w, len, p, q) <==> EndsBetween(t.rest, w, len, p, q)
  {
    forall r | r != [] && r[0] == w[0] ensures Stop(t, r) <==> Stop(t.rest, r) { StopInRest(t, r); }
  }

  lemma BetweenInChildren<P>(t: Trie<P>, w: Word, len: nat, p: Word, q: Word)
    requires WellFormed(t) && t.Cons?
    ensures EndsBetween(t.children, w, len, p, q) <==> EndsBetween(t, t.edge + w, len, t.edge + p, t.edge + q)
  {
    var l, c := t.edge, t.children;
    StopAtLabel(t);
    assert l + [] == l;
    assert p < w < q <==> l + p < l + w < l + q by {
      assert (l + p)[|l|..] == p && (l + w)[|l|..] == w && (l + q)[|l|..] == q;
    }
    forall r | r != [] ensures Stop(t, l + r) <==> Stop(c, r) { StopInChildren(t, r); }
    if p < w < q {
      forall r | p < r < q ensures l + p < l + r < l + q && (l + r)[|l|..] == r {
      }
      forall r | l + p < r < l + q ensures r == l + r[|l|..] && p < r[|l|..] < q {
        assert (l + p)[|l|..] == p && (l + q)[|l|..] == q;
      }
    }
  }

  /** A word that ends before the first label does ends between the root and that label. */
  lemma BetweenInLabel<P>(t: Trie<P>, w: Word, len: nat, p: Word, q: Word)
    requires WellFormed(t) && t.Cons? && w != [] && w[0] == t.edge[0]
    ensures w < t.edge && |t.edge| <= len ==> EndsBetween(t, w, len, [], t.edge)
    ensures EndsBetween(t, w, len, p, q) ==>
              (w < t.edge && |t.edge| <= len) || (t.edge <= w && t.edge <= p && t.edge <= q)
  {
    StopAtLabel(t);
    forall r | r != [] && r[0] == w[0] && Stop(t, r) ensures t.edge <= r { StopBelow(t, r); }
  }

  /** Ending inside a label, label by label and in terms of the words. */
  lemma {:induction false} EndsInsideIff<P>(t: Trie<P>, w: Word, i: nat)
    requires WellFormed(t) && i <= |w|
    ensures EndsInside(t, w, i) <==> exists p, q :: EndsBetween(t, w[i..], |w|, p, q)
    decreases t
  {
    var v, len := w[i..], |w|;
    if i == |w| {
    } else if t.Nil? || v[0] > t.edge[0] {
      forall q | q != [] && q[0] == v[0] ensures !Stop(t, q) {
        if Stop(t, q) { StopBelow(t, q); }
      }
    } else if v[0] < t.edge[0] {
      EndsInsideIff(t.rest, w, i);
      forall p, q ensures EndsBetween(t, v, len, p, q) <==> EndsBetween(t.rest, v, len, p, q) {
        BetweenInRest(t, v, len, p, q);
      }
    } else {
      EndsInLabelIff(t, w, i);
    }
  }

  lemma {:induction false} EndsInLabelIff<P>(t: Trie<P>, w: Word, i: nat)
    requires WellFormed(t) && t.Cons? && i < |w| && w[i] == t.edge[0]
    ensures EndsInside(t, w, i) <==> exists p, q :: EndsBetween(t, w[i..], |w|, p, q)
    decreases t, 0
  {
    hide EndsBetween;
    var v, len, l := w[i..], |w|, t.edge;
    BetweenInLabel(t, v, len, [], l);
    forall p, q | EndsBetween(t, v, len, p, q)
      ensures (v < l && |l| <= len) || (l <= v && l <= p && l <= q)
    {
      BetweenInLabel(t, v, len, p, q);
    }
    if l <= v {
      EndsInsideIff(t.children, w, i + |l|);
      BetweenBehindLabel(t, v, len);
      assert v[|l|..] == w[i + |l|..];
    }
  }

  lemma BetweenBehindLabel<P>(t: Trie<P>, w: Word, len: nat)
    requires WellFormed(t) && t.Cons? && t.edge <= w
    ensures (exists p, q :: EndsBetween(t, w, len, p, q)) <==>
            exists p, q :: EndsBetween(t.children, w[|t.edge|..], len, p, q)
  {
    hide EndsBetween;
    var l, w' := t.edge, w[|t.edge|..];
    assert w == l + w';
    forall p, q ensures EndsBetween(t.children, w', len, p, q) <==> EndsBetween(t, w, len, l + p, l + q) {
      BetweenInChildren(t, w', len, p, q);
    }
    if exists p, q :: EndsBetween(t, w, len, p, q) {
      var p, q :| EndsBetween(t, w, len, p, q);
      BetweenInLabel(t, w, len, p, q);
      assert p == l + p[|l|..] && q == l + q[|l|..];
      assert EndsBetween(t.children, w', len, p[|l|..], q[|l|..]);
    }
  }

  /** In terms of the words: looking w up reads past its end if and only if w ends between two
      neighbouring stops that are no further apart than w is long.  Otherwise the lookup is right. */
  lemma LookupExact<P>(t: Trie<P>, w: Word)
    requires WellFormed(t)
    ensures GetWordProperty(t, w, 0).OutOfRange? <==> exists p, q :: EndsBetween(t, w, |w|, p, q)
    ensures GetWordProperty(t, w, 0).Found? ==> GetWordProperty(t, w, 0) == Found(Find(t, w))
  {
    assert w[0..] == w;
    LookupByLabels(t, w, 0);
    EndsInsideIff(t, w, 0);
  }

  /** Only a proper beginning of some word, itself no word, can be read past. */
  lemma {:induction false} OutOfRangeOnlyForBeginnings<P>(t: Trie<P>, w: Word, i: nat) returns (u: Word)
    requires WellFormed(t) && i <= |w| && EndsInside(t, w, i)
    ensures w[i..] < u && IsWord(t, u) && !IsWord(t, w[i..])
    decreases t
  {
    var l, c := t.edge, t.children;
    if w[i] < l[0] {
      u := OutOfRangeOnlyForBeginnings(t.rest, w, i);
      FoundBelow(t.rest, u);
      assert u[0] == w[i..][0];
    } else if |w| - i < |l| {
      u := SomeWord(t);
      assert !(l <= w[i..]) && w[i..][0] == l[0];
    } else {
      u := OutOfRangeOnlyForBeginnings(c, w, i + |l|);
      var v := w[i + |l|..];
      assert w[i..] == l + v;
      FindUnder(l, t.prop, c, t.rest, u);
      FindUnder(l, t.prop, c, t.rest, v);
      u := l + u;
    }
  }

  /** With the words "ab" and "abcd", looking up "abc" reads a fourth code point. */
  lemma LookupCanReadPast<P>(x: P)
    ensures WellFormed(TwoWords(x)) && GetWordProperty(TwoWords(x), ABC, 0) == OutOfRange
  {
    assert ABC[0..2] == AB && ABC[2..] == [99];
    assert GetWordProperty(TwoWords(x).children, ABC, 2) == OutOfRange;
  }

  function TwoWords<P>(x: P): Trie<P> { Cons(AB, Some(x), Cons([99, 100], Some(x), Nil, Nil), Nil) }

  // ---------- An order that faults ----------

  const A: int := 97
  const AB: Word := [97, 98]
  const ABC: Word := [97, 98, 99]
  const ABD: Word := [97, 98, 100]
  const AX: Word := [97, 120]

  lemma SharedPrefixes()
    ensures CommonPrefix(ABD, ABC) == 2 && CommonPrefix(AX, ABC) == 1 && CommonPrefix(AX, AB) == 1
    ensures CommonPrefix(ABD, [A]) == 1
  {
    SharedIsCommon(ABD, ABC, 2);
    SharedIsCommon(AX, ABC, 1);
    SharedIsCommon(AX, AB, 1);
    SharedIsCommon(ABD, [A], 1);
  }

  const NOTHING: Trie<int> := Nil

  function Leaf(l: Word, x: int, rest: Trie<int>): Trie<int> { Cons(l, Some(x), Nil, rest) }

  /** Once "abc" and "abd" are there, adding "ax" divides the inner node "ab": a fault.  In
      the order "abc", "ax", "abd" the same words are added without one. */
  lemma SomeOrdersFault()
    ensures AddAll([(ABC, 1), (ABD, 2)]).Some? && AddAll([(ABC, 1), (ABD, 2), (AX, 3)]) == None
    ensures AddWord(AddAll([(ABC, 1), (ABD, 2)]).value, AX, 3) == Fault
    ensures AddAll([(ABC, 1), (AX, 3), (ABD, 2)]).Some?
  {
    SharedPrefixes();
    var one := AddFirst();
    AddOne([], (ABC, 1), NOTHING, one);
    assert [] + [(ABC, 1)] == [(ABC, 1)];
    var two := Cons(AB, None, Leaf([100], 2, Leaf([99], 1, Nil)), Nil);
    assert AddWord(one, ABD, 2) == Added(two) by {
      InsertBranch(Leaf([99], 1, Nil), [100], 2);
      assert ABC[2..] == [99] && ABD[2..] == [100] && ABD[..2] == AB;
    }
    AddOne([(ABC, 1)], (ABD, 2), one, two);
    assert [(ABC, 1)] + [(ABD, 2)] == [(ABC, 1), (ABD, 2)];
    AddLast([(ABC, 1), (ABD, 2)], (AX, 3));
    assert [(ABC, 1), (ABD, 2)] + [(AX, 3)] == [(ABC, 1), (ABD, 2), (AX, 3)];
    var three := Cons([A], None, Leaf([120], 3, Leaf([98, 99], 1, Nil)), Nil);
    assert AddWord(one, AX, 3) == Added(three) by {
      InsertBranch(Leaf([98, 99], 1, Nil), [120], 3);
      assert ABC[1..] == [98, 99] && AX[1..] == [120] && AX[..1] == [A];
    }
    AddOne([(ABC, 1)], (AX, 3), one, three);
    assert [(ABC, 1)] + [(AX, 3)] == [(ABC, 1), (AX, 3)];
    AddUnderA(three);
    AddLast([(ABC, 1), (AX, 3)], (ABD, 2));
    assert [(ABC, 1), (AX, 3)] + [(ABD, 2)] == [(ABC, 1), (AX, 3), (ABD, 2)];
  }

  function AddFirst(): Trie<int> { Leaf(ABC, 1, Nil) }

  lemma AddUnderA(t: Trie<int>)
    requires t == Cons([A], None, Leaf([120], 3, Leaf([98, 99], 1, Nil)), Nil)
    ensures AddWord(t, ABD, 2).Added?
  {
    SharedPrefixes();
    var c := Leaf([98, 99], 1, Nil);
    assert ABD[1..] == [98, 100];
    SharedIsCommon([98, 100], [98, 99], 1);
    assert [98, 100][1..] == [100] && [98, 99][1..] == [99];
    InsertBranch(Leaf([99], 1, Nil), [100], 2);
    assert !DividesInner(c, [98, 100]);
    assert Insert(c, [98, 100], 2).Some?;
    var d := Leaf([120], 3, c);
    assert Insert(d, [98, 100], 2).Some? && !DividesInner(d, [98, 100]);
    assert t.children == d && CommonPrefix(ABD, t.edge) == 1;
    assert !DividesInner(t, ABD) && Insert(t, ABD, 2).Some?;
  }

  lemma AddOne(ws: seq<(Word, int)>, e: (Word, int), t: Trie<int>, t': Trie<int>)
    requires AddAll(ws) == Some(t) && AddWord(t, e.0, e.1) == Added(t')
    ensures AddAll(ws + [e]) == Some(t')
  {
    assert (ws + [e])[..|ws|] == ws;
  }

  lemma AddLast(ws: seq<(Word, int)>, e: (Word, int))
    requires AddAll(ws).Some?
    ensures AddAll(ws + [e]).Some? <==> AddWord(AddAll(ws).value, e.0, e.1).Added?
  {
    assert (ws + [e])[..|ws|] == ws;
  }
}
