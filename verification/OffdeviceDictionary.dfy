/** The in-memory dictionary: arrays of shared nodes, changed in place while a word is added. */
module OffdeviceDictionary {
  import opened Wrappers
  import opened PatriciaTrie
  import opened DictionaryRuns
  import opened TrieRows

  datatype WordProperty = WordProperty(codePoints: Word, attributes: seq<int>)

  /** A node: its label, its property if it ends a word, and its children.  Only the array of
      children ever changes. */
  class PtNode {
    const edge: Word
    const prop: Option<WordProperty>
    const children: PtNodeArray

    constructor NonTerminal(edge: Word)
      ensures this.edge == edge && prop == None && fresh(children)
      ensures children.Valid() && children.Repr == {children} && children.trie == Nil && children.nodes == []
    {
      var c := new PtNodeArray();
      this.edge, this.prop, this.children := edge, None, c;
    }

    constructor Terminal(edge: Word, property: WordProperty)
      ensures this.edge == edge && prop == Some(property) && fresh(children)
      ensures children.Valid() && children.Repr == {children} && children.trie == Nil && children.nodes == []
    {
      var c := new PtNodeArray();
      this.edge, this.prop, this.children := edge, Some(property), c;
    }

    /** The node with another label.  The copied property is dereferenced. */
    constructor WithEdge(edge: Word, node: PtNode)
      requires node.prop.Some? && node.children.Valid()
      ensures this.edge == edge && prop == node.prop && fresh(children)
      ensures children.Valid() && children.nodes == node.children.nodes && children.trie == node.children.trie
      ensures children.Repr == node.children.Repr - {node.children} + {children}
    {
      var c := new PtNodeArray.Copy(node.children);
      this.edge, this.prop, this.children := edge, Some(node.prop.value), c;
    }

    /** The node with another property. */
    constructor WithProperty(property: WordProperty, node: PtNode)
      requires node.children.Valid()
      ensures edge == node.edge && prop == Some(property) && fresh(children)
      ensures children.Valid() && children.nodes == node.children.nodes && children.trie == node.children.trie
      ensures children.Repr == node.children.Repr - {node.children} + {children}
    {
      var c := new PtNodeArray.Copy(node.children);
      this.edge, this.prop, this.children := node.edge, Some(property), c;
    }
  }

  /** No two of the sets share an element. */
  ghost predicate PairwiseDisjoint<T>(sets: seq<set<T>>) {
    forall i, j :: 0 <= i < j < |sets| ==> sets[i] !! sets[j]
  }

  ghost predicate DisjointFromAll<T>(s: set<T>, sets: seq<set<T>>) {
    forall i :: 0 <= i < |sets| ==> s !! sets[i]
  }

  lemma DisjointInserted<T>(sets: seq<set<T>>, k: nat, s: set<T>)
    requires PairwiseDisjoint(sets) && k <= |sets| && DisjointFromAll(s, sets)
    ensures PairwiseDisjoint(sets[..k] + [s] + sets[k..])
  {
    var r := sets[..k] + [s] + sets[k..];
    forall i, j | 0 <= i < j < |r| ensures r[i] !! r[j] {
      assert i != k ==> r[i] == sets[if i < k then i else i - 1];
      assert j != k ==> r[j] == sets[if j < k then j else j - 1];
    }
  }

  lemma DisjointReplaced<T>(sets: seq<set<T>>, k: nat, s: set<T>, all: set<T>)
    requires PairwiseDisjoint(sets) && k < |sets| && forall i :: 0 <= i < |sets| ==> sets[i] <= all
    requires s !! all - sets[k]
    ensures PairwiseDisjoint(sets[k := s])
  {
    forall i | 0 <= i < |sets| && i != k ensures s !! sets[i] {
      assert sets[i] !! sets[k];
    }
  }

  class PtNodeArray {
    var nodes: seq<PtNode>
    ghost var Repr: set<PtNodeArray>
    ghost var trie: Trie<WordProperty>

    ghost predicate Valid()
      reads this, Repr
      decreases Repr
    {
      && this in Repr
      && (forall n :: n in nodes ==> n.children in Repr && Holds(n) && n.children.Valid())
      && PairwiseDisjoint(Reprs())
      && trie == Assemble(Rows())
    }

    /** The node's children are a part of this array of their own. */
    ghost predicate Holds(n: PtNode)
      reads this`Repr, n.children
    {
      n.children.Repr <= Repr - {this} && n.children in n.children.Repr
    }

    ghost function Reprs(): (r: seq<set<PtNodeArray>>)
      reads this`nodes, set n | n in nodes :: n.children
    {
      ReprsOf(nodes)
    }

    static ghost function ReprsOf(ns: seq<PtNode>): (r: seq<set<PtNodeArray>>)
      reads set n | n in ns :: n.children
      ensures |r| == |ns|
    {
      seq(|ns|, i requires 0 <= i < |ns| reads set n | n in ns :: n.children => ns[i].children.Repr)
    }

    ghost function Rows(): (r: seq<Row<WordProperty>>)
      reads this`nodes, set n | n in nodes :: n.children
    {
      RowsOf(nodes)
    }

    static ghost function RowsOf(ns: seq<PtNode>): (r: seq<Row<WordProperty>>)
      reads set n | n in ns :: n.children
      ensures |r| == |ns|
    {
      seq(|ns|, i requires 0 <= i < |ns| reads set n | n in ns :: n.children => RowOf(ns[i]))
    }

    static ghost function RowOf(n: PtNode): Row<WordProperty>
      reads n.children
    {
      Row(n.edge, n.prop, n.children.trie)
    }

    constructor ()
      ensures Valid() && Repr == {this} && nodes == [] && trie == Nil
    {
      nodes, Repr, trie := [], {this}, Nil;
    }

    constructor Copy(from: PtNodeArray)
      requires from.Valid()
      ensures Valid() && nodes == from.nodes && trie == from.trie && Repr == from.Repr - {from} + {this}
    {
      nodes, Repr, trie := from.nodes, from.Repr - {from} + {this}, from.trie;
      new;
      assert Rows() == from.Rows() && Reprs() == from.Reprs();
    }

    /** What is valid about a valid array, for those who do not look inside. */
    lemma Parts()
      requires Valid()
      ensures this in Repr && trie == Assemble(Rows())
      ensures forall n :: n in nodes ==>
                n.children.Valid() && n.children.Repr <= Repr - {this} && n.children in n.children.Repr
    {
    }

    lemma Separate(k: nat)
      requires Valid() && k < |nodes|
      ensures PairwiseDisjoint(Reprs()) && trie == Assemble(Rows())
      ensures forall i :: 0 <= i < |nodes| ==> nodes[i].children.Valid() && Reprs()[i] <= Repr - {this}
      ensures forall i :: 0 <= i < |nodes| && i != k ==>
                nodes[i].children in Reprs()[i] && Reprs()[i] !! nodes[k].children.Repr
    {
      forall i | 0 <= i < |nodes| ensures nodes[i].children.Valid() && Reprs()[i] <= Repr - {this} {
        assert Holds(nodes[i]);
      }
      forall i | 0 <= i < |nodes| && i != k
        ensures nodes[i].children in Reprs()[i] && Reprs()[i] !! nodes[k].children.Repr {
        assert Holds(nodes[i]) && Reprs()[i] !! Reprs()[k];
      }
    }

    method InsertAt(k: nat, n: PtNode)
      requires Valid() && k <= |nodes| && n.children.Valid() && n.children in n.children.Repr && n.children.Repr !! Repr
      modifies this
      ensures Valid() && nodes == old(nodes[..k] + [n] + nodes[k..]) && Repr == old(Repr) + n.children.Repr
      ensures trie == Assemble(old(Rows()[..k] + [RowOf(n)] + Rows()[k..]))
    {
      hide PairwiseDisjoint, Assemble;
      ghost var rows, reprs := Rows(), Reprs();
      DisjointInserted(reprs, k, n.children.Repr);
      nodes := nodes[..k] + [n] + nodes[k..];
      Repr := Repr + n.children.Repr;
      trie := Assemble(rows[..k] + [RowOf(n)] + rows[k..]);
      assert Rows() == rows[..k] + [RowOf(n)] + rows[k..];
      assert Reprs() == reprs[..k] + [n.children.Repr] + reprs[k..];
    }

    /** The new node may go on with the old one's grandchildren. */
    method ReplaceAt(k: nat, n: PtNode)
      requires Valid() && k < |nodes| && n.children.Valid() && n.children in n.children.Repr && this !in n.children.Repr
      requires n.children.Repr !! Repr - nodes[k].children.Repr
      modifies this
      ensures Valid() && nodes == old(nodes[k := n]) && Repr == old(Repr) + n.children.Repr
      ensures trie == Assemble(old(Rows()[k := RowOf(n)]))
    {
      hide PairwiseDisjoint, Assemble;
      ghost var rows, reprs := Rows(), Reprs();
      DisjointReplaced(reprs, k, n.children.Repr, Repr);
      nodes := nodes[..k] + [n] + nodes[k + 1..];
      Repr := Repr + n.children.Repr;
      trie := Assemble(rows[k := RowOf(n)]);
      assert Rows() == rows[k := RowOf(n)];
      assert Reprs() == reprs[k := n.children.Repr];
    }
  }

  datatype Outcome = Inserted | Refused | Crashed

  class OffdeviceIntermediateDict {
    const root: PtNodeArray

    constructor ()
      ensures fresh(root) && root.Valid() && root.trie == Nil && fresh(root.Repr)
    {
      root := new PtNodeArray();
    }

    /** Adds the word under its property's code points. */
    method AddWord(property: WordProperty) returns (result: Outcome)
      requires root.Valid() && WellFormed(root.trie)
      modifies root.Repr
      ensures match DictionaryRuns.AddWord(old(root.trie), property.codePoints, property)
              case Added(t) => result == Inserted && root.Valid() && root.trie == t && fresh(root.Repr - old(root.Repr))
              case Rejected => result == Refused && root.Valid() && root.trie == old(root.trie)
                && fresh(root.Repr - old(root.Repr))
              case Fault => result == Crashed
    {
      if property.codePoints == [] || |property.codePoints| > MAX_WORD_LENGTH {
        return Refused;
      }
      result := AddWordInner(property.codePoints, property, root);
    }

    static method AddWordInner(w: Word, x: WordProperty, siblings: PtNodeArray) returns (result: Outcome)
      requires w != [] && siblings.Valid() && WellFormed(siblings.trie)
      modifies siblings.Repr
      ensures result == Crashed <==> DividesInner(old(siblings.trie), w)
      ensures result == Inserted ==> Insert(old(siblings.trie), w, x) == Some(siblings.trie)
      ensures result == Refused ==> Insert(old(siblings.trie), w, x) == None && siblings.trie == old(siblings.trie)
      ensures result != Crashed ==>
              siblings.Valid() && old(siblings.Repr) <= siblings.Repr && fresh(siblings.Repr - old(siblings.Repr))
      decreases |w|, 1
    {
      hide PtNodeArray.Valid, Assemble, Insert, DividesInner, WellFormed, CommonPrefix, AllBefore;
      siblings.Parts();
      var k := FindPlace(siblings, w);
      ghost var rows := siblings.Rows();
      if k == |siblings.nodes| || siblings.nodes[k].edge[0] < w[0] {
        AddAtRow(rows, k, w, x);
        var node := new PtNode.Terminal(w, x);
        siblings.InsertAt(k, node);
        return Inserted;
      }
      RowsWellFormed(rows, k);
      var edge := siblings.nodes[k].edge;
      var i := SharedLength(w, edge);
      if i == |edge| && i < |w| {
        AddBelow(rows, k, w, x);
        result := AddInChild(w[i..], x, siblings, k);
      } else if i == |w| && i == |edge| {
        AddAtSameWord(rows, k, w, x);
        if siblings.nodes[k].prop.Some? {
          return Refused;
        }
        var node := new PtNode.WithProperty(x, siblings.nodes[k]);
        siblings.ReplaceAt(k, node);
        result := Inserted;
      } else {
        result := DivideNode(w, x, siblings, k, i);
      }
    }

    /** The first node that does not come before w. */
    static method FindPlace(siblings: PtNodeArray, w: Word) returns (k: nat)
      requires w != [] && siblings.Valid() && WellFormed(siblings.trie)
      ensures k <= |siblings.nodes| && AllBefore(siblings.Rows()[..k], w[0])
      ensures k < |siblings.nodes| ==> siblings.nodes[k].edge != [] && siblings.nodes[k].edge[0] <= w[0]
    {
      k := 0;
      while k < |siblings.nodes|
        invariant k <= |siblings.nodes| && AllBefore(siblings.Rows()[..k], w[0])
      {
        RowsWellFormed(siblings.Rows(), k);
        if w[0] >= siblings.nodes[k].edge[0] {
          return;
        }
        k := k + 1;
      }
    }

    static method SharedLength(w: Word, edge: Word) returns (i: nat)
      requires w != [] && edge != [] && w[0] == edge[0]
      ensures i == CommonPrefix(w, edge)
      ensures i == |edge| ==> edge <= w
    {
      i := 1;
      while i < |w| && i < |edge| && w[i] == edge[i]
        invariant i <= |w| && i <= |edge| && w[..i] == edge[..i]
      {
        i := i + 1;
      }
      SharedIsCommon(w, edge, i);
    }

    static method AddInChild(w: Word, x: WordProperty, siblings: PtNodeArray, k: nat) returns (result: Outcome)
      requires w != [] && siblings.Valid() && k < |siblings.nodes| && WellFormed(siblings.nodes[k].children.trie)
      modifies siblings.Repr
      ensures result == Crashed <==> DividesInner(old(siblings.nodes[k].children.trie), w)
      ensures result == Refused ==>
              Insert(old(siblings.nodes[k].children.trie), w, x) == None && siblings.trie == old(siblings.trie)
      ensures result == Inserted ==>
                match Insert(old(siblings.nodes[k].children.trie), w, x)
                case None => false
                case Some(c) => siblings.trie == Assemble(old(siblings.Rows()[k := siblings.Rows()[k].(children := c)]))
      ensures result != Crashed ==>
              siblings.Valid() && old(siblings.Repr) <= siblings.Repr && fresh(siblings.Repr - old(siblings.Repr))
      decreases |w|, 2
    {
      hide Assemble, Insert, DividesInner, WellFormed, PairwiseDisjoint;
      ghost var rows, reprs, all := siblings.Rows(), siblings.Reprs(), siblings.Repr;
      var child := siblings.nodes[k].children;
      siblings.Separate(k);
      result := AddWordInner(w, x, child);
      if result == Crashed {
        return;
      }
      assert rows[k].(children := child.trie) == PtNodeArray.RowOf(siblings.nodes[k]);
      assert child.trie == rows[k].children ==> rows[k := PtNodeArray.RowOf(siblings.nodes[k])] == rows;
      siblings.Repr := siblings.Repr + child.Repr;
      siblings.trie := Assemble(rows[k := rows[k].(children := child.trie)]);
      ChildGrew(siblings, k, rows, reprs, all);
    }

    /** The array is valid again once its ghost state takes in the changed child. */
    static lemma ChildGrew(siblings: PtNodeArray, k: nat, rows: seq<Row<WordProperty>>, reprs: seq<set<PtNodeArray>>,
                           all: set<PtNodeArray>)
      requires k < |siblings.nodes| && |rows| == |reprs| == |siblings.nodes| && siblings in all
      requires PairwiseDisjoint(reprs) && forall i :: 0 <= i < |reprs| ==> reprs[i] <= all - {siblings}
      requires forall i :: 0 <= i < |reprs| ==> siblings.nodes[i].children.Valid()
      requires forall i :: 0 <= i < |reprs| && i != k ==>
                 siblings.nodes[i].children.Repr == reprs[i] && PtNodeArray.RowOf(siblings.nodes[i]) == rows[i]
      requires var c := siblings.nodes[k].children;
               && c.Repr !! all - reprs[k] && siblings !in c.Repr && siblings.Repr == all + c.Repr
               && siblings.trie == Assemble(rows[k := PtNodeArray.RowOf(siblings.nodes[k])])
      ensures siblings.Valid()
    {
      hide Assemble, PairwiseDisjoint;
      DisjointReplaced(reprs, k, siblings.nodes[k].children.Repr, all);
      assert siblings.Rows() == rows[k := PtNodeArray.RowOf(siblings.nodes[k])];
      assert siblings.Reprs() == reprs[k := siblings.nodes[k].children.Repr];
    }

    /** Node k shares only its first i code points with w: a new parent for the common part. */
    static method DivideNode(w: Word, x: WordProperty, siblings: PtNodeArray, k: nat, i: nat) returns (result: Outcome)
      requires w != [] && siblings.Valid() && WellFormed(siblings.trie) && MeetsRow(siblings.Rows(), k, w)
      requires i == CommonPrefix(w, siblings.nodes[k].edge) < |siblings.nodes[k].edge|
      modifies siblings.Repr
      ensures result == (if DividesInner(old(siblings.trie), w) then Crashed else Inserted)
      ensures result == Inserted ==> Insert(old(siblings.trie), w, x) == Some(siblings.trie)
      ensures result != Crashed ==>
              siblings.Valid() && old(siblings.Repr) <= siblings.Repr && fresh(siblings.Repr - old(siblings.Repr))
      decreases |w|, 0
    {
      hide PtNodeArray.Valid, Assemble, Insert, DividesInner, WellFormed, CommonPrefix, AllBefore;
      ghost var rows := siblings.Rows();
      siblings.Parts();
      AddDividing(rows, k, w, x, i);
      LowerWellFormed(rows, k, i);
      var parent := NewParent(w, x, siblings.nodes[k], i);
      if parent == null {
        return Crashed;
      }
      siblings.ReplaceAt(k, parent);
      siblings.Parts();
      result := Inserted;
      if i < |w| {
        ghost var divided := siblings.Rows();
        assert divided[k] == PtNodeArray.RowOf(parent);
        result := AddInChild(w[i..], x, siblings, k);
        ghost var c := Insert(Assemble([Lower(rows[k], i)]), w[i..], x).value;
        assert divided[k := divided[k].(children := c)] == rows[k := Row(w[..i], None, c)];
      }
    }

    /** The parent of the lower part of a node; null for the crash. */
    static method NewParent(w: Word, x: WordProperty, node: PtNode, i: nat) returns (parent: PtNode?)
      requires node.children.Valid() && node.children in node.children.Repr && 0 < i <= |w| && i < |node.edge|
      ensures parent == null <==> node.prop.None?
      ensures parent != null ==>
                var lower := Assemble([Lower(PtNodeArray.RowOf(node), i)]);
                && parent.children.Valid() && fresh(parent.children) && parent.children in parent.children.Repr
                && fresh(parent.children.Repr - old(node.children.Repr))
                && PtNodeArray.RowOf(parent) == if i == |w| then Row(w, Some(x), lower) else Row(w[..i], None, lower)
    {
      hide PtNodeArray.Valid, Assemble;
      var upper: PtNode;
      if i == |w| {
        upper := new PtNode.Terminal(w, x);
      } else {
        upper := new PtNode.NonTerminal(w[..i]);
      }
      if node.prop.None? {
        return null;
      }
      var lower := new PtNode.WithEdge(node.edge[i..], node);
      assert upper.children.Rows() == [] && PtNodeArray.RowOf(lower) == Lower(PtNodeArray.RowOf(node), i);
      upper.children.InsertAt(0, lower);
      assert [] + [Lower(PtNodeArray.RowOf(node), i)] + [] == [Lower(PtNodeArray.RowOf(node), i)];
      parent := upper;
    }

    /** The property of a word, read without changing anything. */
    method GetWordProperty(w: Word) returns (result: Lookup<WordProperty>)
      requires root.Valid() && WellFormed(root.trie)
      ensures result == DictionaryRuns.GetWordProperty(root.trie, w, 0)
    {
      hide PtNodeArray.Valid, Assemble, WellFormed, DictionaryRuns.GetWordProperty, AllBefore;
      var siblings := root;
      var i := 0;
      while i < |w|
        invariant i <= |w| && siblings.Valid() && WellFormed(siblings.trie)
        invariant DictionaryRuns.GetWordProperty(root.trie, w, 0) == DictionaryRuns.GetWordProperty(siblings.trie, w, i)
      {
        siblings.Parts();
        var k := FindPlace(siblings, w[i..]);
        ghost var rows := siblings.Rows();
        LookupAtRow(rows, k, w, i);
        if k == |siblings.nodes| {
          return Found(None);
        }
        var node := siblings.nodes[k];
        RowsWellFormed(rows, k);
        if w[i] > node.edge[0] || |w| < |node.edge| {
          return Found(None);
        }
        var mismatch, outside := Compare(w, i, node.edge);
        if outside {
          return OutOfRange;
        }
        if mismatch {
          return Found(None);
        }
        i := i + |node.edge|;
        if i == |w| {
          return Found(node.prop);
        }
        siblings := node.children;
      }
      LookupAtEnd(siblings.trie, w);
      result := Found(None);
    }

    /** Compares a label with w from i on, one code point after the other. */
    static method Compare(w: Word, i: nat, edge: Word) returns (mismatch: bool, outside: bool)
      requires i < |w| && edge != [] && w[i] == edge[0]
      ensures outside <==> |w| - i < |edge| && w[i..] <= edge
      ensures !outside ==> (mismatch <==> !(edge <= w[i..]))
    {
      var j := 1;
      while j < |edge|
        invariant 1 <= j <= |edge| && i + j <= |w| && w[i..i + j] == edge[..j]
      {
        if i + j == |w| {
          assert w[i..] == w[i..i + j] == edge[..j];
          return false, true;
        }
        if w[i + j] != edge[j] {
          assert w[i..][j] != edge[j];
          return true, false;
        }
        j := j + 1;
      }
      return false, false;
    }
  }
}
