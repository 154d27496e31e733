/** What holds throughout training, and that one merge keeps it. */
module TrainerInvariant {
  import opened Wrappers
  import opened TrainerSymbols

  function Weight(c: Corpus, ps: seq<Position>): nat {
    if ps == [] then 0
    else (if ps[0].sid < |c.weights| then c.weights[ps[0].sid] else 0) + Weight(c, ps[1..])
  }

  /** The recorded positions where the pair still stands. */
  function Standing(rows: seq<Row>, k: Symbol, ps: seq<Position>): (r: seq<Position>) {
    if ps == [] then []
    else if k.Pair? && At(rows, ps[0].sid, ps[0].left) == Some(k.left)
      && At(rows, ps[0].sid, ps[0].right) == Some(k.right)
    then [ps[0]] + Standing(rows, k, ps[1..])
    else Standing(rows, k, ps[1..])
  }

  // ---------- The cache ----------

  /** A cached pair is one the trainer would form, of symbols that stand or stood somewhere. */
  ghost predicate Formed(c: Corpus, k: Symbol, placed: set<Symbol>) {
    k.Pair? ==> k.left in placed && k.right in placed && PairOf(c, Some(k.left), Some(k.right)) == Some(k)
  }

  ghost predicate GapsAt(s: State, k: Symbol) {
    k in s.cache && Ascending(s.cache[k].positions) && forall p :: p in s.cache[k].positions ==> Gap(s.rows, p)
  }

  /** A frequency that is not 0 is what counting the recorded positions again would give. */
  ghost predicate ExactAt(c: Corpus, s: State, k: Symbol) {
    k in s.cache && (k.Pair? && s.cache[k].freq > 0 ==>
      && (forall p :: p in s.cache[k].positions ==> Stands(s.rows, k, p))
      && s.cache[k].freq == Weight(c, s.cache[k].positions))
  }

  ghost predicate CacheOk(c: Corpus, s: State, placed: set<Symbol>) {
    forall k :: k in s.cache ==> Formed(c, k, placed) && GapsAt(s, k)
  }

  ghost predicate ExactBut(c: Corpus, s: State, best: Option<Symbol>) {
    forall k :: k in s.cache && Some(k) != best ==> ExactAt(c, s, k)
  }

  /** Pairs with the new symbol have not been counted yet. */
  ghost predicate Uncounted(s: State, best: Symbol) {
    forall k :: k in s.cache && k.Pair? && (k.left == best || k.right == best) ==> s.cache[k].freq == 0
  }

  // ---------- The rows ----------

  ghost predicate AllPlaced(rows: seq<Row>, placed: set<Symbol>) {
    forall sid, i :: 0 <= sid < |rows| && 0 <= i < |rows[sid]| && rows[sid][i].Some? ==> rows[sid][i].value in placed
  }

  /** Every pair of neighbours is recorded, unless its string has been merged already. */
  ghost predicate ListedAt(c: Corpus, s: State, dup: set<seq<int>>, p: Position) {
    Adjacent(s.rows, p) && PairAt(c, s.rows, p.sid, p.left, p.right).Some? ==>
      var k := PairAt(c, s.rows, p.sid, p.left, p.right).value;
      Chars(k) !in dup ==> k in s.cache && p in s.cache[k].positions
  }

  ghost predicate Listed(c: Corpus, s: State, dup: set<seq<int>>) {
    forall p :: ListedAt(c, s, dup, p)
  }

  function Spelled(row: Row): seq<int> {
    if row == [] then [] else (if row[0].Some? then Chars(row[0].value) else []) + Spelled(row[1..])
  }

  ghost predicate TextsKept(c: Corpus, rows: seq<Row>) {
    |rows| == |c.texts| && forall sid :: 0 <= sid < |rows| ==> Spelled(rows[sid]) == c.texts[sid]
  }

  // ---------- Neighbours are unique ----------

  lemma RightNeighbour(rows: seq<Row>, p: Position, q: Position)
    requires Adjacent(rows, p) && Adjacent(rows, q) && p.sid == q.sid && p.left == q.left
    ensures p == q
  {
  }

  lemma LeftNeighbour(rows: seq<Row>, p: Position, q: Position)
    requires Adjacent(rows, p) && Adjacent(rows, q) && p.sid == q.sid && p.right == q.right
    ensures p == q
  {
  }

  lemma NextNeighbour(rows: seq<Row>, q: Position)
    requires Adjacent(rows, q)
    ensures Next(rows[q.sid], q.left) == q.right && Prev(rows[q.sid], q.right) == q.left
  {
  }

  // ---------- Text ----------

  lemma {:induction false} SpelledInTwo(row: Row, i: nat)
    requires i <= |row|
    ensures Spelled(row) == Spelled(row[..i]) + Spelled(row[i..])
  {
    if i == 0 {
      assert row[..0] == [] && row[0..] == row;
    } else {
      assert row[..i][1..] == row[1..][..i - 1] && row[i..] == row[1..][i - 1..];
      SpelledInTwo(row[1..], i - 1);
    }
  }

  function One(x: Option<Symbol>): seq<int> { if x.Some? then Chars(x.value) else [] }

  /** Positions that hold nothing spell nothing. */
  lemma {:induction false} SpelledSkips(row: Row, l: nat, r: nat)
    requires l <= r < |row| && forall i :: l <= i < r ==> row[i].None?
    ensures Spelled(row[l..]) == Spelled(row[r..])
    decreases r - l
  {
    if l < r {
      SpelledFirst(row, l);
      SpelledSkips(row, l + 1, r);
      assert [] + Spelled(row[l + 1..]) == Spelled(row[l + 1..]);
    }
  }

  lemma SpelledParts(row: Row, l: nat, r: nat)
    requires l < r < |row| && forall i :: l < i < r ==> row[i].None?
    ensures Spelled(row) == Spelled(row[..l]) + (One(row[l]) + (One(row[r]) + Spelled(row[r + 1..])))
  {
    hide Spelled;
    SpelledInTwo(row, l);
    SpelledFirst(row, l);
    SpelledSkips(row, l + 1, r);
    SpelledFirst(row, r);
  }

  lemma SpelledFirst(row: Row, i: nat)
    requires i < |row|
    ensures Spelled(row[i..]) == One(row[i]) + Spelled(row[i + 1..])
  {
    assert row[i..][1..] == row[i + 1..];
  }

  /** Merging two neighbours does not change the text. */
  lemma ReplaceSpells(row: Row, l: nat, r: nat, k: Symbol)
    requires l < r < |row| && k.Pair? && row[l] == Some(k.left) && row[r] == Some(k.right)
    requires forall i :: l < i < r ==> row[i].None?
    ensures Spelled(row[l := Some(k)][r := None]) == Spelled(row)
  {
    hide Spelled;
    var r' := row[l := Some(k)][r := None];
    SpelledParts(row, l, r);
    SpelledParts(r', l, r);
    assert r'[..l] == row[..l] && r'[r + 1..] == row[r + 1..];
    var rest := Spelled(row[r + 1..]);
    assert One(r'[l]) + ([] + rest) == One(row[l]) + (One(row[r]) + rest);
  }
}
