/** How often a pair stands in the corpus, counted over the rows themselves, and what the frequency of
    a counted pair says about that. */
module TrainerCounts {
  import opened Wrappers
  import opened TrainerSymbols
  import opened TrainerInvariant
  import opened TrainerMerge
  import opened TrainerRounds

  /** The places of sentence sid where the two symbols of k are neighbours. */
  ghost function Places(rows: seq<Row>, k: Symbol, sid: nat): (r: set<Position>)
    ensures forall p :: p in r <==> p.sid == sid && Adjacent(rows, p) && Stands(rows, k, p)
  {
    if sid < |rows| then
      set l: nat, r: nat | l < |rows[sid]| && r < |rows[sid]| && Adjacent(rows, Position(sid, l, r))
        && Stands(rows, k, Position(sid, l, r)) :: Position(sid, l, r)
    else {}
  }

  /** Every place of the first n sentences, with the weight of its sentence. */
  ghost function Total(c: Corpus, rows: seq<Row>, k: Symbol, n: nat): nat
    requires n <= |c.weights|
  {
    if n == 0 then 0 else Total(c, rows, k, n - 1) + c.weights[n - 1] * |Places(rows, k, n - 1)|
  }

  // ---------- The weight of positions, sentence by sentence ----------

  ghost function Of(ps: seq<Position>, sid: nat): set<Position> { set p | p in ps && p.sid == sid }

  ghost function BySentence(c: Corpus, ps: seq<Position>, n: nat): nat
    requires n <= |c.weights|
  {
    if n == 0 then 0 else BySentence(c, ps, n - 1) + c.weights[n - 1] * |Of(ps, n - 1)|
  }

  lemma {:induction false} BySentenceOfNone(c: Corpus, n: nat)
    requires n <= |c.weights|
    ensures BySentence(c, [], n) == 0
  {
    if n > 0 {
      BySentenceOfNone(c, n - 1);
      assert Of([], n - 1) == {};
    }
  }

  lemma {:induction false} BySentenceOneMore(c: Corpus, ps: seq<Position>, n: nat)
    requires n <= |c.weights| && ps != [] && ps[0] !in ps[1..]
    ensures BySentence(c, ps, n) ==
            BySentence(c, ps[1..], n) + if ps[0].sid < n then c.weights[ps[0].sid] else 0
  {
    if n > 0 {
      BySentenceOneMore(c, ps, n - 1);
      if ps[0].sid == n - 1 {
        assert Of(ps, n - 1) == Of(ps[1..], n - 1) + {ps[0]};
        assert |Of(ps, n - 1)| == |Of(ps[1..], n - 1)| + 1;
        assert c.weights[n - 1] * (|Of(ps[1..], n - 1)| + 1)
            == c.weights[n - 1] * |Of(ps[1..], n - 1)| + c.weights[n - 1];
      } else {
        assert Of(ps, n - 1) == Of(ps[1..], n - 1);
      }
    }
  }

  /** Every position counts with the weight of its sentence. */
  lemma {:induction false} WeightBySentence(c: Corpus, ps: seq<Position>)
    requires Ascending(ps) && forall p :: p in ps ==> p.sid < |c.weights|
    ensures Weight(c, ps) == BySentence(c, ps, |c.weights|)
  {
    if ps == [] {
      BySentenceOfNone(c, |c.weights|);
    } else {
      forall j | 0 <= j < |ps[1..]| ensures ps[1..][j] != ps[0] { assert Before(ps[0], ps[j + 1]); }
      BySentenceOneMore(c, ps, |c.weights|);
      WeightBySentence(c, ps[1..]);
      assert ps[0] in ps;
    }
  }

  lemma {:induction false} SamePlaces(c: Corpus, rows: seq<Row>, k: Symbol, ps: seq<Position>, n: nat)
    requires n <= |c.weights|
    requires forall p :: p in ps <==> Adjacent(rows, p) && Stands(rows, k, p)
    ensures BySentence(c, ps, n) == Total(c, rows, k, n)
  {
    if n > 0 {
      SamePlaces(c, rows, k, ps, n - 1);
      assert Of(ps, n - 1) == Places(rows, k, n - 1);
    }
  }

  /** The frequency of a counted pair whose string is new is how often it stands in the corpus. */
  lemma CountedIsTotal(c: Corpus, s: State, placed: set<Symbol>, dup: set<seq<int>>, k: Symbol)
    requires Inv(c, s, placed, dup) && k in s.cache && k.Pair? && Chars(k) !in dup && |c.weights| == |c.texts|
    requires forall q :: q in s.cache[k].positions ==> Stands(s.rows, k, q)
    requires s.cache[k].freq == Weight(c, s.cache[k].positions)
    ensures s.cache[k].freq == Total(c, s.rows, k, |c.weights|)
  {
    hide Inv, Formed, ListedAt;
    forall p ensures p in s.cache[k].positions <==> Adjacent(s.rows, p) && Stands(s.rows, k, p) {
      CountedExactly(c, s, placed, dup, k, p);
    }
    RowsAndPositions(c, s, placed, dup, k);
    WeightBySentence(c, s.cache[k].positions);
    SamePlaces(c, s.rows, k, s.cache[k].positions, |c.weights|);
  }

  lemma RowsAndPositions(c: Corpus, s: State, placed: set<Symbol>, dup: set<seq<int>>, k: Symbol)
    requires Inv(c, s, placed, dup) && k in s.cache
    ensures Ascending(s.cache[k].positions) && |s.rows| == |c.texts|
    ensures forall p :: p in s.cache[k].positions ==> p.sid < |s.rows|
  {
    assert GapsAt(s, k);
  }

  /** Every two neighbours that the trainer may join, and has not found as a piece, are known and
      recorded where they stand. */
  lemma NeighboursRecorded(c: Corpus, s: State, placed: set<Symbol>, dup: set<seq<int>>, p: Position)
    requires Inv(c, s, placed, dup) && Adjacent(s.rows, p)
    ensures var l, r := s.rows[p.sid][p.left].value, s.rows[p.sid][p.right].value;
            l != Char(UNK_CHAR) && r != Char(UNK_CHAR) && c.valid(Chars(l) + Chars(r))
            && Chars(l) + Chars(r) !in dup ==>
              Pair(l, r) in s.cache && p in s.cache[Pair(l, r)].positions
  {
    assert ListedAt(c, s, dup, p);
  }

  /** And nothing else is known: a pair in the cache joins two symbols into a valid string, and neither
      is unknown. */
  lemma KnownAreValid(c: Corpus, s: State, placed: set<Symbol>, dup: set<seq<int>>, k: Symbol)
    requires Inv(c, s, placed, dup) && k in s.cache && k.Pair?
    ensures k.left != Char(UNK_CHAR) && k.right != Char(UNK_CHAR) && c.valid(Chars(k.left) + Chars(k.right))
  {
    assert Formed(c, k, placed);
  }

  // ---------- What is preferred ----------

  /** The strings are the same, or a has the smaller character where they first differ. */
  ghost predicate NotAfter(a: seq<int>, b: seq<int>)
    requires |a| == |b|
  {
    a == b || exists i :: 0 <= i < |a| && a[..i] == b[..i] && a[i] < b[i]
  }

  /** Of the pairs in the field best is the most frequent; among those as frequent it has the fewest
      characters; and among those it comes first. */
  ghost predicate Foremost(cache: map<Symbol, Entry>, field: set<Symbol>, best: Symbol) {
    best in field && best in cache && forall k :: k in field ==> NotBehind(cache, best, k)
  }

  ghost predicate NotBehind(cache: map<Symbol, Entry>, best: Symbol, k: Symbol)
    requires best in cache
  {
    && k in cache && cache[k].freq <= cache[best].freq
    && (cache[k].freq == cache[best].freq ==>
          |Chars(best)| <= |Chars(k)| && (|Chars(best)| == |Chars(k)| ==> NotAfter(Chars(best), Chars(k))))
  }
}
