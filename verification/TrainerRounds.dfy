/** Between merges: counting, choosing, and what every round of training keeps. */
module TrainerRounds {
  import opened Wrappers
  import opened TrainerSymbols
  import opened TrainerInvariant
  import opened TrainerMerge

  /** The invariant of training.  `placed` are the symbols that stand or stood in a sentence,
      `dup` the strings of the pieces found so far. */
  ghost predicate Inv(c: Corpus, s: State, placed: set<Symbol>, dup: set<seq<int>>) {
    && CacheOk(c, s, placed) && ExactBut(c, s, None) && AllPlaced(s.rows, placed) && Listed(c, s, dup)
    && TextsKept(c, s.rows) && forall k :: k in placed && k.Pair? ==> Chars(k) in dup
  }

  // ---------- Counting ----------

  /** A pair that is to be counted again is: places where it no longer stands are dropped. */
  function Count(c: Corpus, s: State, k: Symbol): State
    requires k in s.cache
  {
    if s.cache[k].freq > 0 then s
    else
      var ps := Standing(s.rows, k, s.cache[k].positions);
      s.(cache := s.cache[k := Entry(Weight(c, ps), ps)])
  }

  lemma {:induction false} StandingAre(rows: seq<Row>, k: Symbol, ps: seq<Position>)
    requires k.Pair?
    ensures forall p :: p in Standing(rows, k, ps) <==> p in ps && Stands(rows, k, p)
  {
    if ps == [] {
    } else {
      StandingAre(rows, k, ps[1..]);
      assert forall p :: p in ps <==> p == ps[0] || p in ps[1..];
    }
  }

  lemma {:induction false} StandingAscending(rows: seq<Row>, k: Symbol, ps: seq<Position>)
    requires Ascending(ps) && k.Pair?
    ensures Ascending(Standing(rows, k, ps))
  {
    if ps == [] {
    } else {
      StandingAscending(rows, k, ps[1..]);
      StandingAre(rows, k, ps[1..]);
      var r := Standing(rows, k, ps[1..]);
      forall j | 0 <= j < |r| ensures Before(ps[0], r[j]) {
        assert r[j] in ps[1..];
      }
    }
  }

  lemma CountKeeps(c: Corpus, s: State, placed: set<Symbol>, dup: set<seq<int>>, k: Symbol)
    requires Inv(c, s, placed, dup) && k in s.cache && k.Pair?
    ensures Inv(c, Count(c, s, k), placed, dup)
    ensures forall p :: p in Count(c, s, k).cache[k].positions ==> Stands(s.rows, k, p)
    ensures Count(c, s, k).cache[k].freq == Weight(c, Count(c, s, k).cache[k].positions)
  {
    var s' := Count(c, s, k);
    assert GapsAt(s, k) && ExactAt(c, s, k);
    StandingAre(s.rows, k, s.cache[k].positions);
    StandingAscending(s.rows, k, s.cache[k].positions);
    forall j | j in s'.cache ensures Formed(c, j, placed) && GapsAt(s', j) && ExactAt(c, s', j) {
      assert Formed(c, j, placed) && GapsAt(s, j) && ExactAt(c, s, j);
    }
    forall p ensures ListedAt(c, s', dup, p) { assert ListedAt(c, s, dup, p); }
  }

  /** The frequency of a counted pair whose string is new is its true frequency: it is
      recorded exactly where it stands between neighbours. */
  lemma CountedExactly(c: Corpus, s: State, placed: set<Symbol>, dup: set<seq<int>>, k: Symbol, p: Position)
    requires Inv(c, s, placed, dup) && k in s.cache && k.Pair? && Chars(k) !in dup
    requires forall q :: q in s.cache[k].positions ==> Stands(s.rows, k, q)
    ensures p in s.cache[k].positions <==> Adjacent(s.rows, p) && Stands(s.rows, k, p)
  {
    assert GapsAt(s, k) && Formed(c, k, placed) && ListedAt(c, s, dup, p);
  }

  // ---------- Merging the best pair ----------

  lemma ReadyToMerge(c: Corpus, s: State, placed: set<Symbol>, dup: set<seq<int>>, best: Symbol)
    requires Inv(c, s, placed, dup) && best in s.cache && best.Pair? && Chars(best) !in dup
    requires forall q :: q in s.cache[best].positions ==> Stands(s.rows, best, q)
    ensures Merging(c, s, placed + {best}, dup + {Chars(best)}, best) && AllStand(s.rows, best, s.cache[best].positions)
  {
    var ps := s.cache[best].positions;
    assert GapsAt(s, best);
    forall i | 0 <= i < |ps| ensures Adjacent(s.rows, ps[i]) && Stands(s.rows, best, ps[i]) { assert ps[i] in ps; }
    assert best !in placed;
    forall k | k in s.cache ensures k.Pair? ==> k.left != best && k.right != best {
      assert Formed(c, k, placed);
    }
    forall k | k in s.cache ensures Formed(c, k, placed + {best}) && GapsAt(s, k) && ExactAt(c, s, k) {
      assert Formed(c, k, placed) && GapsAt(s, k);
    }
    forall p ensures ListedAt(c, s, dup + {Chars(best)}, p) { assert ListedAt(c, s, dup, p); }
  }

  function Erase(s: State, k: Symbol): State { s.(cache := s.cache - {k}) }

  lemma MergedKeeps(c: Corpus, s: State, placed: set<Symbol>, dup: set<seq<int>>, best: Symbol)
    requires Merging(c, s, placed, dup, best) && forall k :: k in placed && k.Pair? ==> Chars(k) in dup
    ensures Inv(c, Erase(s, best), placed, dup)
  {
    var s' := Erase(s, best);
    forall k | k in s'.cache ensures Formed(c, k, placed) && GapsAt(s', k) && ExactAt(c, s', k) {
      assert Formed(c, k, placed) && GapsAt(s, k) && ExactAt(c, s, k);
    }
    forall p ensures ListedAt(c, s', dup, p) { assert ListedAt(c, s, dup, p); }
  }

  lemma EraseKeeps(c: Corpus, s: State, placed: set<Symbol>, dup: set<seq<int>>, k: Symbol)
    requires Inv(c, s, placed, dup) && Chars(k) in dup
    ensures Inv(c, Erase(s, k), placed, dup)
  {
    var s' := Erase(s, k);
    forall j | j in s'.cache ensures Formed(c, j, placed) && GapsAt(s', j) && ExactAt(c, s', j) {
      assert Formed(c, j, placed) && GapsAt(s, j) && ExactAt(c, s, j);
    }
    forall p ensures ListedAt(c, s', dup, p) { assert ListedAt(c, s, dup, p); }
  }

  /** What a round does once it has found a new best piece. */
  function RoundMerge(c: Corpus, s: State, best: Symbol): Option<State>
    requires best in s.cache
  {
    match MergeFirst(c, s, best, s.cache[best].positions, |s.cache[best].positions|)
    case None => None
    case Some(s') => Some(Erase(s', best))
  }

  /** A whole round of merging: the check on the right symbol never fails, everything is kept,
      and the pair stands nowhere any more. */
  lemma RoundKeeps(c: Corpus, s: State, placed: set<Symbol>, dup: set<seq<int>>, best: Symbol)
    requires Inv(c, s, placed, dup) && best in s.cache && best.Pair? && Chars(best) !in dup
    requires forall q :: q in s.cache[best].positions ==> Stands(s.rows, best, q)
    ensures RoundMerge(c, s, best).Some?
    ensures Inv(c, RoundMerge(c, s, best).value, placed + {best}, dup + {Chars(best)})
    ensures forall q :: !(Adjacent(RoundMerge(c, s, best).value.rows, q)
                          && Stands(RoundMerge(c, s, best).value.rows, best, q))
  {
    var ps := s.cache[best].positions;
    ReadyToMerge(c, s, placed, dup, best);
    MergeFirstKeeps(c, s, placed + {best}, dup + {Chars(best)}, best, ps, |ps|);
    var s1 := MergeFirst(c, s, best, ps, |ps|).value;
    MergedKeeps(c, s1, placed + {best}, dup + {Chars(best)}, best);
    forall p: Position | Adjacent(s.rows, p) && Stands(s.rows, best, p) ensures p in ps {
      CountedExactly(c, s, placed, dup, best, p);
    }
    forall q ensures !(Adjacent(s1.rows, q) && Stands(s1.rows, best, q)) {
      BestGone(s.rows, s1.rows, best, ps, q);
    }
  }

  // ---------- The start ----------

  function CharRow(t: seq<int>): (r: Row)
    ensures |r| == |t|
  {
    seq(|t|, i requires 0 <= i < |t| => Some(Char(t[i])))
  }

  function CharRows(ts: seq<seq<int>>): (r: seq<Row>)
    ensures |r| == |ts|
  {
    seq(|ts|, i requires 0 <= i < |ts| => CharRow(ts[i]))
  }

  lemma {:induction false} CharRowSpells(t: seq<int>)
    ensures Spelled(CharRow(t)) == t
  {
    if t == [] {
    } else {
      assert CharRow(t)[1..] == CharRow(t[1..]);
      CharRowSpells(t[1..]);
      assert t == [t[0]] + t[1..];
    }
  }

  /** Only characters are known. */
  ghost predicate Fresh(c: Corpus, s: State, placed: set<Symbol>) {
    && (forall k :: k in s.cache ==> k.Char? && s.cache[k].positions == [])
    && AllPlaced(s.rows, placed) && forall k :: k in placed ==> k.Char?
  }

  /** Two neighbouring characters, neither unknown, that make a valid piece. */
  predicate BigramAt(c: Corpus, sid: nat, i: nat) {
    && sid < |c.texts| && 0 < i < |c.texts[sid]|
    && c.texts[sid][i - 1] != UNK_CHAR && c.texts[sid][i] != UNK_CHAR
    && c.valid([c.texts[sid][i - 1], c.texts[sid][i]])
  }

  ghost predicate SomeBigram(c: Corpus) {
    exists sid: nat, i: nat :: BigramAt(c, sid, i)
  }

  ghost predicate SomePair(cache: map<Symbol, Entry>) {
    exists k :: k in cache && k.Pair?
  }

  /** A corpus without a pair: one text of one character, whatever is valid. */
  lemma LoneCharacter(valid: seq<int> -> bool)
    ensures !SomeBigram(Corpus([[0x41]], [1], valid))
  {
  }

  lemma BigramIsPair(c: Corpus, sid: nat, i: nat)
    requires sid < |c.texts| && 0 < i < |c.texts[sid]|
    ensures BigramAt(c, sid, i) <==> PairAt(c, CharRows(c.texts), sid, i - 1, i).Some?
  {
    var a, b := c.texts[sid][i - 1], c.texts[sid][i];
    assert CharRows(c.texts)[sid][i - 1] == Some(Char(a)) && CharRows(c.texts)[sid][i] == Some(Char(b));
    assert Chars(Pair(Char(a), Char(b))) == [a, b];
  }

  /** The pairs before place i of sentence sid are recorded, and none has been counted. */
  ghost predicate Listing(c: Corpus, s: State, placed: set<Symbol>, sid: nat, i: nat) {
    && s.rows == CharRows(c.texts) && CacheOk(c, s, placed) && AllPlaced(s.rows, placed)
    && (forall k :: k in placed ==> k.Char?) && (forall k :: k in s.cache && k.Pair? ==> s.cache[k].freq == 0)
    && (forall p: Position :: p.sid < sid || (p.sid == sid && p.right < i) ==> ListedAt(c, s, {}, p))
    && (SomePair(s.cache) ==> SomeBigram(c))
  }

  lemma OnlyBigrams(ts: seq<seq<int>>, p: Position)
    requires Adjacent(CharRows(ts), p)
    ensures p.right == p.left + 1
  {
    assert CharRows(ts)[p.sid][p.left + 1].Some?;
  }

  /** No pair ends at the first place of a sentence. */
  lemma FirstListed(c: Corpus, s: State, placed: set<Symbol>, sid: nat)
    requires Listing(c, s, placed, sid, 0)
    ensures Listing(c, s, placed, sid, 1)
  {
  }

  lemma RecordBigram(c: Corpus, s: State, placed: set<Symbol>, sid: nat, i: nat)
    requires Listing(c, s, placed, sid, i) && sid < |s.rows| && 0 < i < |s.rows[sid]|
    ensures Listing(c, Record(c, s, sid, i - 1, i), placed, sid, i + 1)
  {
    var q := Position(sid, i - 1, i);
    RecordKeepsCache(c, s, placed, Char(0), q);
    var s' := Record(c, s, sid, i - 1, i);
    BigramIsPair(c, sid, i);
    if PairAt(c, s.rows, sid, i - 1, i).Some? {
      assert BigramAt(c, sid, i);
    }
    forall p: Position | p.sid < sid || (p.sid == sid && p.right < i + 1) ensures ListedAt(c, s', {}, p) {
      if p == q || p.sid < sid || p.right < i {
        RecordLists(c, s, {}, q, p);
      } else if Adjacent(s.rows, p) {
        OnlyBigrams(c.texts, p);
      }
    }
  }

  lemma RowListed(c: Corpus, s: State, placed: set<Symbol>, sid: nat)
    requires sid < |s.rows|
             && (Listing(c, s, placed, sid, |s.rows[sid]|) || (s.rows[sid] == [] && Listing(c, s, placed, sid, 1)))
    ensures Listing(c, s, placed, sid + 1, 0)
  {
    forall p: Position | p.sid < sid + 1 ensures ListedAt(c, s, {}, p) {
      if p.sid == sid && p.right >= |s.rows[sid]| { assert !Adjacent(s.rows, p); }
    }
  }

  lemma BigramListed(c: Corpus, s: State, placed: set<Symbol>)
    requires Listing(c, s, placed, |s.rows|, 0) && SomeBigram(c)
    ensures SomePair(s.cache)
  {
    var sid: nat, i: nat :| BigramAt(c, sid, i);
    BigramIsPair(c, sid, i);
    var p := Position(sid, i - 1, i);
    assert Adjacent(s.rows, p) && ListedAt(c, s, {}, p);
    assert PairAt(c, s.rows, sid, i - 1, i).value in s.cache;
  }

  lemma AllListed(c: Corpus, s: State, placed: set<Symbol>)
    requires Listing(c, s, placed, |s.rows|, 0)
    ensures Inv(c, s, placed, {})
    ensures SomePair(s.cache) <==> SomeBigram(c)
  {
    forall p ensures ListedAt(c, s, {}, p) {
      if p.sid >= |s.rows| { assert !Adjacent(s.rows, p); }
    }
    if SomeBigram(c) {
      BigramListed(c, s, placed);
    }
    forall sid | 0 <= sid < |s.rows| ensures Spelled(s.rows[sid]) == c.texts[sid] { CharRowSpells(c.texts[sid]); }
  }
}
