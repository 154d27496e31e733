/** The trainer of byte-pair pieces, in place. */
module BpeTrainer {
  import opened Wrappers
  import opened TrainerSymbols
  import opened TrainerInvariant
  import opened TrainerMerge
  import opened TrainerRounds
  import opened TrainerCounts

  predicate Less(a: seq<int>, b: seq<int>) {
    b != [] && (a == [] || a[0] < b[0] || (a[0] == b[0] && Less(a[1..], b[1..])))
  }

  /** k is preferred over the best so far: more frequent, then shorter, then smaller. */
  predicate Better(cache: map<Symbol, Entry>, k: Symbol, best: Symbol)
    requires k in cache && best in cache
  {
    var f, g, a, b := cache[k].freq, cache[best].freq, Chars(k), Chars(best);
    f > g || (f == g && (|a| < |b| || (|a| == |b| && Less(a, b))))
  }

  /** How training ends: enough pieces, no pair left to look at, or a crash, because the list
      of all pairs is read without looking whether it is empty. */
  datatype Status = Full | Exhausted | Crashed

  const UPDATE_INTERVAL: nat := 100
  const MIN_ACTIVE: nat := 1000

  class Trainer {
    const c: Corpus
    const vocabSize: nat
    var rows: seq<Row>
    var cache: map<Symbol, Entry>
    var active: set<Symbol>
    var finalPieces: seq<seq<int>>
    var dup: set<seq<int>>
    ghost var placed: set<Symbol>

    constructor (c: Corpus, vocabSize: nat)
      ensures this.c == c && this.vocabSize == vocabSize && rows == [] && cache == map[] && active == {}
      ensures finalPieces == [] && dup == {} && placed == {}
    {
      this.c, this.vocabSize := c, vocabSize;
      rows, cache, active, finalPieces, dup, placed := [], map[], {}, [], {}, {};
    }

    function S(): State
      reads this
    {
      State(rows, cache)
    }

    /** The invariant, and what is known of the pieces found: they are distinct and valid. */
    ghost predicate Valid()
      reads this
    {
      && Inv(c, S(), placed, dup) && Pairs(active)
      && (forall p :: p in finalPieces <==> p in dup) && (forall p :: p in finalPieces ==> c.valid(p))
      && Distinct(finalPieces)
    }

    ghost predicate Pairs(ks: set<Symbol>)
      reads this
    {
      forall k :: k in ks ==> k in cache && k.Pair?
    }

    static ghost predicate Distinct(ps: seq<seq<int>>) {
      forall i, j :: 0 <= i < j < |ps| ==> ps[i] != ps[j]
    }

    // ---------- The parts of a merge ----------

    ghost predicate AllValid()
      reads this`cache
    {
      forall k :: k in cache && k.Pair? ==> c.valid(Chars(k))
    }

    method GetPairSymbol(l: Option<Symbol>, r: Option<Symbol>) returns (k: Option<Symbol>)
      requires AllValid()
      modifies this`cache
      ensures k == PairOf(c, l, r) && AllValid()
      ensures cache == if k.Some? then Known(old(cache), k.value) else old(cache)
    {
      if l.None? || r.None? || l.value == Char(UNK_CHAR) || r.value == Char(UNK_CHAR) {
        return None;
      }
      var pair := Pair(l.value, r.value);
      if pair in cache {
        return Some(pair);
      }
      if !c.valid(Chars(l.value) + Chars(r.value)) {
        return None;
      }
      cache := cache[pair := Entry(0, [])];
      k := Some(pair);
    }

    method GetNextIndex(sid: nat, index: nat) returns (n: int)
      requires sid < |rows|
      ensures n == Next(rows[sid], index)
    {
      var i := index + 1;
      while i < |rows[sid]|
        invariant index + 1 <= i && Next(rows[sid], index) == Next(rows[sid], i - 1)
      {
        if rows[sid][i].Some? {
          return i;
        }
        i := i + 1;
      }
      n := -1;
    }

    method GetPrevIndex(sid: nat, index: nat) returns (n: int)
      requires sid < |rows| && index < |rows[sid]|
      ensures n == Prev(rows[sid], index)
    {
      var i := index - 1;
      while i >= 0
        invariant -1 <= i < index && Prev(rows[sid], index) == Prev(rows[sid], i + 1)
      {
        if rows[sid][i].Some? {
          return i;
        }
        i := i - 1;
      }
      n := -1;
    }

    method ResetFreq(sid: nat, left: int, right: int, best: Symbol)
      requires sid < |rows| && -1 <= left < |rows[sid]| && -1 <= right < |rows[sid]| && AllValid()
      modifies this`cache
      ensures AllValid() && S() == Reset(c, old(S()), sid, left, right, best) && old(cache).Keys <= cache.Keys
      ensures forall k :: k in cache && cache[k].positions != [] ==> k in old(cache) && old(cache)[k].positions != []
    {
      if left == -1 || right == -1 {
        return;
      }
      var k := GetPairSymbol(rows[sid][left], rows[sid][right]);
      if k.Some? && k.value != best {
        cache := cache[k.value := cache[k.value].(freq := 0)];
      }
    }

    method AddNewPair(sid: nat, left: int, right: int)
      requires sid < |rows| && -1 <= left < |rows[sid]| && -1 <= right < |rows[sid]| && Pairs(active) && AllValid()
      modifies this`cache, this`active
      ensures AllValid() && S() == Record(c, old(S()), sid, left, right) && Pairs(active)
              && old(cache).Keys <= cache.Keys
      ensures active == old(active) + if PairAt(c, rows, sid, left, right).Some?
              then {PairAt(c, rows, sid, left, right).value} else {}
      ensures forall k :: k in cache && cache[k].positions != [] ==>
                k in active || (k in old(cache) && old(cache)[k].positions != [])
    {
      if left == -1 || right == -1 {
        return;
      }
      var k := GetPairSymbol(rows[sid][left], rows[sid][right]);
      if k.Some? {
        active := active + {k.value};
        cache := cache[k.value := cache[k.value].(positions := Insert(cache[k.value].positions,
                                                                      Position(sid, left, right)))];
      }
    }

    /** k has best as a half. */
    static ghost predicate Touches(k: Symbol, best: Symbol) { k.Pair? && (k.left == best || k.right == best) }

    /** While best is merged no active pair is forgotten, and the pairs that became active are those
        with best in them that stand somewhere. */
    static ghost predicate Activated(cache: map<Symbol, Entry>, active: set<Symbol>, field: set<Symbol>, best: Symbol) {
      && field <= active && (forall k :: k in active ==> k in field || Touches(k, best))
      && forall k :: k in cache && Touches(k, best) && cache[k].positions != [] ==> k in active
    }

    /** Merges the pair at p. */
    method MergeOne(best: Symbol, p: Position, ghost field: set<Symbol>)
      requires Adjacent(rows, p) && Pairs(active) && AllValid() && Activated(cache, active, field, best)
      modifies this`rows, this`cache, this`active
      ensures AllValid() && S() == MergeAt(c, old(S()), best, p) && Pairs(active) && old(cache).Keys <= cache.Keys
      ensures Activated(cache, active, field, best)
    {
      hide Reset, Record, Next, Prev, AllValid;
      var next := GetNextIndex(p.sid, p.right);
      var prev := GetPrevIndex(p.sid, p.left);
      NeighboursInRow(p);
      ResetFreq(p.sid, prev, p.left, best);
      ResetFreq(p.sid, p.right, next, best);
      rows := rows[p.sid := rows[p.sid][p.left := Some(best)][p.right := None]];
      AllPairsTouch(p.sid, prev, p.left, next, best);
      AddNewPair(p.sid, prev, p.left);
      AddNewPair(p.sid, p.left, next);
    }

    lemma NeighboursInRow(p: Position)
      requires Adjacent(rows, p)
      ensures -1 <= Next(rows[p.sid], p.right) < |rows[p.sid]| && -1 <= Prev(rows[p.sid], p.left) < |rows[p.sid]|
    {
    }

    lemma AllPairsTouch(sid: nat, prev: int, left: nat, next: int, best: Symbol)
      requires At(rows, sid, left) == Some(best)
      ensures PairAt(c, rows, sid, prev, left).Some? ==> Touches(PairAt(c, rows, sid, prev, left).value, best)
      ensures PairAt(c, rows, sid, left, next).Some? ==> Touches(PairAt(c, rows, sid, left, next).value, best)
    {
    }

    /** Merges best wherever it is recorded.  False: the check on the right symbol fails. */
    method MergeAll(best: Symbol) returns (ok: bool)
      requires best in cache && best.Pair? && AllStand(rows, best, cache[best].positions) && Pairs(active)
      requires Merging(c, S(), placed, dup, best) && AllValid() && Activated(cache, active, active, best)
      modifies this`rows, this`cache, this`active
      ensures ok && Pairs(active) && best in cache && Activated(cache, active, old(active), best)
      ensures Some(S()) == MergeFirst(c, old(S()), best, old(cache)[best].positions, |old(cache)[best].positions|)
    {
      hide Merging, AllStand, Adjacent, MergeAt;
      ghost var s0, field := S(), active;
      var ps := cache[best].positions;
      for i := 0 to |ps|
        invariant MergeFirst(c, s0, best, ps, i) == Some(S()) && Pairs(active) && best in cache && AllValid()
        invariant Activated(cache, active, field, best)
      {
        MergeFirstKeeps(c, s0, placed, dup, best, ps, i);
        TurnOf(s0.rows, rows, best, ps, i);
        if At(rows, ps[i].sid, ps[i].left).None? {
          continue;
        }
        RightIsThere(rows, best, ps[i]);
        if rows[ps[i].sid][ps[i].right].None? {
          return false;
        }
        MergeOne(best, ps[i], field);
      }
      ok := true;
    }

    // ---------- Counting and choosing ----------

    /** k has been counted: it stands wherever it is recorded. */
    ghost predicate CountedAt(k: Symbol)
      requires k in cache
      reads this`rows, this`cache
    {
      && (forall p :: p in cache[k].positions ==> Stands(rows, k, p))
      && cache[k].freq == Weight(c, cache[k].positions)
    }

    method ComputeFreq(k: Symbol)
      requires Valid() && k in cache && k.Pair?
      modifies this`cache
      ensures Valid() && S() == Count(c, old(S()), k) && CountedAt(k)
      ensures old(CountedAt(k)) ==> cache == old(cache)
    {
      hide Inv, Stands, Count;
      ghost var s0 := S();
      CountKeeps(c, s0, placed, dup, k);
      CountIs(c, s0, k);
      if CountedAt(k) { AllStanding(rows, k, cache[k].positions); }
      if cache[k].freq > 0 {
        return;
      }
      var kept, freq := Recount(k, cache[k].positions);
      cache := cache[k := Entry(freq, kept)];
    }

    lemma CountIs(c: Corpus, s: State, k: Symbol)
      requires k in s.cache
      ensures Count(c, s, k) ==
              if s.cache[k].freq > 0 then s
              else
                var ps := Standing(s.rows, k, s.cache[k].positions);
                s.(cache := s.cache[k := Entry(Weight(c, ps), ps)])
    {
    }

    method Recount(k: Symbol, ps: seq<Position>) returns (kept: seq<Position>, freq: nat)
      requires k.Pair?
      ensures kept == Standing(rows, k, ps) && freq == Weight(c, kept)
    {
      kept, freq := [], 0;
      for i := 0 to |ps|
        invariant kept + Standing(rows, k, ps[i..]) == Standing(rows, k, ps)
        invariant freq + Weight(c, Standing(rows, k, ps[i..])) == Weight(c, Standing(rows, k, ps))
      {
        var p := ps[i];
        assert ps[i..][0] == p && ps[i..][1..] == ps[i + 1..];
        if At(rows, p.sid, p.left) == Some(k.left) && At(rows, p.sid, p.right) == Some(k.right) {
          kept := kept + [p];
          freq := freq + if p.sid < |c.weights| then c.weights[p.sid] else 0;
          assert ([p] + Standing(rows, k, ps[i + 1..]))[1..] == Standing(rows, k, ps[i + 1..]);
        }
      }
    }

    /** All of ks are counted, and none is preferred over best. */
    ghost predicate Beats(best: Symbol, ks: set<Symbol>)
      reads this`rows, this`cache
    {
      best in ks && forall k :: k in ks ==> k in cache && CountedAt(k) && best in cache && !Better(cache, k, best)
    }

    /** The most preferred active symbol, all of them counted. */
    method FindBest() returns (best: Option<Symbol>)
      requires Valid()
      modifies this`cache
      ensures Valid() && cache.Keys == old(cache).Keys
      ensures old(AllCounted(active)) ==> cache == old(cache)
      ensures if active == {} then best == None
              else best.Some? && best.value in active && AllCounted(active) && Foremost(cache, active, best.value)
    {
      hide Inv, Better, CountedAt, Beats, Distinct, Pairs, Foremost;
      best := None;
      var rest := active;
      while rest != {}
        invariant Valid() && cache.Keys == old(cache).Keys && rest <= active
        invariant old(AllCounted(active)) ==> cache == old(cache)
        invariant if rest == active then best == None else best.Some? && Beats(best.value, active - rest)
        decreases rest
      {
        var k :| k in rest;
        NothingLeftOut(active, rest);
        best := Consider(k, best, active - rest);
        assert active - rest + {k} == active - (rest - {k});
        rest := rest - {k};
      }
      assert active - {} == active;
      if best.Some? { BeatsMeans(best.value, active); }
    }

    lemma BeatsMeans(best: Symbol, ks: set<Symbol>)
      requires Beats(best, ks)
      ensures best in ks && AllCounted(ks) && Foremost(cache, ks, best)
    {
      hide CountedAt, Better;
      forall k | k in ks ensures NotBehind(cache, best, k) {
        NotBetterMeans(cache, k, best);
      }
    }

    method Consider(k: Symbol, best: Option<Symbol>, ghost seen: set<Symbol>) returns (best': Option<Symbol>)
      requires Valid() && k in active && k !in seen
      requires if seen == {} then best == None else best.Some? && Beats(best.value, seen)
      modifies this`cache
      ensures Valid() && cache.Keys == old(cache).Keys && best'.Some? && Beats(best'.value, seen + {k})
      ensures old(k in cache && CountedAt(k)) ==> cache == old(cache)
    {
      hide Inv, Better, Distinct;
      best' := best;
      ghost var cache0 := cache;
      ComputeFreq(k);
      assert forall j :: j in cache0 && j != k ==> j in cache && cache[j] == cache0[j];
      if best.Some? { BetterOfSame(cache0, cache, k, best.value, seen); }
      if best == None || Better(cache, k, best.value) {
        if best.Some? { BetterIsOrder(cache, k, best.value); } else { NotBetterThanItself(cache, k); }
        best' := Some(k);
      }
    }

    // ---------- Rounds ----------

    ghost predicate AllCounted(ks: set<Symbol>)
      reads this`rows, this`cache
    {
      forall k :: k in ks ==> k in cache && CountedAt(k)
    }

    /** Counts every pair and keeps the most frequent ones active.  False: there is no pair,
        and the first of none is read. */
    method UpdateActiveSymbols() returns (ok: bool)
      requires Valid()
      modifies this`cache, this`active
      ensures ok <==> exists k :: k in old(cache) && k.Pair?
      ensures Valid() && cache.Keys == old(cache).Keys
      ensures ok ==> AllCounted(active) && MostFrequent(cache, active)
    {
      hide Inv, CountedAt, Distinct;
      var symbols := CountPairs();
      ok := symbols != {};
      if ok {
        var ratio := if |cache| / 20 > MIN_ACTIVE then |cache| / 20 else MIN_ACTIVE;
        active := TopFrequent(symbols, if ratio < |symbols| then ratio else |symbols|);
      }
    }

    /** The larger of a thousand and a twentieth of the cache, as far as there are so many pairs; no
        pair left out is more frequent than one taken. */
    static ghost predicate MostFrequent(cache: map<Symbol, Entry>, top: set<Symbol>) {
      var pairs := set k | k in cache && k.Pair?;
      && top <= pairs && |top| <= |pairs| && (|top| < |pairs| ==> |top| >= MIN_ACTIVE && 20 * |top| + 20 > |cache|)
      && (|top| > MIN_ACTIVE ==> 20 * |top| <= |cache|)
      && forall k, j :: k in top && j in pairs - top ==> j in cache && cache[k].freq >= cache[j].freq
    }

    method CountPairs() returns (symbols: set<Symbol>)
      requires Valid()
      modifies this`cache
      ensures Valid() && cache.Keys == old(cache).Keys && AllCounted(symbols)
      ensures symbols == set k | k in cache && k.Pair?
    {
      hide Inv, Distinct;
      symbols := {};
      var rest := cache.Keys;
      while rest != {}
        invariant Valid() && cache.Keys == old(cache).Keys && AllCounted(symbols) && rest <= cache.Keys
        invariant symbols == set k | k in cache && k.Pair? && k !in rest
        decreases rest
      {
        var k :| k in rest;
        ghost var cache0 := cache;
        if k.Pair? {
          ComputeFreq(k);
          assert forall j :: j in cache0 && j != k ==> cache[j] == cache0[j];
          symbols := symbols + {k};
        }
        rest := rest - {k};
      }
    }

    /** No one left out is more frequent than one taken. */
    ghost predicate TopOf(top: set<Symbol>, all: set<Symbol>)
      reads this`cache
    {
      top <= all <= cache.Keys && forall k, j :: k in top && j in all - top ==> cache[k].freq >= cache[j].freq
    }

    method TopFrequent(symbols: set<Symbol>, size: nat) returns (top: set<Symbol>)
      requires symbols <= cache.Keys && size <= |symbols|
      ensures |top| == size && TopOf(top, symbols)
    {
      top := {};
      var rest := symbols;
      while |top| < size
        invariant top + rest == symbols && top !! rest && |top| <= size && |rest| == |symbols| - |top|
        invariant forall k, j :: k in top && j in rest ==> cache[k].freq >= cache[j].freq
      {
        ghost var m := HasMostFrequent(cache, rest);
        var k :| k in rest && forall j :: j in rest ==> cache[k].freq >= cache[j].freq;
        top, rest := top + {k}, rest - {k};
      }
    }

    ghost function PairCount(): nat
      reads this`cache
    {
      |set k | k in cache && k.Pair?|
    }

    /** One turn of the main loop.  If a piece is found, `counted` is the state it was chosen
        in, `field` the pairs it was chosen from and `best` the pair. */
    method Round()
      returns (status: Option<Status>, ghost counted: State, ghost field: set<Symbol>, ghost best: Symbol)
      requires Valid() && |finalPieces| < vocabSize
      modifies this`rows, this`cache, this`active, this`finalPieces, this`dup, this`placed
      ensures status == Some(Crashed) <==>
              |old(finalPieces)| % UPDATE_INTERVAL == 0 && forall k :: k in old(cache) ==> !k.Pair?
      ensures status != Some(Full) && Valid() && (status == Some(Exhausted) ==> active == {})
      ensures status.Some? ==> rows == old(rows) && finalPieces == old(finalPieces) && cache.Keys == old(cache).Keys
      ensures status.None? ==>
                best in counted.cache && counted.rows == old(rows) && counted.cache.Keys == old(cache).Keys
      ensures status.None? ==> Inv(c, counted, old(placed), old(dup)) && Chosen(c, counted, old(dup), field, best)
      ensures status.None? ==>
                if |old(finalPieces)| % UPDATE_INTERVAL != 0 then field == old(active)
                else MostFrequent(counted.cache, field)
      ensures status.None? ==>
                if Chars(best) in old(dup) then
                  && S() == Erase(counted, best) && finalPieces == old(finalPieces) && PairCount() < old(PairCount())
                  && active == field - {best}
                else
                  && Some(S()) == RoundMerge(c, counted, best) && finalPieces == old(finalPieces) + [Chars(best)]
                  && Activated(cache, active, field - {best}, best)
                  && forall q :: !(Adjacent(rows, q) && Stands(rows, best, q))
    {
      hide Inv, MostFrequent, Foremost, CountedAt, Distinct;
      status := None;
      counted, field, best := S(), active, Char(0);
      if |finalPieces| % UPDATE_INTERVAL == 0 {
        var ok := UpdateActiveSymbols();
        if !ok {
          return Some(Crashed), counted, field, best;
        }
      }
      var found := FindBest();
      if found.None? {
        return Some(Exhausted), counted, field, best;
      }
      counted, field, best := S(), active, found.value;
      ValidInv();
      ChosenIs(best);
      if Chars(found.value) in dup {
        Drop(found.value);
      } else {
        Take(found.value);
      }
    }

    /** All pairs of the field are counted exactly, which for a new string is how often the pair stands
        in the corpus, and best is the foremost of them. */
    static ghost predicate Chosen(c: Corpus, s: State, dup: set<seq<int>>, field: set<Symbol>, best: Symbol) {
      && field <= s.cache.Keys && Foremost(s.cache, field, best)
      && forall k :: k in field ==>
           && k.Pair? && (forall p :: p in s.cache[k].positions ==> Stands(s.rows, k, p))
           && s.cache[k].freq == Weight(c, s.cache[k].positions)
           && (Chars(k) !in dup && |c.weights| == |c.texts| ==> s.cache[k].freq == Total(c, s.rows, k, |c.weights|))
    }

    lemma ChosenIs(best: Symbol)
      requires Inv(c, S(), placed, dup) && Pairs(active) && AllCounted(active) && Foremost(cache, active, best)
      ensures Chosen(c, S(), dup, active, best)
    {
      hide Inv, Foremost, Stands;
      forall k | k in active && Chars(k) !in dup && |c.weights| == |c.texts|
        ensures cache[k].freq == Total(c, rows, k, |c.weights|)
      {
        assert CountedAt(k);
        CountedIsTotal(c, S(), placed, dup, k);
      }
    }

    lemma ValidInv()
      requires Valid()
      ensures Inv(c, S(), placed, dup) && Pairs(active)
    {
    }

    method Drop(best: Symbol)
      requires Valid() && best in active && Chars(best) in dup
      modifies this`cache, this`active
      ensures Valid() && S() == Erase(old(S()), best) && PairCount() < old(PairCount())
      ensures active == old(active) - {best}
    {
      EraseKeeps(c, S(), placed, dup, best);
      ghost var pairs := set k | k in cache && k.Pair?;
      cache := cache - {best};
      active := active - {best};
      assert (set k | k in cache && k.Pair?) == pairs - {best};
    }

    method Take(best: Symbol)
      requires Valid() && best in active && Chars(best) !in dup && CountedAt(best)
      modifies this`rows, this`cache, this`active, this`finalPieces, this`dup, this`placed
      ensures Valid() && Some(S()) == RoundMerge(c, old(S()), best) && finalPieces == old(finalPieces) + [Chars(best)]
      ensures forall q :: !(Adjacent(rows, q) && Stands(rows, best, q))
      ensures Activated(cache, active, old(active) - {best}, best)
    {
      hide Inv, Merging, AllStand, Stands, Adjacent, MergeFirst, Weight, Activated;
      NoneTouches(c, S(), placed, dup, best);
      RoundKeeps(c, S(), placed, dup, best);
      ReadyToMerge(c, S(), placed, dup, best);
      ValidOfInv();
      NothingActivated(best);
      dup := dup + {Chars(best)};
      placed := placed + {best};
      finalPieces := finalPieces + [Chars(best)];
      ghost var field := active;
      var ok := MergeAll(best);
      Retired(cache, active, field, best);
      cache := cache - {best};
      active := active - {best};
    }

    lemma NothingActivated(best: Symbol)
      requires forall k :: k in cache ==> !Touches(k, best)
      ensures Activated(cache, active, active, best)
    {
    }

    /** The best pair itself is no longer active. */
    static lemma Retired(cache: map<Symbol, Entry>, active: set<Symbol>, field: set<Symbol>, best: Symbol)
      requires Activated(cache, active, field, best)
      ensures Activated(cache - {best}, active - {best}, field - {best}, best)
    {
    }

    lemma ValidOfInv()
      requires Valid()
      ensures AllValid()
    {
      forall k | k in cache && k.Pair? ensures c.valid(Chars(k)) { assert Formed(c, k, placed); }
    }

    // ---------- Training ----------

    /** The characters of every sentence become symbols. */
    method LoadCharacters(required: map<int, nat>)
      requires rows == [] && cache == map[] && placed == {} && forall k :: k in required ==> required[k] > 0
      modifies this`rows, this`cache, this`placed
      ensures rows == CharRows(c.texts) && Fresh(c, S(), placed)
    {
      for sid := 0 to |c.texts|
        invariant rows == CharRows(c.texts[..sid]) && Fresh(c, S(), placed)
      {
        LoadSentence(c.texts[sid], required);
        assert c.texts[..sid + 1] == c.texts[..sid] + [c.texts[sid]];
        assert CharRows(c.texts[..sid + 1]) == CharRows(c.texts[..sid]) + [CharRow(c.texts[sid])];
      }
      assert c.texts[..|c.texts|] == c.texts;
    }

    method LoadSentence(t: seq<int>, required: map<int, nat>)
      requires Fresh(c, S(), placed) && forall k :: k in required ==> required[k] > 0
      modifies this`rows, this`cache, this`placed
      ensures rows == old(rows) + [CharRow(t)] && Fresh(c, S(), placed)
    {
      var row: Row := [];
      for i := 0 to |t|
        invariant rows == old(rows) && row == CharRow(t[..i]) && Fresh(c, S(), placed)
        invariant forall j :: 0 <= j < i ==> Char(t[j]) in placed
      {
        var k := GetCharSymbol(t[i], required);
        placed := placed + {k};
        row := row + [Some(k)];
      }
      assert t[..|t|] == t;
      rows := rows + [row];
    }

    method GetCharSymbol(ch: int, required: map<int, nat>) returns (k: Symbol)
      requires forall k :: k in required ==> required[k] > 0
      modifies this`cache
      ensures k == Char(ch)
      ensures cache == if Char(ch) in old(cache) then old(cache)
                       else old(cache)[Char(ch) := Entry(if ch in required then required[ch] else 1, [])]
    {
      k := Char(ch);
      if k !in cache {
        cache := cache[k := Entry(if ch in required then required[ch] else 1, [])];
      }
    }

    /** All pairs of neighbouring characters are recorded. */
    method ListBigrams()
      requires rows == CharRows(c.texts) && Fresh(c, S(), placed) && active == {} && finalPieces == [] && dup == {}
      modifies this`cache, this`active
      ensures Valid() && rows == old(rows) && finalPieces == [] && dup == {}
      ensures SomePair(cache) <==> SomeBigram(c)
    {
      hide Listing, Inv, Fresh, Record, SomePair, SomeBigram;
      FreshIsValid();
      for sid := 0 to |rows|
        invariant rows == old(rows) && Listing(c, S(), placed, sid, 0) && Pairs(active) && AllValid()
      {
        ListSentence(sid);
      }
      AllListed(c, S(), placed);
    }

    method ListSentence(sid: nat)
      requires sid < |rows| && Listing(c, S(), placed, sid, 0) && Pairs(active) && AllValid()
      modifies this`cache, this`active
      ensures Listing(c, S(), placed, sid + 1, 0) && Pairs(active) && AllValid()
    {
      hide Listing, Record;
      var i := 1;
      FirstListed(c, S(), placed, sid);
      while i < |rows[sid]|
        invariant Listing(c, S(), placed, sid, i) && Pairs(active) && AllValid()
        invariant 0 < i && (i <= |rows[sid]| || i == 1)
      {
        RecordBigram(c, S(), placed, sid, i);
        AddNewPair(sid, i - 1, i);
        i := i + 1;
      }
      RowListed(c, S(), placed, sid);
    }

    lemma FreshIsValid()
      requires rows == CharRows(c.texts) && Fresh(c, S(), placed)
      ensures AllValid() && Listing(c, S(), placed, 0, 0)
    {
    }

    /** Finds up to vocabSize pieces. */
    method Train(required: map<int, nat>) returns (status: Status)
      requires rows == [] && cache == map[] && active == {} && finalPieces == [] && dup == {} && placed == {}
      requires forall k :: k in required ==> required[k] > 0
      modifies this
      ensures Valid() && |finalPieces| <= vocabSize && (status == Full <==> |finalPieces| == vocabSize)
      ensures status == Crashed ==> |finalPieces| % UPDATE_INTERVAL == 0 && forall k :: k in cache ==> !k.Pair?
      ensures status == Exhausted ==> active == {}
      ensures status == Crashed && finalPieces == [] <==> vocabSize > 0 && !SomeBigram(c)
    {
      hide SomeBigram;
      LoadCharacters(required);
      ListBigrams();
      while |finalPieces| < vocabSize
        invariant Valid() && |finalPieces| <= vocabSize
        invariant finalPieces == [] ==> dup == {} && (SomePair(cache) <==> SomeBigram(c))
        invariant finalPieces != [] ==> SomeBigram(c)
        decreases vocabSize - |finalPieces|, PairCount()
      {
        var ended, counted, field, best := Round();
        if ended.Some? {
          return ended.value;
        }
      }
      status := Full;
    }
  }

  /** Counting again what stands everywhere changes nothing. */
  lemma {:induction false} AllStanding(rows: seq<Row>, k: Symbol, ps: seq<Position>)
    requires forall p :: p in ps ==> Stands(rows, k, p)
    ensures Standing(rows, k, ps) == ps
  {
    if ps != [] {
      assert ps[0] in ps && Stands(rows, k, ps[0]);
      AllStanding(rows, k, ps[1..]);
    }
  }

  /** Before a new string is merged nothing known has it as a half. */
  lemma NoneTouches(c: Corpus, s: State, placed: set<Symbol>, dup: set<seq<int>>, best: Symbol)
    requires Inv(c, s, placed, dup) && best.Pair? && Chars(best) !in dup
    ensures forall k :: k in s.cache ==> !Trainer.Touches(k, best)
  {
    forall k | k in s.cache ensures !Trainer.Touches(k, best) { assert Formed(c, k, placed); }
  }

  lemma {:induction false} NotLessMeans(a: seq<int>, b: seq<int>)
    requires |a| == |b| && !Less(a, b)
    ensures NotAfter(b, a)
  {
    if a == [] || a[0] != b[0] {
      assert a != [] ==> b[..0] == a[..0] && b[0] < a[0];
    } else {
      NotLessMeans(a[1..], b[1..]);
      if b[1..] != a[1..] {
        var i :| 0 <= i < |b[1..]| && b[1..][..i] == a[1..][..i] && b[1..][i] < a[1..][i];
        assert b[..i + 1] == [b[0]] + b[1..][..i] && a[..i + 1] == [a[0]] + a[1..][..i];
        assert b[i + 1] < a[i + 1];
      } else {
        assert a == [a[0]] + a[1..] && b == [b[0]] + b[1..];
      }
    }
  }

  lemma NotBetterMeans(cache: map<Symbol, Entry>, k: Symbol, best: Symbol)
    requires k in cache && best in cache && !Better(cache, k, best)
    ensures NotBehind(cache, best, k)
  {
    if |Chars(k)| == |Chars(best)| && !Less(Chars(k), Chars(best)) {
      NotLessMeans(Chars(k), Chars(best));
    }
  }

  lemma HasMostFrequent(cache: map<Symbol, Entry>, ks: set<Symbol>) returns (m: Symbol)
    requires ks != {} && ks <= cache.Keys
    ensures m in ks && forall j :: j in ks ==> cache[m].freq >= cache[j].freq
    decreases |ks|
  {
    m :| m in ks;
    if ks != {m} {
      var n := HasMostFrequent(cache, ks - {m});
      m := if cache[n].freq > cache[m].freq then n else m;
    }
  }

  lemma NothingLeftOut<T>(all: set<T>, rest: set<T>)
    requires rest <= all
    ensures all - rest == {} <==> rest == all
  {
    if all - rest == {} {
      forall x | x in all ensures x in rest { assert x !in all - rest; }
    }
  }

  lemma NotBetterThanItself(cache: map<Symbol, Entry>, k: Symbol)
    requires k in cache
    ensures !Better(cache, k, k)
  {
    LessIsOrder(Chars(k), Chars(k), Chars(k));
  }

  lemma BetterOfSame(cache0: map<Symbol, Entry>, cache: map<Symbol, Entry>, k: Symbol, best: Symbol, seen: set<Symbol>)
    requires best in seen && k !in seen && seen <= cache0.Keys
    requires forall j :: j in cache0 && j != k ==> j in cache && cache[j] == cache0[j]
    requires forall j :: j in seen ==> !Better(cache0, j, best)
    ensures forall j :: j in seen ==> !Better(cache, j, best)
  {
  }

  lemma {:induction false} LessIsOrder(a: seq<int>, b: seq<int>, d: seq<int>)
    ensures !Less(a, a) && (Less(a, b) && !Less(d, b) ==> !Less(d, a))
  {
    if a == [] {
    } else {
      LessIsOrder(a[1..], if b == [] then [] else b[1..], if d == [] then [] else d[1..]);
    }
  }

  /** What was not better than the old best is not better than a better one. */
  lemma BetterIsOrder(cache: map<Symbol, Entry>, k: Symbol, best: Symbol)
    requires k in cache && best in cache && Better(cache, k, best)
    ensures !Better(cache, k, k)
    ensures forall j :: j in cache && !Better(cache, j, best) ==> !Better(cache, j, k)
  {
    LessIsOrder(Chars(k), Chars(k), Chars(k));
    forall j | j in cache && !Better(cache, j, best) ensures !Better(cache, j, k) {
      LessIsOrder(Chars(k), Chars(best), Chars(j));
    }
  }
}
