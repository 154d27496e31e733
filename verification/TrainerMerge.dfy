/** Merging one occurrence of the best pair keeps the invariant of training. */
module TrainerMerge {
  import opened Wrappers
  import opened TrainerSymbols
  import opened TrainerInvariant

  /** The invariant while `best` is being merged: best itself is no longer counted. */
  ghost predicate Merging(c: Corpus, s: State, placed: set<Symbol>, dup: set<seq<int>>, best: Symbol) {
    && CacheOk(c, s, placed) && ExactBut(c, s, Some(best)) && Uncounted(s, best)
    && AllPlaced(s.rows, placed) && Listed(c, s, dup) && TextsKept(c, s.rows)
    && best.Pair? && best in placed && Chars(best) in dup
  }

  /** The pair at two places, as its parts. */
  lemma PairAtParts(c: Corpus, rows: seq<Row>, sid: nat, l: int, r: int, placed: set<Symbol>)
    requires AllPlaced(rows, placed) && PairAt(c, rows, sid, l, r).Some?
    ensures var k := PairAt(c, rows, sid, l, r).value;
            && k.Pair? && At(rows, sid, l) == Some(k.left) && At(rows, sid, r) == Some(k.right) && Formed(c, k, placed)
  {
  }

  lemma ResetListed(c: Corpus, s: State, dup: set<seq<int>>, best: Symbol, sid: nat, l: int, r: int)
    requires Listed(c, s, dup)
    ensures Listed(c, Reset(c, s, sid, l, r, best), dup)
  {
    var s' := Reset(c, s, sid, l, r, best);
    forall p ensures ListedAt(c, s', dup, p) {
      assert ListedAt(c, s, dup, p);
    }
  }

  lemma ResetExact(c: Corpus, s: State, placed: set<Symbol>, best: Symbol, sid: nat, l: int, r: int)
    requires CacheOk(c, s, placed) && ExactBut(c, s, Some(best)) && Uncounted(s, best)
    ensures ExactBut(c, Reset(c, s, sid, l, r, best), Some(best)) && Uncounted(Reset(c, s, sid, l, r, best), best)
  {
    var s' := Reset(c, s, sid, l, r, best);
    forall k | k in s'.cache && k != best ensures ExactAt(c, s', k) {
      assert k in s.cache ==> ExactAt(c, s, k);
    }
  }

  lemma ResetKeeps(c: Corpus, s: State, placed: set<Symbol>, dup: set<seq<int>>, best: Symbol, sid: nat, l: int, r: int)
    requires Merging(c, s, placed, dup, best)
    ensures Merging(c, Reset(c, s, sid, l, r, best), placed, dup, best)
  {
    hide Listed, ExactBut, Uncounted, TextsKept;
    var s' := Reset(c, s, sid, l, r, best);
    if PairAt(c, s.rows, sid, l, r).Some? {
      PairAtParts(c, s.rows, sid, l, r, placed);
      forall k | k in s'.cache ensures Formed(c, k, placed) && GapsAt(s', k) {
        assert k in s.cache ==> Formed(c, k, placed) && GapsAt(s, k);
      }
      ResetExact(c, s, placed, best, sid, l, r);
      ResetListed(c, s, dup, best, sid, l, r);
    }
  }

  /** After the reset the pair at l and r, unless it is best, is to be counted again. */
  ghost predicate ToCount(c: Corpus, s: State, sid: nat, l: int, r: int, best: Symbol) {
    match PairAt(c, s.rows, sid, l, r)
    case None => true
    case Some(k) => k != best && k in s.cache ==> s.cache[k].freq == 0
  }

  lemma ResetDoes(c: Corpus, s: State, sid: nat, l: int, r: int, best: Symbol)
    ensures ToCount(c, Reset(c, s, sid, l, r, best), sid, l, r, best)
  {
  }

  lemma ResetKeepsToCount(c: Corpus, s: State, sid: nat, l: int, r: int, best: Symbol, a: int, b: int)
    requires ToCount(c, s, sid, a, b, best)
    ensures ToCount(c, Reset(c, s, sid, l, r, best), sid, a, b, best)
  {
  }

  // ---------- Replacing ----------

  /** Best stands at p, and the pairs it makes with its neighbours are to be counted again. */
  ghost predicate ReadyAt(c: Corpus, s: State, best: Symbol, p: Position) {
    && Adjacent(s.rows, p) && Stands(s.rows, best, p)
    && ToCount(c, s, p.sid, Prev(s.rows[p.sid], p.left), p.left, best)
    && ToCount(c, s, p.sid, p.right, Next(s.rows[p.sid], p.right), best)
  }

  function Replaced(s: State, best: Symbol, p: Position): State
    requires p.sid < |s.rows| && p.left < |s.rows[p.sid]| && p.right < |s.rows[p.sid]|
  {
    s.(rows := Replace(s.rows, p.sid, p.left, p.right, best))
  }

  lemma ReplaceKeepsGaps(c: Corpus, s: State, placed: set<Symbol>, best: Symbol, p: Position)
    requires CacheOk(c, s, placed) && Adjacent(s.rows, p)
    ensures CacheOk(c, Replaced(s, best, p), placed)
  {
    var s' := Replaced(s, best, p);
    forall k | k in s'.cache ensures Formed(c, k, placed) && GapsAt(s', k) {
      assert Formed(c, k, placed) && GapsAt(s, k);
      forall q | q in s'.cache[k].positions ensures Gap(s'.rows, q) {
        assert Gap(s.rows, q);
      }
    }
  }

  /** A counted pair other than best does not stand at the two places that change. */
  lemma StandsElsewhere(c: Corpus, s: State, placed: set<Symbol>, best: Symbol, p: Position, k: Symbol, q: Position)
    requires CacheOk(c, s, placed) && ReadyAt(c, s, best, p) && k in s.cache && k.Pair? && k != best
             && s.cache[k].freq > 0
    requires Gap(s.rows, q) && Stands(s.rows, k, q)
    ensures q.sid == p.sid ==> q.left != p.left && q.right != p.left && q.left != p.right && q.right != p.right
  {
    assert Formed(c, k, placed) && Adjacent(s.rows, q);
    if q.sid == p.sid {
      NextNeighbour(s.rows, q);
      if q.left == p.left { RightNeighbour(s.rows, p, q); }
      if q.right == p.right { LeftNeighbour(s.rows, p, q); }
    }
  }

  lemma ReplaceKeepsExact(c: Corpus, s: State, placed: set<Symbol>, best: Symbol, p: Position)
    requires CacheOk(c, s, placed) && ReadyAt(c, s, best, p) && ExactBut(c, s, Some(best))
    ensures ExactBut(c, Replaced(s, best, p), Some(best))
  {
    var s' := Replaced(s, best, p);
    forall k | k in s'.cache && k != best ensures ExactAt(c, s', k) {
      assert ExactAt(c, s, k) && GapsAt(s, k);
      if k.Pair? && s.cache[k].freq > 0 {
        forall q | q in s'.cache[k].positions ensures Stands(s'.rows, k, q) {
          StandsElsewhere(c, s, placed, best, p, k, q);
        }
      }
    }
  }

  /** Neighbours after the replacement that do not touch the new symbol were neighbours before. */
  lemma OldNeighbours(rows: seq<Row>, best: Symbol, p: Position, q: Position)
    requires Adjacent(rows, p) && Adjacent(Replace(rows, p.sid, p.left, p.right, best), q)
    requires q.sid != p.sid || (q.left != p.left && q.right != p.left)
    ensures Adjacent(rows, q)
    ensures rows[q.sid][q.left] == Replace(rows, p.sid, p.left, p.right, best)[q.sid][q.left]
    ensures rows[q.sid][q.right] == Replace(rows, p.sid, p.left, p.right, best)[q.sid][q.right]
  {
    var row' := Replace(rows, p.sid, p.left, p.right, best)[p.sid];
    if q.sid == p.sid {
      assert row'[p.right].None? && row'[p.left].Some?;
      forall k | q.left < k < q.right ensures rows[q.sid][k].None? {
        assert row'[k].None?;
        GapAvoids(rows, best, p, q, k);
      }
    }
  }

  lemma GapAvoids(rows: seq<Row>, best: Symbol, p: Position, q: Position, k: nat)
    requires Adjacent(rows, p) && Adjacent(Replace(rows, p.sid, p.left, p.right, best), q)
    requires q.sid == p.sid && q.left != p.left && q.right != p.left && q.left < k < q.right
    ensures k != p.left && k != p.right
  {
    var row' := Replace(rows, p.sid, p.left, p.right, best)[p.sid];
    assert row'[k].None? && row'[p.left].Some? && row'[p.right].None? && row'[q.left].Some?;
    assert rows[p.sid][q.left] == row'[q.left];
  }

  /** After the replacement only the new neighbours may be missing. */
  ghost predicate ListedBut(c: Corpus, s: State, dup: set<seq<int>>, p: Position) {
    forall q: Position :: q.sid != p.sid || (q.left != p.left && q.right != p.left) ==> ListedAt(c, s, dup, q)
  }

  lemma ReplaceKeepsListed(c: Corpus, s: State, dup: set<seq<int>>, best: Symbol, p: Position)
    requires Listed(c, s, dup) && Adjacent(s.rows, p)
    ensures ListedBut(c, Replaced(s, best, p), dup, p)
  {
    var s' := Replaced(s, best, p);
    forall q: Position | q.sid != p.sid || (q.left != p.left && q.right != p.left) ensures ListedAt(c, s', dup, q) {
      if Adjacent(s'.rows, q) {
        OldNeighbours(s.rows, best, p, q);
        assert ListedAt(c, s, dup, q);
      }
    }
  }

  lemma ReplaceKeepsTexts(c: Corpus, s: State, best: Symbol, p: Position)
    requires TextsKept(c, s.rows) && Adjacent(s.rows, p) && Stands(s.rows, best, p)
    ensures TextsKept(c, Replaced(s, best, p).rows)
  {
    ReplaceSpells(s.rows[p.sid], p.left, p.right, best);
  }

  // ---------- Recording ----------

  lemma RecordKeepsCache(c: Corpus, s: State, placed: set<Symbol>, best: Symbol, p: Position)
    requires CacheOk(c, s, placed) && AllPlaced(s.rows, placed) && Gap(s.rows, p)
    ensures CacheOk(c, Record(c, s, p.sid, p.left, p.right), placed)
  {
    var s' := Record(c, s, p.sid, p.left, p.right);
    if PairAt(c, s.rows, p.sid, p.left, p.right).Some? {
      PairAtParts(c, s.rows, p.sid, p.left, p.right, placed);
      var k0 := PairAt(c, s.rows, p.sid, p.left, p.right).value;
      forall k | k in s'.cache ensures Formed(c, k, placed) && GapsAt(s', k) {
        assert k in s.cache ==> Formed(c, k, placed) && GapsAt(s, k);
        if k == k0 { InsertAscending(if k in s.cache then s.cache[k].positions else [], p); }
      }
    }
  }

  /** Recording a place of a pair with the new symbol disturbs no frequency. */
  lemma RecordKeepsExact(c: Corpus, s: State, placed: set<Symbol>, best: Symbol, p: Position)
    requires ExactBut(c, s, Some(best)) && Uncounted(s, best)
    requires At(s.rows, p.sid, p.left) == Some(best) || At(s.rows, p.sid, p.right) == Some(best)
    ensures var s' := Record(c, s, p.sid, p.left, p.right);
            ExactBut(c, s', Some(best)) && Uncounted(s', best)
  {
    var s' := Record(c, s, p.sid, p.left, p.right);
    forall k | k in s'.cache && k != best ensures ExactAt(c, s', k) {
      assert k in s.cache ==> ExactAt(c, s, k);
    }
  }

  lemma RecordLists(c: Corpus, s: State, dup: set<seq<int>>, p: Position, q: Position)
    requires ListedAt(c, s, dup, q) || q == p
    ensures ListedAt(c, Record(c, s, p.sid, p.left, p.right), dup, q)
  {
  }

  lemma RecordKeepsRows(c: Corpus, s: State, sid: nat, l: int, r: int)
    ensures Record(c, s, sid, l, r).rows == s.rows
  {
  }

  lemma NothingToRecord(c: Corpus, s: State, sid: nat, l: int, r: int)
    requires l == -1 || r == -1
    ensures Record(c, s, sid, l, r) == s
  {
  }

  /** The cache and the frequencies after one recording, which may have nothing to record. */
  lemma RecordKeeps(c: Corpus, s: State, placed: set<Symbol>, dup: set<seq<int>>, best: Symbol, sid: nat, l: int,
                    r: int)
    requires CacheOk(c, s, placed) && ExactBut(c, s, Some(best)) && Uncounted(s, best) && AllPlaced(s.rows, placed)
    requires l == -1 || r == -1 || (l >= 0 && r >= 0 && Gap(s.rows, Position(sid, l, r)))
    requires l == -1 || r == -1 || At(s.rows, sid, l) == Some(best) || At(s.rows, sid, r) == Some(best)
    ensures var s' := Record(c, s, sid, l, r);
            && s'.rows == s.rows
            && CacheOk(c, s', placed) && ExactBut(c, s', Some(best)) && Uncounted(s', best)
    ensures forall q :: ListedAt(c, s, dup, q) || (l >= 0 && r >= 0 && q == Position(sid, l, r)) ==>
              ListedAt(c, Record(c, s, sid, l, r), dup, q)
  {
    RecordKeepsRows(c, s, sid, l, r);
    if l == -1 || r == -1 {
      NothingToRecord(c, s, sid, l, r);
    } else {
      var p := Position(sid, l, r);
      RecordKeepsCache(c, s, placed, best, p);
      RecordKeepsExact(c, s, placed, best, p);
      forall q | ListedAt(c, s, dup, q) || q == p ensures ListedAt(c, Record(c, s, sid, l, r), dup, q) {
        RecordLists(c, s, dup, p, q);
      }
    }
  }

  // ---------- One merge ----------

  /** The new symbol's neighbours are the old neighbours of the pair. */
  lemma NewNeighbours(rows: seq<Row>, best: Symbol, p: Position)
    requires Adjacent(rows, p)
    ensures var rows', prev, next := Replace(rows, p.sid, p.left, p.right, best), Prev(rows[p.sid], p.left),
            Next(rows[p.sid], p.right);
            && (prev >= 0 ==> Gap(rows', Position(p.sid, prev, p.left)))
            && (next >= 0 ==> Gap(rows', Position(p.sid, p.left, next)))
            && (forall q: Position :: Adjacent(rows', q) && q.sid == p.sid && q.right == p.left ==> q.left == prev)
            && (forall q: Position :: Adjacent(rows', q) && q.sid == p.sid && q.left == p.left ==> q.right == next)
  {
    var rows', prev, next := Replace(rows, p.sid, p.left, p.right, best), Prev(rows[p.sid], p.left),
      Next(rows[p.sid], p.right);
    var row, row' := rows[p.sid], rows'[p.sid];
    if next >= 0 {
      forall k | p.left < k < next ensures row'[k].None? { assert k != p.right ==> row'[k] == row[k]; }
    }
    PrevSame(row, row', p.left);
    NextSame(row, row', p.left, p.right);
    forall q: Position | Adjacent(rows', q) && q.sid == p.sid && q.right == p.left ensures q.left == prev {
      NextNeighbour(rows', q);
    }
    forall q: Position | Adjacent(rows', q) && q.sid == p.sid && q.left == p.left ensures q.right == next {
      NextNeighbour(rows', q);
    }
  }

  lemma {:induction false} PrevSame(row: Row, row': Row, i: int)
    requires |row'| == |row| && forall k :: 0 <= k < |row| && k < i ==> row'[k] == row[k]
    ensures Prev(row', i) == Prev(row, i)
    decreases i
  {
    if i > 0 { PrevSame(row, row', i - 1); }
  }

  lemma {:induction false} NextSame(row: Row, row': Row, l: int, r: int)
    requires |row'| == |row| && 0 <= l <= r && (forall k :: l < k <= r && k < |row| ==> row'[k].None?)
    requires forall k :: r < k < |row| ==> row'[k] == row[k]
    ensures Next(row', l) == Next(row, r)
    decreases |row| - l
  {
    if l + 1 < |row| {
      NextSame(row, row', l + 1, if r > l then r else l + 1);
    }
  }

  lemma ResetsKeep(c: Corpus, s: State, placed: set<Symbol>, dup: set<seq<int>>, best: Symbol, p: Position)
    requires Merging(c, s, placed, dup, best) && Adjacent(s.rows, p) && Stands(s.rows, best, p)
    ensures var next, prev := Next(s.rows[p.sid], p.right), Prev(s.rows[p.sid], p.left);
            var s2 := Reset(c, Reset(c, s, p.sid, prev, p.left, best), p.sid, p.right, next, best);
            s2.rows == s.rows && Merging(c, s2, placed, dup, best) && ReadyAt(c, s2, best, p)
  {
    hide Merging;
    var next, prev := Next(s.rows[p.sid], p.right), Prev(s.rows[p.sid], p.left);
    var s1 := Reset(c, s, p.sid, prev, p.left, best);
    ResetKeeps(c, s, placed, dup, best, p.sid, prev, p.left);
    ResetDoes(c, s, p.sid, prev, p.left, best);
    ResetKeeps(c, s1, placed, dup, best, p.sid, p.right, next);
    ResetDoes(c, s1, p.sid, p.right, next, best);
    ResetKeepsToCount(c, s1, p.sid, p.right, next, best, prev, p.left);
  }

  /** Merging one occurrence keeps everything: frequencies that are not to be counted again
      stay exact, all neighbours are recorded, and the text is the same. */
  lemma MergeKeeps(c: Corpus, s: State, placed: set<Symbol>, dup: set<seq<int>>, best: Symbol, p: Position)
    requires Merging(c, s, placed, dup, best) && Adjacent(s.rows, p) && Stands(s.rows, best, p)
    ensures Merging(c, MergeAt(c, s, best, p), placed, dup, best)
  {
    var next, prev := Next(s.rows[p.sid], p.right), Prev(s.rows[p.sid], p.left);
    var s2 := Reset(c, Reset(c, s, p.sid, prev, p.left, best), p.sid, p.right, next, best);
    ResetsKeep(c, s, placed, dup, best, p);
    ReplacedKeeps(c, s2, placed, dup, best, p);
    RecordsKeep(c, Replaced(s2, best, p), placed, dup, best, p, prev, next);
  }

  lemma ReplacedKeeps(c: Corpus, s: State, placed: set<Symbol>, dup: set<seq<int>>, best: Symbol, p: Position)
    requires Merging(c, s, placed, dup, best) && ReadyAt(c, s, best, p)
    ensures var s', next, prev := Replaced(s, best, p), Next(s.rows[p.sid], p.right), Prev(s.rows[p.sid], p.left);
            && CacheOk(c, s', placed) && ExactBut(c, s', Some(best)) && Uncounted(s', best)
              && AllPlaced(s'.rows, placed)
            && TextsKept(c, s'.rows) && At(s'.rows, p.sid, p.left) == Some(best)
              && OnlyNewMissing(c, s', dup, p, prev, next)
            && (prev == -1 || (prev >= 0 && Gap(s'.rows, Position(p.sid, prev, p.left))))
            && (next == -1 || (next >= 0 && Gap(s'.rows, Position(p.sid, p.left, next))))
  {
    var s', next, prev := Replaced(s, best, p), Next(s.rows[p.sid], p.right), Prev(s.rows[p.sid], p.left);
    ReplaceKeepsGaps(c, s, placed, best, p);
    ReplaceKeepsExact(c, s, placed, best, p);
    ReplaceKeepsListed(c, s, dup, best, p);
    ReplaceKeepsTexts(c, s, best, p);
    NewNeighbours(s.rows, best, p);
    forall q: Position | !(prev >= 0 && q == Position(p.sid, prev, p.left))
      && !(next >= 0 && q == Position(p.sid, p.left, next))
      ensures ListedAt(c, s', dup, q)
    {
    }
  }

  /** Only the two places where the new symbol has neighbours may not be recorded yet. */
  ghost predicate OnlyNewMissing(c: Corpus, s: State, dup: set<seq<int>>, p: Position, prev: int, next: int) {
    forall q: Position :: !(prev >= 0 && q == Position(p.sid, prev, p.left))
      && !(next >= 0 && q == Position(p.sid, p.left, next))
      ==> ListedAt(c, s, dup, q)
  }

  lemma RecordsKeep(c: Corpus, s: State, placed: set<Symbol>, dup: set<seq<int>>, best: Symbol, p: Position,
                    prev: int, next: int)
    requires CacheOk(c, s, placed) && ExactBut(c, s, Some(best)) && Uncounted(s, best) && AllPlaced(s.rows, placed)
    requires TextsKept(c, s.rows) && best.Pair? && best in placed && Chars(best) in dup
    requires At(s.rows, p.sid, p.left) == Some(best) && OnlyNewMissing(c, s, dup, p, prev, next)
    requires prev == -1 || (prev >= 0 && Gap(s.rows, Position(p.sid, prev, p.left)))
    requires next == -1 || (next >= 0 && Gap(s.rows, Position(p.sid, p.left, next)))
    ensures Merging(c, Record(c, Record(c, s, p.sid, prev, p.left), p.sid, p.left, next), placed, dup, best)
  {
    hide CacheOk, ExactBut, Uncounted, AllPlaced, TextsKept, Record, Gap, ListedAt;
    var s1 := Record(c, s, p.sid, prev, p.left);
    RecordKeeps(c, s, placed, dup, best, p.sid, prev, p.left);
    RecordKeeps(c, s1, placed, dup, best, p.sid, p.left, next);
    var s2 := Record(c, s1, p.sid, p.left, next);
    forall q ensures ListedAt(c, s2, dup, q) {
      assert ListedAt(c, s1, dup, q) || (next >= 0 && q == Position(p.sid, p.left, next));
    }
  }

  // ---------- All occurrences ----------

  /** The first n recorded places of best merged in order; a place whose left symbol is gone
      is passed over.  None: a check fails, the right symbol is gone. */
  function MergeFirst(c: Corpus, s: State, best: Symbol, ps: seq<Position>, n: nat): Option<State>
    requires n <= |ps|
  {
    if n == 0 then Some(s)
    else match MergeFirst(c, s, best, ps, n - 1)
      case None => None
      case Some(s1) =>
        var p := ps[n - 1];
        if At(s1.rows, p.sid, p.left).None? then Some(s1)
        else if At(s1.rows, p.sid, p.right).None? then None
        else Some(MergeAt(c, s1, best, p))
  }

  /** What has changed by the first n places: left symbols became best, and a right one is
      gone only where the left one became best. */
  ghost predicate ChangedAt(rows0: seq<Row>, rows: seq<Row>, best: Symbol, ps: seq<Position>, n: nat, sid: nat,
                            x: nat) {
    At(rows, sid, x) == At(rows0, sid, x) ||
    exists i :: 0 <= i < n && i < |ps| && ps[i].sid == sid && At(rows, sid, ps[i].left) == Some(best) &&
      (ps[i].left == x || (ps[i].right == x && At(rows, sid, x) == None))
  }

  ghost predicate PassedAt(rows: seq<Row>, best: Symbol, p: Position) {
    At(rows, p.sid, p.left) == Some(best) || At(rows, p.sid, p.left) == None
  }

  ghost predicate Changed(rows0: seq<Row>, rows: seq<Row>, best: Symbol, ps: seq<Position>, n: nat) {
    && |rows| == |rows0| && (forall sid :: 0 <= sid < |rows| ==> |rows[sid]| == |rows0[sid]|)
    && (forall sid: nat, x: nat :: ChangedAt(rows0, rows, best, ps, n, sid, x))
    && (forall i :: 0 <= i < n && i < |ps| ==> PassedAt(rows, best, ps[i]))
  }

  ghost predicate AllStand(rows: seq<Row>, best: Symbol, ps: seq<Position>) {
    Ascending(ps) && forall i :: 0 <= i < |ps| ==> Adjacent(rows, ps[i]) && Stands(rows, best, ps[i])
  }

  /** When a place has its turn, either its left symbol is gone or the pair still stands there:
      the places before it, being smaller, cannot have taken its right symbol. */
  lemma TurnOf(rows0: seq<Row>, rows: seq<Row>, best: Symbol, ps: seq<Position>, n: nat)
    requires AllStand(rows0, best, ps) && n < |ps| && Changed(rows0, rows, best, ps, n)
    ensures At(rows, ps[n].sid, ps[n].left).Some? ==> Adjacent(rows, ps[n]) && Stands(rows, best, ps[n])
  {
    var p := ps[n];
    assert ChangedAt(rows0, rows, best, ps, n, p.sid, p.left) && ChangedAt(rows0, rows, best, ps, n, p.sid, p.right);
    forall i | 0 <= i < n && ps[i].sid == p.sid
      ensures ps[i].left != p.left && ps[i].right != p.right && ps[i].left != p.right {
      assert Before(ps[i], p) && Adjacent(rows0, ps[i]) && Adjacent(rows0, p);
      PlacesApart(rows0, ps[i], p);
    }
    forall k | p.left < k < p.right && p.sid < |rows| && k < |rows[p.sid]| ensures rows[p.sid][k].None? {
      assert ChangedAt(rows0, rows, best, ps, n, p.sid, k) && rows0[p.sid][k].None?;
      assert forall i :: 0 <= i < n ==> Adjacent(rows0, ps[i]);
    }
  }

  lemma PlacesApart(rows: seq<Row>, q: Position, p: Position)
    requires Adjacent(rows, q) && Adjacent(rows, p) && q.sid == p.sid && Before(q, p)
    ensures q.left != p.left && q.right != p.right && q.left != p.right
  {
  }

  lemma MergedRows(c: Corpus, s: State, best: Symbol, p: Position)
    requires p.sid < |s.rows| && p.left < |s.rows[p.sid]| && p.right < |s.rows[p.sid]|
    ensures MergeAt(c, s, best, p).rows == Replace(s.rows, p.sid, p.left, p.right, best)
  {
  }

  lemma MergeChangesAt(rows0: seq<Row>, rows: seq<Row>, best: Symbol, ps: seq<Position>, n: nat, sid: nat, x: nat)
    requires AllStand(rows0, best, ps) && n < |ps| && Adjacent(rows, ps[n])
             && ChangedAt(rows0, rows, best, ps, n, sid, x)
    ensures ChangedAt(rows0, Replace(rows, ps[n].sid, ps[n].left, ps[n].right, best), best, ps, n + 1, sid, x)
  {
    var p := ps[n];
    var rows' := Replace(rows, p.sid, p.left, p.right, best);
    if sid == p.sid && (x == p.left || x == p.right) {
      assert ps[n].sid == sid && At(rows', sid, ps[n].left) == Some(best);
    } else if At(rows, sid, x) != At(rows0, sid, x) {
      var i :| 0 <= i < n && i < |ps| && ps[i].sid == sid && At(rows, sid, ps[i].left) == Some(best) &&
               (ps[i].left == x || (ps[i].right == x && At(rows, sid, x) == None));
      assert Before(ps[i], p);
      assert At(rows', sid, ps[i].left) == Some(best);
    }
  }

  /** Merging place n adds what it changes. */
  lemma MergeChanges(rows0: seq<Row>, rows: seq<Row>, best: Symbol, ps: seq<Position>, n: nat)
    requires AllStand(rows0, best, ps) && n < |ps| && Changed(rows0, rows, best, ps, n) && Adjacent(rows, ps[n])
    ensures Changed(rows0, Replace(rows, ps[n].sid, ps[n].left, ps[n].right, best), best, ps, n + 1)
  {
    var p := ps[n];
    var rows' := Replace(rows, p.sid, p.left, p.right, best);
    forall i | 0 <= i < n && ps[i].sid == p.sid ensures ps[i].left != p.right {
      assert Before(ps[i], p);
    }
    var m := n + 1;
    forall sid: nat, x: nat ensures ChangedAt(rows0, rows', best, ps, m, sid, x) {
      MergeChangesAt(rows0, rows, best, ps, n, sid, x);
    }
    forall i | 0 <= i < n + 1 ensures PassedAt(rows', best, ps[i]) {
      assert i < n ==> PassedAt(rows, best, ps[i]);
    }
  }

  lemma PassChanges(rows0: seq<Row>, rows: seq<Row>, best: Symbol, ps: seq<Position>, n: nat)
    requires n < |ps| && Changed(rows0, rows, best, ps, n) && At(rows, ps[n].sid, ps[n].left) == None
    ensures Changed(rows0, rows, best, ps, n + 1)
  {
    var m := n + 1;
    forall sid: nat, x: nat ensures ChangedAt(rows0, rows, best, ps, m, sid, x) {
      assert ChangedAt(rows0, rows, best, ps, n, sid, x);
    }
  }

  /** The check never fails, and everything is kept to the last place. */
  lemma {:induction false} MergeFirstKeeps(c: Corpus, s: State, placed: set<Symbol>, dup: set<seq<int>>, best: Symbol,
                                           ps: seq<Position>, n: nat)
    requires Merging(c, s, placed, dup, best) && AllStand(s.rows, best, ps) && n <= |ps|
    ensures MergeFirst(c, s, best, ps, n).Some?
    ensures Merging(c, MergeFirst(c, s, best, ps, n).value, placed, dup, best)
    ensures Changed(s.rows, MergeFirst(c, s, best, ps, n).value.rows, best, ps, n)
  {
    hide Merging, MergeAt, AllStand, Changed, Adjacent, Stands;
    if n == 0 {
      NothingChanged(s.rows, best, ps);
    } else {
      MergeFirstKeeps(c, s, placed, dup, best, ps, n - 1);
      var s1 := MergeFirst(c, s, best, ps, n - 1).value;
      TurnOf(s.rows, s1.rows, best, ps, n - 1);
      if At(s1.rows, ps[n - 1].sid, ps[n - 1].left).None? {
        PassChanges(s.rows, s1.rows, best, ps, n - 1);
      } else {
        RightIsThere(s1.rows, best, ps[n - 1]);
        MergeKeeps(c, s1, placed, dup, best, ps[n - 1]);
        MergedRows(c, s1, best, ps[n - 1]);
        MergeChanges(s.rows, s1.rows, best, ps, n - 1);
      }
    }
  }

  lemma NothingChanged(rows: seq<Row>, best: Symbol, ps: seq<Position>)
    ensures Changed(rows, rows, best, ps, 0)
  {
  }

  lemma RightIsThere(rows: seq<Row>, best: Symbol, p: Position)
    requires Adjacent(rows, p)
    ensures At(rows, p.sid, p.right).Some? && p.sid < |rows| && p.left < |rows[p.sid]| && p.right < |rows[p.sid]|
  {
  }

  lemma Larger(k: Symbol)
    requires k.Pair?
    ensures k.left != k && k.right != k
  {
    assert |Chars(k)| == |Chars(k.left)| + |Chars(k.right)|;
  }

  /** If every place where best stood is on the list, then afterwards it stands nowhere. */
  lemma BestGone(rows0: seq<Row>, rows: seq<Row>, best: Symbol, ps: seq<Position>, q: Position)
    requires best.Pair? && AllStand(rows0, best, ps) && Changed(rows0, rows, best, ps, |ps|)
    requires forall p: Position :: Adjacent(rows0, p) && Stands(rows0, best, p) ==> p in ps
    ensures !(Adjacent(rows, q) && Stands(rows, best, q))
  {
    Larger(best);
    forall p | p in ps ensures !Stands(rows, best, p) {
      var i :| 0 <= i < |ps| && ps[i] == p;
      assert PassedAt(rows, best, ps[i]);
    }
    if Adjacent(rows, q) && Stands(rows, best, q) {
      StoodBefore(rows0, rows, best, ps, q);
    }
  }

  lemma StoodBefore(rows0: seq<Row>, rows: seq<Row>, best: Symbol, ps: seq<Position>, q: Position)
    requires best.Pair? && best.left != best && best.right != best
    requires AllStand(rows0, best, ps) && Changed(rows0, rows, best, ps, |ps|)
    requires Adjacent(rows, q) && Stands(rows, best, q)
    ensures Adjacent(rows0, q) && Stands(rows0, best, q)
  {
    assert ChangedAt(rows0, rows, best, ps, |ps|, q.sid, q.left)
           && ChangedAt(rows0, rows, best, ps, |ps|, q.sid, q.right);
    forall k: nat | q.left < k < q.right ensures rows0[q.sid][k].None? {
      assert ChangedAt(rows0, rows, best, ps, |ps|, q.sid, k) && rows[q.sid][k].None?;
      assert forall i :: 0 <= i < |ps| ==> Adjacent(rows0, ps[i]);
      forall i | 0 <= i < |ps| && ps[i].sid == q.sid && ps[i].right == k
        ensures At(rows, q.sid, ps[i].left) != Some(best) {
        LeftInside(rows0, rows, best, ps[i], q, k);
      }
    }
  }

  lemma LeftInside(rows0: seq<Row>, rows: seq<Row>, best: Symbol, p: Position, q: Position, k: nat)
    requires best.Pair? && best.left != best && Adjacent(rows0, p) && Adjacent(rows, q) && Stands(rows, best, q)
    requires At(rows0, q.sid, q.left) == At(rows, q.sid, q.left)
    requires p.sid == q.sid && p.right == k && q.left < k < q.right
    ensures At(rows, q.sid, p.left) != Some(best)
  {
    assert p.left > q.left ==> rows[q.sid][p.left].None?;
    assert rows0[q.sid][q.left].Some?;
  }
}
