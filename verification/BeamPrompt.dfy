/** What a beam search leaves in the cache: the prompt where it was, and tokens behind it. */
module BeamPrompt {
  import opened BeamCells
  import opened BeamHistory
  import opened BeamIds
  import opened BeamRounds
  import opened BeamRuns
  import opened PromptCache
  import opened SharedCells
  import opened Wrappers

  // ---------- How a search begins and ends ----------

  /** Sequences 1 to m get the prompt that sequence 0 holds. */
  function Spread(cells: seq<SharedCell>, size: nat, m: nat): (r: seq<SharedCell>)
    ensures |r| == |cells|
  {
    if m <= 1 then cells else Copy(Spread(cells, size, m - 1), 0, m - 1, size)
  }

  function FirstBeams(first: seq<(int, real)>): (r: seq<Beam>)
    ensures |r| == |first|
  {
    seq(|first|, i requires 0 <= i < |first| => Beam(first[i].1, [first[i].0], i))
  }

  function Start(cells: seq<SharedCell>, size: nat, first: seq<(int, real)>): State {
    State(Spread(cells, size, |first|), FirstBeams(first), [])
  }

  /** Sequences 1 to m emptied. */
  function RmOthers(cells: seq<SharedCell>, m: nat): seq<SharedCell> {
    if m <= 1 then cells else RmSeq(RmOthers(cells, m - 1), m - 1, 0)
  }

  lemma StartSound(cells: seq<SharedCell>, size: nat, first: seq<(int, real)>)
    ensures Sound(Start(cells, size, first), |first|, 0)
  {
    var beams := FirstBeams(first);
    forall b | b in beams ensures b.id < |first| && |b.tokens| == 1 {
      var i :| 0 <= i < |beams| && beams[i] == b;
    }
  }

  // ---------- The prompt stays in front ----------

  /** The cells of the prompt first, each shared by all n sequences; then only tokens at later
      positions. */
  ghost predicate InFront(base: seq<Cell>, cells: seq<SharedCell>, size: nat, n: nat) {
    && |base| <= |cells|
    && (forall x: nat :: x < |base| ==> PromptAt(base, cells, size, n, x))
    && (forall x: nat :: |base| <= x < |cells| ==> TokenAt(cells, size, x))
    && forall x: nat, q: nat :: x < |cells| && q in cells[x].ids ==> q == 0 || q < n
  }

  ghost predicate PromptAt(base: seq<Cell>, cells: seq<SharedCell>, size: nat, n: nat, x: nat) {
    && x < |base| && x < |cells| && cells[x].cell == base[x] && 0 <= base[x].pos < size
    && forall q: nat :: q == 0 || q < n ==> q in cells[x].ids
  }

  ghost predicate TokenAt(cells: seq<SharedCell>, size: nat, x: nat) {
    x < |cells| && cells[x].cell.pos >= size && cells[x].cell.entry.Token?
  }

  /** Cells that belong to sequence 0 only. */
  ghost predicate OnlyZero(cells: seq<SharedCell>, size: nat) {
    forall c :: c in cells ==> c.ids == {0} && 0 <= c.cell.pos < size
  }

  lemma {:induction false} ZeroView(cells: seq<SharedCell>, size: nat)
    requires OnlyZero(cells, size)
    ensures |View(cells, 0)| == |cells| && forall x :: 0 <= x < |cells| ==> View(cells, 0)[x] == cells[x].cell
  {
    if cells == [] {
    } else {
      assert cells[0] in cells;
      ZeroView(cells[1..], size);
    }
  }

  lemma {:induction false} SpreadAt(cells: seq<SharedCell>, size: nat, m: nat, x: nat)
    requires OnlyZero(cells, size) && x < |cells|
    ensures var c := Spread(cells, size, m)[x];
            c.cell == cells[x].cell && forall q: nat :: q in c.ids <==> q == 0 || q < m
  {
    assert cells[x] in cells;
    if m <= 1 {
    } else {
      SpreadAt(cells, size, m - 1, x);
    }
  }

  lemma SpreadInFront(cells: seq<SharedCell>, size: nat, n: nat)
    requires OnlyZero(cells, size)
    ensures InFront(View(cells, 0), Spread(cells, size, n), size, n)
    ensures Seeded(Spread(cells, size, n), View(cells, 0), size, n)
  {
    var base, spread := View(cells, 0), Spread(cells, size, n);
    ZeroView(cells, size);
    forall x: nat | x < |cells|
      ensures PromptAt(base, spread, size, n, x) && forall q: nat :: q in spread[x].ids ==> q == 0 || q < n
    {
      SpreadAt(cells, size, n, x);
      assert cells[x] in cells;
    }
    forall c | c in spread ensures 0 <= c.cell.pos < size && forall q: nat :: q < n ==> q in c.ids {
      var x: nat :| x < |spread| && spread[x] == c;
      assert PromptAt(base, spread, size, n, x);
    }
    forall q: nat | q < n ensures View(spread, q) == base {
      forall x | 0 <= x < |cells|
        ensures spread[x].cell == cells[x].cell && (q in spread[x].ids <==> 0 in cells[x].ids) {
        assert PromptAt(base, spread, size, n, x) && cells[x] in cells;
      }
      SameView(spread, cells, q, 0);
    }
  }

  lemma DecodedInFront(base: seq<Cell>, cells: seq<SharedCell>, size: nat, n: nat, beams: seq<Beam>)
    requires InFront(base, cells, size, n) && forall b :: b in beams ==> b.id < n && b.tokens != []
    ensures InFront(base, DecodeBeams(cells, size, beams, |beams|), size, n)
  {
    var d := DecodeBeams(cells, size, beams, |beams|);
    DecodedLength(cells, size, beams, |beams|);
    forall x: nat | x < |d|
      ensures if x < |cells| then d[x] == cells[x] else TokenAt(d, size, x) && d[x].ids == {beams[x - |cells|].id}
    {
      DecodedIs(cells, size, beams, |beams|, x);
      assert x >= |cells| ==> beams[x - |cells|] in beams;
    }
    forall x: nat | x < |base| ensures PromptAt(base, d, size, n, x) {
      assert PromptAt(base, cells, size, n, x);
    }
    forall x: nat | |base| <= x < |d| ensures TokenAt(d, size, x) {
      assert x < |cells| ==> TokenAt(cells, size, x);
    }
    forall x: nat, q: nat | x < |d| && q in d[x].ids ensures q == 0 || q < n {
      assert x >= |cells| ==> beams[x - |cells|] in beams;
    }
  }

  /** Moving children adds sequences below n to a cell and takes none away. */
  lemma MovedCell(cells: seq<SharedCell>, ids: seq<nat>, n: nat, end: int, x: nat)
    requires |ids| <= n && (forall i :: 0 <= i < |ids| ==> ids[i] < n) && x < |cells|
    ensures var c, d := cells[x], Moved(cells, ids, n, end)[x];
            d.cell == c.cell && (forall q: nat :: q in c.ids ==> q in d.ids) && forall q: nat :: q in d.ids ==>
              q in c.ids || q < n
  {
    hide CopyFirst;
    ReassignIsRight(ids, n);
    CopyFirstMoves(cells, ids, n, seq(|ids|, _ => end), |ids|, x);
  }

  lemma MovedInFront(base: seq<Cell>, cells: seq<SharedCell>, size: nat, ids: seq<nat>, n: nat, end: int)
    requires InFront(base, cells, size, n) && |ids| <= n && forall i :: 0 <= i < |ids| ==> ids[i] < n
    ensures InFront(base, Moved(cells, ids, n, end), size, n)
  {
    hide Moved;
    var d := Moved(cells, ids, n, end);
    forall x: nat | x < |base| ensures PromptAt(base, d, size, n, x) {
      MovedCell(cells, ids, n, end, x);
      assert PromptAt(base, cells, size, n, x);
    }
    forall x: nat | |base| <= x < |d| ensures TokenAt(d, size, x) {
      MovedCell(cells, ids, n, end, x);
      assert TokenAt(cells, size, x);
    }
    forall x: nat, q: nat | x < |d| && q in d[x].ids ensures q == 0 || q < n {
      MovedCell(cells, ids, n, end, x);
    }
  }

  lemma NextInFront(e: Endings, base: seq<Cell>, size: nat, n: nat, k: nat, s: State, picks: seq<Pick>)
    requires Sound(s, n, k) && Fair(e, s, picks) && InFront(base, s.cells, size, n)
    ensures InFront(base, Next(e, size, n, k, s, picks).cells, size, n)
  {
    hide InFront, Moved, DecodeBeams, Live, Children;
    var live := Live(e, s.beams);
    DecodedInFront(base, s.cells, size, n, live);
    ChildIdsBelow(live, picks, n);
    MovedInFront(base, DecodeBeams(s.cells, size, live, |live|), size, Ids(Children(live, picks)), n, size + k + 1);
  }

  lemma {:induction false} RoundsInFront(e: Endings, base: seq<Cell>, size: nat, n: nat, k: nat, s: State,
                                         rounds: seq<seq<Pick>>)
    requires Sound(s, n, k) && AllFair(e, size, n, k, s, rounds) && InFront(base, s.cells, size, n)
    ensures var s' := Rounds(e, size, n, k, s, rounds);
            InFront(base, s'.cells, size, n) && Sound(s', n, k + |rounds|)
    decreases |rounds|
  {
    hide InFront, Next;
    if rounds == [] {
    } else {
      NextSound(e, size, n, k, s, rounds[0]);
      NextInFront(e, base, size, n, k, s, rounds[0]);
      RoundsInFront(e, base, size, n, k + 1, Next(e, size, n, k, s, rounds[0]), rounds[1..]);
    }
  }

  // ---------- What is left ----------

  lemma {:induction false} BehindView(cells: seq<SharedCell>, size: nat, q: nat)
    requires forall x: nat :: x < |cells| ==> TokenAt(cells, size, x)
    ensures Behind(View(cells, q), size)
  {
    if cells == [] {
    } else {
      assert TokenAt(cells, size, 0);
      forall x: nat | x < |cells[1..]| ensures TokenAt(cells[1..], size, x) {
        assert TokenAt(cells, size, x + 1);
      }
      BehindView(cells[1..], size, q);
    }
  }

  lemma {:induction false} FrontView(base: seq<Cell>, cells: seq<SharedCell>, q: nat)
    requires |base| == |cells| && forall x: nat :: x < |cells| ==> cells[x].cell == base[x] && q in cells[x].ids
    ensures View(cells, q) == base
  {
    if cells == [] {
    } else {
      FrontView(base[1..], cells[1..], q);
      assert base == [base[0]] + base[1..];
    }
  }

  /** Every sequence of the search sees the prompt, then only tokens behind it. */
  lemma InFrontView(base: seq<Cell>, cells: seq<SharedCell>, size: nat, n: nat, q: nat)
    requires InFront(base, cells, size, n) && (q == 0 || q < n)
    ensures |base| <= |View(cells, q)| && View(cells, q)[..|base|] == base && Behind(View(cells, q)[|base|..], size)
  {
    var m := |base|;
    assert cells == cells[..m] + cells[m..];
    ViewAppend(cells[..m], cells[m..], q);
    forall x: nat | x < m ensures cells[..m][x].cell == base[x] && q in cells[..m][x].ids {
      assert PromptAt(base, cells, size, n, x);
    }
    FrontView(base, cells[..m], q);
    forall x: nat | x < |cells[m..]| ensures TokenAt(cells[m..], size, x) {
      assert TokenAt(cells, size, m + x);
    }
    BehindView(cells[m..], size, q);
    assert View(cells, q)[m..] == View(cells[m..], q);
  }

  lemma {:induction false} OthersEmptied(cells: seq<SharedCell>, m: nat, q: nat)
    requires forall c :: c in cells ==> c.cell.pos >= 0
    ensures View(RmOthers(cells, m), q) == if 0 < q < m then [] else View(cells, q)
  {
    if m <= 1 {
    } else {
      OthersEmptied(cells, m - 1, q);
      if q == m - 1 {
        RmSeqView(RmOthers(cells, m - 1), q, 0);
        SeenFrom(cells, q);
        RmAll(View(RmOthers(cells, m - 1), q), 0);
      } else {
        RmSeqOthers(RmOthers(cells, m - 1), m - 1, 0, q);
      }
    }
  }

  lemma {:induction false} SeenFrom(cells: seq<SharedCell>, q: nat)
    requires forall c :: c in cells ==> c.cell.pos >= 0
    ensures forall d :: d in View(cells, q) ==> d.pos >= 0
  {
    if cells == [] {
    } else {
      SeenFrom(cells[1..], q);
    }
  }

  /** After the last removal sequence 0 is as it was and nobody else holds anything. */
  lemma CleanedUp(base: seq<Cell>, cells: seq<SharedCell>, size: nat, n: nat)
    requires InFront(base, cells, size, n)
    ensures Alone(RmOthers(cells, n)) && View(RmOthers(cells, n), 0) == View(cells, 0)
  {
    forall c | c in cells ensures c.cell.pos >= 0 {
      var x: nat :| x < |cells| && cells[x] == c;
      assert if x < |base| then PromptAt(base, cells, size, n, x) else TokenAt(cells, size, x);
    }
    OthersEmptied(cells, n, 0);
    forall q: nat | q != 0 ensures View(RmOthers(cells, n), q) == [] {
      OthersEmptied(cells, n, q);
      if q >= n {
        SeenNowhere(cells, q);
      }
    }
  }

  // ---------- No cell is left to nobody ----------

  lemma {:induction false} SpreadOccupied(cells: seq<SharedCell>, size: nat, m: nat)
    requires Occupied(cells)
    ensures Occupied(Spread(cells, size, m))
  {
    if m <= 1 {
    } else {
      SpreadOccupied(cells, size, m - 1);
      var before, after := Spread(cells, size, m - 1), Spread(cells, size, m);
      forall c | c in after ensures c.ids != {} && c.cell.pos >= 0 {
        var x :| 0 <= x < |after| && after[x] == c;
        assert before[x] in before && before[x].ids <= c.ids;
      }
    }
  }

  lemma DecodedOccupied(cells: seq<SharedCell>, size: nat, beams: seq<Beam>)
    requires Occupied(cells) && forall b :: b in beams ==> b.tokens != []
    ensures Occupied(DecodeBeams(cells, size, beams, |beams|))
  {
    var d := DecodeBeams(cells, size, beams, |beams|);
    DecodedLength(cells, size, beams, |beams|);
    forall c | c in d ensures c.ids != {} && c.cell.pos >= 0 {
      var x: nat :| x < |d| && d[x] == c;
      DecodedIs(cells, size, beams, |beams|, x);
      assert if x < |cells| then cells[x] in cells else beams[x - |cells|] in beams && beams[x - |cells|].id in c.ids;
    }
  }

  lemma MovedOccupied(cells: seq<SharedCell>, ids: seq<nat>, n: nat, end: int)
    requires Occupied(cells) && |ids| <= n && forall i :: 0 <= i < |ids| ==> ids[i] < n
    ensures Occupied(Moved(cells, ids, n, end))
  {
    hide Moved;
    var d := Moved(cells, ids, n, end);
    forall c | c in d ensures c.ids != {} && c.cell.pos >= 0 {
      var x: nat :| x < |d| && d[x] == c;
      MovedCell(cells, ids, n, end, x);
      assert cells[x] in cells;
      var q: nat :| q in cells[x].ids;
      assert q in c.ids;
    }
  }

  lemma {:induction false} RoundsOccupied(e: Endings, size: nat, n: nat, k: nat, s: State, rounds: seq<seq<Pick>>)
    requires Sound(s, n, k) && AllFair(e, size, n, k, s, rounds) && Occupied(s.cells)
    ensures Occupied(Rounds(e, size, n, k, s, rounds).cells)
    decreases |rounds|
  {
    hide Occupied, Moved, DecodeBeams, Live, Children, NextBeams, Done;
    if rounds == [] {
    } else {
      var live := Live(e, s.beams);
      NextSound(e, size, n, k, s, rounds[0]);
      DecodedOccupied(s.cells, size, live);
      ChildIdsBelow(live, rounds[0], n);
      MovedOccupied(DecodeBeams(s.cells, size, live, |live|), Ids(Children(live, rounds[0])), n, size + k + 1);
      RoundsOccupied(e, size, n, k + 1, Next(e, size, n, k, s, rounds[0]), rounds[1..]);
    }
  }

  lemma {:induction false} OthersOccupied(cells: seq<SharedCell>, m: nat)
    requires Occupied(cells)
    ensures Occupied(RmOthers(cells, m))
  {
    if m <= 1 {
    } else {
      OthersOccupied(cells, m - 1);
      RmSeqOccupied(RmOthers(cells, m - 1), m - 1, 0);
    }
  }
}
