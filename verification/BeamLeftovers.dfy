/** Tokens left over from a search that broke off, and when a later search brings them into
    sequence 0. */
module BeamLeftovers {
  import opened BeamCells
  import opened BeamHistory
  import opened BeamIds
  import opened BeamPrompt
  import opened BeamRounds
  import opened BeamRuns
  import opened BeamTraces
  import opened PromptCache
  import opened SharedCells
  import opened Wrappers

  /** A cell among the positions of the prompt that sequence 0 does not see. */
  predicate Foreign(c: SharedCell, size: nat) { 0 !in c.ids && 0 <= c.cell.pos < size }

  /** The sequences that see such a cell. */
  function LeftOver(cells: seq<SharedCell>, size: nat): set<nat> {
    if cells == [] then {}
    else (if Foreign(cells[0], size) then cells[0].ids else {}) + LeftOver(cells[1..], size)
  }

  /** Left-overs go wherever a child of a beam goes that has them. */
  function Carried(held: set<nat>, ids: seq<nat>, now: seq<nat>): set<nat>
    requires |now| == |ids|
  {
    held + set j | 0 <= j < |ids| && ids[j] in held :: now[j]
  }

  /** The sequences that have left-overs after the rounds of a search. */
  function Brought(e: Endings, size: nat, n: nat, k: nat, s: State, held: set<nat>, rounds: seq<seq<Pick>>): set<nat>
    requires Sound(s, n, k) && AllFair(e, size, n, k, s, rounds)
    decreases |rounds|
  {
    if rounds == [] then held
    else
      NextSound(e, size, n, k, s, rounds[0]);
      ChildIdsBelow(Live(e, s.beams), rounds[0], n);
      var ids := Ids(Children(Live(e, s.beams), rounds[0]));
      Brought(e, size, n, k + 1, Next(e, size, n, k, s, rounds[0]), Carried(held, ids, Now(ids, n)), rounds[1..])
  }

  // ---------- Keeping track of them ----------

  ghost predicate HasForeign(was: seq<SharedCell>, cells: seq<SharedCell>, size: nat, x: nat, q: nat) {
    x < |was| && x < |cells| && Foreign(was[x], size) && q in cells[x].ids
  }

  /** The cells that were there are still there and have lost no sequence, new ones lie behind the
      prompt, and exactly the sequences in `held` see a cell that sequence 0 did not. */
  ghost predicate Tracks(was: seq<SharedCell>, cells: seq<SharedCell>, size: nat, held: set<nat>) {
    && |was| <= |cells|
    && (forall x: nat :: x < |was| ==> Grown(was[x], cells[x]))
    && (forall x: nat :: |was| <= x < |cells| ==> cells[x].cell.pos >= size)
    && forall q: nat :: q in held <==> exists x: nat :: HasForeign(was, cells, size, x, q)
  }

  ghost predicate Grown(c: SharedCell, d: SharedCell) { d.cell == c.cell && c.ids <= d.ids }

  lemma {:induction false} LeftOverIs(cells: seq<SharedCell>, size: nat, q: nat)
    ensures q in LeftOver(cells, size) <==> exists x: nat :: HasForeign(cells, cells, size, x, q)
  {
    if cells == [] {
    } else {
      var rest := cells[1..];
      LeftOverIs(rest, size, q);
      if exists x: nat :: HasForeign(rest, rest, size, x, q) {
        var x: nat :| HasForeign(rest, rest, size, x, q);
        assert HasForeign(cells, cells, size, x + 1, q);
      }
      if exists x: nat :: HasForeign(cells, cells, size, x, q) {
        var x: nat :| HasForeign(cells, cells, size, x, q);
        if x > 0 { assert HasForeign(rest, rest, size, x - 1, q); }
      }
      if Foreign(cells[0], size) && q in cells[0].ids { assert HasForeign(cells, cells, size, 0, q); }
    }
  }

  lemma {:induction false} SpreadGrows(cells: seq<SharedCell>, size: nat, m: nat, x: nat)
    requires x < |cells|
    ensures var d := Spread(cells, size, m)[x];
            && Grown(cells[x], d) && (0 in d.ids ==> 0 in cells[x].ids) && (0 !in cells[x].ids ==> d == cells[x])
  {
    if m <= 1 {
    } else {
      SpreadGrows(cells, size, m - 1, x);
    }
  }

  lemma StartTracks(cells: seq<SharedCell>, size: nat, m: nat)
    ensures Tracks(cells, Spread(cells, size, m), size, LeftOver(cells, size))
  {
    var spread := Spread(cells, size, m);
    forall x: nat | x < |cells| ensures Grown(cells[x], spread[x]) && (0 !in cells[x].ids ==> spread[x] == cells[x]) {
      SpreadGrows(cells, size, m, x);
    }
    forall q: nat ensures q in LeftOver(cells, size) <==> exists x: nat :: HasForeign(cells, spread, size, x, q) {
      LeftOverIs(cells, size, q);
      forall x: nat ensures HasForeign(cells, spread, size, x, q) <==> HasForeign(cells, cells, size, x, q) {}
    }
  }

  lemma DecodedTracks(was: seq<SharedCell>, cells: seq<SharedCell>, size: nat, held: set<nat>, live: seq<Beam>)
    requires Tracks(was, cells, size, held) && forall b :: b in live ==> b.tokens != []
    ensures Tracks(was, DecodeBeams(cells, size, live, |live|), size, held)
  {
    var d := DecodeBeams(cells, size, live, |live|);
    DecodedLength(cells, size, live, |live|);
    forall x: nat | x < |d| ensures if x < |cells| then d[x] == cells[x] else d[x].cell.pos >= size {
      DecodedIs(cells, size, live, |live|, x);
      assert x >= |cells| ==> live[x - |cells|] in live;
    }
    forall q: nat, x: nat ensures HasForeign(was, d, size, x, q) <==> HasForeign(was, cells, size, x, q) {}
  }

  lemma MovedTracks(was: seq<SharedCell>, cells: seq<SharedCell>, size: nat, held: set<nat>, ids: seq<nat>, n: nat,
                    end: int)
    requires Tracks(was, cells, size, held) && size <= end
    requires |ids| <= n && forall i :: 0 <= i < |ids| ==> ids[i] < n
    ensures Tracks(was, Moved(cells, ids, n, end), size, Carried(held, ids, Now(ids, n)))
  {
    hide CopyFirst;
    var d, now, ps := Moved(cells, ids, n, end), Now(ids, n), seq(|ids|, _ => end);
    forall x: nat | x < |cells| ensures CellMoved(cells[x], d[x], ids, now, ps, |ids|) {
      CopyFirstMoves(cells, ids, n, ps, |ids|, x);
    }
    forall x: nat | x < |was| ensures Grown(was[x], d[x]) {
      assert Grown(was[x], cells[x]) && CellMoved(cells[x], d[x], ids, now, ps, |ids|);
    }
    forall q: nat ensures q in Carried(held, ids, now) <==> exists x: nat :: HasForeign(was, d, size, x, q) {
      CarriedIs(was, cells, d, size, held, ids, now, ps, q);
    }
  }

  lemma CarriedIs(was: seq<SharedCell>, cells: seq<SharedCell>, d: seq<SharedCell>, size: nat, held: set<nat>,
                  ids: seq<nat>, now: seq<nat>, ps: seq<int>, q: nat)
    requires Tracks(was, cells, size, held) && |d| == |cells| && |now| == |ids| == |ps|
    requires forall x: nat :: x < |cells| ==> CellMoved(cells[x], d[x], ids, now, ps, |ids|)
    requires forall i :: 0 <= i < |ps| ==> size <= ps[i]
    ensures q in Carried(held, ids, now) <==> exists x: nat :: HasForeign(was, d, size, x, q)
  {
    if q in held {
      var x: nat :| HasForeign(was, cells, size, x, q);
      assert HasForeign(was, d, size, x, q);
    } else if q in Carried(held, ids, now) {
      var j :| 0 <= j < |ids| && ids[j] in held && now[j] == q;
      var x: nat :| HasForeign(was, cells, size, x, ids[j]);
      assert Grown(was[x], cells[x]);
      assert Gained(cells[x], ids, now, ps, j, q);
      assert HasForeign(was, d, size, x, q);
    }
    forall x: nat | HasForeign(was, d, size, x, q) ensures q in Carried(held, ids, now) {
      if q in cells[x].ids {
        assert HasForeign(was, cells, size, x, q);
      } else {
        var j :| 0 <= j < |ids| && Gained(cells[x], ids, now, ps, j, q);
        assert HasForeign(was, cells, size, x, ids[j]);
      }
    }
  }

  lemma {:induction false} RoundsTrack(e: Endings, was: seq<SharedCell>, size: nat, n: nat, k: nat, s: State,
                                       held: set<nat>, rounds: seq<seq<Pick>>)
    requires Sound(s, n, k) && AllFair(e, size, n, k, s, rounds) && Tracks(was, s.cells, size, held)
    ensures Tracks(was, Rounds(e, size, n, k, s, rounds).cells, size, Brought(e, size, n, k, s, held, rounds))
    decreases |rounds|
  {
    hide Tracks, Moved, DecodeBeams, Live, Children, NextBeams, Done, Carried, Now;
    if rounds == [] {
    } else {
      var live := Live(e, s.beams);
      NextSound(e, size, n, k, s, rounds[0]);
      ChildIdsBelow(live, rounds[0], n);
      var ids := Ids(Children(live, rounds[0]));
      DecodedTracks(was, s.cells, size, held, live);
      MovedTracks(was, DecodeBeams(s.cells, size, live, |live|), size, held, ids, n, size + k + 1);
      RoundsTrack(e, was, size, n, k + 1, Next(e, size, n, k, s, rounds[0]), Carried(held, ids, Now(ids, n)),
                  rounds[1..]);
    }
  }

  // ---------- What sequence 0 sees ----------

  ghost predicate Joins(c: SharedCell, d: SharedCell, size: nat) {
    0 in d.ids && 0 !in c.ids && c.cell.pos < size
  }

  /** Cells that only gain sequences: sequence 0 sees the same before `size` if and only if it joins
      none of the cells there. */
  lemma {:induction false} FrontGrows(was: seq<SharedCell>, cells: seq<SharedCell>, size: nat)
    requires |was| == |cells| && forall x: nat :: x < |was| ==> Grown(was[x], cells[x])
    ensures |Rm(View(cells, 0), size)| >= |Rm(View(was, 0), size)|
    ensures Rm(View(cells, 0), size) == Rm(View(was, 0), size) <==>
            forall x: nat :: x < |was| ==> !Joins(was[x], cells[x], size)
    ensures (exists x: nat :: x < |was| && Joins(was[x], cells[x], size)) ==>
              |Rm(View(cells, 0), size)| > |Rm(View(was, 0), size)|
  {
    if was == [] {
    } else {
      var a, b := was[1..], cells[1..];
      forall x: nat | x < |a| ensures Grown(a[x], b[x]) && a[x] == was[x + 1] && b[x] == cells[x + 1] {
        assert Grown(was[x + 1], cells[x + 1]);
      }
      FrontGrows(a, b, size);
      JoinsMore(was, cells, size);
      FirstSeen(was, size);
      FirstSeen(cells, size);
      assert Grown(was[0], cells[0]);
    }
  }

  lemma FirstSeen(cells: seq<SharedCell>, size: nat)
    requires cells != []
    ensures Rm(View(cells, 0), size) ==
            (if 0 in cells[0].ids && cells[0].cell.pos < size then [cells[0].cell] else [])
              + Rm(View(cells[1..], 0), size)
  {
    var c := cells[0].cell;
    RmAppend(SeenBy(cells[0], 0), View(cells[1..], 0), size);
    assert [c][1..] == [];
    assert Rm([c], size) == if c.pos < size then [c] else [];
  }

  lemma JoinsMore(was: seq<SharedCell>, cells: seq<SharedCell>, size: nat)
    requires |was| == |cells| && was != []
    ensures (exists x: nat :: x < |was| && Joins(was[x], cells[x], size)) <==>
            Joins(was[0], cells[0], size) || exists x: nat :: x < |was| - 1 && Joins(was[1..][x], cells[1..][x], size)
  {
    if exists x: nat :: x < |was| && Joins(was[x], cells[x], size) {
      var x: nat :| x < |was| && Joins(was[x], cells[x], size);
      if x > 0 { assert Joins(was[1..][x - 1], cells[1..][x - 1], size); }
    }
    if exists x: nat :: x < |was| - 1 && Joins(was[1..][x], cells[1..][x], size) {
      var x: nat :| x < |was| - 1 && Joins(was[1..][x], cells[1..][x], size);
      assert Joins(was[x + 1], cells[x + 1], size);
    }
  }

  lemma {:induction false} NothingInFront(cells: seq<SharedCell>, size: nat)
    requires forall x: nat :: x < |cells| ==> cells[x].cell.pos >= size
    ensures Rm(View(cells, 0), size) == []
  {
    if cells == [] {
    } else {
      FirstSeen(cells, size);
      NothingInFront(cells[1..], size);
    }
  }

  /** Of the prompt's positions sequence 0 sees what it saw, if and only if no left-over got to it. */
  lemma TrackedFront(was: seq<SharedCell>, cells: seq<SharedCell>, size: nat, held: set<nat>)
    requires Tracks(was, cells, size, held) && Occupied(was)
    ensures Rm(View(cells, 0), size) == Rm(View(was, 0), size) <==> 0 !in held
  {
    var m := |was|;
    assert cells == cells[..m] + cells[m..];
    ViewAppend(cells[..m], cells[m..], 0);
    RmAppend(View(cells[..m], 0), View(cells[m..], 0), size);
    NothingInFront(cells[m..], size);
    forall x: nat | x < m ensures Grown(was[x], cells[..m][x]) { assert Grown(was[x], cells[x]); }
    FrontGrows(was, cells[..m], size);
    forall x: nat | x < m ensures Joins(was[x], cells[..m][x], size) <==> HasForeign(was, cells, size, x, 0) {
      assert was[x] in was;
    }
    if 0 in held {
      var x: nat :| HasForeign(was, cells, size, x, 0);
      assert Joins(was[x], cells[..m][x], size);
    }
  }

  /** No child of a beam takes left-overs along to sequence 0. */
  ghost predicate KeepsPrompt(e: Endings, size: nat, cells: seq<SharedCell>, first: seq<(int, real)>,
                              rounds: seq<seq<Pick>>)
    requires FairSearch(e, size, cells, first, rounds)
  {
    StartSound(cells, size, first);
    0 !in Brought(e, size, |first|, 0, Start(cells, size, first), LeftOver(cells, size), rounds)
  }

  /** A search from a cache with left-overs: sequence 0 keeps exactly its prompt at the prompt's
      positions if and only if no beam's child takes left-overs along to sequence 0. */
  lemma PromptStaysIff(e: Endings, size: nat, cells: seq<SharedCell>, first: seq<(int, real)>, trace: Trace,
                       after: seq<SharedCell>, outs: seq<Output>)
    requires Occupied(cells) && (forall d :: d in View(cells, 0) ==> d.pos < size)
    requires Searched(e, size, cells, first, trace, after, outs)
    ensures Rm(View(after, 0), size) == View(cells, 0) <==> KeepsPrompt(e, size, cells, first, trace.rounds)
  {
    hide Tracks, RmOthers, DecodeBeams, Rounds, AllFair, Spread, Live, Done, Brought, View, Sound;
    var n, s0 := |first|, Start(cells, size, first);
    StartSound(cells, size, first);
    StartTracks(cells, size, n);
    RoundsTrack(e, cells, size, n, 0, s0, LeftOver(cells, size), trace.rounds);
    var s := After(e, size, cells, first, trace.rounds);
    var held := Brought(e, size, n, 0, s0, LeftOver(cells, size), trace.rounds);
    RmNone(View(cells, 0), size);
    if trace.stop.Broken? {
      LiveStarted(e, n, |trace.rounds|, s);
      DecodedTracks(cells, s.cells, size, held, Live(e, s.beams));
      TrackedFront(cells, after, size, held);
    } else {
      TrackedFront(cells, s.cells, size, held);
      AfterOccupied(e, size, cells, first, trace.rounds);
      OthersEmptied(s.cells, n, 0);
    }
  }

  lemma LiveStarted(e: Endings, n: nat, k: nat, s: State)
    requires Sound(s, n, k)
    ensures Started(s.beams) && forall b :: b in Live(e, s.beams) ==> b.tokens != []
  {
  }

  // ---------- When nothing is left over ----------

  lemma {:induction false} NoneLeftOver(cells: seq<SharedCell>, size: nat)
    requires forall c :: c in cells ==> 0 in c.ids
    ensures LeftOver(cells, size) == {}
  {
    if cells == [] {
    } else {
      assert cells[0] in cells;
      NoneLeftOver(cells[1..], size);
    }
  }

  lemma {:induction false} NoneBrought(e: Endings, size: nat, n: nat, k: nat, s: State, rounds: seq<seq<Pick>>)
    requires Sound(s, n, k) && AllFair(e, size, n, k, s, rounds)
    ensures Brought(e, size, n, k, s, {}, rounds) == {}
    decreases |rounds|
  {
    hide Next, Live, Children, Now;
    if rounds == [] {
    } else {
      NextSound(e, size, n, k, s, rounds[0]);
      ChildIdsBelow(Live(e, s.beams), rounds[0], n);
      var ids := Ids(Children(Live(e, s.beams), rounds[0]));
      assert Carried({}, ids, Now(ids, n)) == {};
      NoneBrought(e, size, n, k + 1, Next(e, size, n, k, s, rounds[0]), rounds[1..]);
    }
  }

  lemma AloneKeepsPrompt(e: Endings, size: nat, cells: seq<SharedCell>, first: seq<(int, real)>,
                         rounds: seq<seq<Pick>>)
    requires FairSearch(e, size, cells, first, rounds) && forall c :: c in cells ==> 0 in c.ids
    ensures KeepsPrompt(e, size, cells, first, rounds)
  {
    StartSound(cells, size, first);
    NoneLeftOver(cells, size);
    NoneBrought(e, size, |first|, 0, Start(cells, size, first), rounds);
  }

  // ---------- A left-over that gets to sequence 0 ----------

  lemma MovesToZero()
    ensures Reassign([1, 1], 2, 2) == Some([0, 1]) && Now([1, 1], 2) == [0, 1]
  {
    var ids, zero: seq<nat> := [1, 1], [0, 1];
    assert ids[1..] == [1] && zero[1..] == [1] && ids[1..][1..] == [] && zero[1..][1..] == [];
    assert Uses([1], 0) == 0 && Uses([1], 1) == 1;
    assert Uses(ids, 0) == 0 && Uses(ids, 1) == 2 && Uses(zero, 1) == 1;
    assert FirstFree(ids, 2, 0) == Some(0);
    assert ids[0 := 0] == zero;
    assert Reassign(ids, 2, 0) == Some(ids) && Reassign(ids, 2, 1) == Some(zero) && Reassign(ids, 2, 2) == Some(zero);
  }

  lemma BothFromSecond(e: Endings, s: State, picks: seq<Pick>)
    requires s.beams == [Beam(0.5, [10], 0), Beam(0.5, [11], 1)] && s.outputs == []
    requires e.xec != 10 && e.xec != 11 && !e.endsWord(10) && !e.endsWord(11)
    requires picks == [Pick(1, 20, 0.4), Pick(1, 21, 0.3)]
    ensures Sound(s, 2, 0) && Fair(e, s, picks) && Live(e, s.beams) == s.beams
    ensures Ids(Children(s.beams, picks)) == [1, 1]
  {
    BothGoOn(e, s.beams);
    var ids, second := Ids(Children(s.beams, picks)), s.beams[1].id;
    assert ids == [second, second];
  }

  /** A search that broke off has left the token 11 in sequence 1.  The next prompt is a token longer,
      and both picks continue the beam in sequence 1: its first child moves to sequence 0 and takes
      the left-over along. */
  lemma LeftOverBrought(e: Endings)
    requires e.xec != 10 && e.xec != 11 && !e.endsWord(10) && !e.endsWord(11)
    ensures var cells := [SharedCell(Cell(0, Token(1)), {0, 1}), SharedCell(Cell(1, Token(11)), {1}),
                          SharedCell(Cell(1, Token(2)), {0})];
            var first, rounds := [(10, 0.5), (11, 0.5)], [[Pick(1, 20, 0.4), Pick(1, 21, 0.3)]];
            FairSearch(e, 2, cells, first, rounds) && !KeepsPrompt(e, 2, cells, first, rounds)
  {
    hide Next, Spread, Live, Children, Now, Ids, Sound, Fair;
    var cells := [SharedCell(Cell(0, Token(1)), {0, 1}), SharedCell(Cell(1, Token(11)), {1}),
                  SharedCell(Cell(1, Token(2)), {0})];
    var first, rounds := [(10, 0.5), (11, 0.5)], [[Pick(1, 20, 0.4), Pick(1, 21, 0.3)]];
    var s := Start(cells, 2, first);
    StartSound(cells, 2, first);
    assert s.beams == [Beam(0.5, [10], 0), Beam(0.5, [11], 1)];
    BothFromSecond(e, s, rounds[0]);
    MovesToZero();
    NextSound(e, 2, 2, 0, s, rounds[0]);
    assert rounds[1..] == [];
    assert HasForeign(cells, cells, 2, 1, 1);
    LeftOverIs(cells, 2, 1);
    var ids: seq<nat> := [1, 1];
    assert ids[0] in LeftOver(cells, 2) && Now(ids, 2)[0] == 0;
  }
}
