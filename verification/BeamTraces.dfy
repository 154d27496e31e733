/** What a whole search does to the cells, from the prompt it begins with to what it leaves. */
module BeamTraces {
  import opened BeamCells
  import opened BeamHistory
  import opened BeamIds
  import opened BeamPrompt
  import opened BeamRounds
  import opened BeamRuns
  import opened BeamSearch
  import opened PromptCache
  import opened SharedCells
  import opened Wrappers

  /** The tokens to begin with, no two alike. */
  ghost predicate Distinct(first: seq<(int, real)>) {
    forall i, j :: 0 <= i < j < |first| ==> first[i].0 != first[j].0
  }

  /** What a search is known to have done: its rounds, and how it stopped. */
  datatype Trace = Trace(rounds: seq<seq<Pick>>, stop: Progress)

  /** The state after the rounds of a search with the given beginning. */
  function After(e: Endings, size: nat, cells: seq<SharedCell>, first: seq<(int, real)>, rounds: seq<seq<Pick>>): State
    requires FairSearch(e, size, cells, first, rounds)
  {
    StartSound(cells, size, first);
    Rounds(e, size, |first|, 0, Start(cells, size, first), rounds)
  }

  ghost predicate FairSearch(e: Endings, size: nat, cells: seq<SharedCell>, first: seq<(int, real)>,
                             rounds: seq<seq<Pick>>) {
    StartSound(cells, size, first);
    AllFair(e, size, |first|, 0, Start(cells, size, first), rounds)
  }

  /** What a search that goes that way leaves behind, and what it puts out. */
  ghost predicate Searched(e: Endings, size: nat, cells: seq<SharedCell>, first: seq<(int, real)>, trace: Trace,
                           after: seq<SharedCell>, outs: seq<Output>) {
    && FairSearch(e, size, cells, first, trace.rounds) && |trace.rounds| <= 10
    && var s := After(e, size, cells, first, trace.rounds);
       && Sound(s, |first|, |trace.rounds|)
       && match trace.stop
          case Finished =>
            Live(e, s.beams) == [] && after == RmOthers(s.cells, |first|) && outs == s.outputs + Done(e, s.beams)
          case Broken =>
            after == DecodeBeams(s.cells, size, Live(e, s.beams), |Live(e, s.beams)|) && outs == []
          case Continued =>
            |trace.rounds| == 10 && after == RmOthers(s.cells, |first|) && outs == s.outputs
  }

  lemma {:induction false} RoundsExtend(e: Endings, size: nat, n: nat, k: nat, s: State, rounds: seq<seq<Pick>>,
                                        picks: seq<Pick>)
    requires Sound(s, n, k) && AllFair(e, size, n, k, s, rounds)
    requires Fair(e, Rounds(e, size, n, k, s, rounds), picks)
    ensures Sound(Rounds(e, size, n, k, s, rounds), n, k + |rounds|)
    ensures AllFair(e, size, n, k, s, rounds + [picks])
    ensures Rounds(e, size, n, k, s, rounds + [picks])
            == Next(e, size, n, k + |rounds|, Rounds(e, size, n, k, s, rounds), picks)
    decreases |rounds|
  {
    hide Next, Sound, Fair;
    var more := rounds + [picks];
    if rounds == [] {
      assert more[1..] == [];
      NextSound(e, size, n, k, s, picks);
    } else {
      NextSound(e, size, n, k, s, rounds[0]);
      RoundsExtend(e, size, n, k + 1, Next(e, size, n, k, s, rounds[0]), rounds[1..], picks);
      assert more[0] == rounds[0] && more[1..] == rounds[1..] + [picks];
    }
  }

  // ---------- What a search means for the cache ----------

  lemma OwnedByZero(cells: seq<SharedCell>, size: nat)
    requires Alone(cells) && Occupied(cells)
    requires forall d :: d in View(cells, 0) ==> d.pos < size
    ensures OnlyZero(cells, size)
  {
    forall c | c in cells ensures c.ids == {0} && 0 <= c.cell.pos < size {
      forall q: nat | q in c.ids ensures q == 0 {
        if q != 0 {
          NotSeen(cells, q, c);
        }
      }
      var q :| q in c.ids;
      SeenThere(cells, 0, c);
    }
  }

  lemma {:induction false} SeenThere(cells: seq<SharedCell>, q: nat, c: SharedCell)
    requires c in cells && q in c.ids
    ensures c.cell in View(cells, q)
  {
    if c == cells[0] {
      assert c.cell in SeenBy(cells[0], q);
    } else {
      SeenThere(cells[1..], q, c);
    }
  }

  lemma HoldsSomething(cells: seq<SharedCell>, size: nat, after: seq<SharedCell>)
    requires OnlyZero(cells, size) && cells != [] && |View(cells, 0)| <= |View(after, 1)|
    ensures !Alone(after)
  {
    ZeroView(cells, size);
    var one: nat := 1;
    assert View(after, one) != [];
  }

  lemma AfterOccupied(e: Endings, size: nat, cells: seq<SharedCell>, first: seq<(int, real)>, rounds: seq<seq<Pick>>)
    requires Occupied(cells) && FairSearch(e, size, cells, first, rounds)
    ensures Occupied(After(e, size, cells, first, rounds).cells)
  {
    hide Occupied, Rounds, AllFair, Spread;
    StartSound(cells, size, first);
    SpreadOccupied(cells, size, |first|);
    RoundsOccupied(e, size, |first|, 0, Start(cells, size, first), rounds);
  }

  lemma NoRounds(e: Endings, size: nat, cells: seq<SharedCell>, first: seq<(int, real)>)
    ensures FairSearch(e, size, cells, first, []) && After(e, size, cells, first, []) == Start(cells, size, first)
  {
    StartSound(cells, size, first);
  }

  lemma OneMoreRound(e: Endings, size: nat, cells: seq<SharedCell>, first: seq<(int, real)>, rounds: seq<seq<Pick>>,
                     picks: seq<Pick>)
    requires FairSearch(e, size, cells, first, rounds)
    requires Fair(e, After(e, size, cells, first, rounds), picks)
    ensures FairSearch(e, size, cells, first, rounds + [picks])
    ensures Sound(After(e, size, cells, first, rounds), |first|, |rounds|)
    ensures After(e, size, cells, first, rounds + [picks])
            == Next(e, size, |first|, |rounds|, After(e, size, cells, first, rounds), picks)
  {
    hide Rounds, AllFair, Fair, Next, Sound;
    StartSound(cells, size, first);
    RoundsExtend(e, size, |first|, 0, Start(cells, size, first), rounds, picks);
  }

  lemma NothingEmptied(cells: seq<SharedCell>)
    ensures RmOthers(cells, 0) == cells && RmOthers(cells, 1) == cells
  {
  }

  lemma OneMoreEmptied(cells: seq<SharedCell>, i: nat)
    requires i >= 1
    ensures RmOthers(cells, i + 1) == RmSeq(RmOthers(cells, i), i, 0)
  {
  }

  lemma SearchedOccupied(e: Endings, size: nat, cells: seq<SharedCell>, first: seq<(int, real)>, trace: Trace,
                         after: seq<SharedCell>, outs: seq<Output>)
    requires Occupied(cells) && Searched(e, size, cells, first, trace, after, outs)
    ensures Occupied(after)
  {
    hide Occupied, RmOthers, DecodeBeams, After, FairSearch, Live, Done;
    AfterOccupied(e, size, cells, first, trace.rounds);
    var s := After(e, size, cells, first, trace.rounds);
    if trace.stop.Broken? {
      DecodedOccupied(s.cells, size, Live(e, s.beams));
    } else {
      OthersOccupied(s.cells, |first|);
    }
  }

  /** From a cache whose cells are all sequence 0's, a search leaves sequence 0 with what it held
      and tokens behind it.  Somebody else is left with something if and only if it breaks off and
      had more than one beam. */
  lemma SearchLeavesPrompt(e: Endings, size: nat, cells: seq<SharedCell>, first: seq<(int, real)>, trace: Trace,
                           after: seq<SharedCell>, outs: seq<Output>)
    returns (gained: seq<Cell>)
    requires OnlyZero(cells, size) && Searched(e, size, cells, first, trace, after, outs)
    ensures View(after, 0) == View(cells, 0) + gained && Behind(gained, size)
    ensures !trace.stop.Broken? || |first| <= 1 ==> Alone(after)
    ensures cells != [] ==> (Alone(after) <==> !(trace.stop.Broken? && |first| >= 2))
  {
    hide InFront, View, RmOthers, DecodeBeams, Rounds, AllFair, Spread, Live, Done, Behind, Alone;
    var base, n := View(cells, 0), |first|;
    StartSound(cells, size, first);
    SpreadInFront(cells, size, n);
    RoundsInFront(e, base, size, n, 0, Start(cells, size, first), trace.rounds);
    var s := After(e, size, cells, first, trace.rounds);
    assert InFront(base, s.cells, size, n);
    var last := if trace.stop.Broken? then after else s.cells;
    if trace.stop.Broken? {
      DecodedInFront(base, s.cells, size, n, Live(e, s.beams));
    } else {
      CleanedUp(base, s.cells, size, n);
    }
    InFrontView(base, last, size, n, 0);
    gained := View(last, 0)[|base|..];
    assert View(last, 0) == base + gained;
    if trace.stop.Broken? && n >= 2 && cells != [] {
      InFrontView(base, last, size, n, 1);
      HoldsSomething(cells, size, after);
    } else if trace.stop.Broken? && n <= 1 {
      OneBeamAlone(base, after, size, n);
    }
  }

  lemma OneBeamAlone(base: seq<Cell>, cells: seq<SharedCell>, size: nat, n: nat)
    requires InFront(base, cells, size, n) && n <= 1
    ensures Alone(cells)
  {
    forall q: nat | q != 0 ensures View(cells, q) == [] {
      SeenNowhere(cells, q);
    }
  }

  /** In every round of a search every beam's sequence holds exactly the prompt and the beam's
      tokens but the last, if and only if the picks of every round are safe. */
  lemma SearchCleanIff(e: Endings, size: nat, cells: seq<SharedCell>, first: seq<(int, real)>, rounds: seq<seq<Pick>>)
    requires OnlyZero(cells, size) && FairSearch(e, size, cells, first, rounds) && Distinct(first)
    ensures Sound(Start(cells, size, first), |first|, 0)
    ensures var s, h := Start(cells, size, first), Blank(cells, |first|);
            && BeamsClean(s, View(cells, 0), size, 0) && Housed(s.beams, h, 0)
            && (AlwaysClean(e, View(cells, 0), size, |first|, 0, s, rounds)
                <==> AlwaysSafe(e, size, |first|, 0, s, h, rounds))
  {
    hide AllFair, Tidy, Spread, AlwaysClean, AlwaysSafe, View;
    var base, n, s := View(cells, 0), |first|, Start(cells, size, first);
    StartSound(cells, size, first);
    SpreadInFront(cells, size, n);
    BlankTidy(s.cells, base, size, n);
    assert Blank(s.cells, n) == Blank(cells, n);
    BlankHoused(s.beams, cells, n);
    forall i: nat | i < |s.beams| ensures Clean(s.cells, base, size, s.beams[i], 0) {
      assert TokenCells(s.beams[i].tokens[..0], size) == [];
    }
    CleanRunIff(e, base, size, n, 0, s, Blank(cells, n), rounds);
  }

  // ---------- A search that goes wrong ----------

  lemma BothGoOn(e: Endings, beams: seq<Beam>)
    requires |beams| == 2 && Started(beams) && !Ended(e, beams[0]) && !Ended(e, beams[1])
    ensures Live(e, beams) == beams && Done(e, beams) == []
  {
    assert beams == [beams[0]] + [beams[1]] && beams[1..] == [beams[1]] && beams[1..][1..] == [];
  }

  lemma TwoDecoded(c: SharedCell, live: seq<Beam>)
    requires live == [Beam(0.5, [10], 0), Beam(0.5, [11], 1)]
    ensures DecodeBeams([c], 1, live, 2)
            == [c, SharedCell(Cell(1, Token(10)), {0}), SharedCell(Cell(1, Token(11)), {1})]
  {
    assert DecodeBeams([c], 1, live, 1) == [c, SharedCell(Cell(1, Token(10)), {0})];
  }

  lemma MovesFirst(cells: seq<SharedCell>)
    ensures Reassign([0, 0], 2, 2) == Some([1, 0])
    ensures Moved(cells, [0, 0], 2, 2) == Copy(cells, 0, 1, 2)
  {
    var ids, one: seq<nat> := [0, 0], [1, 0];
    assert ids[1..] == [0] && one[1..] == [0] && ids[1..][1..] == [] && one[1..][1..] == [];
    assert Uses([0], 0) == 1 && Uses([0], 1) == 0;
    assert Uses(ids, 0) == 2 && Uses(ids, 1) == 0 && Uses(one, 0) == 1;
    assert FirstFree(ids, 2, 0) == FirstFree(ids, 2, 1) == Some(1);
    assert ids[0 := 1] == one;
    assert Reassign(ids, 2, 0) == Some(ids) && Reassign(ids, 2, 1) == Some(one) && Reassign(ids, 2, 2) == Some(one);
    var ends: seq<int> := seq(2, _ => 2);
    assert CopyFirst(cells, ids, 2, ends, 0) == cells;
    assert CopyFirst(cells, ids, 2, ends, 1) == Copy(cells, 0, 1, 2);
    assert CopyFirst(cells, ids, 2, ends, 2) == CopyFirst(cells, ids, 2, ends, 1);
  }

  lemma StartOfTwo()
    ensures var s := Start([SharedCell(Cell(0, Token(1)), {0})], 1, [(10, 0.5), (11, 0.5)]);
            && s.beams == [Beam(0.5, [10], 0), Beam(0.5, [11], 1)] && s.outputs == []
            && s.cells == [SharedCell(Cell(0, Token(1)), {0, 1})]
  {
    var cells, first := [SharedCell(Cell(0, Token(1)), {0})], [(10, 0.5), (11, 0.5)];
    assert FirstBeams(first) == [Beam(0.5, [10], 0), Beam(0.5, [11], 1)];
    assert CopyCell(cells[0], 0, 1, 1) == SharedCell(Cell(0, Token(1)), {0, 1});
    assert Spread(cells, 1, 1) == cells;
  }

  lemma ChildrenOfOne(live: seq<Beam>, picks: seq<Pick>)
    requires live == [Beam(0.5, [10], 0), Beam(0.5, [11], 1)]
    requires picks == [Pick(0, 20, 0.4), Pick(0, 21, 0.3)]
    ensures Children(live, picks) == [Beam(0.4, [10, 20], 0), Beam(0.3, [10, 21], 0)]
    ensures Ids(Children(live, picks)) == [0, 0]
    ensures WithIds(Children(live, picks), [1, 0]) == [Beam(0.4, [10, 20], 1), Beam(0.3, [10, 21], 0)]
  {
    var children := Children(live, picks);
    assert children[0] == Beam(0.4, live[0].tokens + [20], 0) && live[0].tokens + [20] == [10, 20];
    assert children[1] == Beam(0.3, live[0].tokens + [21], 0) && live[0].tokens + [21] == [10, 21];
  }

  lemma ThreeCellsSeen(a: Cell, b: Cell, c: Cell)
    requires 0 <= a.pos < 2 && 0 <= b.pos < 2
    ensures var cells := Copy([SharedCell(a, {0, 1}), SharedCell(b, {0}), SharedCell(c, {1})], 0, 1, 2);
            View(cells, 1) == [a, b, c] && View(cells, 0) == [a, b]
  {
    var cells := Copy([SharedCell(a, {0, 1}), SharedCell(b, {0}), SharedCell(c, {1})], 0, 1, 2);
    var zero, one: nat := 0, 1;
    assert {zero, one} + {one} == {zero, one} && {zero} + {one} == {zero, one};
    assert cells == [SharedCell(a, {0, 1}), SharedCell(b, {0, 1}), SharedCell(c, {1})];
    assert cells[1..] == [cells[1], cells[2]] && cells[1..][1..] == [cells[2]] && cells[1..][1..][1..] == [];
    assert View(cells[1..][1..], 0) == [] && View(cells[1..][1..], 1) == [c];
    assert View(cells[1..], 0) == [b] && View(cells[1..], 1) == [b, c];
  }

  lemma NextOfTwo(e: Endings, s: State, picks: seq<Pick>)
    requires s.beams == [Beam(0.5, [10], 0), Beam(0.5, [11], 1)] && s.outputs == []
    requires s.cells == [SharedCell(Cell(0, Token(1)), {0, 1})] && Sound(s, 2, 0)
    requires !Ended(e, s.beams[0]) && !Ended(e, s.beams[1])
    requires picks == [Pick(0, 20, 0.4), Pick(0, 21, 0.3)]
    ensures Fair(e, s, picks)
    ensures var next := Next(e, 1, 2, 0, s, picks);
            && next.beams == [Beam(0.4, [10, 20], 1), Beam(0.3, [10, 21], 0)]
            && View(next.cells, 1) == [Cell(0, Token(1)), Cell(1, Token(10)), Cell(1, Token(11))]
            && View(next.cells, 0) == [Cell(0, Token(1)), Cell(1, Token(10))]
  {
    hide View, Copy, DecodeBeams, Live, Done, Children, Ids, WithIds, Reassign, Moved, Ended;
    BothGoOn(e, s.beams);
    ChildrenOfOne(s.beams, picks);
    TwoDecoded(s.cells[0], s.beams);
    MovesFirst(DecodeBeams(s.cells, 1, s.beams, 2));
    ThreeCellsSeen(Cell(0, Token(1)), Cell(1, Token(10)), Cell(1, Token(11)));
  }

  /** Two beams go on, and both picks continue the first: its first child moves to the sequence
      of the second beam, and sees that beam's token next to its parent's. */
  lemma TwoOfOneParent(e: Endings)
    requires e.xec != 10 && e.xec != 11 && !e.endsWord(10) && !e.endsWord(11)
    ensures var cells, first := [SharedCell(Cell(0, Token(1)), {0})], [(10, 0.5), (11, 0.5)];
            var rounds := [[Pick(0, 20, 0.4), Pick(0, 21, 0.3)]];
            && OnlyZero(cells, 1) && Distinct(first) && FairSearch(e, 1, cells, first, rounds)
            && var s := After(e, 1, cells, first, rounds);
               && s.beams == [Beam(0.4, [10, 20], 1), Beam(0.3, [10, 21], 0)]
               && View(s.cells, 1) == [Cell(0, Token(1)), Cell(1, Token(10)), Cell(1, Token(11))]
               && View(s.cells, 0) == [Cell(0, Token(1)), Cell(1, Token(10))]
  {
    hide View, Next, Start, After, FairSearch, Sound;
    var cells, first := [SharedCell(Cell(0, Token(1)), {0})], [(10, 0.5), (11, 0.5)];
    var picks := [Pick(0, 20, 0.4), Pick(0, 21, 0.3)];
    StartOfTwo();
    StartSound(cells, 1, first);
    NoRounds(e, 1, cells, first);
    NextOfTwo(e, Start(cells, 1, first), picks);
    OneMoreRound(e, 1, cells, first, [], picks);
    assert [] + [picks] == [picks];
  }

  lemma TwoCellsSeen(a: Cell, b: Cell, c: Cell)
    requires a.pos == 0 && b.pos == 1 && c.pos == 1
    ensures var cells := [SharedCell(a, {0, 1}), SharedCell(b, {0}), SharedCell(c, {1})];
            && View(cells, 1) == [a, c]
            && RmSeq(cells, 0, 1) == [SharedCell(a, {0, 1}), SharedCell(c, {1})]
            && View(RmSeq(cells, 0, 1), 0) == [a] && View(Spread(RmSeq(cells, 0, 1), 1, 2), 1) == [a, c]
  {
    var cells := [SharedCell(a, {0, 1}), SharedCell(b, {0}), SharedCell(c, {1})];
    var rest := [SharedCell(a, {0, 1}), SharedCell(c, {1})];
    var zero, one: nat := 0, 1;
    assert {zero} - {zero} == {} && {zero, one} + {one} == {zero, one};
    assert cells[1..] == [cells[1], cells[2]] && cells[1..][1..] == [cells[2]] && cells[1..][1..][1..] == [];
    assert rest[1..] == [rest[1]] && rest[1..][1..] == [];
    assert View(cells[1..][1..], 1) == [c] && View(cells[1..], 1) == [c];
    assert RmSeq(cells[1..][1..], 0, 1) == [cells[2]] && RmSeq(cells[1..], 0, 1) == [cells[2]];
    assert RmSeq(cells, 0, 1) == rest;
    assert View(rest[1..], 0) == [] && View(rest[1..], 1) == [c];
    assert Spread(rest, 1, 1) == rest && Spread(rest, 1, 2) == Copy(rest, 0, 1, 1) == rest;
  }

  /** A search of two beams that breaks off in its first round: the second beam's token stays in
      sequence 1, and the next search from the same prompt begins with it there. */
  lemma BrokenSearchStays(e: Endings)
    requires e.xec != 10 && e.xec != 11 && !e.endsWord(10) && !e.endsWord(11)
    ensures var cells, first := [SharedCell(Cell(0, Token(1)), {0})], [(10, 0.5), (11, 0.5)];
            exists after ::
              && OnlyZero(cells, 1) && Searched(e, 1, cells, first, Trace([], Broken), after, [])
              && View(after, 1) == [Cell(0, Token(1)), Cell(1, Token(11))]
              && View(RmSeq(after, 0, 1), 0) == View(cells, 0) == [Cell(0, Token(1))]
              && View(Start(RmSeq(after, 0, 1), 1, first).cells, 1) == [Cell(0, Token(1)), Cell(1, Token(11))]
  {
    hide View, Next, FairSearch, Sound, RmSeq, Spread, Live, Done, DecodeBeams, After;
    var cells, first := [SharedCell(Cell(0, Token(1)), {0})], [(10, 0.5), (11, 0.5)];
    StartOfTwo();
    StartSound(cells, 1, first);
    NoRounds(e, 1, cells, first);
    var s := After(e, 1, cells, first, []);
    BothGoOn(e, s.beams);
    TwoDecoded(s.cells[0], s.beams);
    TwoCellsSeen(Cell(0, Token(1)), Cell(1, Token(10)), Cell(1, Token(11)));
    ViewOne(cells[0], 0);
    var after := DecodeBeams(s.cells, 1, s.beams, 2);
    assert Searched(e, 1, cells, first, Trace([], Broken), after, []);
  }
}
