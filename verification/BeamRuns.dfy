/** A whole beam search as a function of what is picked in each round. */
module BeamRuns {
  import opened BeamCells
  import opened BeamHistory
  import opened BeamIds
  import opened BeamRounds
  import opened PromptCache
  import opened SharedCells
  import opened Wrappers

  datatype Output = Output(score: real, tokens: seq<int>)

  /** How tokens end a beam: the end of a correction is dropped, the end of a word is kept. */
  datatype Endings = Endings(xec: int, endsWord: int -> bool)

  datatype State = State(cells: seq<SharedCell>, beams: seq<Beam>, outputs: seq<Output>)

  predicate Ended(e: Endings, b: Beam)
    requires b.tokens != []
  {
    b.tokens[|b.tokens| - 1] == e.xec || e.endsWord(b.tokens[|b.tokens| - 1])
  }

  function OutputOf(e: Endings, b: Beam): Output
    requires b.tokens != []
  {
    if b.tokens[|b.tokens| - 1] == e.xec then Output(b.score, b.tokens[..|b.tokens| - 1]) else Output(b.score, b.tokens)
  }

  predicate Started(beams: seq<Beam>) { forall b :: b in beams ==> b.tokens != [] }

  /** The beams that go on. */
  function Live(e: Endings, beams: seq<Beam>): (r: seq<Beam>)
    requires Started(beams)
    ensures |r| <= |beams|
    ensures forall b :: b in r ==> b in beams && b.tokens != [] && !Ended(e, b)
  {
    if beams == [] then []
    else
      assert forall b :: b in beams <==> b == beams[0] || b in beams[1..];
      (if Ended(e, beams[0]) then [] else [beams[0]]) + Live(e, beams[1..])
  }

  function Done(e: Endings, beams: seq<Beam>): (r: seq<Output>)
    requires Started(beams)
    ensures |r| + |Live(e, beams)| == |beams|
  {
    if beams == [] then [] else (if Ended(e, beams[0]) then [OutputOf(e, beams[0])] else []) + Done(e, beams[1..])
  }

  lemma {:induction false} LiveDistinct(e: Endings, beams: seq<Beam>)
    requires Started(beams) && DistinctIds(beams)
    ensures DistinctIds(Live(e, beams))
  {
    if beams == [] {
    } else {
      LiveDistinct(e, beams[1..]);
      var r := Live(e, beams[1..]);
      forall i | 0 <= i < |r| ensures r[i].id != beams[0].id {
        assert r[i] in beams[1..];
      }
    }
  }

  // ---------- Which beams go on, and what the others leave behind ----------

  /** The last token of b ends it: the end of a correction, which o does not have, or the end of a
      word, which o does. */
  ghost predicate Yields(e: Endings, b: Beam, o: Output) {
    && b.tokens != [] && o.score == b.score
    && (b.tokens == o.tokens + [e.xec] || (b.tokens == o.tokens && EndsWord(e, b)))
  }

  ghost predicate EndsWord(e: Endings, b: Beam) {
    b.tokens != [] && b.tokens[|b.tokens| - 1] != e.xec && e.endsWord(b.tokens[|b.tokens| - 1])
  }

  ghost predicate GoesOn(e: Endings, b: Beam) {
    b.tokens != [] && b.tokens[|b.tokens| - 1] != e.xec && !e.endsWord(b.tokens[|b.tokens| - 1])
  }

  /** How many of the first i beams go on. */
  ghost function GoingBefore(e: Endings, beams: seq<Beam>, i: nat): (n: nat)
    requires i <= |beams|
    ensures n <= i
  {
    if i == 0 then 0 else GoingBefore(e, beams, i - 1) + if GoesOn(e, beams[i - 1]) then 1 else 0
  }

  /** Every beam goes on, in the order of the beams, or has ended and left its output behind, in that
      order too; and there are no others. */
  ghost predicate Parted(e: Endings, beams: seq<Beam>, live: seq<Beam>, done: seq<Output>) {
    && |live| == GoingBefore(e, beams, |beams|) && |live| + |done| == |beams|
    && forall i: nat :: i < |beams| ==> PartedAt(e, beams, live, done, i)
  }

  ghost predicate PartedAt(e: Endings, beams: seq<Beam>, live: seq<Beam>, done: seq<Output>, i: nat)
    requires i < |beams|
  {
    var n := GoingBefore(e, beams, i);
    if GoesOn(e, beams[i]) then n < |live| && live[n] == beams[i]
    else i - n < |done| && Yields(e, beams[i], done[i - n])
  }

  lemma {:induction false} GoingBeforeTail(e: Endings, beams: seq<Beam>, i: nat)
    requires i < |beams|
    ensures GoingBefore(e, beams, i + 1) ==
            GoingBefore(e, beams[1..], i) + if GoesOn(e, beams[0]) then 1 else 0
  {
    if i > 0 {
      GoingBeforeTail(e, beams, i - 1);
      assert beams[1..][i - 1] == beams[i];
    }
  }

  /** One more beam in front that goes on. */
  lemma PartedLive(e: Endings, beams: seq<Beam>, live: seq<Beam>, done: seq<Output>)
    requires beams != [] && Parted(e, beams[1..], live, done) && GoesOn(e, beams[0])
    ensures Parted(e, beams, [beams[0]] + live, done)
  {
    hide Yields, GoesOn;
    GoingBeforeTail(e, beams, |beams| - 1);
    forall i: nat | i < |beams| ensures PartedAt(e, beams, [beams[0]] + live, done, i) {
      if i > 0 {
        GoingBeforeTail(e, beams, i - 1);
        assert PartedAt(e, beams[1..], live, done, i - 1);
      }
    }
  }

  /** One more beam in front that has ended. */
  lemma PartedDone(e: Endings, beams: seq<Beam>, live: seq<Beam>, done: seq<Output>, o: Output)
    requires beams != [] && Parted(e, beams[1..], live, done) && !GoesOn(e, beams[0]) && Yields(e, beams[0], o)
    ensures Parted(e, beams, live, [o] + done)
  {
    hide Yields, GoesOn;
    GoingBeforeTail(e, beams, |beams| - 1);
    forall i: nat | i < |beams| ensures PartedAt(e, beams, live, [o] + done, i) {
      if i > 0 {
        GoingBeforeTail(e, beams, i - 1);
        assert PartedAt(e, beams[1..], live, done, i - 1);
      }
    }
  }

  lemma {:induction false} PartedRight(e: Endings, beams: seq<Beam>)
    requires Started(beams)
    ensures Parted(e, beams, Live(e, beams), Done(e, beams))
  {
    hide Yields, GoesOn, Ended, OutputOf, Parted;
    if beams == [] {
      NoneParted(e);
    } else {
      assert beams[0] in beams;
      PartedRight(e, beams[1..]);
      PartedHead(e, beams);
      if Ended(e, beams[0]) {
        PartedDone(e, beams, Live(e, beams[1..]), Done(e, beams[1..]), OutputOf(e, beams[0]));
      } else {
        PartedLive(e, beams, Live(e, beams[1..]), Done(e, beams[1..]));
      }
      assert [] + Live(e, beams[1..]) == Live(e, beams[1..]) && [] + Done(e, beams[1..]) == Done(e, beams[1..]);
    }
  }

  lemma NoneParted(e: Endings)
    ensures Parted(e, [], [], [])
  {
  }

  /** The places of the beams that have ended, one for each output. */
  ghost predicate EndedPlaces(e: Endings, beams: seq<Beam>, done: seq<Output>, n: nat, places: seq<nat>) {
    && |places| <= |done|
    && (forall j :: 0 <= j < |places| ==> places[j] < n && n <= |beams| && Yields(e, beams[places[j]], done[j]))
    && (forall j, m :: 0 <= j < m < |places| ==> places[j] < places[m])
    && forall i: nat :: i < n && i < |beams| && !GoesOn(e, beams[i]) ==> i in places
  }

  /** Every output is that of one beam that has ended, and every beam that has ended has one. */
  lemma {:induction false} WhoseOutputs(e: Endings, beams: seq<Beam>, live: seq<Beam>, done: seq<Output>, n: nat)
    returns (places: seq<nat>)
    requires Parted(e, beams, live, done) && n <= |beams|
    ensures EndedPlaces(e, beams, done, n, places) && |places| == n - GoingBefore(e, beams, n)
  {
    hide Yields, GoesOn, EndedPlaces;
    if n == 0 {
      places := [];
      NoPlaces(e, beams, done);
    } else {
      places := WhoseOutputs(e, beams, live, done, n - 1);
      assert PartedAt(e, beams, live, done, n - 1);
      OnePlaceMore(e, beams, done, n - 1, places);
      if !GoesOn(e, beams[n - 1]) {
        places := places + [n - 1];
      }
    }
  }

  lemma NoPlaces(e: Endings, beams: seq<Beam>, done: seq<Output>)
    ensures EndedPlaces(e, beams, done, 0, [])
  {
  }

  lemma OnePlaceMore(e: Endings, beams: seq<Beam>, done: seq<Output>, n: nat, places: seq<nat>)
    requires EndedPlaces(e, beams, done, n, places) && n < |beams|
    ensures GoesOn(e, beams[n]) ==> EndedPlaces(e, beams, done, n + 1, places)
    ensures |places| < |done| && Yields(e, beams[n], done[|places|]) ==>
              EndedPlaces(e, beams, done, n + 1, places + [n])
  {
    hide Yields, GoesOn;
    assert forall i :: i in places + [n] <==> i in places || i == n;
  }

  lemma PartedHead(e: Endings, beams: seq<Beam>)
    requires Started(beams) && beams != []
    ensures beams[0].tokens != []
    ensures Ended(e, beams[0]) <==> !GoesOn(e, beams[0])
    ensures Ended(e, beams[0]) ==> Yields(e, beams[0], OutputOf(e, beams[0]))
  {
    assert beams[0] in beams;
    var ts := beams[0].tokens;
    assert ts == ts[..|ts| - 1] + [ts[|ts| - 1]];
  }

  // ---------- Runs ----------

  /** n beams and outputs; the beams have ids of their own below n and k + 1 tokens. */
  ghost predicate Sound(s: State, n: nat, k: nat) {
    && |s.beams| + |s.outputs| == n && DistinctIds(s.beams)
    && forall b :: b in s.beams ==> b.id < n && |b.tokens| == k + 1
  }

  /** One pick for each beam that goes on. */
  ghost predicate Fair(e: Endings, s: State, picks: seq<Pick>) {
    Started(s.beams) && |picks| == |Live(e, s.beams)| && ProperPicks(picks, |picks|)
  }

  /** One round: ended beams become outputs, the others are decoded, and their children move to
      sequences of their own. */
  function Next(e: Endings, size: nat, n: nat, k: nat, s: State, picks: seq<Pick>): State
    requires Sound(s, n, k) && Fair(e, s, picks)
  {
    var live := Live(e, s.beams);
    State(NextCells(s.cells, size, live, picks, n, k), NextBeams(live, picks, n), s.outputs + Done(e, s.beams))
  }

  lemma NextSound(e: Endings, size: nat, n: nat, k: nat, s: State, picks: seq<Pick>)
    requires Sound(s, n, k) && Fair(e, s, picks)
    ensures Sound(Next(e, size, n, k, s, picks), n, k + 1)
  {
    hide NextCells, NextBeams, Live, Done;
    var live, next := Live(e, s.beams), NextBeams(Live(e, s.beams), picks, n);
    forall i | 0 <= i < |next| ensures next[i].id < n && |next[i].tokens| == k + 2 {
      NextAt(live, picks, n, i);
      assert live[picks[i].parent] in live;
    }
    forall i, j | 0 <= i < j < |next| ensures next[i].id != next[j].id {
      NextAt(live, picks, n, i);
      NextAt(live, picks, n, j);
    }
  }

  ghost predicate AllFair(e: Endings, size: nat, n: nat, k: nat, s: State, rounds: seq<seq<Pick>>)
    requires Sound(s, n, k)
    decreases |rounds|
  {
    rounds != [] ==>
      Fair(e, s, rounds[0]) &&
      (NextSound(e, size, n, k, s, rounds[0]);
       AllFair(e, size, n, k + 1, Next(e, size, n, k, s, rounds[0]), rounds[1..]))
  }

  function Rounds(e: Endings, size: nat, n: nat, k: nat, s: State, rounds: seq<seq<Pick>>): State
    requires Sound(s, n, k) && AllFair(e, size, n, k, s, rounds)
    decreases |rounds|
  {
    if rounds == [] then s
    else
      NextSound(e, size, n, k, s, rounds[0]);
      Rounds(e, size, n, k + 1, Next(e, size, n, k, s, rounds[0]), rounds[1..])
  }

  /** Every beam's sequence holds exactly the prompt and the beam's tokens but the last. */
  ghost predicate BeamsClean(s: State, base: seq<Cell>, size: nat, k: nat) {
    forall i: nat :: i < |s.beams| ==> Clean(s.cells, base, size, s.beams[i], k)
  }

  /** After every round. */
  ghost predicate AlwaysClean(e: Endings, base: seq<Cell>, size: nat, n: nat, k: nat, s: State, rounds: seq<seq<Pick>>)
    requires Sound(s, n, k) && AllFair(e, size, n, k, s, rounds)
    decreases |rounds|
  {
    rounds != [] ==>
      (NextSound(e, size, n, k, s, rounds[0]);
       var next := Next(e, size, n, k, s, rounds[0]);
       BeamsClean(next, base, size, k + 1) && AlwaysClean(e, base, size, n, k + 1, next, rounds[1..]))
  }

  /** The picks of every round are safe, given what the sequences hold when it begins. */
  ghost predicate AlwaysSafe(e: Endings, size: nat, n: nat, k: nat, s: State, h: History, rounds: seq<seq<Pick>>)
    requires Sound(s, n, k) && AllFair(e, size, n, k, s, rounds) && Housed(s.beams, h, k) && |h.held| == n
    decreases |rounds|
  {
    rounds != [] ==>
      (NextSound(e, size, n, k, s, rounds[0]);
       var live := Live(e, s.beams);
       LiveHoused(e, s.beams, h, k);
       ChildrenMovable(live, rounds[0], h, k, n);
       SafePicks(h.held, live, rounds[0], n) &&
       (var next, h' := Next(e, size, n, k, s, rounds[0]), NextHistory(h, live, rounds[0], n);
        Housed(next.beams, h', k + 1) && AlwaysSafe(e, size, n, k + 1, next, h', rounds[1..])))
  }

  lemma {:induction false} LiveApart(e: Endings, beams: seq<Beam>)
    requires Started(beams) && DistinctTokens(beams)
    ensures DistinctTokens(Live(e, beams))
  {
    if beams == [] {
    } else {
      LiveApart(e, beams[1..]);
      var r := Live(e, beams[1..]);
      forall i | 0 <= i < |r| ensures r[i].tokens != beams[0].tokens {
        assert r[i] in beams[1..];
      }
    }
  }

  lemma LiveHoused(e: Endings, beams: seq<Beam>, h: History, k: nat)
    requires Housed(beams, h, k) && Started(beams)
    ensures Housed(Live(e, beams), h, k)
  {
    hide HousedAt, Live;
    LiveDistinct(e, beams);
    LiveApart(e, beams);
    var r := Live(e, beams);
    forall i: nat | i < |r| ensures HousedAt(r[i], h, k) {
      assert r[i] in r;
      var j: nat :| j < |beams| && beams[j] == r[i];
      assert HousedAt(beams[j], h, k);
    }
  }

  /** From a tidy state, in every round every beam sees exactly the prompt and its own tokens, if
      and only if the picks of every round are safe. */
  lemma {:induction false} CleanRunIff(e: Endings, base: seq<Cell>, size: nat, n: nat, k: nat, s: State, h: History,
                                       rounds: seq<seq<Pick>>)
    requires Sound(s, n, k) && AllFair(e, size, n, k, s, rounds)
    requires Tidy(s.cells, base, size, n, h, k) && Housed(s.beams, h, k)
    ensures |h.held| == n
    ensures AlwaysClean(e, base, size, n, k, s, rounds) <==> AlwaysSafe(e, size, n, k, s, h, rounds)
    decreases |rounds|
  {
    hide Tidy, Housed, NextHistory, Live, SafePicks, NextCells, NextBeams, Sound;
    TidyHeld(s.cells, base, size, n, h, k);
    if rounds == [] {
    } else {
      NextSound(e, size, n, k, s, rounds[0]);
      NextTidyIff(e, base, size, n, k, s, h, rounds[0]);
      var next := Next(e, size, n, k, s, rounds[0]);
      LiveHoused(e, s.beams, h, k);
      ChildrenMovable(Live(e, s.beams), rounds[0], h, k, n);
      if SafePicks(h.held, Live(e, s.beams), rounds[0], n) {
        CleanRunIff(e, base, size, n, k + 1, next, NextHistory(h, Live(e, s.beams), rounds[0], n), rounds[1..]);
      }
    }
  }

  lemma NextTidyIff(e: Endings, base: seq<Cell>, size: nat, n: nat, k: nat, s: State, h: History, picks: seq<Pick>)
    requires Sound(s, n, k) && Fair(e, s, picks) && |h.held| == n
    requires Tidy(s.cells, base, size, n, h, k) && Housed(s.beams, h, k)
    ensures BeamsClean(Next(e, size, n, k, s, picks), base, size, k + 1) <==>
            SafePicks(h.held, Live(e, s.beams), picks, n)
    ensures Movable(Ids(Children(Live(e, s.beams), picks)), n, Recorded(h, Live(e, s.beams)))
    ensures SafePicks(h.held, Live(e, s.beams), picks, n) ==>
              var next, h' := Next(e, size, n, k, s, picks), NextHistory(h, Live(e, s.beams), picks, n);
              Tidy(next.cells, base, size, n, h', k + 1) && Housed(next.beams, h', k + 1)
  {
    hide Tidy, Housed, NextHistory, Live, SafePicks, NextCells, NextBeams, Clean;
    LiveHoused(e, s.beams, h, k);
    RoundTidyIff(s.cells, base, size, n, h, k, Live(e, s.beams), picks);
  }

  lemma SoundLive(e: Endings, s: State, n: nat, k: nat)
    requires Sound(s, n, k)
    ensures Started(s.beams) && DistinctIds(Live(e, s.beams))
  {
    LiveDistinct(e, s.beams);
  }

  /** One child for each parent, in every round, keeps every beam clean. */
  lemma {:induction false} DistinctRunClean(e: Endings, base: seq<Cell>, size: nat, n: nat, k: nat, s: State,
                                            h: History,
                                            rounds: seq<seq<Pick>>)
    requires Sound(s, n, k) && AllFair(e, size, n, k, s, rounds)
    requires Tidy(s.cells, base, size, n, h, k) && Housed(s.beams, h, k)
    requires forall picks :: picks in rounds ==> DistinctParents(picks)
    ensures AlwaysClean(e, base, size, n, k, s, rounds)
    decreases |rounds|
  {
    hide Tidy, Housed, NextHistory, Live, SafePicks, NextCells, NextBeams, Sound;
    TidyHeld(s.cells, base, size, n, h, k);
    if rounds == [] {
    } else {
      NextSound(e, size, n, k, s, rounds[0]);
      NextTidyIff(e, base, size, n, k, s, h, rounds[0]);
      SoundLive(e, s, n, k);
      DistinctParentsAreSafe(h.held, Live(e, s.beams), rounds[0], n);
      DistinctRunClean(e, base, size, n, k + 1, Next(e, size, n, k, s, rounds[0]),
                       NextHistory(h, Live(e, s.beams), rounds[0], n), rounds[1..]);
    }
  }

  // ---------- The start ----------

  /** Before the first round no sequence holds anything behind the prompt. */
  ghost function Blank(cells: seq<SharedCell>, n: nat): History {
    History(seq(|cells|, _ => []), seq(n, _ => []))
  }

  /** Every sequence holds the prompt and nothing else. */
  ghost predicate Seeded(cells: seq<SharedCell>, base: seq<Cell>, size: nat, n: nat) {
    && (forall c :: c in cells ==> 0 <= c.cell.pos < size && forall q: nat :: q < n ==> q in c.ids)
    && forall q: nat :: q < n ==> View(cells, q) == base
  }

  lemma BlankTidy(cells: seq<SharedCell>, base: seq<Cell>, size: nat, n: nat)
    requires Seeded(cells, base, size, n)
    ensures Tidy(cells, base, size, n, Blank(cells, n), 0)
  {
    var h := Blank(cells, n);
    forall x: nat, q: nat | x < |cells| && q < |h.held| ensures TracedAt(cells, h, x, q) {
      assert cells[x] in cells;
    }
    assert TokenCells([], size) == [];
  }

  lemma BlankHoused(beams: seq<Beam>, cells: seq<SharedCell>, n: nat)
    requires DistinctIds(beams) && forall b :: b in beams ==> b.id < n && |b.tokens| == 1
    requires DistinctTokens(beams)
    ensures Housed(beams, Blank(cells, n), 0)
  {
    forall i: nat | i < |beams| ensures HousedAt(beams[i], Blank(cells, n), 0) {
      assert beams[i] in beams;
    }
  }
}
