/** Where the outputs of a search come from: which beam, after which round. */
module BeamOutputs {
  import opened BeamCells
  import opened BeamHistory
  import opened BeamPrompt
  import opened BeamRounds
  import opened BeamRuns
  import opened BeamSearch
  import opened BeamTraces
  import opened SharedCells
  import opened Wrappers

  /** A search is known by its beginning. */
  datatype Beginning = Beginning(e: Endings, size: nat, cells: seq<SharedCell>, first: seq<(int, real)>)

  ghost predicate Fairly(b: Beginning, rounds: seq<seq<Pick>>) {
    FairSearch(b.e, b.size, b.cells, b.first, rounds)
  }

  /** The beams after so many rounds. */
  ghost function BeamsAfter(b: Beginning, rounds: seq<seq<Pick>>, r: nat): seq<Beam> {
    if r <= |rounds| && Fairly(b, rounds[..r]) then After(b.e, b.size, b.cells, b.first, rounds[..r]).beams else []
  }

  ghost function OutputsAfter(b: Beginning, rounds: seq<seq<Pick>>, r: nat): seq<Output> {
    if r <= |rounds| && Fairly(b, rounds[..r]) then After(b.e, b.size, b.cells, b.first, rounds[..r]).outputs else []
  }

  /** Beam i after round r, counted from 0. */
  datatype Origin = Origin(r: nat, i: nat)

  ghost predicate Earlier(x: Origin, y: Origin) { x.r < y.r || (x.r == y.r && x.i < y.i) }

  ghost predicate ComesFrom(b: Beginning, rounds: seq<seq<Pick>>, seen: nat, x: Origin, o: Output) {
    && x.r < seen && x.i < |BeamsAfter(b, rounds, x.r)|
    && Yields(b.e, BeamsAfter(b, rounds, x.r)[x.i], o)
  }

  /** Every output is that of a beam that has ended by one of the rounds seen, no two of the same, in the
      order of rounds and beams; and every beam that has ended has its output. */
  ghost predicate Traced(b: Beginning, rounds: seq<seq<Pick>>, seen: nat, outs: seq<Output>, origins: seq<Origin>) {
    && |origins| == |outs|
    && (forall j: nat :: j < |outs| ==> ComesFrom(b, rounds, seen, origins[j], outs[j]))
    && (forall j, m :: 0 <= j < m < |origins| ==> Earlier(origins[j], origins[m]))
    && forall r: nat, i: nat ::
         r < seen && i < |BeamsAfter(b, rounds, r)| && !GoesOn(b.e, BeamsAfter(b, rounds, r)[i]) ==>
         Origin(r, i) in origins
  }

  lemma {:induction false} PrefixFair(e: Endings, size: nat, n: nat, k: nat, s: State, rounds: seq<seq<Pick>>, r: nat)
    requires Sound(s, n, k) && AllFair(e, size, n, k, s, rounds) && r < |rounds|
    ensures AllFair(e, size, n, k, s, rounds[..r]) && Fair(e, Rounds(e, size, n, k, s, rounds[..r]), rounds[r])
    decreases |rounds|
  {
    hide Next, Fair, Sound;
    if r > 0 {
      NextSound(e, size, n, k, s, rounds[0]);
      PrefixFair(e, size, n, k + 1, Next(e, size, n, k, s, rounds[0]), rounds[1..], r - 1);
      assert rounds[..r][0] == rounds[0] && rounds[..r][1..] == rounds[1..][..r - 1];
    }
  }

  /** The state after one round more. */
  lemma StepOf(b: Beginning, rounds: seq<seq<Pick>>, r: nat)
    requires Fairly(b, rounds) && r < |rounds|
    ensures Fairly(b, rounds[..r]) && Fairly(b, rounds[..r + 1])
    ensures var s := After(b.e, b.size, b.cells, b.first, rounds[..r]);
            && Sound(s, |b.first|, r) && Fair(b.e, s, rounds[r])
            && After(b.e, b.size, b.cells, b.first, rounds[..r + 1]) == Next(b.e, b.size, |b.first|, r, s, rounds[r])
  {
    hide AllFair, Rounds, Fair, Next, Sound;
    StartSound(b.cells, b.size, b.first);
    PrefixFair(b.e, b.size, |b.first|, 0, Start(b.cells, b.size, b.first), rounds, r);
    OneMoreRound(b.e, b.size, b.cells, b.first, rounds[..r], rounds[r]);
    assert rounds[..r + 1] == rounds[..r] + [rounds[r]];
  }

  lemma SearchBegins(b: Beginning, rounds: seq<seq<Pick>>)
    ensures OutputsAfter(b, rounds, 0) == []
    ensures |BeamsAfter(b, rounds, 0)| == |b.first|
    ensures forall i :: 0 <= i < |b.first| ==>
              BeamsAfter(b, rounds, 0)[i].tokens == [b.first[i].0] && BeamsAfter(b, rounds, 0)[i].score == b.first[i].1
  {
    assert rounds[..0] == [];
    NoRounds(b.e, b.size, b.cells, b.first);
  }

  /** A beam after a round is a child, as its pick says, of one that went on; and every beam that did not
      go on became an output. */
  lemma RoundOf(b: Beginning, rounds: seq<seq<Pick>>, r: nat) returns (live: seq<Beam>, done: seq<Output>)
    requires Fairly(b, rounds) && r < |rounds|
    ensures Parted(b.e, BeamsAfter(b, rounds, r), live, done)
    ensures Bred(live, rounds[r], BeamsAfter(b, rounds, r + 1))
    ensures OutputsAfter(b, rounds, r + 1) == OutputsAfter(b, rounds, r) + done
  {
    hide Live, Done, Parted, After;
    StepOf(b, rounds, r);
    var s := After(b.e, b.size, b.cells, b.first, rounds[..r]);
    live, done := Live(b.e, s.beams), Done(b.e, s.beams);
    PartedRight(b.e, s.beams);
    SoundLive(b.e, s, |b.first|, r);
    BredNext(live, rounds[r], |b.first|);
  }

  lemma BredNext(live: seq<Beam>, picks: seq<Pick>, n: nat)
    requires ProperPicks(picks, |live|) && |picks| <= n && forall b :: b in live ==> b.id < n
    ensures Bred(live, picks, NextBeams(live, picks, n))
  {
    forall i | 0 <= i < |picks|
      ensures picks[i].parent < |live| && ChildOf(live[picks[i].parent], picks[i], NextBeams(live, picks, n)[i])
    {
      assert picks[i] in picks;
    }
  }

  lemma NothingTraced(b: Beginning, rounds: seq<seq<Pick>>)
    ensures Traced(b, rounds, 0, [], [])
  {
  }

  /** What the beams after round r leave behind comes after what was left before. */
  lemma TraceMore(b: Beginning, rounds: seq<seq<Pick>>, r: nat, outs: seq<Output>, origins: seq<Origin>,
                  done: seq<Output>, places: seq<nat>)
    requires Traced(b, rounds, r, outs, origins) && |places| == |done|
    requires EndedPlaces(b.e, BeamsAfter(b, rounds, r), done, |BeamsAfter(b, rounds, r)|, places)
    ensures var more := seq(|places|, j requires 0 <= j < |places| => Origin(r, places[j]));
            Traced(b, rounds, r + 1, outs + done, origins + more)
  {
    hide Yields, GoesOn, BeamsAfter;
    var more := seq(|places|, j requires 0 <= j < |places| => Origin(r, places[j]));
    var all := origins + more;
    forall j: nat | j < |outs + done| ensures ComesFrom(b, rounds, r + 1, all[j], (outs + done)[j]) {
      if j < |outs| { assert ComesFrom(b, rounds, r, origins[j], outs[j]); }
    }
    forall j, m | 0 <= j < m < |all| ensures Earlier(all[j], all[m]) {
      if j < |outs| { assert ComesFrom(b, rounds, r, origins[j], outs[j]); }
    }
    forall q: nat, i: nat | q < r + 1 && i < |BeamsAfter(b, rounds, q)| && !GoesOn(b.e, BeamsAfter(b, rounds, q)[i])
      ensures Origin(q, i) in all
    {
      if q == r {
        var j :| 0 <= j < |places| && places[j] == i;
        assert more[j] == Origin(r, i);
      } else {
        assert Origin(q, i) in origins;
      }
    }
  }

  lemma {:induction false} OutputsTraced(b: Beginning, rounds: seq<seq<Pick>>, r: nat) returns (origins: seq<Origin>)
    requires Fairly(b, rounds) && r <= |rounds|
    ensures Traced(b, rounds, r, OutputsAfter(b, rounds, r), origins)
  {
    hide BeamsAfter, OutputsAfter, Traced, Parted, EndedPlaces;
    if r == 0 {
      SearchBegins(b, rounds);
      NothingTraced(b, rounds);
      origins := [];
    } else {
      var before := OutputsTraced(b, rounds, r - 1);
      var live, done := RoundOf(b, rounds, r - 1);
      origins := MoreOrigins(b, rounds, r - 1, OutputsAfter(b, rounds, r - 1), before, live, done);
    }
  }

  lemma MoreOrigins(b: Beginning, rounds: seq<seq<Pick>>, r: nat, outs: seq<Output>, before: seq<Origin>,
                    live: seq<Beam>, done: seq<Output>) returns (origins: seq<Origin>)
    requires Traced(b, rounds, r, outs, before) && Parted(b.e, BeamsAfter(b, rounds, r), live, done)
    ensures Traced(b, rounds, r + 1, outs + done, origins)
  {
    hide BeamsAfter, Traced, EndedPlaces;
    var places := WhoseOutputs(b.e, BeamsAfter(b, rounds, r), live, done, |BeamsAfter(b, rounds, r)|);
    TraceMore(b, rounds, r, outs, before, done, places);
    origins := before + seq(|places|, j requires 0 <= j < |places| => Origin(r, places[j]));
  }

  /** How many of the rounds' results are looked at: all, and if the search ends by itself the last beams
      too. */
  function Seen(trace: Trace): nat { |trace.rounds| + if trace.stop == Finished then 1 else 0 }

  /** A search puts out exactly what its ended beams leave behind, and nothing if it breaks off. */
  lemma SearchOutputs(e: Endings, size: nat, cells: seq<SharedCell>, first: seq<(int, real)>, trace: Trace,
                      after: seq<SharedCell>, outs: seq<Output>) returns (origins: seq<Origin>)
    requires Searched(e, size, cells, first, trace, after, outs)
    ensures if trace.stop == Broken then outs == []
            else Traced(Beginning(e, size, cells, first), trace.rounds, Seen(trace), outs, origins)
  {
    hide Traced, Parted, Live, Done, RmOthers;
    var b := Beginning(e, size, cells, first);
    origins := OutputsTraced(b, trace.rounds, |trace.rounds|);
    assert trace.rounds[..|trace.rounds|] == trace.rounds;
    if trace.stop == Finished {
      var s := After(e, size, cells, first, trace.rounds);
      SoundLive(e, s, |first|, |trace.rounds|);
      PartedRight(e, s.beams);
      origins := MoreOrigins(b, trace.rounds, |trace.rounds|, s.outputs, origins, [], Done(e, s.beams));
    }
  }

  // ---------- Whose picks they were ----------

  /** The picks of every round are what pick answers for the beams that go on. */
  ghost predicate PickedBy(b: Beginning, rounds: seq<seq<Pick>>, pick: seq<Beam> -> Option<seq<Pick>>) {
    forall r: nat :: r < |rounds| ==> PickedAt(b, rounds, pick, r)
  }

  ghost predicate PickedAt(b: Beginning, rounds: seq<seq<Pick>>, pick: seq<Beam> -> Option<seq<Pick>>, r: nat) {
    && r < |rounds| && Started(BeamsAfter(b, rounds, r))
    && pick(Live(b.e, BeamsAfter(b, rounds, r))) == Some(rounds[r])
  }

  /** A search ends by itself when no beam goes on, breaks off when pick has no answer for those that do,
      and stops after ten rounds. */
  ghost predicate StopsRight(b: Beginning, trace: Trace, pick: seq<Beam> -> Option<seq<Pick>>) {
    var beams := BeamsAfter(b, trace.rounds, |trace.rounds|);
    && Started(beams)
    && match trace.stop
       case Finished => Live(b.e, beams) == []
       case Broken => Live(b.e, beams) != [] && pick(Live(b.e, beams)).None?
       case Continued => |trace.rounds| == 10
  }

  lemma NonePicked(b: Beginning, pick: seq<Beam> -> Option<seq<Pick>>)
    ensures PickedBy(b, [], pick)
  {
  }

  lemma OneMorePicked(b: Beginning, rounds: seq<seq<Pick>>, pick: seq<Beam> -> Option<seq<Pick>>, picks: seq<Pick>)
    requires PickedBy(b, rounds, pick) && Started(BeamsAfter(b, rounds, |rounds|))
    requires pick(Live(b.e, BeamsAfter(b, rounds, |rounds|))) == Some(picks)
    ensures PickedBy(b, rounds + [picks], pick)
  {
    hide Live;
    var more := rounds + [picks];
    forall r: nat | r < |more| ensures PickedAt(b, more, pick, r) {
      assert more[..r] == rounds[..r];
      assert r < |rounds| ==> PickedAt(b, rounds, pick, r);
    }
  }

  /** The beams of a state reached are the beams after that many rounds. */
  lemma ReachedBeams(b: Beginning, rounds: seq<seq<Pick>>)
    requires Fairly(b, rounds)
    ensures BeamsAfter(b, rounds, |rounds|) == After(b.e, b.size, b.cells, b.first, rounds).beams
  {
    assert rounds[..|rounds|] == rounds;
  }
}
