/** The candidates of a round and their scores. */
module BeamScores {
  import opened BeamCells
  import opened BeamRounds

  /** A token that may come next, and how likely it is. */
  datatype Offer = Offer(prob: real, token: int)

  /** As many offers for each beam as there are beams, and no token twice. */
  ghost predicate Offered(live: seq<Beam>, offers: seq<seq<Offer>>) {
    |offers| == |live| && forall p: nat :: p < |offers| ==> OfferedTo(live, offers, p)
  }

  ghost predicate OfferedTo(live: seq<Beam>, offers: seq<seq<Offer>>, p: nat) {
    && p < |offers| && |offers[p]| == |live|
    && forall i, j :: 0 <= i < j < |offers[p]| ==> offers[p][i].token != offers[p][j].token
  }

  /** The candidates from beam p.  The score is that of beam i for offer i, whatever beam it is for. */
  function FromBeam(live: seq<Beam>, offers: seq<seq<Offer>>, p: nat): (r: seq<Pick>)
    requires p < |offers| && |offers[p]| == |live|
    ensures |r| == |live|
  {
    seq(|live|, i requires 0 <= i < |live| => Pick(p, offers[p][i].token, offers[p][i].prob * live[i].score))
  }

  /** The candidates from the first n beams. */
  function FromBeams(live: seq<Beam>, offers: seq<seq<Offer>>, n: nat): (r: seq<Pick>)
    requires Offered(live, offers) && n <= |live|
    ensures forall c :: c in r ==> c.parent < n
  {
    if n == 0 then []
    else
      assert OfferedTo(live, offers, n - 1);
      FromBeams(live, offers, n - 1) + FromBeam(live, offers, n - 1)
  }

  method Candidates(live: seq<Beam>, offers: seq<seq<Offer>>) returns (next: seq<Pick>)
    requires Offered(live, offers)
    ensures next == FromBeams(live, offers, |live|)
  {
    next := [];
    for p := 0 to |live|
      invariant next == FromBeams(live, offers, p)
    {
      assert OfferedTo(live, offers, p);
      ghost var before, mine := next, FromBeam(live, offers, p);
      for i := 0 to |live|
        invariant next == before + mine[..i]
      {
        assert before + mine[..i + 1] == before + mine[..i] + [mine[i]];
        var score := offers[p][i].prob * live[i].score;
        assert mine[i].score == score;
        next := next + [Pick(p, offers[p][i].token, score)];
      }
      assert mine[..|live|] == mine;
    }
  }

  /** No two candidates continue the same beam with the same token. */
  lemma {:induction false} CandidatesProper(live: seq<Beam>, offers: seq<seq<Offer>>, n: nat)
    requires Offered(live, offers) && n <= |live|
    ensures ProperPicks(FromBeams(live, offers, n), n)
  {
    if n == 0 {
    } else {
      CandidatesProper(live, offers, n - 1);
      assert OfferedTo(live, offers, n - 1);
      var a, b := FromBeams(live, offers, n - 1), FromBeam(live, offers, n - 1);
      var r := FromBeams(live, offers, n);
      forall i, j | 0 <= i < j < |r| ensures r[i].parent != r[j].parent || r[i].token != r[j].token {
        if j >= |a| {
          assert r[j] == b[j - |a|];
          if i >= |a| {
            assert r[i] == b[i - |a|];
          } else {
            assert r[i] in a;
          }
        } else {
          assert r[i] == a[i] && r[j] == a[j];
        }
      }
    }
  }

  /** Whichever candidates are chosen, none twice, they can be picked. */
  lemma ChosenProper(all: seq<Pick>, m: nat, chosen: seq<nat>)
    requires ProperPicks(all, m) && (forall i :: 0 <= i < |chosen| ==> chosen[i] < |all|)
    requires forall i, j :: 0 <= i < j < |chosen| ==> chosen[i] != chosen[j]
    ensures ProperPicks(seq(|chosen|, i requires 0 <= i < |chosen| => all[chosen[i]]), m)
  {
    var r := seq(|chosen|, i requires 0 <= i < |chosen| => all[chosen[i]]);
    forall i, j | 0 <= i < j < |r| ensures r[i].parent != r[j].parent || r[i].token != r[j].token {
      assert chosen[i] != chosen[j];
      assert chosen[i] < chosen[j] ==> r[i] == all[chosen[i]] && r[j] == all[chosen[j]];
    }
    forall c | c in r ensures c.parent < m {
      var i :| 0 <= i < |r| && r[i] == c;
      assert all[chosen[i]] in all;
    }
  }

  // ---------- Scores ----------

  /** The score of a path is that of the beam times how likely the next token is. */
  ghost predicate PathScore(live: seq<Beam>, offers: seq<seq<Offer>>, c: Pick) {
    && c.parent < |live| && c.parent < |offers|
    && exists i :: 0 <= i < |offers[c.parent]| && offers[c.parent][i].token == c.token
                   && c.score == offers[c.parent][i].prob * live[c.parent].score
  }

  /** Offer i for beam p is worth nothing, or beams i and p have the same score. */
  predicate FairOffer(live: seq<Beam>, offers: seq<seq<Offer>>, p: nat, i: nat) {
    p < |offers| && i < |offers[p]| && p < |live| && i < |live| ==>
      offers[p][i].prob == 0.0 || live[i].score == live[p].score
  }

  lemma FairIffScored(live: seq<Beam>, offers: seq<seq<Offer>>, p: nat, i: nat)
    requires Offered(live, offers) && p < |live| && i < |live|
    ensures OfferedTo(live, offers, p)
    ensures PathScore(live, offers, FromBeam(live, offers, p)[i]) <==> FairOffer(live, offers, p, i)
  {
    assert OfferedTo(live, offers, p);
    var c, o := FromBeam(live, offers, p)[i], offers[p];
    assert c.token == o[i].token;
    forall j | 0 <= j < |o| && j != i ensures o[j].token != c.token {
      assert o[if j < i then j else i].token != o[if j < i then i else j].token;
    }
    Cancels(o[i].prob, live[i].score, live[p].score);
  }

  lemma Cancels(x: real, a: real, b: real)
    ensures x * a == x * b <==> x == 0.0 || a == b
  {
    assert x * a - x * b == x * (a - b);
  }

  lemma {:induction false} CandidateAt(live: seq<Beam>, offers: seq<seq<Offer>>, n: nat, p: nat, i: nat)
    requires Offered(live, offers) && p < n <= |live| && i < |live|
    ensures OfferedTo(live, offers, p) && FromBeam(live, offers, p)[i] in FromBeams(live, offers, n)
  {
    assert OfferedTo(live, offers, n - 1);
    if p < n - 1 {
      CandidateAt(live, offers, n - 1, p, i);
    } else {
      assert FromBeam(live, offers, p)[i] in FromBeam(live, offers, p);
    }
  }

  lemma {:induction false} CandidateFrom(live: seq<Beam>, offers: seq<seq<Offer>>, n: nat, c: Pick)
    returns (p: nat, i: nat)
    requires Offered(live, offers) && n <= |live| && c in FromBeams(live, offers, n)
    ensures p < n && i < |live| && OfferedTo(live, offers, p) && c == FromBeam(live, offers, p)[i]
  {
    assert OfferedTo(live, offers, n - 1);
    if c in FromBeams(live, offers, n - 1) {
      p, i := CandidateFrom(live, offers, n - 1, c);
    } else {
      p := n - 1;
      i :| 0 <= i < |live| && FromBeam(live, offers, p)[i] == c;
    }
  }

  /** Every candidate has the score of its path if and only if every offer is worth nothing or
      meets a beam with the score of its own. */
  lemma ScoresRightIff(live: seq<Beam>, offers: seq<seq<Offer>>)
    requires Offered(live, offers)
    ensures (forall c :: c in FromBeams(live, offers, |live|) ==> PathScore(live, offers, c)) <==>
            forall p: nat, i: nat :: FairOffer(live, offers, p, i)
  {
    hide FromBeams, FromBeam, PathScore;
    if forall p: nat, i: nat :: FairOffer(live, offers, p, i) {
      forall c | c in FromBeams(live, offers, |live|) ensures PathScore(live, offers, c) {
        var p, i := CandidateFrom(live, offers, |live|, c);
        FairIffScored(live, offers, p, i);
      }
    }
    if forall c :: c in FromBeams(live, offers, |live|) ==> PathScore(live, offers, c) {
      forall p: nat, i: nat ensures FairOffer(live, offers, p, i) {
        if p < |live| && i < |live| {
          CandidateAt(live, offers, |live|, p, i);
          FairIffScored(live, offers, p, i);
        }
      }
    }
  }

  /** Two beams: the second one's best candidate gets the score of the first one's path. */
  lemma SecondBeamScoredWrong()
    ensures var live := [Beam(0.5, [10], 0), Beam(0.25, [11], 1)];
            var offers := [[Offer(0.5, 20), Offer(0.25, 21)], [Offer(0.5, 20), Offer(0.25, 21)]];
            && Offered(live, offers)
            && Pick(1, 20, 0.25) in FromBeams(live, offers, 2) && !PathScore(live, offers, Pick(1, 20, 0.25))
  {
    var live := [Beam(0.5, [10], 0), Beam(0.25, [11], 1)];
    var offers := [[Offer(0.5, 20), Offer(0.25, 21)], [Offer(0.5, 20), Offer(0.25, 21)]];
    assert OfferedTo(live, offers, 0) && OfferedTo(live, offers, 1);
    CandidateAt(live, offers, 2, 1, 0);
    FairIffScored(live, offers, 1, 0);
    assert FromBeam(live, offers, 1)[0] == Pick(1, 20, 0.5 * 0.5);
  }
}
