/** One round of beam search: which picks leave every beam with exactly its own tokens in sight. */
module BeamRounds {
  import opened BeamCells
  import opened BeamHistory
  import opened BeamIds
  import opened PromptCache
  import opened SharedCells
  import opened Wrappers

  /** A candidate that survived sorting: which beam it continues, and how. */
  datatype Pick = Pick(parent: nat, token: int, score: real)

  function Ids(beams: seq<Beam>): (r: seq<nat>)
    ensures |r| == |beams|
  {
    seq(|beams|, i requires 0 <= i < |beams| => beams[i].id)
  }

  /** The positions before which a child's sequence is copied. */
  function Ends(size: nat, beams: seq<Beam>): (r: seq<int>)
    ensures |r| == |beams|
  {
    seq(|beams|, i requires 0 <= i < |beams| => size + |beams[i].tokens| - 1)
  }

  function WithIds(beams: seq<Beam>, ids: seq<nat>): (r: seq<Beam>)
    requires |ids| == |beams|
    ensures |r| == |beams| && forall i :: 0 <= i < |r| ==> r[i] == beams[i].(id := ids[i])
  {
    seq(|beams|, i requires 0 <= i < |beams| => beams[i].(id := ids[i]))
  }

  /** The children of the beams. */
  function Children(beams: seq<Beam>, picks: seq<Pick>): (r: seq<Beam>)
    requires forall p :: p in picks ==> p.parent < |beams|
    ensures |r| == |picks|
  {
    seq(|picks|, i requires 0 <= i < |picks| =>
      assert picks[i] in picks;
      Beam(picks[i].score, beams[picks[i].parent].tokens + [picks[i].token], beams[picks[i].parent].id))
  }

  /** c continues the beam b as the pick says. */
  ghost predicate ChildOf(b: Beam, p: Pick, c: Beam) {
    c.tokens == b.tokens + [p.token] && c.score == p.score
  }

  /** Every pick has become a beam. */
  ghost predicate Bred(live: seq<Beam>, picks: seq<Pick>, next: seq<Beam>) {
    |next| == |picks| && forall i :: 0 <= i < |picks| ==>
      picks[i].parent < |live| && ChildOf(live[picks[i].parent], picks[i], next[i])
  }

  /** The picks continue beams there are, and no two continue the same beam with the same token. */
  predicate ProperPicks(picks: seq<Pick>, m: nat) {
    && (forall p :: p in picks ==> p.parent < m)
    && forall i, j :: 0 <= i < j < |picks| ==> picks[i].parent != picks[j].parent || picks[i].token != picks[j].token
  }

  /** Pick i is the last of its parent, or the sequence it moves to belongs to no live beam and
      holds a beginning of the parent's tokens. */
  ghost predicate SafePick(held: seq<seq<int>>, live: seq<Beam>, picks: seq<Pick>, n: nat, i: nat)
    requires ProperPicks(picks, |live|) && i < |picks|
  {
    var ids := Ids(Children(live, picks));
    LastUse(ids, i) || (Movers(ids, i) < |Unused(ids, n)|
                        && CanTake(held, live, picks[i].parent, Unused(ids, n)[Movers(ids, i)]))
  }

  ghost predicate CanTake(held: seq<seq<int>>, live: seq<Beam>, parent: nat, q: nat) {
    q < |held| && parent < |live| && (forall b :: b in live ==> b.id != q) && held[q] <= live[parent].tokens
  }

  ghost predicate SafePicks(held: seq<seq<int>>, live: seq<Beam>, picks: seq<Pick>, n: nat)
    requires ProperPicks(picks, |live|)
  {
    forall i: nat :: i < |picks| ==> SafePick(held, live, picks, n, i)
  }

  ghost predicate DistinctParents(picks: seq<Pick>) {
    forall i, j :: 0 <= i < j < |picks| ==> picks[i].parent != picks[j].parent
  }

  lemma ChildAt(live: seq<Beam>, picks: seq<Pick>, i: nat)
    requires ProperPicks(picks, |live|) && i < |picks|
    ensures picks[i].parent < |live|
    ensures var c, p := Children(live, picks)[i], live[picks[i].parent];
            c.id == p.id && c.tokens == p.tokens + [picks[i].token] && Ids(Children(live, picks))[i] == p.id
  {
    assert picks[i] in picks;
  }

  /** In a sequence of its own live, q is some live beam's only if that beam has it. */
  lemma OwnSequence(live: seq<Beam>, h: History, k: nat, parent: nat, q: nat)
    requires Housed(live, h, k) && parent < |live| && q < |h.held| && q != live[parent].id
    ensures Recorded(h, live).held[q] <= live[parent].tokens <==> CanTake(h.held, live, parent, q)
  {
    hide Recorded;
    assert HousedAt(live[parent], h, k);
    var i := WhoseSequence(live, h, k, q);
    if i.Some? {
      assert HousedAt(live[i.value], h, k) && live[i.value] in live;
      assert live[parent].tokens[..k + 1] == live[parent].tokens;
    }
  }

  /** Whether a pick is safe is whether its move suits. */
  lemma SafeIsSuitable(live: seq<Beam>, h: History, k: nat, picks: seq<Pick>, n: nat, i: nat)
    requires Housed(live, h, k) && ProperPicks(picks, |live|) && i < |picks| <= n == |h.held|
    requires Movable(Ids(Children(live, picks)), n, Recorded(h, live))
    ensures Suits(Ids(Children(live, picks)), n, Recorded(h, live), i) <==> SafePick(h.held, live, picks, n, i)
  {
    hide Recorded, Housed, Movers, Unused, Reassign, CanTake, Children, Ids;
    var ids := Ids(Children(live, picks));
    ChildAt(live, picks, i);
    WhereBeamsEnd(ids, n, i);
    var p, q := picks[i].parent, Now(ids, n)[i];
    HeldOfBeam(live, h, k, p);
    if !LastUse(ids, i) {
      assert q in Unused(ids, n);
      assert ids[i] in ids;
      OwnSequence(live, h, k, p, q);
    }
  }

  lemma HeldOfBeam(live: seq<Beam>, h: History, k: nat, p: nat)
    requires Housed(live, h, k) && p < |live|
    ensures live[p].id < |h.held| && Recorded(h, live).held[live[p].id] == live[p].tokens
  {
    hide Recorded;
    assert HousedAt(live[p], h, k);
    var j := WhoseSequence(live, h, k, live[p].id);
    assert live[p] in live;
  }

  lemma ChildrenMovable(live: seq<Beam>, picks: seq<Pick>, h: History, k: nat, n: nat)
    requires Housed(live, h, k) && ProperPicks(picks, |live|) && |picks| <= n == |h.held|
    ensures Movable(Ids(Children(live, picks)), n, Recorded(h, live))
  {
    hide Recorded, Children, Ids;
    forall i | 0 <= i < |picks| ensures Ids(Children(live, picks))[i] < n {
      ChildAt(live, picks, i);
      assert HousedAt(live[picks[i].parent], h, k);
    }
  }

  /** The beams after a round: the children at the ids that reassigning gives them. */
  function NextBeams(live: seq<Beam>, picks: seq<Pick>, n: nat): (r: seq<Beam>)
    requires ProperPicks(picks, |live|) && |picks| <= n && forall b :: b in live ==> b.id < n
    ensures |r| == |picks|
  {
    ChildIdsBelow(live, picks, n);
    WithIds(Children(live, picks), Now(Ids(Children(live, picks)), n))
  }

  lemma ChildIdsBelow(live: seq<Beam>, picks: seq<Pick>, n: nat)
    requires ProperPicks(picks, |live|) && forall b :: b in live ==> b.id < n
    ensures forall i :: 0 <= i < |picks| ==> Ids(Children(live, picks))[i] < n
  {
    forall i | 0 <= i < |picks| ensures Ids(Children(live, picks))[i] < n {
      ChildAt(live, picks, i);
    }
  }

  /** The cells after a round. */
  function NextCells(cells: seq<SharedCell>, size: nat, live: seq<Beam>, picks: seq<Pick>, n: nat,
                     k: nat): seq<SharedCell>
    requires ProperPicks(picks, |live|) && |picks| <= n && forall b :: b in live ==> b.id < n && b.tokens != []
  {
    ChildIdsBelow(live, picks, n);
    Moved(DecodeBeams(cells, size, live, |live|), Ids(Children(live, picks)), n, size + k + 1)
  }

  ghost function NextHistory(h: History, live: seq<Beam>, picks: seq<Pick>, n: nat): (r: History)
    requires ProperPicks(picks, |live|) && Movable(Ids(Children(live, picks)), n, Recorded(h, live))
    ensures |r.held| == n
  {
    AfterMoves(Recorded(h, live), Ids(Children(live, picks)), n)
  }

  lemma NextAt(live: seq<Beam>, picks: seq<Pick>, n: nat, i: nat)
    requires ProperPicks(picks, |live|) && |picks| <= n && (forall b :: b in live ==> b.id < n) && i < |picks|
    ensures picks[i].parent < |live| && |Ids(Children(live, picks))| == |picks|
    ensures forall j :: 0 <= j < |picks| ==> Ids(Children(live, picks))[j] < n
    ensures var b := NextBeams(live, picks, n)[i];
            && b.tokens == live[picks[i].parent].tokens + [picks[i].token]
            && b.id == Now(Ids(Children(live, picks)), n)[i]
    ensures Ids(Children(live, picks))[i] == live[picks[i].parent].id
  {
    ChildIdsBelow(live, picks, n);
    ChildAt(live, picks, i);
  }

  lemma TidyHeld(cells: seq<SharedCell>, base: seq<Cell>, size: nat, n: nat, h: History, k: nat)
    requires Tidy(cells, base, size, n, h, k)
    ensures |h.held| == n
  {
  }

  lemma HousedBounds(live: seq<Beam>, h: History, k: nat, n: nat)
    requires Housed(live, h, k) && |h.held| == n
    ensures forall b :: b in live ==> b.id < n && b.tokens != [] && |b.tokens| == k + 1
  {
    forall b | b in live ensures b.id < n && b.tokens != [] && |b.tokens| == k + 1 {
      var i :| 0 <= i < |live| && live[i] == b;
      assert HousedAt(live[i], h, k);
    }
  }

  /** Child i sees exactly the prompt and its tokens but the last if and only if its pick is safe. */
  lemma ChildCleanIff(cells: seq<SharedCell>, base: seq<Cell>, size: nat, n: nat, h: History, k: nat,
                      live: seq<Beam>, picks: seq<Pick>, i: nat)
    requires Tidy(cells, base, size, n, h, k) && Housed(live, h, k) && ProperPicks(picks, |live|) && i < |picks| <= n
    requires forall b :: b in live ==> b.id < n && b.tokens != []
    ensures Clean(NextCells(cells, size, live, picks, n, k), base, size, NextBeams(live, picks, n)[i], k + 1)
            <==> SafePick(h.held, live, picks, n, i)
  {
    hide Tidy, Housed, DecodeBeams, Recorded, Children, Ids, View, Moved, Suits, SafePick, NextBeams, Movable;
    var decoded, ids := DecodeBeams(cells, size, live, |live|), Ids(Children(live, picks));
    TidyHeld(cells, base, size, n, h, k);
    DecodedTidy(cells, base, size, n, live, h, k);
    ChildrenMovable(live, picks, h, k, n);
    NextAt(live, picks, n, i);
    HeldOfBeam(live, h, k, picks[i].parent);
    HousedBounds(live, h, k, n);
    MovedSeesIff(decoded, base, size, n, Recorded(h, live), k + 1, ids, i);
    SafeIsSuitable(live, h, k, picks, n, i);
    var b := NextBeams(live, picks, n)[i];
    assert b.tokens[..k + 1] == live[picks[i].parent].tokens;
  }

  /** After a round from a tidy state every beam sees exactly the prompt and its tokens but the
      last if and only if the picks are safe; then the state is tidy again. */
  lemma RoundTidyIff(cells: seq<SharedCell>, base: seq<Cell>, size: nat, n: nat, h: History, k: nat,
                     live: seq<Beam>, picks: seq<Pick>)
    requires Tidy(cells, base, size, n, h, k) && Housed(live, h, k) && ProperPicks(picks, |live|) && |picks| <= n
    requires forall b :: b in live ==> b.id < n && b.tokens != []
    ensures (forall i: nat :: i < |picks| ==>
               Clean(NextCells(cells, size, live, picks, n, k), base, size, NextBeams(live, picks, n)[i], k + 1))
            <==> SafePicks(h.held, live, picks, n)
    ensures Movable(Ids(Children(live, picks)), n, Recorded(h, live))
    ensures SafePicks(h.held, live, picks, n) ==>
              && Tidy(NextCells(cells, size, live, picks, n, k), base, size, n, NextHistory(h, live, picks, n), k + 1)
              && Housed(NextBeams(live, picks, n), NextHistory(h, live, picks, n), k + 1)
  {
    hide Tidy, Housed, NextCells, NextBeams, SafePick, NextHistory, Clean, Ids, Children;
    forall i: nat | i < |picks|
      ensures Clean(NextCells(cells, size, live, picks, n, k), base, size, NextBeams(live, picks, n)[i], k + 1)
              <==> SafePick(h.held, live, picks, n, i)
    {
      ChildCleanIff(cells, base, size, n, h, k, live, picks, i);
    }
    TidyHeld(cells, base, size, n, h, k);
    ChildrenMovable(live, picks, h, k, n);
    if SafePicks(h.held, live, picks, n) {
      SafeRoundTidy(cells, base, size, n, h, k, live, picks);
    }
  }

  lemma SafeRoundTidy(cells: seq<SharedCell>, base: seq<Cell>, size: nat, n: nat, h: History, k: nat,
                      live: seq<Beam>, picks: seq<Pick>)
    requires Tidy(cells, base, size, n, h, k) && Housed(live, h, k) && ProperPicks(picks, |live|) && |picks| <= n
    requires forall b :: b in live ==> b.id < n && b.tokens != []
    requires Movable(Ids(Children(live, picks)), n, Recorded(h, live)) && SafePicks(h.held, live, picks, n)
    ensures Tidy(NextCells(cells, size, live, picks, n, k), base, size, n, NextHistory(h, live, picks, n), k + 1)
    ensures Housed(NextBeams(live, picks, n), NextHistory(h, live, picks, n), k + 1)
  {
    hide Tidy, Housed, Recorded, DecodeBeams, Moved, AfterMoves, Suits, SafePick, Ids, Children, NextBeams;
    var ids := Ids(Children(live, picks));
    TidyHeld(cells, base, size, n, h, k);
    DecodedTidy(cells, base, size, n, live, h, k);
    forall i: nat | i < |picks| ensures Suits(ids, n, Recorded(h, live), i) {
      assert SafePick(h.held, live, picks, n, i);
      SafeIsSuitable(live, h, k, picks, n, i);
    }
    MovedTidy(DecodeBeams(cells, size, live, |live|), base, size, n, Recorded(h, live), k + 1, ids);
    NextHoused(live, picks, h, k, n);
  }

  lemma NextHoused(live: seq<Beam>, picks: seq<Pick>, h: History, k: nat, n: nat)
    requires Housed(live, h, k) && ProperPicks(picks, |live|) && |picks| <= n == |h.held|
    requires forall b :: b in live ==> b.id < n
    requires Movable(Ids(Children(live, picks)), n, Recorded(h, live))
    requires forall i: nat :: i < |picks| ==>
               NextHistory(h, live, picks, n).held[Now(Ids(Children(live, picks)), n)[i]]
               == Recorded(h, live).held[Ids(Children(live, picks))[i]]
    ensures Housed(NextBeams(live, picks, n), NextHistory(h, live, picks, n), k + 1)
  {
    hide Recorded, NextHistory, NextBeams, Children, Ids;
    var next, r := NextBeams(live, picks, n), NextHistory(h, live, picks, n);
    forall i: nat | i < |next| ensures HousedAt(next[i], r, k + 1) {
      NextAt(live, picks, n, i);
      HeldOfBeam(live, h, k, picks[i].parent);
      assert HousedAt(live[picks[i].parent], h, k);
      assert next[i].tokens[..k + 1] == live[picks[i].parent].tokens;
    }
    forall i, j | 0 <= i < j < |next| ensures next[i].id != next[j].id && next[i].tokens != next[j].tokens {
      NextAt(live, picks, n, i);
      NextAt(live, picks, n, j);
      assert HousedAt(live[picks[i].parent], h, k) && HousedAt(live[picks[j].parent], h, k);
      TokensApart(live, picks, i, j);
    }
  }

  lemma TokensApart(live: seq<Beam>, picks: seq<Pick>, i: nat, j: nat)
    requires ProperPicks(picks, |live|) && i < j < |picks| && picks[i].parent < |live| && picks[j].parent < |live|
    requires forall a, b :: 0 <= a < b < |live| ==> live[a].tokens != live[b].tokens
    ensures live[picks[i].parent].tokens + [picks[i].token] != live[picks[j].parent].tokens + [picks[j].token]
  {
    var p, q := picks[i].parent, picks[j].parent;
    var a, b := live[p].tokens + [picks[i].token], live[q].tokens + [picks[j].token];
    assert a[..|a| - 1] == live[p].tokens && b[..|b| - 1] == live[q].tokens;
    assert a[|a| - 1] == picks[i].token && b[|b| - 1] == picks[j].token;
    assert p < q ==> live[p].tokens != live[q].tokens;
    assert q < p ==> live[q].tokens != live[p].tokens;
  }

  // ---------- What a caller can tell from the picks alone ----------

  lemma LastUseOfChild(live: seq<Beam>, picks: seq<Pick>, i: nat)
    requires ProperPicks(picks, |live|) && DistinctIds(live) && i < |picks|
    ensures LastUse(Ids(Children(live, picks)), i) <==> forall j :: i < j < |picks| ==>
            picks[j].parent != picks[i].parent
  {
    hide Children, Ids;
    ChildAt(live, picks, i);
    var ids := Ids(Children(live, picks));
    forall j | i < j < |picks| ensures ids[j] == ids[i] <==> picks[j].parent == picks[i].parent {
      ChildAt(live, picks, j);
      var p, q := picks[i].parent, picks[j].parent;
      assert p < q ==> live[p].id != live[q].id;
      assert q < p ==> live[q].id != live[p].id;
    }
  }

  /** One child for each parent is always safe. */
  lemma DistinctParentsAreSafe(held: seq<seq<int>>, live: seq<Beam>, picks: seq<Pick>, n: nat)
    requires ProperPicks(picks, |live|) && DistinctIds(live) && DistinctParents(picks)
    ensures SafePicks(held, live, picks, n)
  {
    hide Children, Ids, Movers, Unused;
    forall i: nat | i < |picks| ensures SafePick(held, live, picks, n, i) {
      LastUseOfChild(live, picks, i);
    }
  }

  /** While no beam has ended, picks are safe if and only if no two have the same parent. */
  lemma AllLiveSafeIff(held: seq<seq<int>>, live: seq<Beam>, picks: seq<Pick>, n: nat)
    requires ProperPicks(picks, |live|) && DistinctIds(live) && |live| == n && forall b :: b in live ==> b.id < n
    ensures SafePicks(held, live, picks, n) <==> DistinctParents(picks)
  {
    hide Children, Ids, Movers, Unused;
    if DistinctParents(picks) {
      DistinctParentsAreSafe(held, live, picks, n);
    } else {
      var i, j :| 0 <= i < j < |picks| && picks[i].parent == picks[j].parent;
      LastUseOfChild(live, picks, i);
      var free, m := Unused(Ids(Children(live, picks)), n), Movers(Ids(Children(live, picks)), i);
      if m < |free| {
        assert free[m] in free;
        EveryIdLive(live, n, free[m]);
      }
      assert !SafePick(held, live, picks, n, i);
    }
  }

  /** With n live beams every id below n is a live beam's. */
  lemma EveryIdLive(live: seq<Beam>, n: nat, q: nat)
    requires DistinctIds(live) && |live| == n && (forall b :: b in live ==> b.id < n) && q < n
    ensures exists b :: b in live && b.id == q
  {
    var ids := Ids(live);
    forall i | 0 <= i < |ids| ensures ids[i] < n {
      assert live[i] in live;
    }
    DistinctUseAll(ids, n, q);
    var m :| 0 <= m < |ids| && ids[m] == q;
    assert live[m] in live;
  }

  lemma DistinctOnce(ids: seq<nat>, q: nat)
    requires forall i, j :: 0 <= i < j < |ids| ==> ids[i] != ids[j]
    ensures Uses(ids, q) <= 1
  {
    if Uses(ids, q) > 1 {
      UsedIffThere(ids, q);
      var i :| 0 <= i < |ids| && ids[i] == q;
      var j := UsedTwice(ids, i);
    }
  }

  lemma {:induction false} AtMostOnce(ids: seq<nat>, n: nat)
    requires forall q: nat :: q < n ==> Uses(ids, q) <= 1
    ensures TotalUses(ids, n) <= n
  {
    if n == 0 {
    } else {
      AtMostOnce(ids, n - 1);
    }
  }

  /** n distinct ids below n are all of them. */
  lemma DistinctUseAll(ids: seq<nat>, n: nat, q: nat)
    requires |ids| == n && (forall i :: 0 <= i < n ==> ids[i] < n) && q < n
    requires forall i, j :: 0 <= i < j < n ==> ids[i] != ids[j]
    ensures q in ids
  {
    if q !in ids {
      var more := ids + [q];
      TotalIsLength(more, n);
      forall p: nat | p < n ensures Uses(more, p) <= 1 {
        DistinctOnce(more, p);
      }
      AtMostOnce(more, n);
    }
  }
}
