/** The rounds of beam search, in place. */
module BeamSearch {
  import opened BeamCells
  import opened BeamHistory
  import opened BeamIds
  import opened BeamPrompt
  import opened BeamRounds
  import opened BeamRuns
  import opened PromptCache
  import opened SharedCells
  import opened Wrappers

  /** No beam goes on; the model's answer was not a number, which stops the search where it is;
      or there is another round. */
  datatype Progress = Finished | Broken | Continued

  /** The best candidates for the beams that go on, as many as there are beams, no two alike.
      None: the model's answer was not a number. */
  ghost predicate Picker(pick: seq<Beam> -> Option<seq<Pick>>) {
    forall live :: pick(live).Some? ==> |pick(live).value| == |live| && ProperPicks(pick(live).value, |live|)
  }

  lemma NothingFinished(e: Endings, beams: seq<Beam>)
    requires Started(beams)
    ensures beams[0..] == beams && Started(beams[|beams|..])
    ensures Live(e, beams[|beams|..]) == [] && Done(e, beams[|beams|..]) == []
  {
  }

  /** One more beam looked at: next and done take what it adds to them. */
  lemma FinishNext(e: Endings, beams: seq<Beam>, i: nat, next: seq<Beam>, done: seq<Output>)
    requires i < |beams| && Started(beams[i..])
    ensures var b, rest := beams[i], beams[i + 1..];
            && b.tokens != [] && Started(rest)
            && next + Live(e, beams[i..]) == (if Ended(e, b) then next else next + [b]) + Live(e, rest)
            && done + Done(e, beams[i..]) == (if Ended(e, b) then done + [OutputOf(e, b)] else done) + Done(e, rest)
  {
    hide Ended, OutputOf, Live, Done;
    FinishFirst(e, beams[i..]);
    assert beams[i..][0] == beams[i] && beams[i..][1..] == beams[i + 1..];
    Joined(next, if Ended(e, beams[i]) then [] else [beams[i]], Live(e, beams[i + 1..]));
    Joined(done, if Ended(e, beams[i]) then [OutputOf(e, beams[i])] else [], Done(e, beams[i + 1..]));
  }

  lemma FinishFirst(e: Endings, beams: seq<Beam>)
    requires beams != [] && Started(beams)
    ensures beams[0].tokens != [] && Started(beams[1..])
    ensures Live(e, beams) == (if Ended(e, beams[0]) then [] else [beams[0]]) + Live(e, beams[1..])
    ensures Done(e, beams) == (if Ended(e, beams[0]) then [OutputOf(e, beams[0])] else []) + Done(e, beams[1..])
  {
  }

  lemma Joined<T>(a: seq<T>, b: seq<T>, c: seq<T>)
    ensures a + (b + c) == (a + b) + c && a + [] == a
  {
  }

  lemma NothingMoved(beams: seq<Beam>, cells: seq<SharedCell>, ids: seq<nat>, n: nat, ends: seq<int>)
    requires ids == Ids(beams) && |beams| <= n && |ends| == |ids| && forall i :: 0 <= i < |ids| ==> ids[i] < n
    ensures Reassign(ids, n, 0) == Some(ids) && WithIds(beams, ids) == beams
            && CopyFirst(cells, ids, n, ends, 0) == cells
  {
  }

  lemma InRangeSoFar(ids: seq<nat>, n: nat, k: nat)
    requires |ids| <= n && k <= |ids| && forall i :: 0 <= i < |ids| ==> ids[i] < n
    ensures Reassign(ids, n, k).Some? && forall i :: 0 <= i < |ids| ==> Reassign(ids, n, k).value[i] < n
  {
    ReassignKeeps(ids, n, k);
  }

  /** One more beam reassigned, in terms of the ids so far. */
  lemma MovedOneMore(beams: seq<Beam>, cells: seq<SharedCell>, ids: seq<nat>, n: nat, ends: seq<int>, k: nat)
    requires ids == Ids(beams) && |ids| <= n && |ends| == |ids| && k < |ids| && forall i :: 0 <= i < |ids| ==>
             ids[i] < n
    ensures Reassign(ids, n, k).Some? && Reassign(ids, n, k + 1).Some?
    ensures var now, now' := Reassign(ids, n, k).value, Reassign(ids, n, k + 1).value;
            if Uses(now, now[k]) > 1 then
              && FirstFree(now, n, 0).Some? && FirstFree(now, n, 0).value != now[k]
              && now' == now[k := FirstFree(now, n, 0).value]
              && CopyFirst(cells, ids, n, ends, k + 1)
                 == Copy(CopyFirst(cells, ids, n, ends, k), now[k], now'[k], ends[k])
            else now' == now && CopyFirst(cells, ids, n, ends, k + 1) == CopyFirst(cells, ids, n, ends, k)
  {
    ReassignKeeps(ids, n, k);
    ReassignKeeps(ids, n, k + 1);
    var now := Reassign(ids, n, k).value;
    if Uses(now, now[k]) > 1 {
      FreeExists(now, n, k);
    }
  }

  lemma SameEnds(size: nat, k: nat, live: seq<Beam>, picks: seq<Pick>)
    requires ProperPicks(picks, |live|) && forall b :: b in live ==> |b.tokens| == k + 1
    ensures Ends(size, Children(live, picks)) == seq(|picks|, _ => size + k + 1)
  {
    hide Children;
    var children := Children(live, picks);
    forall i | 0 <= i < |picks| ensures Ends(size, children)[i] == size + k + 1 {
      ChildAt(live, picks, i);
      assert live[picks[i].parent] in live;
    }
  }

  /** All children are copied up to the same position, so the round is the one specified. */
  lemma RoundIsNext(e: Endings, size: nat, n: nat, k: nat, s: State, live: seq<Beam>, picks: seq<Pick>)
    requires Sound(s, n, k) && live == Live(e, s.beams) && |picks| == |live| && ProperPicks(picks, |live|)
    requires Reassign(Ids(Children(live, picks)), n, |picks|).Some?
    ensures Fair(e, s, picks)
    ensures Next(e, size, n, k, s, picks).beams ==
            WithIds(Children(live, picks), Reassign(Ids(Children(live, picks)), n, |picks|).value)
    ensures |picks| <= n && forall i :: 0 <= i < |picks| ==> Ids(Children(live, picks))[i] < n
    ensures Next(e, size, n, k, s, picks).cells ==
            CopyFirst(DecodeBeams(s.cells, size, live, |live|), Ids(Children(live, picks)), n,
                      Ends(size, Children(live, picks)), |picks|)
    ensures Next(e, size, n, k, s, picks).outputs == s.outputs + Done(e, s.beams)
  {
    hide Live, Done, DecodeBeams, Children, Ids, CopyFirst, Reassign, Ends;
    ChildIdsBelow(live, picks, n);
    SameEnds(size, k, live, picks);
  }

  class Search {
    const n: nat
    const size: nat
    const e: Endings
    var cells: seq<SharedCell>
    var beams: seq<Beam>
    var outputs: seq<Output>
    /** Rounds so far. */
    var tok: nat

    function S(): State
      reads this
    {
      State(cells, beams, outputs)
    }

    /** Nothing is lost, and every live beam has a sequence of its own. */
    ghost predicate Valid()
      reads this
    {
      Sound(S(), n, tok)
    }

    /** The first choices; every sequence gets the prompt that sequence 0 holds. */
    constructor (size: nat, e: Endings, prompt: seq<SharedCell>, first: seq<(int, real)>)
      ensures n == |first| && this.size == size && this.e == e && tok == 0 && Valid()
      ensures S() == Start(prompt, size, first)
    {
      this.n, this.size, this.e := |first|, size, e;
      outputs, tok := [], 0;
      beams := seq(|first|, i requires 0 <= i < |first| => Beam(first[i].1, [first[i].0], i));
      cells := prompt;
      new;
      StartSound(prompt, size, first);
      for i := 0 to n
        invariant beams == FirstBeams(first) && outputs == [] && tok == 0
        invariant cells == Spread(prompt, size, i)
      {
        if beams[i].id != 0 {
          cells := Copy(cells, 0, beams[i].id, size);
        }
      }
    }

    /** Beams that have ended become outputs. */
    method FinishBeams()
      requires Valid()
      modifies this`beams, this`outputs
      ensures Valid() && beams == Live(e, old(beams)) && outputs == old(outputs) + Done(e, old(beams))
      ensures old(outputs) <= outputs && Parted(e, old(beams), beams, outputs[|old(outputs)|..])
    {
      hide Live, Done, Sound, Parted;
      LiveKeeps();
      PartedRight(e, beams);
      var next, done := [], outputs;
      ghost var live0, outputs0 := Live(e, beams), outputs + Done(e, beams);
      NothingFinished(e, beams);
      for i := 0 to |beams|
        modifies {}
        invariant Started(beams[i..])
        invariant next + Live(e, beams[i..]) == live0 && done + Done(e, beams[i..]) == outputs0
      {
        FinishNext(e, beams, i, next, done);
        var b := beams[i];
        if b.tokens[|b.tokens| - 1] == e.xec {
          done := done + [Output(b.score, b.tokens[..|b.tokens| - 1])];
          continue;
        }
        if e.endsWord(b.tokens[|b.tokens| - 1]) {
          done := done + [Output(b.score, b.tokens)];
          continue;
        }
        next := next + [b];
      }
      assert next + [] == next && done + [] == done;
      assert outputs0[|outputs|..] == Done(e, beams);
      beams, outputs := next, done;
    }

    lemma LiveKeeps()
      requires Valid()
      ensures Started(beams) && |Live(e, beams)| + |outputs| + |Done(e, beams)| == n
      ensures forall b :: b in Live(e, beams) ==> b.id < n && |b.tokens| == tok + 1
      ensures Sound(State(cells, Live(e, beams), outputs + Done(e, beams)), n, tok)
    {
      SoundLive(e, S(), n, tok);
    }

    method DecodeLast()
      requires forall b :: b in beams ==> b.tokens != []
      modifies this`cells
      ensures cells == DecodeBeams(old(cells), size, beams, |beams|)
    {
      for i := 0 to |beams|
        invariant cells == DecodeBeams(old(cells), size, beams, i)
      {
        assert beams[i] in beams;
        cells := cells + [DecodedCell(size, beams[i])];
      }
    }

    /** Children that share a sequence move to free ones.  False: no sequence is free. */
    method ReassignIds() returns (ok: bool)
      requires |beams| <= n && forall b :: b in beams ==> b.id < n
      modifies this`cells, this`beams
      ensures ok && Reassign(Ids(old(beams)), n, |old(beams)|).Some?
      ensures beams == WithIds(old(beams), Reassign(Ids(old(beams)), n, |old(beams)|).value)
      ensures cells == CopyFirst(old(cells), Ids(old(beams)), n, Ends(size, old(beams)), |old(beams)|)
    {
      hide Reassign, Reassigned, Uses, FirstFree, Copy, CopyFirst;
      ghost var beams0, cells0, ids, ends := beams, cells, Ids(beams), Ends(size, beams);
      assert forall i :: 0 <= i < |ids| ==> ids[i] == beams[i].id && beams[i] in beams;
      var useCount := CountUses();
      NothingMoved(beams0, cells0, ids, n, ends);
      for k := 0 to |beams|
        invariant Reassign(ids, n, k).Some? && beams == WithIds(beams0, Reassign(ids, n, k).value)
        invariant cells == CopyFirst(cells0, ids, n, ends, k)
        invariant forall q :: 0 <= q < n ==> useCount[q] == Uses(Ids(beams), q)
      {
        ghost var now := Reassign(ids, n, k).value;
        InRangeSoFar(ids, n, k);
        assert Ids(beams) == now;
        ok := MoveBeam(k, useCount);
        MovedOneMore(beams0, cells0, ids, n, ends, k);
        if !ok {
          return;
        }
      }
      ok := true;
    }

    /** Beam k moves to a free sequence if it shares its own. */
    method MoveBeam(k: nat, useCount: array<int>) returns (ok: bool)
      requires k < |beams| && useCount.Length == n && (forall b :: b in beams ==> b.id < n)
      requires forall q :: 0 <= q < n ==> useCount[q] == Uses(Ids(beams), q)
      modifies this`cells, this`beams, useCount
      ensures var ids := Ids(old(beams));
              if Uses(ids, ids[k]) > 1 then
                match FirstFree(ids, n, 0)
                case None => !ok
                case Some(q) =>
                  && ok && beams == WithIds(old(beams), ids[k := q])
                  && cells == Copy(old(cells), ids[k], q, Ends(size, old(beams))[k])
              else ok && beams == old(beams) && cells == old(cells)
      ensures ok ==> forall q :: 0 <= q < n ==> useCount[q] == Uses(Ids(beams), q)
    {
      ghost var now := Ids(beams);
      var oldId := beams[k].id;
      assert beams[k] in beams;
      ok := true;
      if useCount[oldId] > 1 {
        var newId := FindFree(useCount, now);
        if newId == -1 {
          return false;
        }
        useCount[oldId] := useCount[oldId] - 1;
        useCount[newId] := useCount[newId] + 1;
        cells := Copy(cells, oldId, newId, size + |beams[k].tokens| - 1);
        beams := beams[k := beams[k].(id := newId)];
        forall q | 0 <= q < n ensures useCount[q] == Uses(now[k := newId], q) { UsesAfter(now, k, newId, q); }
        assert Ids(beams) == now[k := newId];
      }
    }

    method CountUses() returns (useCount: array<int>)
      requires forall b :: b in beams ==> b.id < n
      ensures fresh(useCount) && useCount.Length == n
      ensures forall q :: 0 <= q < n ==> useCount[q] == Uses(Ids(beams), q)
    {
      useCount := new int[n];
      for i := 0 to n
        invariant forall q :: 0 <= q < i ==> useCount[q] == 0
      {
        useCount[i] := 0;
      }
      for i := 0 to |beams|
        invariant forall q :: 0 <= q < n ==> useCount[q] == Uses(Ids(beams)[..i], q)
      {
        assert beams[i] in beams;
        useCount[beams[i].id] := useCount[beams[i].id] + 1;
        forall q | 0 <= q < n ensures useCount[q] == Uses(Ids(beams)[..i + 1], q) {
          assert Ids(beams)[..i + 1] == Ids(beams)[..i] + [beams[i].id];
          UsesAppend(Ids(beams)[..i], [beams[i].id], q);
        }
      }
      assert Ids(beams)[..|beams|] == Ids(beams);
    }

    method FindFree(useCount: array<int>, ghost now: seq<nat>) returns (q: int)
      requires useCount.Length == n && forall q :: 0 <= q < n ==> useCount[q] == Uses(now, q)
      ensures q == match FirstFree(now, n, 0) case None => -1 case Some(f) => f
    {
      for i := 0 to n
        invariant FirstFree(now, n, 0) == FirstFree(now, n, i)
      {
        if useCount[i] == 0 {
          return i;
        }
      }
      q := -1;
    }

    method BuildChildren(picks: seq<Pick>) returns (children: seq<Beam>)
      requires forall p :: p in picks ==> p.parent < |beams|
      ensures children == Children(beams, picks)
    {
      children := [];
      for i := 0 to |picks|
        invariant children == Children(beams, picks)[..i]
      {
        assert picks[i] in picks;
        var p := picks[i];
        children := children + [Beam(p.score, beams[p.parent].tokens + [p.token], beams[p.parent].id)];
      }
    }

    /** One round: what it leaves is what the round's picks say.  live: the beams that go on. */
    method Round(pick: seq<Beam> -> Option<seq<Pick>>) returns (r: Progress, ghost live: seq<Beam>)
      requires Valid() && Picker(pick)
      modifies this`cells, this`beams, this`outputs, this`tok
      ensures old(outputs) <= outputs && Parted(e, old(beams), live, outputs[|old(outputs)|..])
      ensures r == Continued ==> pick(live).Some? && Bred(live, pick(live).value, beams)
      ensures live == Live(e, old(beams))
      ensures var s := old(S());
              match r
              case Finished => live == [] && outputs == s.outputs + Done(e, s.beams) && cells == s.cells
              case Broken => live != [] && pick(live).None? && cells == DecodeBeams(s.cells, size, live, |live|)
              case Continued =>
                && live != [] && pick(live).Some? && Valid() && tok == old(tok) + 1
                && Fair(e, s, pick(live).value) && S() == Next(e, size, n, old(tok), s, pick(live).value)
    {
      hide Live, Done, DecodeBeams, Children, Ids, Ends, CopyFirst, Reassign, NextBeams, NextCells, Parted, Bred;
      ghost var s := S();
      LiveKeeps();
      FinishBeams();
      live := beams;
      var remaining := n - |outputs|;
      assert |beams| == remaining;
      if |beams| == 0 {
        return Finished, live;
      }
      DecodeLast();
      var answer := pick(beams);
      if answer.None? {
        return Broken, live;
      }
      var picks := answer.value;
      assert ProperPicks(picks, |live|);
      ChildrenInRange(live, picks);
      var children := BuildChildren(picks);
      beams := children;
      var ok := ReassignIds();
      if !ok {
        return Broken, live;
      }
      ChildrenBred(live, picks, beams);
      RoundIsNext(e, size, n, tok, s, live, picks);
      NextSound(e, size, n, tok, s, picks);
      tok := tok + 1;
      r := Continued;
    }

    static lemma ChildrenBred(live: seq<Beam>, picks: seq<Pick>, next: seq<Beam>)
      requires ProperPicks(picks, |live|) && |next| == |picks|
      requires exists ids :: |ids| == |picks| && next == WithIds(Children(live, picks), ids)
      ensures Bred(live, picks, next)
    {
      forall i | 0 <= i < |picks|
        ensures picks[i].parent < |live| && ChildOf(live[picks[i].parent], picks[i], next[i])
      {
        assert picks[i] in picks;
      }
    }

    lemma ChildrenInRange(live: seq<Beam>, picks: seq<Pick>)
      requires (forall p :: p in picks ==> p.parent < |live|) && forall b :: b in live ==> b.id < n
      ensures forall b :: b in Children(live, picks) ==> b.id < n
    {
      forall i | 0 <= i < |picks| ensures Children(live, picks)[i].id < n {
        assert picks[i] in picks && live[picks[i].parent] in live;
      }
    }
  }
}
