/** What every sequence holds in the course of a search, and exactly when moving children keeps
    each of them to the prompt and its own tokens. */
module BeamHistory {
  import opened BeamCells
  import opened BeamIds
  import opened PromptCache
  import opened SharedCells
  import opened Wrappers

  /** paths: the tokens from the prompt up to each cell; held: the tokens each sequence holds
      behind the prompt. */
  datatype History = History(paths: seq<seq<int>>, held: seq<seq<int>>)

  /** A cell belongs to exactly the sequences that its path is a beginning of. */
  ghost predicate Traced(cells: seq<SharedCell>, h: History) {
    |h.paths| == |cells| && forall x: nat, q: nat :: x < |cells| && q < |h.held| ==> TracedAt(cells, h, x, q)
  }

  ghost predicate TracedAt(cells: seq<SharedCell>, h: History, x: nat, q: nat) {
    x < |cells| && x < |h.paths| && q < |h.held| && (q in cells[x].ids <==> h.paths[x] <= h.held[q])
  }

  /** What a sequence holds ends in a cell. */
  ghost predicate Rooted(h: History) {
    forall q: nat :: q < |h.held| && h.held[q] != [] ==> h.held[q] in h.paths
  }

  /** No sequence is longer than the prompt and k tokens. */
  ghost predicate Short(cells: seq<SharedCell>, size: nat, h: History, k: nat) {
    && (forall x: nat :: x < |h.paths| ==> |h.paths[x]| <= k)
    && (forall q: nat :: q < |h.held| ==> |h.held[q]| <= k)
    && (forall c :: c in cells ==> 0 <= c.cell.pos < size + k)
  }

  /** Every sequence sees exactly the prompt and what it holds. */
  ghost predicate Told(cells: seq<SharedCell>, base: seq<Cell>, size: nat, h: History) {
    forall q: nat :: q < |h.held| ==> View(cells, q) == base + TokenCells(h.held[q], size)
  }

  ghost predicate Tidy(cells: seq<SharedCell>, base: seq<Cell>, size: nat, n: nat, h: History, k: nat) {
    |h.held| == n && Traced(cells, h) && Rooted(h) && Short(cells, size, h, k) && Told(cells, base, size, h)
  }

  ghost predicate DistinctTokens(beams: seq<Beam>) {
    forall i, j :: 0 <= i < j < |beams| ==> beams[i].tokens != beams[j].tokens
  }

  /** The beams have sequences and tokens of their own; each sequence lacks only the last token. */
  ghost predicate Housed(beams: seq<Beam>, h: History, k: nat) {
    DistinctIds(beams) && DistinctTokens(beams) && forall i: nat :: i < |beams| ==> HousedAt(beams[i], h, k)
  }

  ghost predicate HousedAt(b: Beam, h: History, k: nat) {
    b.id < |h.held| && |b.tokens| == k + 1 && h.held[b.id] == b.tokens[..k]
  }

  // ---------- Decoding ----------

  /** What sequence q holds once the beams are decoded, d before. */
  function HeldBy(beams: seq<Beam>, q: nat, d: seq<int>): seq<int> {
    if beams == [] then d
    else if beams[0].id == q then beams[0].tokens
    else HeldBy(beams[1..], q, d)
  }

  lemma {:induction false} HeldByBeam(beams: seq<Beam>, q: nat, d: seq<int>, i: nat)
    requires DistinctIds(beams) && i < |beams| && beams[i].id == q
    ensures HeldBy(beams, q, d) == beams[i].tokens
  {
    if i == 0 {
    } else {
      assert beams[0].id != beams[i].id;
      HeldByBeam(beams[1..], q, d, i - 1);
    }
  }

  lemma {:induction false} HeldByNone(beams: seq<Beam>, q: nat, d: seq<int>)
    requires forall b :: b in beams ==> b.id != q
    ensures HeldBy(beams, q, d) == d
  {
    if beams == [] {
    } else {
      HeldByNone(beams[1..], q, d);
    }
  }

  ghost function Tokens(beams: seq<Beam>): (r: seq<seq<int>>)
    ensures |r| == |beams|
  {
    seq(|beams|, i requires 0 <= i < |beams| => beams[i].tokens)
  }

  ghost function Recorded(h: History, beams: seq<Beam>): (r: History)
    ensures |r.held| == |h.held| && |r.paths| == |h.paths| + |beams|
  {
    History(h.paths + Tokens(beams),
            seq(|h.held|, q requires 0 <= q < |h.held| => HeldBy(beams, q, h.held[q])))
  }

  lemma {:induction false} DecodedLength(cells: seq<SharedCell>, size: nat, beams: seq<Beam>, k: nat)
    requires k <= |beams| && forall b :: b in beams ==> b.tokens != []
    ensures |DecodeBeams(cells, size, beams, k)| == |cells| + k
  {
    if k == 0 {
    } else {
      DecodedLength(cells, size, beams, k - 1);
    }
  }

  lemma {:induction false} DecodedIs(cells: seq<SharedCell>, size: nat, beams: seq<Beam>, k: nat, x: nat)
    requires k <= |beams| && (forall b :: b in beams ==> b.tokens != []) && x < |cells| + k
    ensures |DecodeBeams(cells, size, beams, k)| == |cells| + k
    ensures DecodeBeams(cells, size, beams, k)[x] ==
            if x < |cells| then cells[x] else DecodedCell(size, beams[x - |cells|])
  {
    if k == 0 {
    } else {
      DecodedLength(cells, size, beams, k - 1);
      if x < |cells| + k - 1 {
        DecodedIs(cells, size, beams, k - 1, x);
      }
    }
  }

  /** Beam i, if there is one, lives in sequence q; otherwise no beam does. */
  lemma WhoseSequence(beams: seq<Beam>, h: History, k: nat, q: nat) returns (i: Option<nat>)
    requires Housed(beams, h, k) && q < |h.held|
    ensures i.Some? ==>
              i.value < |beams| && beams[i.value].id == q && Recorded(h, beams).held[q] == beams[i.value].tokens
    ensures i.None? ==> Recorded(h, beams).held[q] == h.held[q] && forall b :: b in beams ==> b.id != q
  {
    if j: nat :| j < |beams| && beams[j].id == q {
      HeldByBeam(beams, q, h.held[q], j);
      i := Some(j);
    } else {
      HeldByNone(beams, q, h.held[q]);
      i := None;
    }
  }

  lemma ShortPrefix(p: seq<int>, ts: seq<int>, k: nat)
    requires |p| <= k <= |ts|
    ensures p <= ts <==> p <= ts[..k]
  {
    assert ts[..k][..|p|] == ts[..|p|];
  }

  lemma OldCellTraced(cells: seq<SharedCell>, size: nat, beams: seq<Beam>, h: History, k: nat, x: nat, q: nat)
    requires Traced(cells, h) && Short(cells, size, h, k) && Housed(beams, h, k) && x < |cells| && q < |h.held|
    ensures q in cells[x].ids <==> h.paths[x] <= Recorded(h, beams).held[q]
  {
    assert TracedAt(cells, h, x, q);
    var i := WhoseSequence(beams, h, k, q);
    if i.Some? {
      assert HousedAt(beams[i.value], h, k);
      ShortPrefix(h.paths[x], beams[i.value].tokens, k);
    }
  }

  lemma NewCellTraced(size: nat, cells: seq<SharedCell>, beams: seq<Beam>, h: History, k: nat, j: nat, q: nat)
    requires Short(cells, size, h, k) && Housed(beams, h, k) && j < |beams| && q < |h.held|
    ensures q == beams[j].id <==> beams[j].tokens <= Recorded(h, beams).held[q]
  {
    assert HousedAt(beams[j], h, k);
    var i := WhoseSequence(beams, h, k, q);
    if i.Some? {
      assert HousedAt(beams[i.value], h, k);
      assert beams[i.value].tokens[..k + 1] == beams[i.value].tokens;
    } else {
      assert beams[j] in beams;
    }
  }

  lemma HousedStarted(beams: seq<Beam>, h: History, k: nat)
    requires Housed(beams, h, k)
    ensures forall b :: b in beams ==> b.tokens != []
  {
    forall b | b in beams ensures b.tokens != [] {
      var i: nat :| i < |beams| && beams[i] == b;
      assert HousedAt(beams[i], h, k);
    }
  }

  lemma TracedLength(cells: seq<SharedCell>, h: History)
    requires Traced(cells, h)
    ensures |h.paths| == |cells|
  {
  }

  lemma DecodedTraced(cells: seq<SharedCell>, size: nat, beams: seq<Beam>, h: History, k: nat)
    requires Traced(cells, h) && Short(cells, size, h, k) && Housed(beams, h, k)
    ensures forall b :: b in beams ==> b.tokens != []
    ensures Traced(DecodeBeams(cells, size, beams, |beams|), Recorded(h, beams))
  {
    hide Short, Housed, DecodeBeams, HeldBy;
    TracedLength(cells, h);
    HousedStarted(beams, h, k);
    var d, r := DecodeBeams(cells, size, beams, |beams|), Recorded(h, beams);
    DecodedLength(cells, size, beams, |beams|);
    forall x: nat, q: nat | x < |d| && q < |r.held| ensures TracedAt(d, r, x, q) {
      DecodedIs(cells, size, beams, |beams|, x);
      if x < |cells| {
        OldCellTraced(cells, size, beams, h, k, x, q);
      } else {
        NewCellTraced(size, cells, beams, h, k, x - |cells|, q);
      }
    }
  }

  lemma DecodedRooted(beams: seq<Beam>, h: History, k: nat)
    requires Rooted(h) && Housed(beams, h, k)
    ensures Rooted(Recorded(h, beams))
  {
    var r := Recorded(h, beams);
    forall q: nat | q < |r.held| && r.held[q] != [] ensures r.held[q] in r.paths {
      var i := WhoseSequence(beams, h, k, q);
      if i.Some? {
        assert r.paths[|h.paths| + i.value] == beams[i.value].tokens;
      }
    }
  }

  lemma DecodedShort(cells: seq<SharedCell>, size: nat, beams: seq<Beam>, h: History, k: nat)
    requires Short(cells, size, h, k) && Housed(beams, h, k) && |h.paths| == |cells|
    requires forall b :: b in beams ==> b.tokens != []
    ensures Short(DecodeBeams(cells, size, beams, |beams|), size, Recorded(h, beams), k + 1)
  {
    var d, r := DecodeBeams(cells, size, beams, |beams|), Recorded(h, beams);
    assert forall i: nat :: i < |beams| ==> HousedAt(beams[i], h, k);
    forall q: nat | q < |r.held| ensures |r.held[q]| <= k + 1 {
      var i := WhoseSequence(beams, h, k, q);
    }
    DecodedLength(cells, size, beams, |beams|);
    forall x: nat | x < |d| ensures 0 <= d[x].cell.pos < size + k + 1 {
      DecodedIs(cells, size, beams, |beams|, x);
    }
  }

  lemma {:induction false} DecodedElsewhere(cells: seq<SharedCell>, size: nat, beams: seq<Beam>, k: nat, q: nat)
    requires k <= |beams| && forall b :: b in beams ==> b.tokens != [] && b.id != q
    ensures View(DecodeBeams(cells, size, beams, k), q) == View(cells, q)
  {
    hide View;
    if k == 0 {
    } else {
      DecodedElsewhere(cells, size, beams, k - 1, q);
      ViewAppend(DecodeBeams(cells, size, beams, k - 1), [DecodedCell(size, beams[k - 1])], q);
      ViewOne(DecodedCell(size, beams[k - 1]), q);
    }
  }

  lemma DecodedTold(cells: seq<SharedCell>, base: seq<Cell>, size: nat, beams: seq<Beam>, h: History, k: nat)
    requires Told(cells, base, size, h) && Housed(beams, h, k)
    requires forall b :: b in beams ==> b.tokens != []
    ensures Told(DecodeBeams(cells, size, beams, |beams|), base, size, Recorded(h, beams))
  {
    hide View, DecodeBeams;
    var d, r := DecodeBeams(cells, size, beams, |beams|), Recorded(h, beams);
    forall q: nat | q < |r.held| ensures View(d, q) == base + TokenCells(r.held[q], size) {
      var i := WhoseSequence(beams, h, k, q);
      if i.Some? {
        assert HousedAt(beams[i.value], h, k);
        DecodeKeepsClean(cells, base, size, beams, i.value);
        assert beams[i.value].tokens[..k + 1] == beams[i.value].tokens;
      } else {
        DecodedElsewhere(cells, size, beams, |beams|, q);
      }
    }
  }

  /** Decoding the last tokens keeps everything tidy: every beam's sequence now holds all of them. */
  lemma DecodedTidy(cells: seq<SharedCell>, base: seq<Cell>, size: nat, n: nat, beams: seq<Beam>, h: History, k: nat)
    requires Tidy(cells, base, size, n, h, k) && Housed(beams, h, k)
    ensures forall b :: b in beams ==> b.tokens != []
    ensures Tidy(DecodeBeams(cells, size, beams, |beams|), base, size, n, Recorded(h, beams), k + 1)
    ensures forall i: nat :: i < |beams| ==> beams[i].id < n && Recorded(h, beams).held[beams[i].id] == beams[i].tokens
  {
    hide Traced, Rooted, Short, Told, DecodeBeams, Recorded;
    TracedLength(cells, h);
    DecodedTraced(cells, size, beams, h, k);
    DecodedRooted(beams, h, k);
    DecodedShort(cells, size, beams, h, k);
    DecodedTold(cells, base, size, beams, h, k);
    forall i: nat | i < |beams|
      ensures beams[i].id < n && Recorded(h, beams).held[beams[i].id] == beams[i].tokens
    {
      assert HousedAt(beams[i], h, k);
      var j := WhoseSequence(beams, h, k, beams[i].id);
      assert beams[i] in beams;
    }
  }

  // ---------- Moving ----------

  /** A sequence has nothing of its own beside another exactly if what it holds is a beginning
      of what the other holds. */
  lemma WithinIff(cells: seq<SharedCell>, h: History, to: nat, from: nat)
    requires Traced(cells, h) && Rooted(h) && to < |h.held| && from < |h.held|
    ensures Within(cells, to, from) <==> h.held[to] <= h.held[from]
  {
    if h.held[to] <= h.held[from] {
      forall c | c in cells && to in c.ids ensures from in c.ids {
        var x :| 0 <= x < |cells| && cells[x] == c;
        assert TracedAt(cells, h, x, to) && TracedAt(cells, h, x, from);
        PrefixOfPrefix(h.paths[x], h.held[to], h.held[from]);
      }
    } else {
      var x :| 0 <= x < |h.paths| && h.paths[x] == h.held[to];
      assert TracedAt(cells, h, x, to) && TracedAt(cells, h, x, from);
      assert cells[x] in cells;
    }
  }

  lemma PrefixOfPrefix(a: seq<int>, b: seq<int>, c: seq<int>)
    requires a <= b <= c
    ensures a <= c
  {
    assert c[..|a|] == b[..|a|];
  }

  /** The ids of the children, how many of them there can be, and that n sequences are known. */
  ghost predicate Movable(ids: seq<nat>, n: nat, h: History) {
    |ids| <= n == |h.held| && forall i :: 0 <= i < |ids| ==> ids[i] < n
  }

  function Now(ids: seq<nat>, n: nat): (now: seq<nat>)
    requires |ids| <= n && forall i :: 0 <= i < |ids| ==> ids[i] < n
    ensures |now| == |ids| && (forall i :: 0 <= i < |now| ==> now[i] < n)
    ensures Reassign(ids, n, |ids|) == Some(now)
    ensures forall i, j :: 0 <= i < j < |now| ==> now[i] != now[j]
    ensures forall i :: 0 <= i < |ids| ==> now[i] == ids[i] || now[i] !in ids
  {
    ReassignIsRight(ids, n);
    Reassign(ids, n, |ids|).value
  }

  function Moved(cells: seq<SharedCell>, ids: seq<nat>, n: nat, end: int): (r: seq<SharedCell>)
    requires |ids| <= n && forall i :: 0 <= i < |ids| ==> ids[i] < n
    ensures |r| == |cells|
  {
    CopyFirst(cells, ids, n, seq(|ids|, _ => end), |ids|)
  }

  /** Child i keeps its sequence, or moves to one that holds a beginning of what its own holds. */
  ghost predicate Suits(ids: seq<nat>, n: nat, h: History, i: nat)
    requires Movable(ids, n, h) && i < |ids|
  {
    Now(ids, n)[i] == ids[i] || h.held[Now(ids, n)[i]] <= h.held[ids[i]]
  }

  /** A moved child sees exactly what its parent's sequence held if and only if the move suits. */
  lemma MovedSeesIff(cells: seq<SharedCell>, base: seq<Cell>, size: nat, n: nat, h: History, k: nat, ids: seq<nat>,
                     i: nat)
    requires Tidy(cells, base, size, n, h, k) && Movable(ids, n, h) && i < |ids|
    ensures View(Moved(cells, ids, n, size + k), Now(ids, n)[i]) == base + TokenCells(h.held[ids[i]], size)
            <==> Suits(ids, n, h, i)
  {
    hide View, Traced, Rooted, CopyFirst, TokenCells;
    var ps := seq(|ids|, _ => size + k);
    WithinIff(cells, h, Now(ids, n)[i], ids[i]);
    if Now(ids, n)[i] == ids[i] {
      KeptChildSees(cells, ids, n, ps, i);
    } else {
      MovedChildSees(cells, ids, n, ps, i);
    }
  }

  /** What the sequences hold after the first m children have moved. */
  function HeldAfter(held: seq<seq<int>>, ids: seq<nat>, now: seq<nat>, m: nat): (r: seq<seq<int>>)
    requires m <= |ids| == |now| && forall i :: 0 <= i < |ids| ==> ids[i] < |held| && now[i] < |held|
    ensures |r| == |held|
  {
    if m == 0 then held else HeldAfter(held, ids, now, m - 1)[now[m - 1] := held[ids[m - 1]]]
  }

  lemma {:induction false} HeldAfterAt(held: seq<seq<int>>, ids: seq<nat>, now: seq<nat>, m: nat, q: nat)
    requires m <= |ids| == |now| && (forall i :: 0 <= i < |ids| ==> ids[i] < |held| && now[i] < |held|)
    requires (forall i, j :: 0 <= i < j < |now| ==> now[i] != now[j]) && q < |held|
    ensures forall i :: 0 <= i < m && now[i] == q ==> HeldAfter(held, ids, now, m)[q] == held[ids[i]]
    ensures q !in now[..m] ==> HeldAfter(held, ids, now, m)[q] == held[q]
  {
    if m == 0 {
    } else {
      HeldAfterAt(held, ids, now, m - 1, q);
      assert now[..m] == now[..m - 1] + [now[m - 1]];
    }
  }

  ghost function AfterMoves(h: History, ids: seq<nat>, n: nat): (r: History)
    requires Movable(ids, n, h)
    ensures |r.held| == n && r.paths == h.paths
  {
    h.(held := HeldAfter(h.held, ids, Now(ids, n), |ids|))
  }

  /** Child i, if there is one, ends up in sequence q. */
  lemma WhoEndsIn(h: History, ids: seq<nat>, n: nat, q: nat) returns (i: Option<nat>)
    requires Movable(ids, n, h) && q < n
    ensures i.Some? ==>
              && i.value < |ids| && Now(ids, n)[i.value] == q
              && AfterMoves(h, ids, n).held[q] == h.held[ids[i.value]]
    ensures i.None? ==> q !in Now(ids, n) && AfterMoves(h, ids, n).held[q] == h.held[q]
  {
    var now := Now(ids, n);
    HeldAfterAt(h.held, ids, now, |ids|, q);
    assert now[..|ids|] == now;
    if j: nat :| j < |ids| && now[j] == q {
      i := Some(j);
    } else {
      i := None;
    }
  }

  /** A sequence that no child has moved to has the cells it had. */
  lemma UnmovedMembers(cells: seq<SharedCell>, ids: seq<nat>, n: nat, end: int, x: nat, q: nat)
    requires |ids| <= n && (forall i :: 0 <= i < |ids| ==> ids[i] < n) && x < |cells|
    requires forall i :: 0 <= i < |ids| && Now(ids, n)[i] == q ==> Now(ids, n)[i] == ids[i]
    ensures Moved(cells, ids, n, end)[x].cell == cells[x].cell
    ensures q in Moved(cells, ids, n, end)[x].ids <==> q in cells[x].ids
  {
    hide CopyFirst;
    CopyFirstMoves(cells, ids, n, seq(|ids|, _ => end), |ids|, x);
  }

  lemma MovedTracedAt(cells: seq<SharedCell>, size: nat, n: nat, h: History, k: nat, ids: seq<nat>, x: nat, q: nat)
    requires Traced(cells, h) && Short(cells, size, h, k) && Movable(ids, n, h) && x < |cells| && q < n
    requires forall i: nat :: i < |ids| ==> Suits(ids, n, h, i)
    ensures TracedAt(Moved(cells, ids, n, size + k), AfterMoves(h, ids, n), x, q)
  {
    hide CopyFirst, AfterMoves, Now, Short;
    assert TracedAt(cells, h, x, q);
    var i := WhoEndsIn(h, ids, n, q);
    if i.None? || ids[i.value] == q {
      UnmovedMembers(cells, ids, n, size + k, x, q);
    } else {
      assert TracedAt(cells, h, x, ids[i.value]) && Suits(ids, n, h, i.value);
      MovedMembers(cells, ids, n, seq(|ids|, _ => size + k), i.value, x);
      CellBelow(cells, size, h, k, x);
      EitherPrefix(h.paths[x], h.held[q], h.held[ids[i.value]]);
    }
  }

  lemma CellBelow(cells: seq<SharedCell>, size: nat, h: History, k: nat, x: nat)
    requires Short(cells, size, h, k) && x < |cells|
    ensures 0 <= cells[x].cell.pos < size + k
  {
    assert cells[x] in cells;
  }

  lemma EitherPrefix(p: seq<int>, a: seq<int>, b: seq<int>)
    requires a <= b
    ensures p <= a || p <= b <==> p <= b
  {
    if p <= a {
      PrefixOfPrefix(p, a, b);
    }
  }

  lemma MovedTold(cells: seq<SharedCell>, base: seq<Cell>, size: nat, n: nat, h: History, k: nat, ids: seq<nat>, q: nat)
    requires Tidy(cells, base, size, n, h, k) && Movable(ids, n, h) && q < n
    requires forall i: nat :: i < |ids| ==> Suits(ids, n, h, i)
    ensures View(Moved(cells, ids, n, size + k), q) == base + TokenCells(AfterMoves(h, ids, n).held[q], size)
  {
    hide CopyFirst, AfterMoves, Now, View, Moved;
    var i := WhoEndsIn(h, ids, n, q);
    if i.Some? {
      assert Suits(ids, n, h, i.value);
      MovedSeesIff(cells, base, size, n, h, k, ids, i.value);
    } else {
      var moved := Moved(cells, ids, n, size + k);
      forall x: nat | x < |cells| ensures moved[x].cell == cells[x].cell && (q in moved[x].ids <==> q in cells[x].ids) {
        UnmovedMembers(cells, ids, n, size + k, x, q);
      }
      SameView(moved, cells, q, q);
    }
  }

  /** Moves that suit keep everything tidy. */
  lemma MovedTidy(cells: seq<SharedCell>, base: seq<Cell>, size: nat, n: nat, h: History, k: nat, ids: seq<nat>)
    requires Tidy(cells, base, size, n, h, k) && Movable(ids, n, h)
    requires forall i: nat :: i < |ids| ==> Suits(ids, n, h, i)
    ensures Tidy(Moved(cells, ids, n, size + k), base, size, n, AfterMoves(h, ids, n), k)
    ensures forall i: nat :: i < |ids| ==> AfterMoves(h, ids, n).held[Now(ids, n)[i]] == h.held[ids[i]]
  {
    hide CopyFirst, AfterMoves, Now, View, Moved, TracedAt, HeldAfter;
    var moved, r := Moved(cells, ids, n, size + k), AfterMoves(h, ids, n);
    forall x: nat, q: nat | x < |moved| && q < n ensures TracedAt(moved, r, x, q) {
      MovedTracedAt(cells, size, n, h, k, ids, x, q);
    }
    forall q: nat | q < n
      ensures View(moved, q) == base + TokenCells(r.held[q], size) && |r.held[q]| <= k
      ensures r.held[q] != [] ==> r.held[q] in r.paths
    {
      MovedTold(cells, base, size, n, h, k, ids, q);
      var i := WhoEndsIn(h, ids, n, q);
    }
    forall x: nat | x < |moved| ensures 0 <= moved[x].cell.pos < size + k {
      CellBelow(cells, size, h, k, x);
      SameCell(cells, ids, n, size + k, x);
    }
    forall i: nat | i < |ids| ensures r.held[Now(ids, n)[i]] == h.held[ids[i]] {
      var j := WhoEndsIn(h, ids, n, Now(ids, n)[i]);
    }
  }

  lemma SameCell(cells: seq<SharedCell>, ids: seq<nat>, n: nat, end: int, x: nat)
    requires |ids| <= n && (forall i :: 0 <= i < |ids| ==> ids[i] < n) && x < |cells|
    ensures Moved(cells, ids, n, end)[x].cell == cells[x].cell
  {
    CopyFirstMoves(cells, ids, n, seq(|ids|, _ => end), |ids|, x);
  }
}
