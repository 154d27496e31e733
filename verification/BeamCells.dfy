/** What the sequences of beam search see while beams are decoded and move to sequences of their own. */
module BeamCells {
  import opened BeamIds
  import opened PromptCache
  import opened SharedCells
  import opened Wrappers

  /** A beam: what it has chosen so far and the sequence it lives in. */
  datatype Beam = Beam(score: real, tokens: seq<int>, id: nat)

  /** The cell of a beam's last token. */
  function LastCell(size: nat, b: Beam): Cell
    requires b.tokens != []
  {
    Cell(size + |b.tokens| - 1, Token(b.tokens[|b.tokens| - 1]))
  }

  /** The sequence of a beam holds the prompt and the first k of the beam's tokens. */
  ghost predicate Clean(cells: seq<SharedCell>, base: seq<Cell>, size: nat, b: Beam, k: nat) {
    k <= |b.tokens| && View(cells, b.id) == base + TokenCells(b.tokens[..k], size)
  }

  function DecodedCell(size: nat, b: Beam): SharedCell
    requires b.tokens != []
  {
    SharedCell(LastCell(size, b), {b.id})
  }

  /** The last tokens of the first k beams decoded, each in its own sequence. */
  function DecodeBeams(cells: seq<SharedCell>, size: nat, beams: seq<Beam>, k: nat): seq<SharedCell>
    requires k <= |beams| && forall b :: b in beams ==> b.tokens != []
  {
    if k == 0 then cells else DecodeBeams(cells, size, beams, k - 1) + [DecodedCell(size, beams[k - 1])]
  }

  ghost predicate DistinctIds(beams: seq<Beam>) {
    forall i, j :: 0 <= i < j < |beams| ==> beams[i].id != beams[j].id
  }

  lemma {:induction false} DecodedView(cells: seq<SharedCell>, size: nat, beams: seq<Beam>, k: nat, i: nat)
    requires k <= |beams| && i < |beams| && (forall b :: b in beams ==> b.tokens != []) && DistinctIds(beams)
    ensures View(DecodeBeams(cells, size, beams, k), beams[i].id) ==
            View(cells, beams[i].id) + if i < k then [LastCell(size, beams[i])] else []
  {
    hide View;
    if k == 0 {
    } else {
      DecodedView(cells, size, beams, k - 1, i);
      ViewAppend(DecodeBeams(cells, size, beams, k - 1), [DecodedCell(size, beams[k - 1])], beams[i].id);
      ViewOne(DecodedCell(size, beams[k - 1]), beams[i].id);
      assert i != k - 1 ==> beams[i].id != beams[k - 1].id;
    }
  }

  /** Decoding takes a beam whose sequence lacks only its last token to one that lacks none. */
  lemma DecodeKeepsClean(cells: seq<SharedCell>, base: seq<Cell>, size: nat, beams: seq<Beam>, i: nat)
    requires i < |beams| && (forall b :: b in beams ==> b.tokens != []) && DistinctIds(beams)
    requires Clean(cells, base, size, beams[i], |beams[i].tokens| - 1)
    ensures Clean(DecodeBeams(cells, size, beams, |beams|), base, size, beams[i], |beams[i].tokens|)
  {
    DecodedView(cells, size, beams, |beams|, i);
    var ts := beams[i].tokens;
    assert ts[..|ts|] == ts[..|ts| - 1] + [ts[|ts| - 1]];
    assert TokenCells(ts[..|ts|], size) == TokenCells(ts[..|ts| - 1], size) + [LastCell(size, beams[i])];
  }

  // ---------- Moving children to sequences of their own ----------

  /** The cells after the first k children have been moved where `Reassign` puts them. */
  function CopyFirst(cells: seq<SharedCell>, ids: seq<nat>, n: nat, ps: seq<int>, k: nat): (r: seq<SharedCell>)
    requires |ids| <= n && |ps| == |ids| && k <= |ids| && forall i :: 0 <= i < |ids| ==> ids[i] < n
    ensures |r| == |cells|
  {
    if k == 0 then cells
    else
      ReassignKeeps(ids, n, k - 1);
      ReassignKeeps(ids, n, k);
      var from, to := Reassign(ids, n, k - 1).value[k - 1], Reassign(ids, n, k).value[k - 1];
      var before := CopyFirst(cells, ids, n, ps, k - 1);
      if from == to then before else Copy(before, from, to, ps[k - 1])
  }

  /** Sequence q gained the cell from child j. */
  ghost predicate Gained(c: SharedCell, ids: seq<nat>, now: seq<nat>, ps: seq<int>, j: nat, q: nat) {
    j < |ids| && j < |now| && j < |ps| && now[j] != ids[j] && now[j] == q && ids[j] in c.ids && 0 <= c.cell.pos < ps[j]
  }

  ghost predicate CellMoved(c: SharedCell, d: SharedCell, ids: seq<nat>, now: seq<nat>, ps: seq<int>, k: nat) {
    && d.cell == c.cell
    && forall q: nat :: q in d.ids <==> q in c.ids || Gains(c, ids, now, ps, k, q)
  }

  ghost predicate Gains(c: SharedCell, ids: seq<nat>, now: seq<nat>, ps: seq<int>, k: nat, q: nat) {
    exists j :: 0 <= j < k && Gained(c, ids, now, ps, j, q)
  }

  lemma {:induction false} CopyFirstMoves(cells: seq<SharedCell>, ids: seq<nat>, n: nat, ps: seq<int>, k: nat, x: nat)
    requires |ids| <= n && |ps| == |ids| && k <= |ids| && (forall i :: 0 <= i < |ids| ==> ids[i] < n) && x < |cells|
    ensures Reassign(ids, n, k).Some? &&
            CellMoved(cells[x], CopyFirst(cells, ids, n, ps, k)[x], ids, Reassign(ids, n, k).value, ps, k)
  {
    ReassignKeeps(ids, n, k);
    if k == 0 {
    } else {
      ReassignKeeps(ids, n, k - 1);
      CopyFirstMoves(cells, ids, n, ps, k - 1, x);
      MoveOne(cells[x], CopyFirst(cells, ids, n, ps, k - 1)[x], ids, n, ps, k);
    }
  }

  lemma MoveOne(c: SharedCell, d: SharedCell, ids: seq<nat>, n: nat, ps: seq<int>, k: nat)
    requires |ids| <= n && |ps| == |ids| && 0 < k <= |ids| && (forall i :: 0 <= i < |ids| ==> ids[i] < n)
    requires Reassign(ids, n, k - 1).Some? && Reassign(ids, n, k).Some?
    requires CellMoved(c, d, ids, Reassign(ids, n, k - 1).value, ps, k - 1)
    ensures var from, to := Reassign(ids, n, k - 1).value[k - 1], Reassign(ids, n, k).value[k - 1];
            CellMoved(c, if from == to then d
                      else CopyCell(d, from, to, ps[k - 1]), ids, Reassign(ids, n, k).value, ps, k)
  {
    hide Gains, Gained, Reassign, CellMoved;
    var now, now' := Reassign(ids, n, k - 1).value, Reassign(ids, n, k).value;
    NextIds(ids, n, k);
    MoveCell(c, d, ids, now, now', ps, k - 1);
  }

  lemma NextIds(ids: seq<nat>, n: nat, k: nat)
    requires |ids| <= n && 0 < k <= |ids| && (forall i :: 0 <= i < |ids| ==> ids[i] < n)
    requires Reassign(ids, n, k - 1).Some? && Reassign(ids, n, k).Some?
    ensures var now, now' := Reassign(ids, n, k - 1).value, Reassign(ids, n, k).value;
            && now[k - 1] == ids[k - 1] && (forall j :: 0 <= j < k - 1 ==> now'[j] == now[j])
            && forall j :: 0 <= j < k - 1 ==> now[j] == ids[j] || now[j] !in ids
  {
    ReassignKeeps(ids, n, k - 1);
  }

  lemma MoveCell(c: SharedCell, d: SharedCell, ids: seq<nat>, now: seq<nat>, now': seq<nat>, ps: seq<int>, m: nat)
    requires m < |ids| == |now| == |now'| == |ps| && (forall j :: 0 <= j < m ==> now'[j] == now[j])
    requires forall j :: 0 <= j < m ==> now[j] == ids[j] || now[j] !in ids
    requires CellMoved(c, d, ids, now, ps, m)
    ensures CellMoved(c, if ids[m] == now'[m] then d else CopyCell(d, ids[m], now'[m], ps[m]), ids, now', ps, m + 1)
  {
    hide Gains, Gained;
    var from, to := ids[m], now'[m];
    var e := if from == to then d else CopyCell(d, from, to, ps[m]);
    GainedMore(c, ids, now, now', ps, m, from);
    forall q: nat ensures q in e.ids <==> q in c.ids || Gains(c, ids, now', ps, m + 1, q) {
      GainedMore(c, ids, now, now', ps, m, q);
    }
  }

  /** What a sequence gains from the first m + 1 children: what it gains from the first m, and
      what child m brings.  Nobody gains what was some child's own. */
  lemma GainedMore(c: SharedCell, ids: seq<nat>, now: seq<nat>, now': seq<nat>, ps: seq<int>, m: nat, q: nat)
    requires m < |ids| == |now| == |now'| == |ps| && (forall j :: 0 <= j < m ==> now'[j] == now[j])
    requires forall j :: 0 <= j < m ==> now[j] == ids[j] || now[j] !in ids
    ensures Gains(c, ids, now', ps, m + 1, q) <==>
            Gains(c, ids, now, ps, m, q)
              || (now'[m] != ids[m] && now'[m] == q && ids[m] in c.ids && 0 <= c.cell.pos < ps[m])
    ensures q in ids ==> !Gains(c, ids, now, ps, m, q)
  {
    forall j | 0 <= j < m ensures Gained(c, ids, now', ps, j, q) <==> Gained(c, ids, now, ps, j, q) {}
    assert Gained(c, ids, now', ps, m, q) <==>
           (now'[m] != ids[m] && now'[m] == q && ids[m] in c.ids && 0 <= c.cell.pos < ps[m]);
  }

  /** A child that keeps its parent's sequence sees what the parent saw. */
  lemma KeptChildSees(cells: seq<SharedCell>, ids: seq<nat>, n: nat, ps: seq<int>, i: nat)
    requires |ids| <= n && |ps| == |ids| && (forall j :: 0 <= j < |ids| ==> ids[j] < n) && i < |ids|
    requires Reassign(ids, n, |ids|).Some? && Reassign(ids, n, |ids|).value[i] == ids[i]
    ensures View(CopyFirst(cells, ids, n, ps, |ids|), ids[i]) == View(cells, ids[i])
  {
    var now, moved := Reassign(ids, n, |ids|).value, CopyFirst(cells, ids, n, ps, |ids|);
    ReassignIsRight(ids, n);
    assert ids[i] in ids;
    forall x | 0 <= x < |cells|
      ensures moved[x].cell == cells[x].cell && (ids[i] in moved[x].ids <==> ids[i] in cells[x].ids)
    {
      CopyFirstMoves(cells, ids, n, ps, |ids|, x);
    }
    SameView(moved, cells, ids[i], ids[i]);
  }

  lemma MovedMembers(cells: seq<SharedCell>, ids: seq<nat>, n: nat, ps: seq<int>, i: nat, x: nat)
    requires |ids| <= n && |ps| == |ids| && (forall j :: 0 <= j < |ids| ==> ids[j] < n) && i < |ids| && x < |cells|
    requires Reassign(ids, n, |ids|).Some? && Reassign(ids, n, |ids|).value[i] != ids[i]
    ensures var to := Reassign(ids, n, |ids|).value[i];
            var c, d := CopyFirst(cells, ids, n, ps, |ids|)[x], CopyCell(cells[x], ids[i], to, ps[i]);
            c.cell == d.cell && (to in c.ids <==> to in d.ids)
  {
    var now := Reassign(ids, n, |ids|).value;
    ReassignIsRight(ids, n);
    CopyFirstMoves(cells, ids, n, ps, |ids|, x);
    forall j | 0 <= j < |ids| && Gained(cells[x], ids, now, ps, j, now[i]) ensures j == i {}
    assert Gained(cells[x], ids, now, ps, i, now[i]) <==> ids[i] in cells[x].ids && 0 <= cells[x].cell.pos < ps[i];
  }

  /** A child that is moved sees what its parent saw if and only if the sequence it moves to
      held nothing that the parent's did not; what it held otherwise stays in sight. */
  lemma MovedChildSees(cells: seq<SharedCell>, ids: seq<nat>, n: nat, ps: seq<int>, i: nat)
    requires |ids| <= n && |ps| == |ids| && (forall j :: 0 <= j < |ids| ==> ids[j] < n) && i < |ids|
    requires Reassign(ids, n, |ids|).Some? && Reassign(ids, n, |ids|).value[i] != ids[i]
    requires Below(cells, ids[i], ps[i])
    ensures var to := Reassign(ids, n, |ids|).value[i];
            View(CopyFirst(cells, ids, n, ps, |ids|), to) == View(cells, ids[i]) <==> Within(cells, to, ids[i])
  {
    var to := Reassign(ids, n, |ids|).value[i];
    var moved, copied := CopyFirst(cells, ids, n, ps, |ids|), Copy(cells, ids[i], to, ps[i]);
    forall x | 0 <= x < |cells|
      ensures moved[x].cell == copied[x].cell && (to in moved[x].ids <==> to in copied[x].ids)
    {
      MovedMembers(cells, ids, n, ps, i, x);
    }
    SameView(moved, copied, to, to);
    CopyExact(cells, ids[i], to, ps[i]);
  }
}
