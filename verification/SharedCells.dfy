/** The cells of the key-value cache and the sequences they belong to.  Copying a sequence onto
    another adds cells to it and takes none away. */
module SharedCells {
  import opened PromptCache

  /** One cell of the cache, shared by the sequences in ids. */
  datatype SharedCell = SharedCell(cell: Cell, ids: set<nat>)

  /** What sequence q sees. */
  function View(cells: seq<SharedCell>, q: nat): (r: seq<Cell>)
    ensures |r| <= |cells|
  {
    if cells == [] then []
    else SeenBy(cells[0], q) + View(cells[1..], q)
  }

  function SeenBy(c: SharedCell, q: nat): (r: seq<Cell>)
    ensures |r| <= 1
  {
    if q in c.ids then [c.cell] else []
  }

  /** Sequence `to` gets the cells of `from` before position p. */
  function Copy(cells: seq<SharedCell>, from: nat, to: nat, p: int): (r: seq<SharedCell>)
    ensures |r| == |cells|
    ensures forall i :: 0 <= i < |cells| ==> r[i] == CopyCell(cells[i], from, to, p)
  {
    seq(|cells|, i requires 0 <= i < |cells| => CopyCell(cells[i], from, to, p))
  }

  function CopyCell(c: SharedCell, from: nat, to: nat, p: int): SharedCell {
    if from in c.ids && 0 <= c.cell.pos < p then c.(ids := c.ids + {to}) else c
  }

  lemma {:induction false} ViewAppend(a: seq<SharedCell>, b: seq<SharedCell>, q: nat)
    ensures View(a + b, q) == View(a, q) + View(b, q)
  {
    if a == [] {
      assert a + b == b;
    } else {
      hide SeenBy;
      assert (a + b)[1..] == a[1..] + b && (a + b)[0] == a[0];
      ViewAppend(a[1..], b, q);
    }
  }

  /** Every cell of q is also one of r. */
  ghost predicate Within(cells: seq<SharedCell>, q: nat, r: nat) {
    forall c :: c in cells && q in c.ids ==> r in c.ids
  }

  ghost predicate Below(cells: seq<SharedCell>, q: nat, p: int) {
    forall c :: c in cells && q in c.ids ==> 0 <= c.cell.pos < p
  }

  /** After copying, the target sees what the source sees if and only if all it had before was
      the source's as well; otherwise it sees more. */
  lemma {:induction false} CopyExact(cells: seq<SharedCell>, from: nat, to: nat, p: int)
    requires from != to && Below(cells, from, p)
    ensures View(Copy(cells, from, to, p), to) == View(cells, from) <==> Within(cells, to, from)
    ensures |View(Copy(cells, from, to, p), to)| >= |View(cells, from)|
    ensures !Within(cells, to, from) ==> |View(Copy(cells, from, to, p), to)| > |View(cells, from)|
  {
    if cells == [] {
    } else {
      assert Copy(cells, from, to, p)[1..] == Copy(cells[1..], from, to, p);
      assert forall c :: c in cells <==> c == cells[0] || c in cells[1..];
      CopyExact(cells[1..], from, to, p);
    }
  }

  lemma ViewOne(c: SharedCell, q: nat)
    ensures View([c], q) == SeenBy(c, q)
  {
    assert [c][1..] == [];
  }

  /** Two rows of cells in which q and r have the same part. */
  ghost predicate SameSeen(a: seq<SharedCell>, b: seq<SharedCell>, q: nat, r: nat) {
    |a| == |b| && forall x :: 0 <= x < |a| ==> a[x].cell == b[x].cell && (q in a[x].ids <==> r in b[x].ids)
  }

  lemma {:induction false} SameView(a: seq<SharedCell>, b: seq<SharedCell>, q: nat, r: nat)
    requires SameSeen(a, b, q, r)
    ensures View(a, q) == View(b, r)
  {
    if a == [] {
    } else {
      assert SameSeen(a[1..], b[1..], q, r) by {
        forall x | 0 <= x < |a| - 1
          ensures a[1..][x].cell == b[1..][x].cell && (q in a[1..][x].ids <==> r in b[1..][x].ids) {}
      }
      SameView(a[1..], b[1..], q, r);
    }
  }

  // ---------- Removing ----------

  /** The cell without sequence q, if it lies at position p or later. */
  function RmCell(c: SharedCell, q: nat, p: int): SharedCell {
    if q in c.ids && c.cell.pos >= p then c.(ids := c.ids - {q}) else c
  }

  /** Sequence q without its cells from position p on; a cell that belongs to nobody is free. */
  function RmSeq(cells: seq<SharedCell>, q: nat, p: int): seq<SharedCell> {
    if cells == [] then []
    else
      var c := RmCell(cells[0], q, p);
      (if c.ids == {} then [] else [c]) + RmSeq(cells[1..], q, p)
  }

  lemma NothingRemoved(cells: seq<SharedCell>, q: nat, p: int)
    ensures cells[0..] == cells && RmSeq(cells[|cells|..], q, p) == []
  {
  }

  /** Removing from position i of the row on. */
  lemma RmSeqFrom(cells: seq<SharedCell>, q: nat, p: int, i: nat)
    requires i < |cells|
    ensures var c := RmCell(cells[i], q, p);
            RmSeq(cells[i..], q, p) == (if c.ids == {} then [] else [c]) + RmSeq(cells[i + 1..], q, p)
  {
    assert cells[i..][0] == cells[i] && cells[i..][1..] == cells[i + 1..];
  }

  lemma {:induction false} RmSeqView(cells: seq<SharedCell>, q: nat, p: int)
    ensures View(RmSeq(cells, q, p), q) == Rm(View(cells, q), p)
  {
    if cells == [] {
    } else {
      var c := RmCell(cells[0], q, p);
      var first := if c.ids == {} then [] else [c];
      RmSeqView(cells[1..], q, p);
      ViewAppend(first, RmSeq(cells[1..], q, p), q);
      ViewOne(c, q);
      RmAppend(SeenBy(cells[0], q), View(cells[1..], q), p);
    }
  }

  lemma {:induction false} RmSeqOthers(cells: seq<SharedCell>, q: nat, p: int, r: nat)
    requires r != q
    ensures View(RmSeq(cells, q, p), r) == View(cells, r)
  {
    if cells == [] {
    } else {
      var c := RmCell(cells[0], q, p);
      var first := if c.ids == {} then [] else [c];
      RmSeqOthers(cells[1..], q, p, r);
      ViewAppend(first, RmSeq(cells[1..], q, p), r);
      ViewOne(c, r);
    }
  }

  /** Every cell belongs to somebody. */
  ghost predicate Occupied(cells: seq<SharedCell>) {
    forall c :: c in cells ==> c.ids != {} && c.cell.pos >= 0
  }

  lemma {:induction false} RmSeqOccupied(cells: seq<SharedCell>, q: nat, p: int)
    requires Occupied(cells)
    ensures Occupied(RmSeq(cells, q, p))
  {
    if cells == [] {
    } else {
      assert cells[0] in cells;
      RmSeqOccupied(cells[1..], q, p);
    }
  }

  // ---------- One sequence by itself ----------

  /** The cells of sequence q alone. */
  function Own(cells: seq<Cell>, q: nat): (r: seq<SharedCell>)
    ensures |r| == |cells|
  {
    seq(|cells|, i requires 0 <= i < |cells| => SharedCell(cells[i], {q}))
  }

  lemma {:induction false} OwnView(cells: seq<Cell>, q: nat, r: nat)
    ensures View(Own(cells, q), r) == if r == q then cells else []
  {
    if cells == [] {
    } else {
      assert Own(cells, q)[1..] == Own(cells[1..], q);
      OwnView(cells[1..], q, r);
    }
  }

  /** Only sequence 0 has changed. */
  ghost predicate Untouched(before: seq<SharedCell>, after: seq<SharedCell>) {
    forall q: nat :: q != 0 ==> View(after, q) == View(before, q)
  }

  /** No sequence but 0 holds anything. */
  ghost predicate Alone(cells: seq<SharedCell>) {
    forall q: nat :: q != 0 ==> View(cells, q) == []
  }

  lemma {:induction false} NotSeen(cells: seq<SharedCell>, q: nat, c: SharedCell)
    requires View(cells, q) == [] && c in cells
    ensures q !in c.ids
  {
    if c != cells[0] {
      NotSeen(cells[1..], q, c);
    }
  }

  lemma {:induction false} SeenNowhere(cells: seq<SharedCell>, q: nat)
    requires forall c :: c in cells ==> q !in c.ids
    ensures View(cells, q) == []
  {
    if cells == [] {
    } else {
      SeenNowhere(cells[1..], q);
    }
  }
}
