/** The free list of the tensor allocator as a value: address-sorted, non-empty, pairwise
    non-adjacent blocks.  Best-fit placement and coalescing release are functions on it;
    `TensorAllocator` implements both in place on an array. */
module FreeList {
  import opened Wrappers

  datatype FreeBlock = FreeBlock(addr: int, size: nat) {
    function End(): int { addr + size }
  }

  datatype Range = Range(addr: int, size: nat)

  ghost predicate WellFormed(b: seq<FreeBlock>) {
    && (forall i :: 0 <= i < |b| ==> b[i].size > 0)
    && (forall i, j :: 0 <= i < j < |b| ==> b[i].End() < b[j].addr)
  }

  /** The byte at address `x` is free. */
  ghost predicate Covers(b: seq<FreeBlock>, x: int) {
    exists i :: 0 <= i < |b| && b[i].addr <= x < b[i].End()
  }

  ghost predicate Within(x: int, addr: int, size: nat) {
    addr <= x < addr + size
  }

  // ---------- A well-formed list is determined by the bytes it covers ----------

  lemma CoversHead(b: seq<FreeBlock>, x: int)
    requires WellFormed(b) && b != []
    ensures Covers(b, x) <==> b[0].addr <= x < b[0].End() || Covers(b[1..], x)
    ensures Covers(b[1..], x) ==> x > b[0].End()
    ensures WellFormed(b[1..])
  {
    if Covers(b[1..], x) {
      var i :| 0 <= i < |b[1..]| && b[1..][i].addr <= x < b[1..][i].End();
      assert b[i + 1] == b[1..][i];
    }
    if Covers(b, x) {
      var i :| 0 <= i < |b| && b[i].addr <= x < b[i].End();
      assert i > 0 ==> b[i] == b[1..][i - 1];
    }
  }

  lemma CoversFirst(b: seq<FreeBlock>)
    requires WellFormed(b) && b != []
    ensures Covers(b, b[0].addr)
  {
    assert b[0].addr <= b[0].addr < b[0].End();
  }

  lemma {:induction false} CanonicalForm(a: seq<FreeBlock>, b: seq<FreeBlock>)
    requires WellFormed(a) && WellFormed(b)
    requires forall x :: Covers(a, x) <==> Covers(b, x)
    ensures a == b
  {
    if a == [] {
      if b != [] { CoversFirst(b); }
    } else if b == [] {
      CoversFirst(a);
    } else {
      FirstBlockEqual(a, b);
      FirstBlockEqual(b, a);
      forall x ensures Covers(a[1..], x) <==> Covers(b[1..], x) {
        CoversHead(a, x);
        CoversHead(b, x);
      }
      CoversHead(a, 0);
      CoversHead(b, 0);
      CanonicalForm(a[1..], b[1..]);
      assert a == [a[0]] + a[1..] && b == [b[0]] + b[1..];
    }
  }

  lemma FirstBlockEqual(a: seq<FreeBlock>, b: seq<FreeBlock>)
    requires WellFormed(a) && WellFormed(b) && a != [] && b != []
    requires forall x :: Covers(a, x) <==> Covers(b, x)
    ensures b[0].addr <= a[0].addr
    ensures a[0].addr == b[0].addr ==> b[0].End() <= a[0].End()
  {
    CoversFirst(a);
    CoversHead(b, a[0].addr);
    if a[0].addr == b[0].addr && a[0].End() < b[0].End() {
      assert Covers(b, a[0].End());
      CoversHead(a, a[0].End());
    }
  }

  // ---------- Best fit ----------

  /** The smallest block among the first `n` that can hold `size` bytes, the later one on a tie. */
  function BestFitUpTo(b: seq<FreeBlock>, size: nat, n: nat): (best: Option<nat>)
    requires n <= |b|
    ensures best.None? ==> forall i :: 0 <= i < n ==> b[i].size < size
    ensures best.Some? ==>
              && best.value < n && size <= b[best.value].size
              && forall i :: 0 <= i < n && size <= b[i].size ==>
                   b[best.value].size <= b[i].size && (best.value < i ==> b[best.value].size < b[i].size)
  {
    if n == 0 then None
    else
      var best := BestFitUpTo(b, size, n - 1);
      if size <= b[n - 1].size && (best.None? || b[n - 1].size <= b[best.value].size)
      then Some(n - 1)
      else best
  }

  /** Block k is large enough, and if any block besides the last is, then k is the smallest of those,
      the last one of equals. */
  ghost predicate Fittest(b: seq<FreeBlock>, size: nat, k: nat) {
    && k < |b| && size <= b[k].size
    && forall i :: 0 <= i < |b| - 1 && size <= b[i].size ==>
         k < |b| - 1 && b[k].size <= b[i].size && (k < i ==> b[k].size < b[i].size)
  }

  /** The block an allocation takes: the best fit besides the last block, and the last
      block only when no other one is large enough. */
  function BestFit(b: seq<FreeBlock>, size: nat): (best: Option<nat>)
    ensures best.None? <==> forall i :: 0 <= i < |b| ==> b[i].size < size
    ensures best.Some? ==> Fittest(b, size, best.value)
  {
    if b == [] then None
    else
      var best := BestFitUpTo(b, size, |b| - 1);
      if best.Some? then best
      else if size <= b[|b| - 1].size then Some(|b| - 1)
      else None
  }

  datatype Placement = Placement(addr: int, rest: seq<FreeBlock>)

  /** Cuts `size` bytes off the front of block `k`; a block cut to nothing disappears. */
  function CutFront(b: seq<FreeBlock>, k: nat, size: nat): seq<FreeBlock>
    requires k < |b| && size <= b[k].size
  {
    if b[k].size == size then b[..k] + b[k + 1..]
    else b[k := FreeBlock(b[k].addr + size, b[k].size - size)]
  }

  function Take(b: seq<FreeBlock>, size: nat): Option<Placement> {
    match BestFit(b, size)
    case None => None
    case Some(k) => Some(Placement(b[k].addr, CutFront(b, k, size)))
  }

  /** There is only one such block, and an allocation takes the front of it; it takes none only if
      no block is large enough. */
  lemma TakesFittest(b: seq<FreeBlock>, size: nat)
    ensures Take(b, size).None? <==> forall i :: 0 <= i < |b| ==> b[i].size < size
    ensures Take(b, size).Some? ==> exists k: nat :: Fittest(b, size, k)
    ensures forall k: nat :: Fittest(b, size, k) ==>
              Take(b, size) == Some(Placement(b[k].addr, CutFront(b, k, size)))
  {
    assert BestFit(b, size).Some? ==> Fittest(b, size, BestFit(b, size).value);
    forall k: nat | Fittest(b, size, k) ensures BestFit(b, size) == Some(k) {
      var j := BestFit(b, size).value;
      assert Fittest(b, size, j);
    }
  }

  lemma CutFrontWellFormed(b: seq<FreeBlock>, k: nat, size: nat)
    requires WellFormed(b) && k < |b| && 0 < size <= b[k].size
    ensures WellFormed(CutFront(b, k, size))
  {
    var c := CutFront(b, k, size);
    if b[k].size == size {
      forall i, j | 0 <= i < j < |c| ensures c[i].End() < c[j].addr {
        assert c[i] == b[if i < k then i else i + 1];
        assert c[j] == b[if j < k then j else j + 1];
      }
    }
  }

  lemma CutFrontCovers(b: seq<FreeBlock>, k: nat, size: nat, x: int)
    requires WellFormed(b) && k < |b| && 0 < size <= b[k].size
    ensures Covers(CutFront(b, k, size), x) <==> Covers(b, x) && !Within(x, b[k].addr, size)
  {
    if Covers(CutFront(b, k, size), x) { CutFrontCoversOnly(b, k, size, x); }
    if Covers(b, x) && !Within(x, b[k].addr, size) { CutFrontCoversAll(b, k, size, x); }
  }

  lemma CutFrontCoversOnly(b: seq<FreeBlock>, k: nat, size: nat, x: int)
    requires WellFormed(b) && k < |b| && 0 < size <= b[k].size && Covers(CutFront(b, k, size), x)
    ensures Covers(b, x) && !Within(x, b[k].addr, size)
  {
    var c := CutFront(b, k, size);
    var i :| 0 <= i < |c| && c[i].addr <= x < c[i].End();
    var i' := if b[k].size == size && k <= i then i + 1 else i;
    assert i' != k ==> c[i] == b[i'];
    assert i' == k ==> c[i] == FreeBlock(b[k].addr + size, b[k].size - size);
    assert b[i'].addr <= x < b[i'].End();
    assert (i' < k ==> b[i'].End() < b[k].addr) && (k < i' ==> b[k].End() < b[i'].addr);
  }

  lemma CutFrontCoversAll(b: seq<FreeBlock>, k: nat, size: nat, x: int)
    requires WellFormed(b) && k < |b| && 0 < size <= b[k].size
    requires Covers(b, x) && !Within(x, b[k].addr, size)
    ensures Covers(CutFront(b, k, size), x)
  {
    var c := CutFront(b, k, size);
    var i :| 0 <= i < |b| && b[i].addr <= x < b[i].End();
    var i' := if b[k].size == size && k < i then i - 1 else i;
    assert c[i'].addr <= x < c[i'].End();
  }

  /** Allocation takes a range that was free, frees nothing, and keeps the list well formed. */
  lemma TakeCovers(b: seq<FreeBlock>, size: nat)
    requires WellFormed(b) && size > 0 && Take(b, size).Some?
    ensures var p := Take(b, size).value;
            && WellFormed(p.rest)
            && (forall x :: Within(x, p.addr, size) ==> Covers(b, x))
            && (forall x :: Covers(p.rest, x) <==> Covers(b, x) && !Within(x, p.addr, size))
  {
    var k := BestFit(b, size).value;
    CutFrontWellFormed(b, k, size);
    forall x ensures Covers(CutFront(b, k, size), x) <==> Covers(b, x) && !Within(x, b[k].addr, size) {
      CutFrontCovers(b, k, size, x);
    }
  }

  // ---------- Release ----------

  /** Gives `[addr, addr + size)` back, merging it with the blocks it touches. */
  function Release(b: seq<FreeBlock>, addr: int, size: nat): seq<FreeBlock> {
    if b == [] || addr + size < b[0].addr then
      [FreeBlock(addr, size)] + b
    else if addr + size == b[0].addr then
      [FreeBlock(addr, size + b[0].size)] + b[1..]
    else if b[0].End() == addr then
      if |b| > 1 && addr + size == b[1].addr
      then [FreeBlock(b[0].addr, b[0].size + size + b[1].size)] + b[2..]
      else [FreeBlock(b[0].addr, b[0].size + size)] + b[1..]
    else
      [b[0]] + Release(b[1..], addr, size)
  }

  /** None of the bytes of the range is free. */
  ghost predicate Apart(b: seq<FreeBlock>, addr: int, size: nat) {
    forall x :: Within(x, addr, size) ==> !Covers(b, x)
  }

  lemma PrependWellFormed(h: FreeBlock, t: seq<FreeBlock>)
    requires h.size > 0 && WellFormed(t)
    requires t != [] ==> h.End() < t[0].addr
    ensures WellFormed([h] + t)
  {
    var b := [h] + t;
    forall i, j | 0 <= i < j < |b| ensures b[i].End() < b[j].addr {
      assert b[j] == t[j - 1];
      if i == 0 {
        assert j > 1 ==> t[0].End() < t[j - 1].addr;
      } else {
        assert b[i] == t[i - 1];
      }
    }
  }

  lemma CoversPrepend(h: FreeBlock, t: seq<FreeBlock>, x: int)
    requires WellFormed([h] + t)
    ensures Covers([h] + t, x) <==> h.addr <= x < h.End() || Covers(t, x)
  {
    CoversHead([h] + t, x);
    assert ([h] + t)[1..] == t;
  }

  lemma ApartTail(b: seq<FreeBlock>, addr: int, size: nat)
    requires WellFormed(b) && b != [] && Apart(b, addr, size) && size > 0
    ensures WellFormed(b[1..]) && Apart(b[1..], addr, size)
    ensures addr + size <= b[0].addr || b[0].End() <= addr
    ensures |b| > 1 ==> addr + size <= b[1].addr || b[1].End() <= addr
  {
    CoversHead(b, 0);
    forall x | Within(x, addr, size) ensures !Covers(b[1..], x) {
      CoversHead(b, x);
    }
    BlockApart(b, 0, addr, size);
    if |b| > 1 { BlockApart(b, 1, addr, size); }
  }

  lemma BlockApart(b: seq<FreeBlock>, i: nat, addr: int, size: nat)
    requires i < |b| && Apart(b, addr, size) && size > 0 && b[i].size > 0
    ensures addr + size <= b[i].addr || b[i].End() <= addr
  {
    var x := if addr < b[i].addr then b[i].addr else addr;
    if addr + size > b[i].addr && b[i].End() > addr {
      assert b[i].addr <= x < b[i].End();
      assert Within(x, addr, size) && Covers(b, x);
    }
  }

  /** Release frees exactly the given range and keeps the list well formed. */
  lemma {:induction false} ReleaseCovers(b: seq<FreeBlock>, addr: int, size: nat)
    requires WellFormed(b) && size > 0 && Apart(b, addr, size)
    ensures WellFormed(Release(b, addr, size))
    ensures forall x :: Covers(Release(b, addr, size), x) <==> Covers(b, x) || Within(x, addr, size)
    decreases |b|, 1
  {
    var r := Release(b, addr, size);
    if b == [] || addr + size < b[0].addr {
      PrependWellFormed(FreeBlock(addr, size), b);
      forall x ensures Covers(r, x) <==> Covers(b, x) || Within(x, addr, size) {
        CoversPrepend(FreeBlock(addr, size), b, x);
      }
    } else {
      ApartTail(b, addr, size);
      if addr + size == b[0].addr {
        ReleaseReplaceHead(b, FreeBlock(addr, size + b[0].size), addr, size);
      } else if b[0].End() == addr {
        if |b| > 1 && addr + size == b[1].addr {
          ReleaseJoin(b, addr, size);
        } else {
          ReleaseReplaceHead(b, FreeBlock(b[0].addr, b[0].size + size), addr, size);
        }
      } else {
        ReleaseFurther(b, addr, size);
      }
    }
  }

  lemma ReleaseReplaceHead(b: seq<FreeBlock>, h: FreeBlock, addr: int, size: nat)
    requires WellFormed(b) && b != [] && size > 0
    requires || (addr + size == b[0].addr && h == FreeBlock(addr, size + b[0].size))
             || (b[0].End() == addr && h == FreeBlock(b[0].addr, b[0].size + size))
    requires |b| > 1 ==> h.End() < b[1].addr
    ensures WellFormed([h] + b[1..])
    ensures forall x :: Covers([h] + b[1..], x) <==> Covers(b, x) || Within(x, addr, size)
  {
    CoversHead(b, 0);
    PrependWellFormed(h, b[1..]);
    forall x ensures Covers([h] + b[1..], x) <==> Covers(b, x) || Within(x, addr, size) {
      CoversPrepend(h, b[1..], x);
      CoversHead(b, x);
    }
  }

  lemma ReleaseJoin(b: seq<FreeBlock>, addr: int, size: nat)
    requires WellFormed(b) && |b| > 1 && size > 0 && b[0].End() == addr && addr + size == b[1].addr
    ensures var h := FreeBlock(b[0].addr, b[0].size + size + b[1].size);
            && WellFormed([h] + b[2..])
            && forall x :: Covers([h] + b[2..], x) <==> Covers(b, x) || Within(x, addr, size)
  {
    var h := FreeBlock(b[0].addr, b[0].size + size + b[1].size);
    CoversHead(b, 0);
    assert b[1..][1..] == b[2..];
    CoversHead(b[1..], 0);
    PrependWellFormed(h, b[2..]);
    forall x ensures Covers([h] + b[2..], x) <==> Covers(b, x) || Within(x, addr, size) {
      CoversPrepend(h, b[2..], x);
      CoversHead(b, x);
      CoversHead(b[1..], x);
    }
  }

  lemma {:induction false} ReleaseFurther(b: seq<FreeBlock>, addr: int, size: nat)
    requires WellFormed(b) && b != [] && size > 0 && Apart(b, addr, size)
    requires b[0].addr < addr + size && b[0].End() != addr
    ensures var r := [b[0]] + Release(b[1..], addr, size);
            && WellFormed(r)
            && forall x :: Covers(r, x) <==> Covers(b, x) || Within(x, addr, size)
    decreases |b|, 0
  {
    ApartTail(b, addr, size);
    var t := Release(b[1..], addr, size);
    ReleaseCovers(b[1..], addr, size);
    if t != [] {
      assert Covers(t, t[0].addr);
      CoversHead(b, t[0].addr);
    }
    PrependWellFormed(b[0], t);
    forall x ensures Covers([b[0]] + t, x) <==> Covers(b, x) || Within(x, addr, size) {
      CoversPrepend(b[0], t, x);
      CoversHead(b, x);
    }
  }

  // ---------- Release by position ----------

  lemma {:induction false} ReleaseSkips(b: seq<FreeBlock>, k: nat, addr: int, size: nat)
    requires k <= |b|
    requires forall j :: 0 <= j < k ==> b[j].addr < addr + size && b[j].End() != addr
    ensures Release(b, addr, size) == b[..k] + Release(b[k..], addr, size)
  {
    hide Release;
    if k == 0 {
      assert b[0..] == b && b[..0] + Release(b, addr, size) == Release(b, addr, size);
    } else {
      SkipsHead(b, addr, size);
      var c, r := b[1..], Release(b[k..], addr, size);
      forall j | 0 <= j < k - 1 ensures c[j].addr < addr + size && c[j].End() != addr { assert c[j] == b[j + 1]; }
      ReleaseSkips(c, k - 1, addr, size);
      assert c[k - 1..] == b[k..];
      assert b[..k] == [b[0]] + c[..k - 1];
      assert [b[0]] + (c[..k - 1] + r) == ([b[0]] + c[..k - 1]) + r;
    }
  }

  lemma SkipsHead(b: seq<FreeBlock>, addr: int, size: nat)
    requires b != [] && b[0].addr < addr + size && b[0].End() != addr
    ensures Release(b, addr, size) == [b[0]] + Release(b[1..], addr, size)
  {
  }

  /** Block `k` with `size` bytes more at its end, joined with the next block if they meet. */
  function GrownEnd(b: seq<FreeBlock>, k: nat, size: nat): seq<FreeBlock>
    requires k < |b|
  {
    if k + 1 < |b| && b[k].End() + size == b[k + 1].addr
    then b[..k] + [FreeBlock(b[k].addr, b[k].size + size + b[k + 1].size)] + b[k + 2..]
    else b[k := FreeBlock(b[k].addr, b[k].size + size)]
  }

  lemma ReleaseAtHeadEnd(t: seq<FreeBlock>, addr: int, size: nat)
    requires WellFormed(t) && t != [] && t[0].End() == addr && size > 0
    ensures Release(t, addr, size) == GrownEnd(t, 0, size) && |Release(t, addr, size)| <= |t|
  {
    if |t| > 1 && addr + size == t[1].addr {
      assert t[..0] == [];
    } else {
      assert [FreeBlock(t[0].addr, t[0].size + size)] + t[1..] == t[0 := FreeBlock(t[0].addr, t[0].size + size)];
    }
  }

  lemma GrownEndOfSuffix(b: seq<FreeBlock>, k: nat, size: nat)
    requires k < |b|
    ensures GrownEnd(b, k, size) == b[..k] + GrownEnd(b[k..], 0, size)
  {
    assert b[k..][..0] == [];
    if k + 1 < |b| { assert b[k..][2..] == b[k + 2..]; }
  }

  lemma ReleaseAtEnd(b: seq<FreeBlock>, k: nat, addr: int, size: nat)
    requires WellFormed(b) && k < |b| && b[k].End() == addr && size > 0
    ensures Release(b, addr, size) == GrownEnd(b, k, size) && |Release(b, addr, size)| <= |b|
  {
    ReleaseSkips(b, k, addr, size);
    ReleaseAtHeadEnd(b[k..], addr, size);
    GrownEndOfSuffix(b, k, size);
  }

  lemma ReleaseAtStart(b: seq<FreeBlock>, k: nat, addr: int, size: nat)
    requires WellFormed(b) && k < |b| && addr + size == b[k].addr && size > 0
    requires forall j :: 0 <= j < k ==> b[j].End() != addr
    ensures Release(b, addr, size) == b[k := FreeBlock(addr, size + b[k].size)]
  {
    ReleaseSkips(b, k, addr, size);
    assert b[k..][1..] == b[k + 1..];
  }

  lemma ReleaseBetween(b: seq<FreeBlock>, k: nat, addr: int, size: nat)
    requires WellFormed(b) && k <= |b| && size > 0 && Apart(b, addr, size)
    requires forall j :: 0 <= j < |b| ==> b[j].End() != addr && addr + size != b[j].addr
    requires forall j :: 0 <= j < k ==> b[j].addr < addr
    requires k < |b| ==> addr <= b[k].addr
    ensures Release(b, addr, size) == b[..k] + [FreeBlock(addr, size)] + b[k..]
  {
    ReleaseSkips(b, k, addr, size);
    if k < |b| { BlockApart(b, k, addr, size); }
  }
}
