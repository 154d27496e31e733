/** The tensor allocator of the backend: one buffer, a fixed array of free blocks updated in
    place.  Its methods are proved against `FreeList.Take` and `FreeList.Release`. */
module TensorAllocator {
  import opened Wrappers
  import opened Alignment
  import opened FreeList

  const MAX_FREE_BLOCKS: nat := 256
  const SIZE_MAX: nat := 0xFFFF_FFFF_FFFF_FFFF

  class Allocator {
    const base: nat
    const alignment: nat
    const bufferSize: nat
    const freeBlocks: array<FreeBlock>
    var nFreeBlocks: nat
    var maxSize: int
    var measure: bool

    ghost predicate Shaped()
      reads this
    {
      && alignment > 0 && AlignedOffset(base, 0, alignment) < bufferSize
      && freeBlocks.Length == MAX_FREE_BLOCKS && nFreeBlocks <= MAX_FREE_BLOCKS
    }

    ghost predicate Valid()
      reads this, freeBlocks
    {
      Shaped() && WellFormed(Blocks())
    }

    function Blocks(): seq<FreeBlock>
      requires Shaped()
      reads this, freeBlocks
    {
      freeBlocks[..nFreeBlocks]
    }

    function Capacity(): nat
      requires Shaped()
      reads this
    {
      if measure then SIZE_MAX / 2 else bufferSize - AlignedOffset(base, 0, alignment)
    }

    constructor New(base: nat, size: nat, alignment: nat)
      requires alignment > 0 && AlignedOffset(base, 0, alignment) < size
      ensures Valid() && fresh(freeBlocks) && !measure && maxSize == 0
      ensures this.base == base && this.alignment == alignment && bufferSize == size
      ensures Blocks() == [FreeBlock(base + AlignedOffset(base, 0, alignment), Capacity())]
    {
      this.base, this.alignment, bufferSize := base, alignment, size;
      freeBlocks := new FreeBlock[MAX_FREE_BLOCKS](_ => FreeBlock(0, 0));
      nFreeBlocks, maxSize, measure := 0, 0, false;
      new;
      Reset();
    }

    /** The measuring allocator over no memory at all: half the address space from 0x1000. */
    constructor NewMeasure(alignment: nat)
      requires 0 < alignment < SIZE_MAX / 2
      ensures Valid() && fresh(freeBlocks) && measure && maxSize == 0 && this.alignment == alignment
      ensures Blocks() == [FreeBlock(0x1000 + AlignedOffset(0x1000, 0, alignment),
                                     SIZE_MAX / 2 - AlignedOffset(0x1000, 0, alignment))]
    {
      base, this.alignment, bufferSize := 0x1000, alignment, SIZE_MAX / 2;
      freeBlocks := new FreeBlock[MAX_FREE_BLOCKS](_ => FreeBlock(0, 0));
      nFreeBlocks, maxSize, measure := 0, 0, false;
      new;
      Reset();
      measure := true;
    }

    method Reset()
      requires Shaped()
      modifies this`nFreeBlocks, freeBlocks
      ensures Valid()
      ensures Blocks() == [FreeBlock(base + AlignedOffset(base, 0, alignment), Capacity())]
    {
      nFreeBlocks := 1;
      var alignOffset := AlignedOffset(base, 0, alignment);
      freeBlocks[0] := FreeBlock(base + alignOffset, if measure then SIZE_MAX / 2 else bufferSize - alignOffset);
    }

    /** Drops block `k`, shifting the later ones down. */
    method RemoveBlock(k: nat)
      requires Shaped() && k < nFreeBlocks
      modifies this`nFreeBlocks, freeBlocks
      ensures Shaped() && Blocks() == old(Blocks())[..k] + old(Blocks())[k + 1..]
    {
      nFreeBlocks := nFreeBlocks - 1;
      for j := k to nFreeBlocks
        modifies freeBlocks
        invariant forall i :: 0 <= i < k ==> freeBlocks[i] == old(freeBlocks[i])
        invariant forall i :: k <= i < j ==> freeBlocks[i] == old(freeBlocks[i + 1])
        invariant forall i :: j <= i <= nFreeBlocks ==> freeBlocks[i] == old(freeBlocks[i])
      {
        freeBlocks[j] := freeBlocks[j + 1];
      }
    }

    /** The best fitting block besides the last one, -1 if there is none. */
    method FindBestFit(size: nat) returns (best: int)
      requires Valid() && nFreeBlocks > 0
      ensures best == IndexOr(BestFitUpTo(Blocks(), size, nFreeBlocks - 1))
      ensures -1 <= best < nFreeBlocks - 1
    {
      ghost var b := Blocks();
      best := -1;
      var bestSize := 0;  // the source starts from SIZE_MAX, which no block exceeds
      var i := 0;
      while i < nFreeBlocks - 1
        invariant 0 <= i <= nFreeBlocks - 1 == |b| - 1
        invariant best == IndexOr(BestFitUpTo(b, size, i))
        invariant best != -1 ==> 0 <= best < i && bestSize == b[best].size
      {
        assert freeBlocks[i] == b[i];
        if freeBlocks[i].size >= size && (best == -1 || freeBlocks[i].size <= bestSize) {
          best, bestSize := i, freeBlocks[i].size;
        }
        i := i + 1;
      }
    }

    static function IndexOr(best: Option<nat>): int {
      if best.None? then -1 else best.value
    }

    method CutBlock(k: nat, size: nat)
      requires Shaped() && k < nFreeBlocks && size <= freeBlocks[k].size
      modifies this`nFreeBlocks, freeBlocks
      ensures Shaped() && Blocks() == CutFront(old(Blocks()), k, size)
    {
      ghost var b := Blocks();
      freeBlocks[k] := FreeBlock(freeBlocks[k].addr + size, freeBlocks[k].size - size);
      assert Blocks() == b[k := FreeBlock(b[k].addr + size, b[k].size - size)];
      if freeBlocks[k].size == 0 {
        RemoveBlock(k);
      }
    }

    /** None when no block is large enough: the source aborts.  With an empty table the source looks
        at the place before the first block; that counts as an abort too. */
    method Alloc(nbytes: nat) returns (addr: Option<int>)
      requires Valid() && nbytes > 0
      modifies this`nFreeBlocks, this`maxSize, freeBlocks
      ensures Valid()
      ensures addr.None? <==> forall i :: 0 <= i < old(nFreeBlocks) ==>
                old(Blocks())[i].size < AlignedOffset(0, nbytes, alignment)
      ensures addr.Some? ==>
                exists k: nat :: Fittest(old(Blocks()), AlignedOffset(0, nbytes, alignment), k)
                                 && addr == Some(old(Blocks())[k].addr)
      ensures match Take(old(Blocks()), AlignedOffset(0, nbytes, alignment))
              case None => addr.None? && Blocks() == old(Blocks()) && maxSize == old(maxSize)
              case Some(p) =>
                && addr == Some(p.addr) && Blocks() == p.rest
                && maxSize == Max(old(maxSize), p.addr - base + AlignedOffset(0, nbytes, alignment))
    {
      hide AlignedOffset, BestFitUpTo, Covers, CutFront;
      ghost var blocks := Blocks();
      var size := AlignedOffset(0, nbytes, alignment);
      if nFreeBlocks == 0 {
        return None;
      }
      var best := FindBestFit(size);
      if best == -1 {
        assert freeBlocks[nFreeBlocks - 1] == blocks[|blocks| - 1];
        if freeBlocks[nFreeBlocks - 1].size >= size {
          best := nFreeBlocks - 1;
        } else {
          return None;
        }
      }
      assert BestFit(blocks, size) == Some(best);
      assert freeBlocks[best] == blocks[best];
      TakeCovers(blocks, size);
      TakesFittest(blocks, size);
      var start := freeBlocks[best].addr;
      CutBlock(best, size);
      maxSize := Max(maxSize, start - base + size);
      addr := Some(start);
    }

    /** Shifts the blocks from `k` on up by one and puts `block` there. */
    method InsertBlock(k: nat, block: FreeBlock)
      requires Shaped() && k <= nFreeBlocks < MAX_FREE_BLOCKS
      modifies this`nFreeBlocks, freeBlocks
      ensures Shaped() && Blocks() == old(Blocks())[..k] + [block] + old(Blocks())[k..]
    {
      var i := nFreeBlocks;
      while i > k
        modifies freeBlocks
        invariant k <= i <= nFreeBlocks
        invariant forall j :: 0 <= j <= i && j < nFreeBlocks ==> freeBlocks[j] == old(freeBlocks[j])
        invariant forall j :: i < j <= nFreeBlocks ==> freeBlocks[j] == old(freeBlocks[j - 1])
      {
        freeBlocks[i] := freeBlocks[i - 1];
        i := i - 1;
      }
      freeBlocks[k] := block;
      nFreeBlocks := nFreeBlocks + 1;
    }

    /** The block that the range touches, or the position a new block goes to. */
    method FindTouching(ptr: int, size: nat) returns (i: nat)
      requires Valid()
      ensures i <= nFreeBlocks
      ensures forall j :: 0 <= j < i ==> freeBlocks[j].End() != ptr && ptr + size != freeBlocks[j].addr
      ensures i < nFreeBlocks ==> freeBlocks[i].End() == ptr || ptr + size == freeBlocks[i].addr
    {
      i := 0;
      while i < nFreeBlocks
        invariant i <= nFreeBlocks
        invariant forall j :: 0 <= j < i ==> freeBlocks[j].End() != ptr && ptr + size != freeBlocks[j].addr
      {
        if freeBlocks[i].End() == ptr || ptr + size == freeBlocks[i].addr {
          return;
        }
        i := i + 1;
      }
    }

    /** Returns false when the table of free blocks is full: the source aborts. */
    method Free(ptr: int, nbytes: nat) returns (ok: bool)
      requires Valid() && nbytes > 0
      requires Apart(Blocks(), ptr, AlignedOffset(0, nbytes, alignment))
      modifies this`nFreeBlocks, freeBlocks
      ensures Valid()
      ensures ok <==> |Release(old(Blocks()), ptr, AlignedOffset(0, nbytes, alignment))| <= MAX_FREE_BLOCKS
      ensures Blocks() == if ok then Release(old(Blocks()), ptr, AlignedOffset(0, nbytes, alignment)) else old(Blocks())
    {
      var size := AlignedOffset(0, nbytes, alignment);
      ReleaseCovers(Blocks(), ptr, size);
      var i := FindTouching(ptr, size);
      if i < nFreeBlocks {
        MergeInto(i, ptr, size);
        ok := true;
      } else {
        ok := InsertFree(ptr, size);
      }
    }

    method MergeInto(i: nat, ptr: int, size: nat)
      requires Valid() && i < nFreeBlocks && size > 0
      requires forall j :: 0 <= j < i ==> freeBlocks[j].End() != ptr
      requires freeBlocks[i].End() == ptr || ptr + size == freeBlocks[i].addr
      modifies this`nFreeBlocks, freeBlocks
      ensures Shaped() && Blocks() == Release(old(Blocks()), ptr, size)
    {
      ghost var b := Blocks();
      assert b[i] == freeBlocks[i];
      if freeBlocks[i].End() == ptr {
        ReleaseAtEnd(b, i, ptr, size);
        GrowEnd(i, size);
      } else {
        ReleaseAtStart(b, i, ptr, size);
        GrowStart(i, ptr, size);
      }
    }

    method InsertFree(ptr: int, size: nat) returns (ok: bool)
      requires Valid() && size > 0 && Apart(Blocks(), ptr, size)
      requires forall j :: 0 <= j < nFreeBlocks ==> freeBlocks[j].End() != ptr && ptr + size != freeBlocks[j].addr
      modifies this`nFreeBlocks, freeBlocks
      ensures ok <==> |Release(old(Blocks()), ptr, size)| <= MAX_FREE_BLOCKS
      ensures Shaped() && Blocks() == if ok then Release(old(Blocks()), ptr, size) else old(Blocks())
    {
      var at := 0;
      while at < nFreeBlocks && freeBlocks[at].addr < ptr
        invariant at <= nFreeBlocks
        invariant forall j :: 0 <= j < at ==> freeBlocks[j].addr < ptr
      {
        at := at + 1;
      }
      ReleaseBetween(Blocks(), at, ptr, size);
      if nFreeBlocks == MAX_FREE_BLOCKS {
        return false;
      }
      InsertBlock(at, FreeBlock(ptr, size));
      ok := true;
    }

    method GrowEnd(i: nat, size: nat)
      requires Valid() && i < nFreeBlocks
      modifies this`nFreeBlocks, freeBlocks
      ensures Shaped() && Blocks() == GrownEnd(old(Blocks()), i, size)
    {
      ghost var b := Blocks();
      freeBlocks[i] := FreeBlock(freeBlocks[i].addr, freeBlocks[i].size + size);
      assert Blocks() == b[i := FreeBlock(b[i].addr, b[i].size + size)];
      if i < nFreeBlocks - 1 && freeBlocks[i].End() == freeBlocks[i + 1].addr {
        freeBlocks[i] := FreeBlock(freeBlocks[i].addr, freeBlocks[i].size + freeBlocks[i + 1].size);
        ghost var c := b[i := FreeBlock(b[i].addr, b[i].size + size + b[i + 1].size)];
        assert Blocks() == c;
        assert c[..i + 1] == b[..i] + [c[i]] && c[i + 2..] == b[i + 2..];
        RemoveBlock(i + 1);
      }
    }

    method GrowStart(i: nat, ptr: int, size: nat)
      requires Valid() && i < nFreeBlocks && ptr + size == freeBlocks[i].addr
      requires i > 0 ==> freeBlocks[i - 1].End() != ptr
      modifies freeBlocks
      ensures Shaped() && Blocks() == old(Blocks())[i := FreeBlock(ptr, size + old(Blocks())[i].size)]
    {
      freeBlocks[i] := FreeBlock(ptr, freeBlocks[i].size + size);
      if i > 0 && freeBlocks[i - 1].End() == freeBlocks[i].addr {
        // Never taken: the scan would have stopped at the previous block.
        assert false;
      }
    }

    static function Max(x: int, y: int): int { if x > y then x else y }
  }
}
