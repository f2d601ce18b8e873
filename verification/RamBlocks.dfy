/** The allocator of RAM block offsets in exec.c: find_ram_offset, ram_block_add and
qemu_ram_free.

Offsets are `ram_addr_t`: arithmetic is modulo `limit`, the size of that type (2^64),
and RAM_ADDR_MAX is limit - 1.  Rounding up the end of a block may wrap to 0.  The
alignment is BITS_PER_LONG << TARGET_PAGE_BITS, kept symbolic. */
module RamBlocks {
  import opened Pages

  datatype Block = Block(offset: nat, maxLength: nat)

  datatype Offset = Aborted | At(offset: nat)

  function End(b: Block): nat {
    b.offset + b.maxLength
  }

  function RoundUp(align: nat, x: nat): nat
    requires align > 0
  {
    if PageOff(align, x) == 0 then x else x + align - PageOff(align, x)
  }

  /** ROUND_UP of the end of a block, in ram_addr_t arithmetic. */
  function Candidate(align: nat, limit: nat, b: Block): nat
    requires align > 0
  {
    var c := RoundUp(align, End(b));
    if c >= limit then c - limit else c
  }

  /** The offset of the closest block at or after c, or RAM_ADDR_MAX. */
  function NextOffset(limit: nat, blocks: seq<Block>, c: nat): nat
    requires limit > 0
  {
    if blocks == [] then limit - 1
    else
      var rest := NextOffset(limit, blocks[..|blocks| - 1], c);
      var b := blocks[|blocks| - 1];
      if b.offset >= c && b.offset < rest then b.offset else rest
  }

  /** The size of the gap find_ram_offset sees after block b; negative values wrap and do
      not occur in a valid list. */
  function Gap(align: nat, limit: nat, blocks: seq<Block>, b: Block): int
    requires align > 0 && limit > 0
  {
    NextOffset(limit, blocks, Candidate(align, limit, b)) - Candidate(align, limit, b)
  }

  predicate Disjoint(offset: nat, length: nat, b: Block) {
    offset + length <= b.offset || End(b) <= offset
  }

  // ---------------------------------------------------------------- the list invariant

  predicate BlockOk(align: nat, limit: nat, b: Block)
    requires align > 0
  {
    Aligned(align, b.offset) && b.maxLength > 0 && End(b) < limit
  }

  ghost predicate Separate(blocks: seq<Block>) {
    forall i, j :: 0 <= i < j < |blocks| ==> Disjoint(blocks[i].offset, blocks[i].maxLength, blocks[j])
  }

  /** Sorted from biggest to smallest. */
  ghost predicate Sorted(blocks: seq<Block>) {
    forall i, j :: 0 <= i < j < |blocks| ==> blocks[i].maxLength >= blocks[j].maxLength
  }

  ghost predicate ListOk(align: nat, limit: nat, blocks: seq<Block>) {
    && 0 < align && 0 < limit && Aligned(align, limit)
    && (forall i :: 0 <= i < |blocks| ==> BlockOk(align, limit, blocks[i]))
    && Separate(blocks) && Sorted(blocks)
  }

  // ---------------------------------------------------------------- gaps

  lemma {:induction false} NextOffsetIsClosest(limit: nat, blocks: seq<Block>, c: nat, i: nat)
    requires limit > 0 && i < |blocks| && blocks[i].offset >= c
    ensures NextOffset(limit, blocks, c) <= blocks[i].offset
  {
    if i < |blocks| - 1 {
      NextOffsetIsClosest(limit, blocks[..|blocks| - 1], c, i);
    }
  }

  lemma {:induction false} NextOffsetRange(limit: nat, blocks: seq<Block>, c: nat)
    requires limit > 0 && c < limit
    ensures c <= NextOffset(limit, blocks, c) < limit
  {
    if blocks != [] {
      NextOffsetRange(limit, blocks[..|blocks| - 1], c);
    }
  }

  /** An aligned number at or after x is at or after x rounded up. */
  lemma RoundUpIsLeast(align: nat, x: nat, y: nat)
    requires align > 0 && Aligned(align, y) && x <= y
    ensures RoundUp(align, x) <= y
    ensures Aligned(align, RoundUp(align, x)) && x <= RoundUp(align, x) < x + align
  {
    var off := PageOff(align, x);
    if off != 0 {
      PageOf(align, x);
      WholePageBelow(align, x - off, y);
      AlignedStep(align, x - off);
    }
  }

  lemma AlignedStep(align: nat, x: nat)
    requires align > 0 && Aligned(align, x)
    ensures Aligned(align, x + align)
  {
    assert PageOff(align, x + align) == PageOff(align, x);
  }

  lemma CandidateRange(align: nat, limit: nat, b: Block)
    requires align > 0 && Aligned(align, limit) && BlockOk(align, limit, b)
    ensures Candidate(align, limit, b) < limit && Aligned(align, Candidate(align, limit, b))
    ensures Candidate(align, limit, b) == 0 || Candidate(align, limit, b) == RoundUp(align, End(b))
  {
    RoundUpIsLeast(align, End(b), limit);
  }

  /** The gap after a block is free.  It is the alignment of every offset that makes this
      true: no block can start between the end of a block and its rounded end. */
  lemma GapIsFree(align: nat, limit: nat, blocks: seq<Block>, i: nat, size: nat, j: nat)
    requires ListOk(align, limit, blocks) && i < |blocks| && j < |blocks|
    requires size <= Gap(align, limit, blocks, blocks[i])
    ensures Disjoint(Candidate(align, limit, blocks[i]), size, blocks[j])
  {
    var c := Candidate(align, limit, blocks[i]);
    CandidateRange(align, limit, blocks[i]);
    if blocks[j].offset >= c {
      NextOffsetIsClosest(limit, blocks, c, j);
    } else if End(blocks[i]) <= blocks[j].offset {
      RoundUpIsLeast(align, End(blocks[i]), blocks[j].offset);
    } else if i != j {
      assert Disjoint(blocks[if i < j then i else j].offset, blocks[if i < j then i else j].maxLength,
                      blocks[if i < j then j else i]);
    }
  }

  ghost function Gaps(align: nat, limit: nat, blocks: seq<Block>): (r: seq<int>)
    requires align > 0 && limit > 0
    ensures |r| == |blocks|
  {
    seq(|blocks|, i requires 0 <= i < |blocks| => Gap(align, limit, blocks, blocks[i]))
  }

  /** Gap i is the smallest of the first n that holds `size`. */
  ghost predicate BestFit(gaps: seq<int>, n: nat, size: nat, i: nat)
    requires n <= |gaps|
  {
    i < n && size <= gaps[i] && forall j :: 0 <= j < n && size <= gaps[j] ==> gaps[i] <= gaps[j]
  }

  ghost predicate NoFit(gaps: seq<int>, n: nat, size: nat)
    requires n <= |gaps|
  {
    forall j :: 0 <= j < n ==> gaps[j] < size
  }

  lemma GapBelowMax(align: nat, limit: nat, blocks: seq<Block>, i: nat)
    requires ListOk(align, limit, blocks) && i < |blocks|
    ensures 0 <= Gap(align, limit, blocks, blocks[i]) < limit - 1
    ensures NextOffset(limit, blocks, Candidate(align, limit, blocks[i])) < limit
  {
    CandidateRange(align, limit, blocks[i]);
    NextOffsetRange(limit, blocks, Candidate(align, limit, blocks[i]));
    if Candidate(align, limit, blocks[i]) == 0 {
      NextOffsetIsClosest(limit, blocks, 0, i);
    }
  }

  /** What mingap, and the block it was found after, are once n blocks have been looked at;
      `max` is RAM_ADDR_MAX. */
  ghost predicate Chosen(gaps: seq<int>, n: nat, size: nat, max: nat, mingap: nat, best: nat)
    requires n <= |gaps|
  {
    if mingap == max then NoFit(gaps, n, size) else BestFit(gaps, n, size, best) && mingap == gaps[best]
  }

  lemma ChosenStep(gaps: seq<int>, n: nat, size: nat, max: nat, mingap: nat, best: nat)
    requires n < |gaps| && 0 <= gaps[n] < max && mingap <= max && Chosen(gaps, n, size, max, mingap, best)
    ensures if size <= gaps[n] < mingap then Chosen(gaps, n + 1, size, max, gaps[n], n)
            else Chosen(gaps, n + 1, size, max, mingap, best)
  {
  }

  /** Inserting a block at position k, into a gap, keeps the list well formed. */
  lemma InsertKeepsList(align: nat, limit: nat, blocks: seq<Block>, b: Block, k: nat)
    requires ListOk(align, limit, blocks) && BlockOk(align, limit, b) && k <= |blocks|
    requires forall j :: 0 <= j < |blocks| ==> Disjoint(b.offset, b.maxLength, blocks[j])
    requires forall j :: 0 <= j < k ==> blocks[j].maxLength >= b.maxLength
    requires k < |blocks| ==> blocks[k].maxLength < b.maxLength
    ensures ListOk(align, limit, blocks[..k] + [b] + blocks[k..])
  {
    var r := blocks[..k] + [b] + blocks[k..];
    Inserted(blocks, b, k);
    forall i | 0 <= i < |r|
      ensures BlockOk(align, limit, r[i])
    {
    }
    InsertSeparate(blocks, b, k);
    InsertSorted(blocks, b, k);
  }

  lemma Inserted(blocks: seq<Block>, b: Block, k: nat)
    requires k <= |blocks|
    ensures var r := blocks[..k] + [b] + blocks[k..];
            && |r| == |blocks| + 1
            && forall i :: 0 <= i < |r| ==> r[i] == if i < k then blocks[i] else if i == k then b else blocks[i - 1]
  {
  }

  lemma InsertSeparate(blocks: seq<Block>, b: Block, k: nat)
    requires Separate(blocks) && k <= |blocks|
    requires forall j :: 0 <= j < |blocks| ==> Disjoint(b.offset, b.maxLength, blocks[j])
    ensures Separate(blocks[..k] + [b] + blocks[k..])
  {
    Inserted(blocks, b, k);
  }

  lemma InsertSorted(blocks: seq<Block>, b: Block, k: nat)
    requires Sorted(blocks) && k <= |blocks|
    requires forall j :: 0 <= j < k ==> blocks[j].maxLength >= b.maxLength
    requires k < |blocks| ==> blocks[k].maxLength < b.maxLength
    ensures Sorted(blocks[..k] + [b] + blocks[k..])
  {
    Inserted(blocks, b, k);
  }

  lemma RemoveKeepsList(align: nat, limit: nat, blocks: seq<Block>, k: nat)
    requires ListOk(align, limit, blocks) && k < |blocks|
    ensures ListOk(align, limit, blocks[..k] + blocks[k + 1..])
  {
  }

  datatype Added = NoHostMemory | Abort | Placed(block: Block, position: nat)

  class RamList {
    const align: nat
    const limit: nat
    var blocks: seq<Block>
    var version: nat

    ghost predicate Valid()
      reads this
    {
      ListOk(align, limit, blocks)
    }

    constructor (align: nat, limit: nat)
      requires 0 < align && 0 < limit && Aligned(align, limit)
      ensures Valid() && blocks == [] && this.align == align && this.limit == limit
    {
      this.align, this.limit := align, limit;
      blocks, version := [], 0;
    }

    /** The inner loop of find_ram_offset. */
    method ClosestOffset(candidate: nat) returns (next: nat)
      requires Valid()
      ensures next == NextOffset(limit, blocks, candidate)
    {
      next := limit - 1;
      for i := 0 to |blocks|
        invariant next == NextOffset(limit, blocks[..i], candidate)
      {
        assert blocks[..i + 1][..i] == blocks[..i];
        if blocks[i].offset >= candidate {
          next := if next < blocks[i].offset then next else blocks[i].offset;
        }
      }
      assert blocks[..|blocks|] == blocks;
    }

    /** find_ram_offset: an offset in the smallest gap after a block that is big enough,
        and an abort exactly if there is none. */
    method FindRamOffset(size: nat) returns (r: Offset)
      requires Valid() && size != 0
      ensures blocks == [] ==> r == At(0)
      ensures blocks != [] ==> (r.Aborted? <==> NoFit(Gaps(align, limit, blocks), |blocks|, size))
      ensures blocks != [] && r.At? ==>
                exists i :: 0 <= i < |blocks| && r.offset == Candidate(align, limit, blocks[i])
                            && BestFit(Gaps(align, limit, blocks), |blocks|, size, i)
    {
      if blocks == [] {
        return At(0);
      }
      var offset: nat, mingap: nat := limit - 1, limit - 1;
      ghost var gaps, best := Gaps(align, limit, blocks), 0;
      for i := 0 to |blocks|
        invariant mingap <= limit - 1 && Chosen(gaps, i, size, limit - 1, mingap, best)
        invariant offset == limit - 1 <==> mingap == limit - 1
        invariant mingap < limit - 1 ==> best < i && offset == Candidate(align, limit, blocks[best])
      {
        var candidate := Candidate(align, limit, blocks[i]);
        var next := ClosestOffset(candidate);
        GapBelowMax(align, limit, blocks, i);
        ChosenStep(gaps, i, size, limit - 1, mingap, best);
        if next - candidate >= size && next - candidate < mingap {
          offset := candidate;
          mingap := next - candidate;
          best := i;
        }
      }
      r := if offset == limit - 1 then Aborted else At(offset);
    }

    /** The loop of ram_block_add that looks for the place of a block in the list. */
    method Place(maxLength: nat) returns (k: nat)
      ensures k <= |blocks| && (forall j :: 0 <= j < k ==> blocks[j].maxLength >= maxLength)
      ensures k < |blocks| ==> blocks[k].maxLength < maxLength
    {
      k := 0;
      while k < |blocks| && blocks[k].maxLength >= maxLength
        invariant 0 <= k <= |blocks|
        invariant forall j :: 0 <= j < k ==> blocks[j].maxLength >= maxLength
      {
        k := k + 1;
      }
    }

    /** ram_block_add: a failed allocation of host memory, or an abort, leaves the list as
        it is; otherwise the new block is put into a free, aligned range, and the list
        stays sorted from biggest to smallest. */
    method Add(maxLength: nat, hostOk: bool) returns (r: Added)
      requires Valid() && 0 < maxLength < limit
      modifies this
      ensures Valid()
      ensures !r.Placed? ==> blocks == old(blocks) && version == old(version)
      ensures r.Abort? <==> old(blocks) != [] && NoFit(Gaps(align, limit, old(blocks)), |old(blocks)|, maxLength)
      ensures r.NoHostMemory? <==> !hostOk && !r.Abort?
      ensures r.Placed? ==>
                && r.block.maxLength == maxLength && Aligned(align, r.block.offset)
                && (forall j :: 0 <= j < |old(blocks)| ==> Disjoint(r.block.offset, maxLength, old(blocks)[j]))
                && r.position <= |old(blocks)|
                && blocks == old(blocks)[..r.position] + [r.block] + old(blocks)[r.position..]
                && version == old(version) + 1
    {
      var found := FindRamOffset(maxLength);
      if found.Aborted? {
        return Abort;
      }
      if !hostOk {
        return NoHostMemory;
      }
      var b := Block(found.offset, maxLength);
      FoundIsFree(blocks, b);
      var k := Place(maxLength);
      InsertKeepsList(align, limit, blocks, b, k);
      blocks := blocks[..k] + [b] + blocks[k..];
      version := version + 1;
      r := Placed(b, k);
    }

    lemma FoundIsFree(blocks: seq<Block>, b: Block)
      requires ListOk(align, limit, blocks) && 0 < b.maxLength < limit
      requires blocks == [] ==> b.offset == 0
      requires blocks != [] ==> exists i :: 0 <= i < |blocks| && b.offset == Candidate(align, limit, blocks[i])
                                            && BestFit(Gaps(align, limit, blocks), |blocks|, b.maxLength, i)
      ensures BlockOk(align, limit, b)
      ensures forall j :: 0 <= j < |blocks| ==> Disjoint(b.offset, b.maxLength, blocks[j])
    {
      if blocks != [] {
        var i :| 0 <= i < |blocks| && b.offset == Candidate(align, limit, blocks[i])
                 && BestFit(Gaps(align, limit, blocks), |blocks|, b.maxLength, i);
        CandidateRange(align, limit, blocks[i]);
        NextOffsetRange(limit, blocks, b.offset);
        forall j | 0 <= j < |blocks|
          ensures Disjoint(b.offset, b.maxLength, blocks[j])
        {
          GapIsFree(align, limit, blocks, i, b.maxLength, j);
        }
      }
    }

    /** qemu_ram_free. */
    method Free(k: nat)
      requires Valid() && k < |blocks|
      modifies this
      ensures Valid() && blocks == old(blocks)[..k] + old(blocks)[k + 1..] && version == old(version) + 1
    {
      RemoveKeepsList(align, limit, blocks, k);
      blocks := blocks[..k] + blocks[k + 1..];
      version := version + 1;
    }
  }

  // ---------------------------------------------------------------- what the search does not promise

  lemma UnalignedGaps()
    ensures var blocks := [Block(5, 10), Block(24, 6), Block(0, 4)];
            Gaps(8, 64, blocks) == [8, 31, 16] && Candidate(8, 64, blocks[2]) == 8
  {
    var blocks := [Block(5, 10), Block(24, 6), Block(0, 4)];
    var a, b := blocks[..2], blocks[..1];
    assert blocks[..2][..1] == b && b[..0] == [];
    assert RoundUp(8, 15) == 16 && RoundUp(8, 30) == 32 && RoundUp(8, 4) == 8;
    assert NextOffset(64, b, 8) == 63 && NextOffset(64, b, 16) == 63 && NextOffset(64, b, 32) == 63;
    assert NextOffset(64, a, 8) == 24 && NextOffset(64, a, 16) == 24 && NextOffset(64, a, 32) == 63;
  }

  /** Without alignment of the offsets the gap after a block need not be free: the best fit
      for ten bytes here runs over the block at offset 5. */
  lemma UnalignedBlockIsOverrun()
    ensures var blocks := [Block(5, 10), Block(24, 6), Block(0, 4)];
            && Separate(blocks) && Sorted(blocks)
            && BestFit(Gaps(8, 64, blocks), 3, 10, 2) && !Disjoint(Candidate(8, 64, blocks[2]), 10, blocks[0])
  {
    UnalignedGaps();
  }
}
