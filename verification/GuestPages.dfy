/** The page-by-page walk over guest memory of the kdump writer: get_next_page in dump.c.

Page frame numbers are addresses divided by the page size (ARCH_PFN_OFFSET is 0). */
module GuestPages {
  import opened Bytes
  import opened Pages
  import opened DumpElf

  function First(page: nat, b: Block): nat
    requires page > 0
  {
    PageNo(page, b.start)
  }

  /** One past the last page frame of a block. */
  function Limit(page: nat, b: Block): nat
    requires page > 0
  {
    PageNo(page, b.end)
  }

  /** What the assertions of get_next_page ask for, for a list without empty blocks. */
  ghost predicate PagesOk(page: nat, b: Block)
    requires page > 0
  {
    BlockOk(b) && b.start < b.end && Aligned(page, b.start) && Aligned(page, b.end)
  }

  /** Page-aligned, non-empty, ascending and disjoint. */
  ghost predicate GuestOk(page: nat, blocks: seq<Block>) {
    && page > 0 && blocks != []
    && (forall i :: 0 <= i < |blocks| ==> PagesOk(page, blocks[i]))
    && forall i, j :: 0 <= i < j < |blocks| ==> Limit(page, blocks[i]) <= First(page, blocks[j])
  }

  ghost predicate InBlock(page: nat, b: Block, pfn: nat)
    requires page > 0
  {
    First(page, b) <= pfn < Limit(page, b)
  }

  /** The page frame is backed by guest memory. */
  ghost predicate Exists(page: nat, blocks: seq<Block>, pfn: nat)
    requires page > 0
  {
    exists i :: 0 <= i < |blocks| && InBlock(page, blocks[i], pfn)
  }

  /** No page frame strictly between the two exists. */
  ghost predicate NoneBetween(page: nat, blocks: seq<Block>, low: int, high: int)
    requires page > 0
  {
    forall k: nat :: low < k < high ==> !Exists(page, blocks, k)
  }

  ghost predicate NoneAfter(page: nat, blocks: seq<Block>, low: int)
    requires page > 0
  {
    forall k: nat :: low < k ==> !Exists(page, blocks, k)
  }

  /** Block i holds the page, and these are its bytes. */
  ghost predicate PageBytes(page: nat, blocks: seq<Block>, pfn: nat, i: nat, bytes: seq<Byte>)
    requires GuestOk(page, blocks)
  {
    && i < |blocks| && InBlock(page, blocks[i], pfn)
    && page * pfn >= blocks[i].start && page * pfn - blocks[i].start + page <= |blocks[i].memory|
    && bytes == blocks[i].memory[page * pfn - blocks[i].start..][..page]
  }

  // ---------------------------------------------------------------- arithmetic

  lemma AlignedAddress(page: nat, a: nat)
    requires page > 0 && Aligned(page, a)
    ensures a == page * PageNo(page, a)
  {
    PageSplit(page, a);
  }

  lemma Times(page: nat, x: nat, y: nat)
    requires page > 0
    ensures x <= y <==> page * x <= page * y
    ensures page * (x + 1) == page * x + page
  {
  }

  /** A page with a number in the range of a block lies in the block. */
  lemma PageFits(page: nat, b: Block, pfn: nat)
    requires page > 0 && PagesOk(page, b)
    ensures First(page, b) <= pfn <==> b.start <= page * pfn
    ensures pfn < Limit(page, b) <==> page * pfn + page <= b.end
    ensures First(page, b) < Limit(page, b)
  {
    AlignedAddress(page, b.start);
    AlignedAddress(page, b.end);
    Times(page, First(page, b), pfn);
    Times(page, pfn + 1, Limit(page, b));
    Times(page, pfn, 0);
    Times(page, Limit(page, b), First(page, b));
  }

  /** Pages between the end of a block and the start of the next do not exist. */
  lemma NoPageBetween(page: nat, blocks: seq<Block>, i: nat, pfn: nat)
    requires GuestOk(page, blocks) && i < |blocks| && Limit(page, blocks[i]) <= pfn
    requires i + 1 < |blocks| ==> pfn < First(page, blocks[i + 1])
    ensures !Exists(page, blocks, pfn)
  {
    forall j | 0 <= j < |blocks|
      ensures !InBlock(page, blocks[j], pfn)
    {
      PageFits(page, blocks[j], pfn);
      if j < i {
        assert Limit(page, blocks[j]) <= First(page, blocks[i]);
        PageFits(page, blocks[i], pfn);
      } else if i + 1 < j {
        assert Limit(page, blocks[i + 1]) <= First(page, blocks[j]);
        PageFits(page, blocks[i + 1], pfn);
      }
    }
  }

  lemma NoPageBefore(page: nat, blocks: seq<Block>, pfn: nat)
    requires GuestOk(page, blocks) && pfn < First(page, blocks[0])
    ensures !Exists(page, blocks, pfn)
  {
    forall j | 0 <= j < |blocks|
      ensures !InBlock(page, blocks[j], pfn)
    {
      if 0 < j {
        assert Limit(page, blocks[0]) <= First(page, blocks[j]);
        PageFits(page, blocks[0], pfn);
      }
    }
  }

  // ---------------------------------------------------------------- counting

  /** The number of pages of the first n blocks. */
  function PageCount(page: nat, blocks: seq<Block>, n: nat): nat
    requires page > 0 && n <= |blocks|
  {
    if n == 0 then 0
    else
      var b := blocks[n - 1];
      PageCount(page, blocks, n - 1) + if First(page, b) <= Limit(page, b) then Limit(page, b) - First(page, b) else 0
  }

  // ---------------------------------------------------------------- the walk

  /** block_iter and pfn of a walk: no block before the first call. */
  class PageWalker {
    const blocks: seq<Block>
    const page: nat
    var started: bool
    var block: nat
    var pfn: nat

    ghost predicate Valid()
      reads this
    {
      && GuestOk(page, blocks)
      && (started && block < |blocks| ==> InBlock(page, blocks[block], pfn))
    }

    /** How many pages the walk has passed. */
    ghost function Passed(): nat
      reads this
      requires Valid()
    {
      if !started then 0
      else if block < |blocks| then PageCount(page, blocks, block) + pfn - First(page, blocks[block]) + 1
      else PageCount(page, blocks, |blocks|)
    }

    /** How far the walk is from its end, to show that loops over it end. */
    ghost function Left(): (r: nat)
      reads this
      requires Valid()
    {
      if started && block < |blocks| then Limit(page, blocks[block]) - pfn else 0
    }

    ghost predicate Nearer(block0: nat, left0: nat)
      reads this
      requires Valid()
    {
      block0 < block || (block0 == block && Left() < left0)
    }

    constructor (page: nat, blocks: seq<Block>)
      requires GuestOk(page, blocks)
      ensures Valid() && !started && block == 0 && this.page == page && this.blocks == blocks
    {
      this.page, this.blocks := page, blocks;
      started, block, pfn := false, 0, 0;
    }

    /** get_next_page: yields the existing page frames in ascending order, each exactly once,
        with the memory of each. */
    method Next() returns (more: bool, bytes: seq<Byte>)
      requires Valid() && (started ==> block < |blocks|)
      modifies this
      ensures Valid() && started && (more <==> block < |blocks|)
      ensures more ==> PageBytes(page, blocks, pfn, block, bytes) && Passed() == old(Passed()) + 1
      ensures more ==> NoneBetween(page, blocks, if old(started) then old(pfn) else -1, pfn)
      ensures more && old(started) ==> old(pfn) < pfn && Nearer(old(block), old(Left()))
      ensures !more ==> old(started) && Passed() == old(Passed())
      ensures !more ==> NoneAfter(page, blocks, old(pfn))
    {
      if !started {
        started, block := true, 0;
        pfn := PageNo(page, blocks[0].start);
        FirstPage();
        return true, blocks[0].memory[..page];
      }
      pfn := pfn + 1;
      var addr := page * pfn;
      PageFits(page, blocks[block], pfn);
      if addr >= blocks[block].start && addr + page <= blocks[block].end {
        bytes := blocks[block].memory[addr - blocks[block].start..][..page];
        return true, bytes;
      }
      assert pfn == Limit(page, blocks[block]);
      block := block + 1;
      if block == |blocks| {
        LastPage(pfn);
        return false, [];
      }
      NextBlockPages(block - 1, pfn);
      pfn := PageNo(page, blocks[block].start);
      return true, blocks[block].memory[..page];
    }

    lemma FirstPage()
      requires GuestOk(page, blocks)
      ensures page <= |blocks[0].memory|
      ensures PageBytes(page, blocks, First(page, blocks[0]), 0, blocks[0].memory[..page])
      ensures NoneBetween(page, blocks, -1, First(page, blocks[0]))
    {
      BlockStart(0);
      forall k: nat | 0 <= k < First(page, blocks[0])
        ensures !Exists(page, blocks, k)
      {
        NoPageBefore(page, blocks, k);
      }
    }

    lemma BlockStart(i: nat)
      requires GuestOk(page, blocks) && i < |blocks|
      ensures page <= |blocks[i].memory|
      ensures PageBytes(page, blocks, First(page, blocks[i]), i, blocks[i].memory[..page])
    {
      PageFits(page, blocks[i], First(page, blocks[i]));
      AlignedAddress(page, blocks[i].start);
      assert blocks[i].memory[0..] == blocks[i].memory;
    }

    lemma NextBlockPages(i: nat, pfn: nat)
      requires GuestOk(page, blocks) && i + 1 < |blocks| && pfn == Limit(page, blocks[i])
      ensures page <= |blocks[i + 1].memory|
      ensures PageBytes(page, blocks, First(page, blocks[i + 1]), i + 1, blocks[i + 1].memory[..page])
      ensures NoneBetween(page, blocks, pfn - 1, First(page, blocks[i + 1]))
      ensures PageCount(page, blocks, i + 1) == PageCount(page, blocks, i) + pfn - First(page, blocks[i])
    {
      BlockStart(i + 1);
      PageFits(page, blocks[i], pfn);
      forall k: nat | pfn <= k < First(page, blocks[i + 1])
        ensures !Exists(page, blocks, k)
      {
        NoPageBetween(page, blocks, i, k);
      }
    }

    lemma LastPage(pfn: nat)
      requires GuestOk(page, blocks) && pfn == Limit(page, blocks[|blocks| - 1])
      ensures NoneAfter(page, blocks, pfn - 1)
      ensures PageCount(page, blocks, |blocks|)
           == PageCount(page, blocks, |blocks| - 1) + pfn - First(page, blocks[|blocks| - 1])
    {
      PageFits(page, blocks[|blocks| - 1], pfn);
      forall k: nat | pfn <= k
        ensures !Exists(page, blocks, k)
      {
        NoPageBetween(page, blocks, |blocks| - 1, k);
      }
    }
  }
}
