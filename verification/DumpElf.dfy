/** The memory part of an ELF guest dump, dump.c: what dump_iterate writes, what
dump_calculate_size says it will write, and where get_offset_range says each guest address
lands in the file. */
module DumpElf {
  import opened Bytes

  /** A GuestPhysBlock: guest addresses target_start to target_end and the memory behind them. */
  datatype Block = Block(start: nat, end: nat, memory: seq<Byte>)

  /** has_filter, begin and length. */
  datatype Filter = All | Range(begin: nat, length: nat)

  datatype Place = NotStored | Stored(offset: nat, size: nat)

  datatype Start = NoBlock | StartAt(block: nat, offset: nat)

  ghost predicate BlockOk(b: Block) {
    b.start <= b.end && |b.memory| == b.end - b.start
  }

  ghost predicate BlocksOk(blocks: seq<Block>) {
    forall i :: 0 <= i < |blocks| ==> BlockOk(blocks[i])
  }

  /** The test that skips a block. */
  predicate OutOfRange(f: Filter, b: Block) {
    f.Range? && (b.start >= f.begin + f.length || b.end <= f.begin)
  }

  function Max(x: int, y: int): int {
    if x >= y then x else y
  }

  function Min(x: int, y: int): int {
    if x <= y then x else y
  }

  // ---------------------------------------------------------------- what is to be dumped

  function Low(f: Filter, b: Block): nat {
    if f.Range? then Max(f.begin, b.start) else b.start
  }

  function High(f: Filter, b: Block): nat {
    if f.Range? then Min(f.begin + f.length, b.end) else b.end
  }

  /** The address is in the block and passes the filter. */
  predicate Dumps(f: Filter, b: Block, a: nat) {
    b.start <= a < b.end && (f.Range? ==> f.begin <= a < f.begin + f.length)
  }

  /** The dumped part of a block: the bytes of the addresses that pass the filter. */
  ghost function Part(f: Filter, b: Block): seq<Byte>
    requires BlockOk(b)
  {
    if Low(f, b) < High(f, b) then b.memory[Low(f, b) - b.start..High(f, b) - b.start] else []
  }

  ghost predicate PartAt(f: Filter, blocks: seq<Block>, parts: seq<seq<Byte>>, i: nat)
    requires BlocksOk(blocks) && i < |blocks| && i < |parts|
  {
    parts[i] == Part(f, blocks[i])
  }

  /** The dumped parts of the blocks, one for each. */
  ghost predicate AreParts(f: Filter, blocks: seq<Block>, parts: seq<seq<Byte>>)
    requires BlocksOk(blocks)
  {
    |parts| == |blocks| && forall i :: 0 <= i < |blocks| ==> PartAt(f, blocks, parts, i)
  }

  ghost function PartList(f: Filter, blocks: seq<Block>): (r: seq<seq<Byte>>)
    requires BlocksOk(blocks)
    ensures AreParts(f, blocks, r)
  {
    seq(|blocks|, i requires 0 <= i < |blocks| => Part(f, blocks[i]))
  }

  /** The first n parts, one after the other. */
  ghost function Front(parts: seq<seq<Byte>>, n: nat): seq<Byte>
    requires n <= |parts|
  {
    if n == 0 then [] else Front(parts, n - 1) + parts[n - 1]
  }

  lemma DumpsIsPart(f: Filter, b: Block, a: nat)
    requires BlockOk(b)
    ensures Dumps(f, b, a) <==> Low(f, b) <= a < High(f, b)
    ensures OutOfRange(f, b) ==> Part(f, b) == []
    ensures !OutOfRange(f, b) ==> b.start <= Low(f, b) <= High(f, b) <= b.end
  {
  }

  ghost predicate AllSkipped(f: Filter, blocks: seq<Block>, i: nat, j: nat) {
    i <= j <= |blocks| && forall k :: i <= k < j ==> OutOfRange(f, blocks[k])
  }

  /** Nothing is added by blocks that are skipped. */
  lemma {:induction false} SkippedParts(f: Filter, blocks: seq<Block>, parts: seq<seq<Byte>>, i: nat, j: nat)
    requires BlocksOk(blocks) && AreParts(f, blocks, parts) && AllSkipped(f, blocks, i, j)
    ensures Front(parts, j) == Front(parts, i)
  {
    if i < j {
      SkippedParts(f, blocks, parts, i, j - 1);
      assert PartAt(f, blocks, parts, j - 1);
      DumpsIsPart(f, blocks[j - 1], 0);
      Unit(Front(parts, j - 1));
    }
  }

  /** Where the bytes of part i are among the first n. */
  lemma {:induction false} FrontHolds(parts: seq<seq<Byte>>, i: nat, n: nat)
    requires i < n <= |parts|
    ensures |Front(parts, i)| + |parts[i]| <= |Front(parts, n)|
    ensures forall k :: 0 <= k < |parts[i]| ==> Front(parts, n)[|Front(parts, i)| + k] == parts[i][k]
  {
    if i + 1 < n {
      FrontHolds(parts, i, n - 1);
    }
  }

  function Overlap(f: Filter, b: Block): nat {
    if Low(f, b) < High(f, b) then High(f, b) - Low(f, b) else 0
  }

  lemma PartLength(f: Filter, b: Block)
    requires BlockOk(b)
    ensures |Part(f, b)| == Overlap(f, b)
  {
  }

  /** The overlaps of the blocks with the filter, added up. */
  function Total(f: Filter, blocks: seq<Block>, n: nat): nat
    requires n <= |blocks|
  {
    if n == 0 then 0 else Total(f, blocks, n - 1) + Overlap(f, blocks[n - 1])
  }

  lemma {:induction false} TotalIsLength(f: Filter, blocks: seq<Block>, parts: seq<seq<Byte>>, n: nat)
    requires BlocksOk(blocks) && AreParts(f, blocks, parts) && n <= |blocks|
    ensures Total(f, blocks, n) == |Front(parts, n)|
  {
    if n > 0 {
      TotalIsLength(f, blocks, parts, n - 1);
      PartsLength(f, blocks, parts, n - 1);
    }
  }

  lemma PartsLength(f: Filter, blocks: seq<Block>, parts: seq<seq<Byte>>, i: nat)
    requires BlocksOk(blocks) && AreParts(f, blocks, parts) && i < |blocks|
    ensures |parts[i]| == Overlap(f, blocks[i])
  {
    assert PartAt(f, blocks, parts, i);
    PartLength(f, blocks[i]);
  }

  /** The part of a block that holds a dumped address. */
  lemma PartSlice(f: Filter, blocks: seq<Block>, parts: seq<seq<Byte>>, i: nat, a: nat)
    requires BlocksOk(blocks) && AreParts(f, blocks, parts) && i < |blocks| && Dumps(f, blocks[i], a)
    ensures blocks[i].start <= Low(f, blocks[i]) <= a < High(f, blocks[i]) <= blocks[i].start + |blocks[i].memory|
    ensures parts[i] == blocks[i].memory[Low(f, blocks[i]) - blocks[i].start..High(f, blocks[i]) - blocks[i].start]
  {
    assert PartAt(f, blocks, parts, i);
    DumpsIsPart(f, blocks[i], a);
  }

  /** Block i is the first whose dumped part holds the address. */
  ghost predicate FirstHolding(f: Filter, blocks: seq<Block>, a: nat, i: nat) {
    && i < |blocks| && Dumps(f, blocks[i], a)
    && forall j :: 0 <= j < i ==> !Dumps(f, blocks[j], a)
  }

  // ---------------------------------------------------------------- the dump

  class Dump {
    const blocks: seq<Block>
    const filter: Filter
    const pageSize: nat
    const memoryOffset: nat
    ghost const parts: seq<seq<Byte>>
    var nextBlock: nat
    var start: nat
    var vmcore: seq<Byte>

    ghost predicate Valid() {
      BlocksOk(blocks) && pageSize > 0 && AreParts(filter, blocks, parts)
    }

    /** Everything that is to be dumped. */
    ghost function Contents(): seq<Byte>
    {
      Front(parts, |parts|)
    }

    constructor (blocks: seq<Block>, filter: Filter, pageSize: nat, memoryOffset: nat)
      requires BlocksOk(blocks) && pageSize > 0
      ensures Valid() && this.blocks == blocks && this.filter == filter && this.memoryOffset == memoryOffset
    {
      this.blocks, this.filter, this.pageSize, this.memoryOffset := blocks, filter, pageSize, memoryOffset;
      parts := PartList(filter, blocks);
      nextBlock, start, vmcore := 0, 0, [];
    }

    /** dump_calculate_size: the number of bytes to be dumped. */
    method CalculateSize() returns (total: int)
      requires Valid()
      ensures total == |Contents()|
    {
      total := 0;
      var i := 0;
      while i < |blocks|
        invariant 0 <= i <= |blocks|
        invariant total == Total(filter, blocks, i)
      {
        var size := OverlapSize(blocks[i]);
        total := total + size;
        i := i + 1;
      }
      TotalIsLength(filter, blocks, parts, i);
    }

    method OverlapSize(b: Block) returns (size: int)
      requires BlockOk(b)
      ensures size == Overlap(filter, b)
    {
      if filter.Range? {
        var left, right := Max(filter.begin, b.start), Min(filter.begin + filter.length, b.end);
        size := right - left;
        size := if size > 0 then size else 0;
      } else {
        size := b.end - b.start;
      }
    }

    /** get_offset_range: an address is stored exactly if some block dumps it; then the file
        range holds the memory of the first such block from that address on, as much of the
        mapping as the dumped part of the block has. */
    method GetOffsetRange(a: nat, length: nat) returns (r: Place)
      requires Valid()
      ensures r.NotStored? <==> forall i :: 0 <= i < |blocks| ==> !Dumps(filter, blocks[i], a)
      ensures r.Stored? ==>
                exists i :: FirstHolding(filter, blocks, a, i)
                            && PlacedAt(i, a, length, r)
    {
      if filter.Range? && (a < filter.begin || a >= filter.begin + filter.length) {
        return NotStored;
      }
      var offset, i := memoryOffset, 0;
      while i < |blocks|
        invariant 0 <= i <= |blocks|
        invariant offset == memoryOffset + Total(filter, blocks, i)
        invariant forall j :: 0 <= j < i ==> !Dumps(filter, blocks[j], a)
      {
        var b := blocks[i];
        DumpsIsPart(filter, b, a);
        if !OutOfRange(filter, b) {
          var start, sizeInBlock := RangeInBlock(b);
          if a >= start && a < start + sizeInBlock {
            r := Stored(a - start + offset,
                        if a + length <= start + sizeInBlock then length else sizeInBlock - (a - start));
            Placed(i, a, length, r);
            return;
          }
          offset := offset + sizeInBlock;
        }
        i := i + 1;
      }
      r := NotStored;
    }

    /** The part of a block that is dumped, as get_offset_range works it out. */
    method RangeInBlock(b: Block) returns (start: nat, size: nat)
      requires BlockOk(b) && !OutOfRange(filter, b)
      ensures start == Low(filter, b) && start + size == High(filter, b)
    {
      if filter.Range? {
        start := if filter.begin <= b.start then b.start else filter.begin;
        size := b.end - start;
        if filter.begin + filter.length < b.end {
          size := size - (b.end - (filter.begin + filter.length));
        }
      } else {
        start, size := b.start, b.end - b.start;
      }
    }

    /** The file range holds the memory of block i from the address on. */
    ghost predicate PlacedAt(i: nat, a: nat, length: nat, r: Place)
      requires Valid() && i < |blocks| && Dumps(filter, blocks[i], a) && r.Stored?
    {
      && r.size == Min(length, High(filter, blocks[i]) - a) && memoryOffset <= r.offset
      && Shows(Contents(), r.offset - memoryOffset, blocks[i].memory, a - blocks[i].start, r.size)
    }

    lemma Placed(i: nat, a: nat, length: nat, r: Place)
      requires Valid() && FirstHolding(filter, blocks, a, i) && r.Stored?
      requires r.offset == a - Low(filter, blocks[i]) + memoryOffset + Total(filter, blocks, i)
      requires r.size == Min(length, High(filter, blocks[i]) - a)
      ensures FirstHolding(filter, blocks, a, i) && PlacedAt(i, a, length, r)
    {
      DumpsIsPart(filter, blocks[i], a);
      TotalIsLength(filter, blocks, parts, i);
      ShowsBlock(filter, blocks, parts, i, a, r.offset - memoryOffset, r.size);
    }

    /** get_start_block: the first block that is not skipped. */
    method GetStartBlock() returns (found: bool)
      requires Valid() && (filter.All? ==> blocks != [])
      modifies this`nextBlock, this`start
      ensures found <==> exists i :: 0 <= i < |blocks| && !OutOfRange(filter, blocks[i])
      ensures found ==> AtBlock() && AllSkipped(filter, blocks, 0, nextBlock)
    {
      if filter.All? {
        nextBlock, start := 0, 0;
        assert !OutOfRange(filter, blocks[0]);
        return true;
      }
      var i := 0;
      while i < |blocks|
        invariant 0 <= i <= |blocks|
        invariant forall j :: 0 <= j < i ==> OutOfRange(filter, blocks[j])
      {
        if !OutOfRange(filter, blocks[i]) {
          nextBlock := i;
          start := if filter.begin > blocks[i].start then filter.begin - blocks[i].start else 0;
          return true;
        }
        i := i + 1;
      }
      found := false;
    }

    /** next_block is a block to be dumped and `start` where its dumped part begins. */
    ghost predicate AtBlock()
      reads this
    {
      && nextBlock < |blocks| && !OutOfRange(filter, blocks[nextBlock])
      && start == Low(filter, blocks[nextBlock]) - blocks[nextBlock].start
    }

    /** get_next_block: moves on to the next block that is not skipped, if there is one. */
    method GetNextBlock(block: nat) returns (done: bool)
      requires Valid() && block < |blocks|
      modifies this`nextBlock, this`start
      ensures !done ==> AtBlock() && block < nextBlock
      ensures AllSkipped(filter, blocks, block + 1, if done then |blocks| else nextBlock)
    {
      var b := block;
      while true
        invariant block <= b < |blocks|
        invariant forall k :: block < k <= b ==> OutOfRange(filter, blocks[k])
        decreases |blocks| - b
      {
        b := b + 1;
        if b == |blocks| {
          return true;
        }
        start := 0;
        nextBlock := b;
        if filter.Range? {
          if OutOfRange(filter, blocks[b]) {
            continue;
          }
          if filter.begin > blocks[b].start {
            start := filter.begin - blocks[b].start;
          }
        }
        return false;
      }
    }

    /** write_memory: one write per page and one for the rest. */
    method WriteMemory(block: Block, from: nat, size: nat)
      requires Valid() && from + size <= |block.memory|
      modifies this`vmcore
      ensures vmcore == old(vmcore) + block.memory[from..from + size]
    {
      var pages, done := size / pageSize, 0;
      WholePages(size, pageSize);
      for i := 0 to pages
        invariant done == i * pageSize <= size
        invariant vmcore == old(vmcore) + block.memory[from..from + done]
      {
        NextPage(pageSize, i, pages);
        SliceStep(old(vmcore), block.memory, from, done, pageSize);
        vmcore := vmcore + block.memory[from + done..from + done + pageSize];
        done := done + pageSize;
      }
      if size % pageSize != 0 {
        SliceStep(old(vmcore), block.memory, from, done, size % pageSize);
        vmcore := vmcore + block.memory[from + done..from + done + size % pageSize];
      }
    }

    /** One turn of dump_iterate: writes the dumped part of the block. */
    method DumpBlock()
      requires Valid() && AtBlock()
      modifies this`vmcore
      ensures vmcore == old(vmcore) + Part(filter, blocks[nextBlock])
    {
      var block := blocks[nextBlock];
      DumpsIsPart(filter, block, 0);
      var size := block.end - block.start;
      if filter.Range? {
        size := size - start;
        if filter.begin + filter.length < block.end {
          size := size - (block.end - (filter.begin + filter.length));
        }
      }
      WriteMemory(block, start, size);
    }

    /** The checks of dump_init and the dump itself: it succeeds exactly if there is memory
        to dump, and then the file is its headers followed by the parts to be dumped. */
    method Create(headers: seq<Byte>) returns (ok: bool)
      requires Valid() && |headers| == memoryOffset
      modifies this
      ensures ok <==> Contents() != []
      ensures ok ==> vmcore == headers + Contents()
    {
      var total := CalculateSize();
      if total == 0 {
        return false;
      }
      SomethingToDump(filter, blocks, parts);
      var found := GetStartBlock();
      if !found {
        return false;
      }
      vmcore := headers;
      Iterate();
      ok := true;
    }

    /** The bytes of an address are where get_offset_range says. */
    lemma BytesLand(headers: seq<Byte>, file: seq<Byte>, i: nat, a: nat, length: nat, r: Place)
      requires Valid() && |headers| == memoryOffset && file == headers + Contents()
      requires i < |blocks| && Dumps(filter, blocks[i], a) && r.Stored? && PlacedAt(i, a, length, r)
      ensures Shows(file, r.offset, blocks[i].memory, a - blocks[i].start, r.size)
      ensures r.size == Min(length, High(filter, blocks[i]) - a)
    {
      var at := r.offset - memoryOffset;
      assert file[r.offset..r.offset + r.size] == Contents()[at..at + r.size];
    }

    /** dump_iterate: writes exactly the parts to be dumped, in order. */
    method Iterate()
      requires Valid() && AtBlock() && AllSkipped(filter, blocks, 0, nextBlock)
      modifies this
      ensures vmcore == old(vmcore) + Contents()
    {
      var done := false;
      ghost var n := nextBlock;
      SkippedParts(filter, blocks, parts, 0, n);
      while !done
        invariant !done ==> AtBlock() && n == nextBlock
        invariant done ==> n == |blocks|
        invariant n <= |blocks| && vmcore == old(vmcore) + Front(parts, n)
        decreases !done, |blocks| - n
      {
        var i := nextBlock;
        assert PartAt(filter, blocks, parts, i);
        Associative(old(vmcore), Front(parts, i), parts[i]);
        DumpBlock();
        done := GetNextBlock(i);
        n := if done then |blocks| else nextBlock;
        SkippedParts(filter, blocks, parts, i + 1, n);
      }
    }
  }

  /** n bytes of a file, from `at` on, are those of the memory from `from` on. */
  ghost predicate Shows(file: seq<Byte>, at: nat, memory: seq<Byte>, from: nat, n: nat) {
    at + n <= |file| && from + n <= |memory| && file[at..at + n] == memory[from..from + n]
  }

  /** The part of block i, among all of them, shows the memory of the block. */
  lemma ShowsBlock(f: Filter, blocks: seq<Block>, parts: seq<seq<Byte>>, i: nat, a: nat, at: nat, n: nat)
    requires BlocksOk(blocks) && AreParts(f, blocks, parts) && i < |blocks| && Dumps(f, blocks[i], a)
    requires a + n <= High(f, blocks[i]) && at == |Front(parts, i)| + (a - Low(f, blocks[i]))
    ensures Shows(Front(parts, |parts|), at, blocks[i].memory, a - blocks[i].start, n)
  {
    var b, whole, low := blocks[i], Front(parts, |parts|), |Front(parts, i)|;
    PartSlice(f, blocks, parts, i, a);
    FrontHolds(parts, i, |parts|);
    var s, t := whole[at..at + n], b.memory[a - b.start..a - b.start + n];
    forall k | 0 <= k < n
      ensures s[k] == t[k]
    {
      assert whole[low + (at - low + k)] == parts[i][at - low + k];
    }
  }

  lemma SliceStep(start: seq<Byte>, s: seq<Byte>, from: nat, done: nat, n: nat)
    requires from + done + n <= |s|
    ensures (start + s[from..from + done]) + s[from + done..from + done + n] == start + s[from..from + (done + n)]
  {
    assert s[from..from + done] + s[from + done..from + done + n] == s[from..from + (done + n)];
  }

  lemma WholePages(size: nat, page: nat)
    requires page > 0
    ensures size == size / page * page + size % page
  {
  }

  lemma NextPage(page: nat, i: nat, pages: nat)
    requires i < pages
    ensures (i + 1) * page == i * page + page <= pages * page
  {
    assert pages * page == (i + 1) * page + (pages - i - 1) * page;
  }

  /** If there is anything to dump, there is a block to start at. */
  lemma SomethingToDump(f: Filter, blocks: seq<Block>, parts: seq<seq<Byte>>)
    requires BlocksOk(blocks) && AreParts(f, blocks, parts) && Front(parts, |parts|) != []
    ensures exists i :: 0 <= i < |blocks| && !OutOfRange(f, blocks[i])
  {
    if AllSkipped(f, blocks, 0, |blocks|) {
      SkippedParts(f, blocks, parts, 0, |blocks|);
    }
  }
}
