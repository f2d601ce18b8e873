/** The page bitmap of the kdump writer: set_dump_bitmap and write_dump_bitmap in dump.c.

The bitmap is streamed through a buffer of one page.  It is written twice, at
offset_dump_bitmap and len_dump_bitmap bytes further on.  A buffer is the sequence of its
bits: bit b of byte y is entry 8 * y + b. */
module DumpBitmap {
  import opened Bytes
  import opened Pages
  import opened Radix
  import opened DumpElf
  import opened GuestPages
  import opened KdumpCache

  datatype Write = Write(offset: nat, bits: seq<bool>)

  /** offset_dump_bitmap, len_dump_bitmap and the page size. */
  datatype Geometry = Geometry(offset: nat, length: nat, page: nat)

  function BitsPerBuf(page: nat): nat {
    8 * page
  }

  function NoBits(page: nat): seq<bool> {
    seq(BitsPerBuf(page), i => false)
  }

  /** The number that w bits make, the lowest first. */
  function BitsValue(bits: seq<bool>, at: nat, w: nat): (r: nat)
    ensures r < Pow(2, w)
    decreases w
  {
    if w == 0 then 0
    else (if at < |bits| && bits[at] then 1 else 0) + 2 * BitsValue(bits, at + 1, w - 1)
  }

  /** Byte number y of the buffer. */
  function PackedByte(bits: seq<bool>, y: nat): Byte {
    assert Pow(2, 8) == 256;
    BitsValue(bits, 8 * y, 8) as Byte
  }

  /** The bytes of a buffer of n bytes. */
  function Packed(bits: seq<bool>, n: nat): (r: seq<Byte>)
    ensures |r| == n
  {
    seq(n, y requires y >= 0 => PackedByte(bits, y))
  }

  /** Bit i of a number, as a reader of the dump takes it by shifting right. */
  predicate BitOf(x: nat, i: nat) {
    if i == 0 then x % 2 == 1 else BitOf(x / 2, i - 1)
  }

  lemma Halved(b: nat, r: nat)
    requires b <= 1
    ensures (b + 2 * r) % 2 == b && (b + 2 * r) / 2 == r
  {
  }

  lemma {:induction false} BitsValueBit(bits: seq<bool>, at: nat, w: nat, i: nat)
    requires i < w && at + w <= |bits|
    ensures BitOf(BitsValue(bits, at, w), i) == bits[at + i]
    decreases w
  {
    Halved(if bits[at] then 1 else 0, BitsValue(bits, at + 1, w - 1));
    if i > 0 {
      BitsValueBit(bits, at + 1, w - 1, i - 1);
    }
  }

  lemma PackedByteBit(bits: seq<bool>, n: nat, y: nat, i: nat)
    requires |bits| == 8 * n && y < n && i < 8
    ensures BitOf(Packed(bits, n)[y] as nat, i) == bits[8 * y + i]
  {
    BitsValueBit(bits, 8 * y, 8, i);
    assert Packed(bits, n)[y] == PackedByte(bits, y);
  }

  /** The file holds what was written. */
  ghost predicate InImage(m: Image, w: Write, n: nat) {
    HasAt(m, w.offset, Packed(w.bits, n))
  }

  /** The write lies outside n bytes at an offset. */
  predicate Apart(w: Write, at: nat, n: nat) {
    w.offset + n <= at || at + n <= w.offset
  }

  lemma InImageKept(m: Image, m': Image, at: nat, data: seq<Byte>, w: Write, n: nat)
    requires InImage(m, w, n) && Written(m, m', at, data) && |data| == n && Apart(w, at, n)
    ensures InImage(m', w, n)
  {
    KeptApart(m, m', at, at + |data|, w.offset, Packed(w.bits, n));
  }

  /** The write is a copy of a buffer before number c. */
  predicate Before(w: Write, g: Geometry, c: nat) {
    || (g.offset <= w.offset && w.offset + g.page <= g.offset + g.page * c)
    || (g.offset + g.length <= w.offset && w.offset + g.page <= g.offset + g.length + g.page * c)
  }

  /** Both copies of buffer number c. */
  function BothCopies(g: Geometry, c: nat, bits: seq<bool>): seq<Write> {
    [Write(g.offset + g.page * c, bits), Write(g.offset + g.length + g.page * c, bits)]
  }

  // ---------------------------------------------------------------- what is to be written

  /** The bits of buffer number c: which of its page frames exist. */
  ghost function Chunk(page: nat, blocks: seq<Block>, c: nat): seq<bool>
    requires page > 0
  {
    seq(BitsPerBuf(page), i requires i >= 0 => Exists(page, blocks, BitsPerBuf(page) * c + i))
  }

  ghost function Bitmap(g: Geometry, blocks: seq<Block>, n: nat): seq<Write>
    requires g.page > 0
  {
    if n == 0 then [] else Bitmap(g, blocks, n - 1) + BothCopies(g, n - 1, Chunk(g.page, blocks, n - 1))
  }

  /** What moving from buffer c to buffer d writes: the buffer, then empty ones. */
  ghost function Flushes(g: Geometry, c: nat, d: nat, bits: seq<bool>): seq<Write> {
    if d <= c then []
    else Flushes(g, c, d - 1, bits) + BothCopies(g, d - 1, if d - 1 == c then bits else NoBits(g.page))
  }

  /** The buffer holds the existing page frames of chunk c up to `last`, if any was seen. */
  ghost predicate Holds(page: nat, blocks: seq<Block>, c: nat, bits: seq<bool>, seen: bool, last: nat)
    requires page > 0
  {
    && |bits| == BitsPerBuf(page)
    && forall i :: 0 <= i < BitsPerBuf(page) ==>
         (bits[i] <==> seen && BitsPerBuf(page) * c + i <= last && Exists(page, blocks, BitsPerBuf(page) * c + i))
  }

  // ---------------------------------------------------------------- chunks

  lemma ChunkRange(bits: nat, pfn: nat)
    requires bits > 0
    ensures bits * PageNo(bits, pfn) + PageOff(bits, pfn) == pfn < bits * (PageNo(bits, pfn) + 1)
  {
    PageSplit(bits, pfn);
  }

  lemma LaterChunk(bits: nat, c: nat, d: nat)
    requires bits > 0 && c < d
    ensures bits * (c + 1) <= bits * d
  {
  }

  lemma Eightfold(page: nat, n: nat)
    ensures BitsPerBuf(page) * n == 8 * (page * n)
  {
  }

  lemma NextBuffer(page: nat, e: nat, d: nat)
    requires page > 0
    ensures page * (e + 1) == page * e + page
    ensures page * e < page * d <==> e < d
  {
    if e < d {
      LaterChunk(page, e, d);
    } else if d < e {
      LaterChunk(page, d, e);
    }
  }

  /** When the walk leaves a chunk, the buffer is that chunk of the bitmap. */
  lemma ChunkComplete(page: nat, blocks: seq<Block>, c: nat, bits: seq<bool>, seen: bool, last: nat, pfn: nat)
    requires page > 0 && Holds(page, blocks, c, bits, seen, last)
    requires NoneBetween(page, blocks, if seen then last else -1, pfn) && BitsPerBuf(page) * (c + 1) <= pfn
    ensures bits == Chunk(page, blocks, c)
  {
    var n := BitsPerBuf(page);
    assert n * (c + 1) == n * c + n;
    forall i | 0 <= i < n
      ensures bits[i] == Chunk(page, blocks, c)[i]
    {
      var k := n * c + i;
    }
  }

  /** A chunk the walk jumps over is empty. */
  lemma ChunkEmpty(page: nat, blocks: seq<Block>, d: nat, seen: bool, last: nat, pfn: nat)
    requires page > 0 && NoneBetween(page, blocks, if seen then last else -1, pfn)
    requires BitsPerBuf(page) * (d + 1) <= pfn && (seen ==> last < BitsPerBuf(page) * d)
    ensures NoBits(page) == Chunk(page, blocks, d)
  {
    var n := BitsPerBuf(page);
    assert n * (d + 1) == n * d + n;
    forall i | 0 <= i < n
      ensures NoBits(page)[i] == Chunk(page, blocks, d)[i]
    {
      var k := n * d + i;
    }
  }

  /** So moving on writes exactly the next chunks of the bitmap. */
  lemma {:induction false} FlushesAreBitmap(g: Geometry, blocks: seq<Block>, c: nat, d: nat, bits: seq<bool>,
                                            seen: bool, last: nat, pfn: nat)
    requires g.page > 0 && c <= d && Holds(g.page, blocks, c, bits, seen, last)
    requires NoneBetween(g.page, blocks, if seen then last else -1, pfn) && BitsPerBuf(g.page) * d <= pfn
    requires seen ==> last < BitsPerBuf(g.page) * (c + 1)
    ensures Bitmap(g, blocks, c) + Flushes(g, c, d, bits) == Bitmap(g, blocks, d)
  {
    if c < d {
      var n := BitsPerBuf(g.page);
      LaterChunk(n, d - 1, d);
      FlushesAreBitmap(g, blocks, c, d - 1, bits, seen, last, pfn);
      if d - 1 == c {
        ChunkComplete(g.page, blocks, c, bits, seen, last, pfn);
      } else {
        LaterChunk(n, c, d - 1);
        ChunkEmpty(g.page, blocks, d - 1, seen, last, pfn);
      }
      AssociativeWrites(Bitmap(g, blocks, c), Flushes(g, c, d - 1, bits),
                        BothCopies(g, d - 1, Chunk(g.page, blocks, d - 1)));
    } else {
      assert Bitmap(g, blocks, c) + [] == Bitmap(g, blocks, c);
    }
  }

  lemma AssociativeWrites(a: seq<Write>, b: seq<Write>, c: seq<Write>)
    ensures (a + b) + c == a + (b + c)
  {
  }

  /** Entering the new page frame into the buffer. */
  lemma HoldsNext(page: nat, blocks: seq<Block>, c: nat, d: nat, bits: seq<bool>, after: seq<bool>, seen: bool,
                  last: nat, pfn: nat)
    requires page > 0 && Holds(page, blocks, c, bits, seen, last) && (seen ==> last < pfn)
    requires NoneBetween(page, blocks, if seen then last else -1, pfn) && Exists(page, blocks, pfn)
    requires d == PageNo(BitsPerBuf(page), pfn) && c <= d && (seen ==> last < BitsPerBuf(page) * (c + 1))
    requires after == (if c == d then bits else NoBits(page))[PageOff(BitsPerBuf(page), pfn) := true]
    ensures Holds(page, blocks, d, after, true, pfn)
  {
    var n := BitsPerBuf(page);
    ChunkRange(n, pfn);
    if c < d {
      LaterChunk(n, c, d);
    }
    forall i | 0 <= i < n
      ensures after[i] <==> n * d + i <= pfn && Exists(page, blocks, n * d + i)
    {
      var k := n * d + i;
    }
  }

  // ---------------------------------------------------------------- sizes

  function DivRoundUp(x: nat, y: nat): nat
    requires y > 0
  {
    (x + y - 1) / y
  }

  lemma RoundedUp(x: nat, y: nat, q: nat)
    requires y > 0 && y * q < x <= y * (q + 1)
    ensures DivRoundUp(x, y) == q + 1
  {
    assert y * (q + 1) == y * q + y;
    var z := x + y - 1;
    assert y * (q + 1) <= z < y * (q + 1) + y;
    QuotientIs(z, y, q + 1);
  }

  lemma QuotientIs(z: nat, y: nat, q: nat)
    requires y > 0 && y * q <= z < y * q + y
    ensures z / y == q
  {
    PageSplit(y, z);
    var p := PageNo(y, z);
    if p < q {
      LaterChunk(y, p, q);
    } else if p > q {
      LaterChunk(y, q, p);
    }
  }

  /** len_dump_bitmap is a whole number of buffers: enough for all page frames, no more. */
  lemma BitmapLength(page: nat, maxMapnr: nat)
    requires page > 0 && maxMapnr > 0
    ensures DivRoundUp(DivRoundUp(maxMapnr, 8), page) == PageNo(BitsPerBuf(page), maxMapnr - 1) + 1
  {
    var n := BitsPerBuf(page);
    ChunkRange(n, maxMapnr - 1);
    var q, bytes := PageNo(n, maxMapnr - 1), DivRoundUp(maxMapnr, 8);
    Eightfold(page, q);
    Eightfold(page, q + 1);
    assert page * q < bytes <= page * (q + 1);
    RoundedUp(bytes, page, q);
  }

  // ---------------------------------------------------------------- the writer

  class BitmapWriter {
    const page: nat
    const blocks: seq<Block>
    const offset: nat
    const length: nat
    const file: Vmcore
    const buffer: array<bool>
    var numDumpable: nat
    ghost const before: Image
    ghost var writes: seq<Write>

    /** The file holds what was written so far, and nothing outside the two areas has changed. */
    ghost predicate InFile()
      reads this`writes, file
    {
      && SameOutside(before, file.image, offset, offset + 2 * length)
      && forall i :: 0 <= i < |writes| ==> InImage(file.image, writes[i], page)
    }

    /** No buffer from number c on has been written. */
    ghost predicate Upto(c: nat)
      reads this`writes
    {
      forall i :: 0 <= i < |writes| ==> Before(writes[i], Layout(), c)
    }

    ghost function Layout(): Geometry {
      Geometry(offset, length, page)
    }

    /** get_max_mapnr and the computation of len_dump_bitmap. */
    constructor (page: nat, blocks: seq<Block>, offset: nat, file: Vmcore)
      requires GuestOk(page, blocks)
      ensures this.page == page && this.blocks == blocks && this.offset == offset && this.file == file
      ensures InFile() && Upto(0) && before == file.image && length == page * Buffers(page, blocks)
      ensures buffer.Length == BitsPerBuf(page) && fresh(buffer) && buffer[..] == NoBits(page) && writes == []
      ensures length == DivRoundUp(DivRoundUp(Limit(page, blocks[|blocks| - 1]), 8), page) * page
    {
      this.page, this.blocks, this.offset := page, blocks, offset;
      length := DivRoundUp(DivRoundUp(Limit(page, blocks[|blocks| - 1]), 8), page) * page;
      buffer := new bool[8 * page](i => false);
      this.file := file;
      numDumpable, writes, before := 0, [], file.image;
      LengthIsBuffers(page, blocks);
    }

    /** write_buffer, to where nothing has been written yet. */
    method WriteBuffer(at: nat, bits: seq<bool>)
      requires InFile() && offset <= at && at + page <= offset + 2 * length
      requires forall i :: 0 <= i < |writes| ==> Apart(writes[i], at, page)
      modifies this`writes, file
      ensures InFile() && writes == old(writes) + [Write(at, bits)]
    {
      ghost var m, data, end := file.image, Packed(bits, page), offset + 2 * length;
      OverwriteWrites(m, at, data);
      file.WriteBuffer(at, Packed(bits, page));
      SameOutsideBoth(before, m, file.image, offset, end, at, at + page, end);
      forall i | 0 <= i < |writes|
        ensures InImage(file.image, writes[i], page)
      {
        InImageKept(m, file.image, at, data, writes[i], page);
      }
      writes := writes + [Write(at, bits)];
    }

    method Reset()
      modifies buffer
      ensures buffer[..] == seq(buffer.Length, i => false)
    {
      for i := 0 to buffer.Length
        invariant forall j :: 0 <= j < i ==> !buffer[j]
      {
        buffer[i] := false;
      }
    }

    /** Writes buffer number e out, twice, and clears it. */
    method FlushBuffer(ghost e: nat, at: nat)
      requires page > 0 && buffer.Length == BitsPerBuf(page) && at == page * e && page * (e + 1) <= length
      requires InFile() && Upto(e)
      modifies this`writes, buffer, file
      ensures InFile() && Upto(e + 1)
      ensures writes == old(writes) + BothCopies(Layout(), e, old(buffer[..])) && buffer[..] == NoBits(page)
    {
      NextBuffer(page, e, e);
      var bits := buffer[..];
      WriteBuffer(offset + at, bits);
      WriteBuffer(offset + length + at, bits);
      Reset();
    }

    /** The loop of set_dump_bitmap: writes the buffer out while it is not the one the new bit
        belongs to. */
    method MoveTo(ghost c: nat, ghost d: nat, oldOffset: nat, newOffset: nat)
      requires page > 0 && c <= d && buffer.Length == BitsPerBuf(page)
      requires oldOffset == page * c && newOffset == page * d <= length && InFile() && Upto(c)
      modifies this`writes, buffer, file
      ensures InFile() && Upto(d)
      ensures writes == old(writes) + Flushes(Layout(), c, d, old(buffer[..]))
      ensures buffer[..] == if c == d then old(buffer[..]) else NoBits(page)
    {
      var at := oldOffset;
      ghost var e := c;
      ghost var start, bits, g := writes, buffer[..], Layout();
      while at < newOffset
        invariant c <= e <= d && at == page * e && InFile() && Upto(e)
        invariant writes == start + Flushes(g, c, e, bits)
        invariant buffer[..] == if c == e then bits else NoBits(page)
        decreases newOffset - at
      {
        NextBuffer(page, e, d);
        Times(page, e + 1, d);
        AssociativeWrites(start, Flushes(g, c, e, bits), BothCopies(g, e, buffer[..]));
        FlushBuffer(e, at);
        at := at + page;
        e := e + 1;
      }
      NextBuffer(page, e, d);
      assert e == d;
    }

    /** set_dump_bitmap: writes out the buffers up to the one of the new bit, then sets it. */
    method SetDumpBitmap(lastPfn: nat, pfn: nat, value: bool)
      requires page > 0 && lastPfn <= pfn && buffer.Length == BitsPerBuf(page)
      requires page * PageNo(BitsPerBuf(page), pfn) <= length && InFile() && Upto(PageNo(BitsPerBuf(page), lastPfn))
      modifies this`writes, buffer, file
      ensures InFile() && Upto(PageNo(BitsPerBuf(page), pfn))
      ensures var n := BitsPerBuf(page);
              var c, d := PageNo(n, lastPfn), PageNo(n, pfn);
              && writes == old(writes) + Flushes(Layout(), c, d, old(buffer[..]))
              && buffer[..] == (if c == d then old(buffer[..]) else NoBits(page))[PageOff(n, pfn) := value]
    {
      var n := BitsPerBuf(page);
      PageOrder(n, lastPfn, pfn);
      var c, d := PageNo(n, lastPfn), PageNo(n, pfn);
      MoveTo(c, d, page * c, page * d);
      var byte, bit := PageOff(n, pfn) / 8, PageOff(n, pfn) % 8;
      buffer[8 * byte + bit] := value;
    }

    /** write_dump_bitmap: writes the bitmap of the existing page frames, twice, and counts
        them. */
    method WriteDumpBitmap()
      requires GuestOk(page, blocks) && buffer.Length == BitsPerBuf(page) && buffer[..] == NoBits(page)
      requires InFile() && Upto(0) && length == page * Buffers(page, blocks)
      modifies this, buffer, file
      ensures InFile()
      ensures var n := Buffers(page, blocks);
              writes == old(writes) + Bitmap(Layout(), blocks, n)
      ensures numDumpable == PageCount(page, blocks, |blocks|)
    {
      var n := BitsPerBuf(page);
      var walker := new PageWalker(page, blocks);
      var num, last := 0, 0;
      assert writes == writes + Bitmap(Layout(), blocks, 0);
      while true
        invariant walker.Valid() && walker.page == page && walker.blocks == blocks
        invariant walker.started <==> num > 0
        invariant walker.started ==> walker.block < |blocks|
        invariant InFile() && Upto(PageNo(n, last))
        invariant num == walker.Passed() && last == if num > 0 then walker.pfn else 0
        invariant writes == old(writes) + Bitmap(Layout(), blocks, PageNo(n, last))
        invariant Holds(page, blocks, PageNo(n, last), buffer[..], num > 0, last)
        decreases !walker.started, |blocks| - walker.block, walker.Left()
      {
        var more, bytes := walker.Next();
        if !more {
          break;
        }
        EnterPage(last, walker.pfn, num > 0, old(writes));
        last := walker.pfn;
        num := num + 1;
      }
      if num > 0 {
        CloseBitmap(last, old(writes));
      }
      numDumpable := num;
    }

    /** The body of the loop of write_dump_bitmap: the bit of the next existing page frame. */
    method EnterPage(last: nat, pfn: nat, ghost seen: bool, ghost start: seq<Write>)
      requires GuestOk(page, blocks) && buffer.Length == BitsPerBuf(page)
      requires InFile() && Upto(PageNo(BitsPerBuf(page), last)) && length == page * Buffers(page, blocks)
      requires NoneBetween(page, blocks, if seen then last else -1, pfn) && Exists(page, blocks, pfn)
      requires if seen then last < pfn else last == 0
      requires Holds(page, blocks, PageNo(BitsPerBuf(page), last), buffer[..], seen, last)
      requires writes == start + Bitmap(Layout(), blocks, PageNo(BitsPerBuf(page), last))
      modifies this`writes, buffer, file
      ensures InFile() && Upto(PageNo(BitsPerBuf(page), pfn))
      ensures writes == start + Bitmap(Layout(), blocks, PageNo(BitsPerBuf(page), pfn))
      ensures Holds(page, blocks, PageNo(BitsPerBuf(page), pfn), buffer[..], true, pfn)
    {
      var n := BitsPerBuf(page);
      ghost var c, d, bits := PageNo(n, last), PageNo(n, pfn), buffer[..];
      PageOrder(n, last, pfn);
      ChunkRange(n, last);
      ChunkRange(n, pfn);
      BufferExists(page, blocks, pfn);
      FlushesAreBitmap(Layout(), blocks, c, d, bits, seen, last, pfn);
      AssociativeWrites(start, Bitmap(Layout(), blocks, c), Flushes(Layout(), c, d, bits));
      SetDumpBitmap(last, pfn, true);
      HoldsNext(page, blocks, c, d, bits, buffer[..], seen, last, pfn);
    }

    /** The closing call: it flushes the buffer of the last page frame and nothing past it. */
    method CloseBitmap(last: nat, ghost start: seq<Write>)
      requires GuestOk(page, blocks) && buffer.Length == BitsPerBuf(page)
      requires InFile() && Upto(PageNo(BitsPerBuf(page), last)) && length == page * Buffers(page, blocks)
      requires Exists(page, blocks, last) && NoneAfter(page, blocks, last)
      requires Holds(page, blocks, PageNo(BitsPerBuf(page), last), buffer[..], true, last)
      requires writes == start + Bitmap(Layout(), blocks, PageNo(BitsPerBuf(page), last))
      modifies this`writes, buffer, file
      ensures InFile()
      ensures writes == start + Bitmap(Layout(), blocks, Buffers(page, blocks))
    {
      var n := BitsPerBuf(page);
      ghost var c, bits := PageNo(n, last), buffer[..];
      LastFrame(page, blocks, last);
      ChunkRange(n, last);
      FlushesAreBitmap(Layout(), blocks, c, c + 1, bits, true, last, n * (c + 1));
      AssociativeWrites(start, Bitmap(Layout(), blocks, c), Flushes(Layout(), c, c + 1, bits));
      SetDumpBitmap(last, last + n, false);
    }
  }

  lemma LastFrame(page: nat, blocks: seq<Block>, last: nat)
    requires GuestOk(page, blocks)
    requires Exists(page, blocks, last) && NoneAfter(page, blocks, last)
    ensures last == Limit(page, blocks[|blocks| - 1]) - 1
  {
    var z := |blocks| - 1;
    var top := Limit(page, blocks[z]) - 1;
    PageFits(page, blocks[z], 0);
    assert InBlock(page, blocks[z], top);
    assert Exists(page, blocks, top);
    var i :| 0 <= i < |blocks| && InBlock(page, blocks[i], last);
    if i < z {
      assert Limit(page, blocks[i]) <= First(page, blocks[z]);
    }
  }

  /** The number of buffers: those up to the one of the last page frame. */
  ghost function Buffers(page: nat, blocks: seq<Block>): nat
    requires GuestOk(page, blocks)
  {
    PageFits(page, blocks[|blocks| - 1], 0);
    PageNo(BitsPerBuf(page), Limit(page, blocks[|blocks| - 1]) - 1) + 1
  }

  lemma {:induction false} BitmapAt(g: Geometry, blocks: seq<Block>, n: nat, c: nat)
    requires g.page > 0
    ensures |Bitmap(g, blocks, n)| == 2 * n
    ensures c < n ==> Bitmap(g, blocks, n)[2 * c] == Write(g.offset + g.page * c, Chunk(g.page, blocks, c))
    ensures c < n ==> Bitmap(g, blocks, n)[2 * c + 1]
                      == Write(g.offset + g.length + g.page * c, Chunk(g.page, blocks, c))
  {
    if n > 0 {
      BitmapAt(g, blocks, n - 1, c);
    }
  }

  lemma LengthIsBuffers(page: nat, blocks: seq<Block>)
    requires GuestOk(page, blocks)
    ensures DivRoundUp(DivRoundUp(Limit(page, blocks[|blocks| - 1]), 8), page) * page == page * Buffers(page, blocks)
  {
    PageFits(page, blocks[|blocks| - 1], 0);
    BitmapLength(page, Limit(page, blocks[|blocks| - 1]));
  }

  lemma ChunkOfBit(page: nat, n: nat, k: nat)
    requires page > 0 && k < 8 * (page * n)
    ensures var c := PageNo(BitsPerBuf(page), k); c < n && page * c + page <= page * n
  {
    var bits := BitsPerBuf(page);
    var c := PageNo(bits, k);
    ChunkRange(bits, k);
    Eightfold(page, n);
    if n <= c {
      Times(bits, n, c);
    }
    Times(page, c + 1, n);
    Times(page, c, n);
  }

  /** The writes fill two areas of len_dump_bitmap bytes each, buffer by buffer, and in both
      the bit of page frame k is set exactly if that page exists. */
  lemma BitmapIsExact(g: Geometry, blocks: seq<Block>, k: nat)
    requires GuestOk(g.page, blocks)
    requires g.length == g.page * Buffers(g.page, blocks) && k < 8 * g.length
    ensures var n := Buffers(g.page, blocks);
            var c, i := PageNo(BitsPerBuf(g.page), k), PageOff(BitsPerBuf(g.page), k);
            var writes := Bitmap(g, blocks, n);
            && c < n && |writes| == 2 * n
            && writes[2 * c].offset == g.offset + g.page * c && g.page * c + g.page <= g.length
            && writes[2 * c + 1] == Write(writes[2 * c].offset + g.length, writes[2 * c].bits)
            && |writes[2 * c].bits| == BitsPerBuf(g.page)
            && (writes[2 * c].bits[i] <==> Exists(g.page, blocks, k))
  {
    var n, bits := Buffers(g.page, blocks), BitsPerBuf(g.page);
    ChunkOfBit(g.page, n, k);
    ChunkRange(bits, k);
    BitmapAt(g, blocks, n, PageNo(bits, k));
  }

  /** A page frame past the bitmap does not exist. */
  lemma BitmapCoversAll(page: nat, blocks: seq<Block>, k: nat)
    requires GuestOk(page, blocks) && Exists(page, blocks, k)
    ensures k < 8 * (page * Buffers(page, blocks))
  {
    ExistsBelow(page, blocks, k);
    var bits, n := BitsPerBuf(page), Buffers(page, blocks);
    ChunkRange(bits, Limit(page, blocks[|blocks| - 1]) - 1);
    Eightfold(page, n);
  }

  lemma ExistsBelow(page: nat, blocks: seq<Block>, k: nat)
    requires GuestOk(page, blocks) && Exists(page, blocks, k)
    ensures k < Limit(page, blocks[|blocks| - 1])
  {
    var z := |blocks| - 1;
    PageFits(page, blocks[z], 0);
    var i :| 0 <= i < |blocks| && InBlock(page, blocks[i], k);
    if i < z {
      assert Limit(page, blocks[i]) <= First(page, blocks[z]);
    }
  }

  /** The buffer of an existing page frame is one of those that are written. */
  lemma BufferExists(page: nat, blocks: seq<Block>, pfn: nat)
    requires GuestOk(page, blocks) && Exists(page, blocks, pfn)
    ensures PageNo(BitsPerBuf(page), pfn) < Buffers(page, blocks)
    ensures page * PageNo(BitsPerBuf(page), pfn) <= page * Buffers(page, blocks)
  {
    BitmapCoversAll(page, blocks, pfn);
    ChunkOfBit(page, Buffers(page, blocks), pfn);
  }

  // ---------------------------------------------------------------- reading the bitmap

  /** Bit k of a bitmap that starts at an offset of the file. */
  predicate BitAt(m: Image, base: nat, k: nat) {
    base + k / 8 in m && BitOf(m[base + k / 8] as nat, k % 8)
  }

  lemma BitPlace(start: nat, k: nat, i: nat) returns (y: nat, j: nat)
    requires k == 8 * start + i
    ensures i == 8 * y + j && j < 8 && k / 8 == start + y && k % 8 == j
  {
    y, j := i / 8, i % 8;
  }

  /** The byte and the bit of page frame k in its buffer. */
  lemma PlaceInBuffer(page: nat, k: nat) returns (y: nat, j: nat)
    requires page > 0
    ensures var bits := BitsPerBuf(page);
            && PageOff(bits, k) == 8 * y + j && j < 8 && y < page
            && k / 8 == page * PageNo(bits, k) + y && k % 8 == j
  {
    var bits := BitsPerBuf(page);
    ChunkRange(bits, k);
    Eightfold(page, PageNo(bits, k));
    y, j := BitPlace(page * PageNo(bits, k), k, PageOff(bits, k));
  }

  lemma CopyBit(m: Image, w: Write, base: nat, start: nat, page: nat, k: nat, i: nat, y: nat, j: nat)
    requires InImage(m, w, page) && w.offset == base + start && |w.bits| == 8 * page && y < page && j < 8
    requires i == 8 * y + j && k / 8 == start + y && k % 8 == j
    ensures BitAt(m, base, k) <==> w.bits[i]
  {
    PackedByteBit(w.bits, page, y, j);
    var at := w.offset + y;
    assert at in m && m[at] == Packed(w.bits, page)[y];
    assert at == base + k / 8;
  }

  lemma BothShow(m: Image, w: Write, w': Write, g: Geometry, start: nat, k: nat)
    requires g.page > 0 && InImage(m, w, g.page) && InImage(m, w', g.page)
    requires w.offset == g.offset + start && w' == Write(w.offset + g.length, w.bits)
    requires |w.bits| == BitsPerBuf(g.page) && start == g.page * PageNo(BitsPerBuf(g.page), k)
    ensures var i := PageOff(BitsPerBuf(g.page), k);
            && i < |w.bits|
            && (BitAt(m, g.offset, k) <==> w.bits[i]) && (BitAt(m, g.offset + g.length, k) <==> w.bits[i])
  {
    var i := PageOff(BitsPerBuf(g.page), k);
    var y, j := PlaceInBuffer(g.page, k);
    CopyBit(m, w, g.offset, start, g.page, k, i, y, j);
    CopyBit(m, w', g.offset + g.length, start, g.page, k, i, y, j);
  }

  /** In a file that holds what was written, both copies have the bit of page frame k set
      exactly if that page exists. */
  lemma BitmapInFile(m: Image, g: Geometry, blocks: seq<Block>, k: nat)
    requires GuestOk(g.page, blocks)
    requires g.length == g.page * Buffers(g.page, blocks) && k < 8 * g.length
    requires var writes := Bitmap(g, blocks, Buffers(g.page, blocks));
             forall i :: 0 <= i < |writes| ==> InImage(m, writes[i], g.page)
    ensures BitAt(m, g.offset, k) <==> Exists(g.page, blocks, k)
    ensures BitAt(m, g.offset + g.length, k) <==> Exists(g.page, blocks, k)
  {
    var writes := Bitmap(g, blocks, Buffers(g.page, blocks));
    var c := PageNo(BitsPerBuf(g.page), k);
    BitmapIsExact(g, blocks, k);
    BothShow(m, writes[2 * c], writes[2 * c + 1], g, g.page * c, k);
  }
}
