/** The whole kdump-compressed file: create_kdump_vmcore in dump.c.

The headers, both copies of the bitmap, the page descriptors and the page data are written to
one file.  What the headers say is not part of this model; where they are put is. */
module Kdump {
  import opened Bytes
  import opened DumpBitmap
  import opened DumpElf
  import opened GuestPages
  import opened KdumpCache
  import opened KdumpPages

  /** The larger of the two layouts of the common header. */
  const COMMON_HEADER_SIZE: nat := 464

  /** len_dump_bitmap. */
  ghost function BitmapSize(page: nat, blocks: seq<Block>): nat
    requires GuestOk(page, blocks)
  {
    page * Buffers(page, blocks)
  }

  /** The headers are where readers look for them. */
  ghost predicate HeadersAt(m: Image, page: nat, header: seq<Byte>, subHeader: seq<Byte>, notes: seq<Byte>) {
    HasAt(m, 0, header) && HasAt(m, page, subHeader) && HasAt(m, page + |subHeader|, notes)
  }

  lemma HeadersKept(m: Image, m': Image, low: nat, high: nat, page: nat, header: seq<Byte>, subHeader: seq<Byte>,
                    notes: seq<Byte>)
    requires HeadersAt(m, page, header, subHeader, notes) && SameOutside(m, m', low, high)
    requires |header| <= page && page + |subHeader| + |notes| <= low
    ensures HeadersAt(m', page, header, subHeader, notes)
  {
    KeptApart(m, m', low, high, 0, header);
    KeptApart(m, m', low, high, page, subHeader);
    KeptApart(m, m', low, high, page + |subHeader|, notes);
  }

  lemma HeadersWritten(m1: Image, m2: Image, m3: Image, page: nat, header: seq<Byte>, subHeader: seq<Byte>,
                       notes: seq<Byte>)
    requires HasAt(m1, 0, header) && |header| <= page
    requires Written(m1, m2, page, subHeader) && Written(m2, m3, page + |subHeader|, notes)
    ensures HeadersAt(m3, page, header, subHeader, notes)
  {
    KeptApart(m1, m2, page, page + |subHeader|, 0, header);
    KeptApart(m2, m3, page + |subHeader|, page + |subHeader| + |notes|, 0, header);
    KeptApart(m2, m3, page + |subHeader|, page + |subHeader| + |notes|, page, subHeader);
  }

  /** The writes of create_header32 and create_header64. */
  method WriteHeaders(file: Vmcore, page: nat, header: seq<Byte>, subHeader: seq<Byte>, notes: seq<Byte>)
    requires |header| <= page
    modifies file
    ensures HeadersAt(file.image, page, header, subHeader, notes)
  {
    file.WriteBuffer(0, header);
    ghost var m1 := file.image;
    file.WriteBuffer(page, subHeader);
    ghost var m2 := file.image;
    file.WriteBuffer(page + |subHeader|, notes);
    HeadersWritten(m1, m2, file.image, page, header, subHeader, notes);
  }

  /** Both copies of the bitmap say which page frames exist. */
  ghost predicate BitmapsAt(m: Image, page: nat, blocks: seq<Block>, offset: nat)
    requires GuestOk(page, blocks)
  {
    var length := BitmapSize(page, blocks);
    forall k: nat :: k < 8 * length ==>
      && (BitAt(m, offset, k) <==> Exists(page, blocks, k))
      && (BitAt(m, offset + length, k) <==> Exists(page, blocks, k))
  }

  lemma BitKept(m: Image, m': Image, low: nat, high: nat, base: nat, k: nat)
    requires SameOutside(m, m', low, high) && base + k / 8 < low
    ensures BitAt(m, base, k) == BitAt(m', base, k)
  {
  }

  lemma BitmapsKept(m: Image, m': Image, low: nat, high: nat, page: nat, blocks: seq<Block>, offset: nat)
    requires GuestOk(page, blocks) && BitmapsAt(m, page, blocks, offset) && SameOutside(m, m', low, high)
    requires offset + 2 * BitmapSize(page, blocks) <= low
    ensures BitmapsAt(m', page, blocks, offset)
  {
    var length := BitmapSize(page, blocks);
    forall k: nat | k < 8 * length
      ensures BitAt(m', offset, k) <==> Exists(page, blocks, k)
      ensures BitAt(m', offset + length, k) <==> Exists(page, blocks, k)
    {
      BitKept(m, m', low, high, offset, k);
      BitKept(m, m', low, high, offset + length, k);
    }
  }

  /** write_dump_bitmap on the file. */
  method WriteBitmaps(file: Vmcore, page: nat, blocks: seq<Block>, offset: nat) returns (numDumpable: nat)
    requires GuestOk(page, blocks)
    modifies file
    ensures numDumpable == PageCount(page, blocks, |blocks|) && BitmapsAt(file.image, page, blocks, offset)
    ensures SameOutside(old(file.image), file.image, offset, offset + 2 * BitmapSize(page, blocks))
  {
    var w := new BitmapWriter(page, blocks, offset, file);
    w.WriteDumpBitmap();
    numDumpable := w.numDumpable;
    ghost var g := w.Layout();
    assert [] + Bitmap(g, blocks, Buffers(page, blocks)) == Bitmap(g, blocks, Buffers(page, blocks));
    forall k: nat | k < 8 * BitmapSize(page, blocks)
      ensures BitAt(file.image, offset, k) <==> Exists(page, blocks, k)
      ensures BitAt(file.image, offset + BitmapSize(page, blocks), k) <==> Exists(page, blocks, k)
    {
      BitmapInFile(file.image, g, blocks, k);
    }
  }

  /** create_kdump_vmcore: if the offsets fit their 32 bits, a reader of the finished file finds
      the headers, the bit of every page frame in both bitmaps, a descriptor for every page and
      the page it describes. */
  method CreateKdumpVmcore(page: nat, blocks: seq<Block>, big: bool, flag: nat, compress: (nat, seq<Byte>) -> Outcome,
                           header: seq<Byte>, subHeader: seq<Byte>, notes: seq<Byte>, file: Vmcore)
    returns (ghost w: PageWriter, ghost pfns: seq<nat>, ghost pages: seq<seq<Byte>>, ghost descs: seq<Descriptor>,
             ghost stream: seq<Byte>)
    requires GuestOk(page, blocks) && |header| <= COMMON_HEADER_SIZE <= page
    requires (1 + DivRoundUp(|subHeader| + |notes|, page)) * page < WORD
    requires OffsetBitmap(page, |subHeader|, |notes|) + 2 * BitmapSize(page, blocks) < WORD
    modifies file
    ensures HeadersAt(file.image, page, header, subHeader, notes)
    ensures BitmapsAt(file.image, page, blocks, OffsetBitmap(page, |subHeader|, |notes|))
    ensures w.page == page && w.big == big && w.flag == flag && w.compress == compress && w.file == file
    ensures w.desc.base == OffsetBitmap(page, |subHeader|, |notes|) + 2 * BitmapSize(page, blocks)
    ensures Complete(w.page, blocks, w.big, w.flag, w.compress, w.file.image, w.desc.base, w.data.base,
                     pfns, pages, descs, stream)
  {
    ghost var size := BitmapSize(page, blocks);
    AreasAreAdjacent(page, |subHeader|, |notes|, size, Buffers(page, blocks));
    LengthIsBuffers(page, blocks);
    var length := DivRoundUp(DivRoundUp(Limit(page, blocks[|blocks| - 1]), 8), page) * page;
    WriteHeaders(file, page, header, subHeader, notes);
    var offsetBitmap := OffsetBitmap(page, |subHeader|, |notes|);
    ghost var m1 := file.image;
    var numDumpable := WriteBitmaps(file, page, blocks, offsetBitmap);
    ghost var m2 := file.image;
    HeadersKept(m1, m2, offsetBitmap, offsetBitmap + 2 * size, page, header, subHeader, notes);
    var offsetPage := OffsetPage(page, |subHeader|, |notes|, length);
    w, pfns, pages, descs, stream := WriteDumpPages(page, blocks, big, flag, compress, file, offsetPage, numDumpable);
    HeadersKept(m2, file.image, offsetPage, w.data.base + |stream|, page, header, subHeader, notes);
    BitmapsKept(m2, file.image, offsetPage, w.data.base + |stream|, page, blocks, offsetBitmap);
  }
}
