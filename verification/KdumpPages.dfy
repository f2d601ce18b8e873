/** The page data of the kdump writer: write_dump_pages in dump.c.

Every existing page gets a 24-byte descriptor.  All zero pages share one page of zeros at
the start of the data area; another page is stored compressed, or as it is if the
compressor fails or does not make it smaller.  The compressor is an arbitrary function of
the page number and the page, and the descriptors are written in the byte order of the
target. */
module KdumpPages {
  import opened Bytes
  import opened Pages
  import opened DumpBitmap
  import opened DumpElf
  import opened GuestPages
  import opened KdumpCache

  datatype Outcome = Failed | Compressed(bytes: seq<Byte>)

  /** PageDescriptor; page_flags is always 0. */
  datatype Descriptor = Descriptor(offset: nat, size: nat, flags: nat)

  const DESCRIPTOR_SIZE: nat := 24

  function Reversed(s: seq<Byte>): (r: seq<Byte>)
    ensures |r| == |s|
  {
    if s == [] then [] else Reversed(s[1..]) + [s[0]]
  }

  /** cpu_to_dump32 and cpu_to_dump64. */
  function Field(big: bool, width: nat, x: nat): (r: seq<Byte>)
    ensures |r| == width
  {
    if big then Reversed(Little(width, x)) else Little(width, x)
  }

  function Encoded(big: bool, d: Descriptor): (r: seq<Byte>)
    ensures |r| == DESCRIPTOR_SIZE
  {
    Field(big, 8, d.offset) + Field(big, 4, d.size) + Field(big, 4, d.flags) + Field(big, 8, 0)
  }

  function EncodedAll(big: bool, descs: seq<Descriptor>): (r: seq<seq<Byte>>)
    ensures |r| == |descs|
  {
    seq(|descs|, i requires 0 <= i < |descs| => Encoded(big, descs[i]))
  }

  /** How a reader of the target's byte order takes a field. */
  function FieldValue(big: bool, s: seq<Byte>): nat {
    FromLittle(if big then Reversed(s) else s)
  }

  lemma {:induction false} ReversedAppend(s: seq<Byte>, b: Byte)
    ensures Reversed(s + [b]) == [b] + Reversed(s)
  {
    if s == [] {
      assert [] + [b] == [b] && [b][1..] == [];
    } else {
      ReversedAppend(s[1..], b);
      assert (s + [b])[1..] == s[1..] + [b];
    }
  }

  lemma {:induction false} ReversedTwice(s: seq<Byte>)
    ensures Reversed(Reversed(s)) == s
  {
    if s != [] {
      ReversedTwice(s[1..]);
      ReversedAppend(Reversed(s[1..]), s[0]);
      assert s == [s[0]] + s[1..];
    }
  }

  lemma FieldRoundTrip(big: bool, width: nat, x: nat)
    requires x < Capacity(width)
    ensures FieldValue(big, Field(big, width, x)) == x
  {
    ReversedTwice(Little(width, x));
    LittleRoundTrip(width, x);
  }

  /** A descriptor gives back offset, size and flags at the places of PageDescriptor. */
  lemma DescriptorFields(big: bool, d: Descriptor)
    requires d.offset < Capacity(8) && d.size < Capacity(4) && d.flags < Capacity(4)
    ensures FieldValue(big, Encoded(big, d)[0..8]) == d.offset
    ensures FieldValue(big, Encoded(big, d)[8..12]) == d.size
    ensures FieldValue(big, Encoded(big, d)[12..16]) == d.flags
    ensures FieldValue(big, Encoded(big, d)[16..24]) == 0
  {
    var e := Encoded(big, d);
    assert e[0..8] == Field(big, 8, d.offset) && e[8..12] == Field(big, 4, d.size);
    assert e[12..16] == Field(big, 4, d.flags) && e[16..24] == Field(big, 8, 0);
    FieldRoundTrip(big, 8, d.offset);
    FieldRoundTrip(big, 4, d.size);
    FieldRoundTrip(big, 4, d.flags);
    FieldRoundTrip(big, 8, 0);
  }

  /** The compressor was used: it succeeded and made the page smaller. */
  predicate Shrinks(page: nat, o: Outcome) {
    o.Compressed? && |o.bytes| < page
  }

  /** What a reader that follows the descriptor must find for page number k. */
  ghost predicate Describes(page: nat, flag: nat, compress: (nat, seq<Byte>) -> Outcome,
                            k: nat, bytes: seq<Byte>, d: Descriptor, base: nat, data: seq<Byte>)
  {
    && base <= d.offset && d.offset - base + d.size <= |data|
    && var found := data[d.offset - base..d.offset - base + d.size];
       if bytes == Zeros(page) then d == Descriptor(base, page, 0) && found == bytes
       else if Shrinks(page, compress(k, bytes)) then d.flags == flag && found == compress(k, bytes).bytes
       else d.flags == 0 && found == bytes
  }

  ghost predicate AllDescribed(page: nat, flag: nat, compress: (nat, seq<Byte>) -> Outcome,
                               pages: seq<seq<Byte>>, descs: seq<Descriptor>, base: nat, data: seq<Byte>)
  {
    && |pages| == |descs|
    && forall k :: 0 <= k < |descs| ==> Describes(page, flag, compress, k, pages[k], descs[k], base, data)
  }

  /** Appending to the data area keeps what was described. */
  lemma DescribedGrows(page: nat, flag: nat, compress: (nat, seq<Byte>) -> Outcome,
                       pages: seq<seq<Byte>>, descs: seq<Descriptor>, base: nat, data: seq<Byte>, more: seq<Byte>)
    requires AllDescribed(page, flag, compress, pages, descs, base, data)
    ensures AllDescribed(page, flag, compress, pages, descs, base, data + more)
  {
    forall k | 0 <= k < |descs|
      ensures Describes(page, flag, compress, k, pages[k], descs[k], base, data + more)
    {
      var d := descs[k];
      SliceKept(data, more, d.offset - base, d.size);
    }
  }

  lemma SliceKept(data: seq<Byte>, more: seq<Byte>, at: int, n: nat)
    requires 0 <= at && at + n <= |data|
    ensures (data + more)[at..at + n] == data[at..at + n]
  {
  }

  lemma PrefixGrows(a: seq<Byte>, b: seq<Byte>, c: seq<Byte>)
    requires a <= b
    ensures a <= b + c
  {
  }

  // ---------------------------------------------------------------- which pages

  /** The page frames visited so far, in ascending order: all existing ones up to the last. */
  ghost predicate Visited(page: nat, blocks: seq<Block>, pfns: seq<nat>, pages: seq<seq<Byte>>)
    requires GuestOk(page, blocks)
  {
    && |pfns| == |pages|
    && (forall k :: 0 <= k < |pfns| ==> IsPage(page, blocks, pfns[k], pages[k]))
    && Ascending(pfns) && Covered(page, blocks, pfns)
  }

  ghost predicate Ascending(pfns: seq<nat>) {
    forall i, j :: 0 <= i < j < |pfns| ==> pfns[i] < pfns[j]
  }

  ghost predicate Covered(page: nat, blocks: seq<Block>, pfns: seq<nat>)
    requires page > 0
  {
    forall pfn: nat :: Exists(page, blocks, pfn) && |pfns| > 0 && pfn <= pfns[|pfns| - 1] ==> pfn in pfns
  }

  ghost predicate AllVisited(page: nat, blocks: seq<Block>, pfns: seq<nat>)
    requires page > 0
  {
    forall pfn :: Exists(page, blocks, pfn) ==> pfn in pfns
  }

  lemma VisitedAll(page: nat, blocks: seq<Block>, pfns: seq<nat>)
    requires page > 0 && Covered(page, blocks, pfns) && pfns != []
    requires NoneAfter(page, blocks, pfns[|pfns| - 1])
    ensures AllVisited(page, blocks, pfns)
  {
  }

  ghost predicate IsPage(page: nat, blocks: seq<Block>, pfn: nat, bytes: seq<Byte>)
    requires GuestOk(page, blocks)
  {
    exists i :: PageBytes(page, blocks, pfn, i, bytes)
  }

  /** The page frame is the next existing one after those visited. */
  ghost predicate NextAfter(page: nat, blocks: seq<Block>, pfns: seq<nat>, pfn: nat)
    requires page > 0
  {
    && (pfns != [] ==> pfns[|pfns| - 1] < pfn)
    && NoneBetween(page, blocks, if pfns != [] then pfns[|pfns| - 1] else -1, pfn)
  }

  lemma AscendingNext(pfns: seq<nat>, pfn: nat)
    requires Ascending(pfns) && (pfns != [] ==> pfns[|pfns| - 1] < pfn)
    ensures Ascending(pfns + [pfn])
  {
  }

  lemma CoveredNext(page: nat, blocks: seq<Block>, pfns: seq<nat>, pfn: nat)
    requires page > 0 && Covered(page, blocks, pfns) && NextAfter(page, blocks, pfns, pfn)
    ensures Covered(page, blocks, pfns + [pfn])
  {
    var all := pfns + [pfn];
    forall k: nat | Exists(page, blocks, k) && k <= pfn
      ensures k in all
    {
      if k == pfn {
        assert all[|pfns|] == k;
      } else {
        assert k in pfns;
      }
    }
  }

  lemma VisitNext(page: nat, blocks: seq<Block>, pfns: seq<nat>, pages: seq<seq<Byte>>, pfn: nat, i: nat,
                  bytes: seq<Byte>)
    requires GuestOk(page, blocks) && Visited(page, blocks, pfns, pages) && PageBytes(page, blocks, pfn, i, bytes)
    requires NextAfter(page, blocks, pfns, pfn)
    ensures Visited(page, blocks, pfns + [pfn], pages + [bytes])
  {
    assert IsPage(page, blocks, pfn, bytes);
    AscendingNext(pfns, pfn);
    CoveredNext(page, blocks, pfns, pfn);
  }

  // ---------------------------------------------------------------- the writer

  /** What the finished dump holds: the descriptors fill the area from offset_page to the
      start of the data, one for every existing page, and describe what the data area holds. */
  ghost predicate Complete(page: nat, blocks: seq<Block>, big: bool, flag: nat, compress: (nat, seq<Byte>) -> Outcome,
                           image: Image, offsetPage: nat, offsetData: nat,
                           pfns: seq<nat>, pages: seq<seq<Byte>>, descs: seq<Descriptor>, data: seq<Byte>)
    requires GuestOk(page, blocks)
  {
    && Visited(page, blocks, pfns, pages) && AllVisited(page, blocks, pfns)
    && AllDescribed(page, flag, compress, pages, descs, offsetData, data)
    && HasAt(image, offsetPage, Joined(EncodedAll(big, descs)))
    && offsetPage + |Joined(EncodedAll(big, descs))| == offsetData
    && HasAt(image, offsetData, data)
  }

  lemma EncodedLength(big: bool, descs: seq<Descriptor>)
    ensures |Joined(EncodedAll(big, descs))| == DESCRIPTOR_SIZE * |descs|
  {
    JoinedLength(DESCRIPTOR_SIZE, EncodedAll(big, descs));
  }

  lemma EncodedAppend(big: bool, descs: seq<Descriptor>, d: Descriptor)
    ensures Joined(EncodedAll(big, descs + [d])) == Joined(EncodedAll(big, descs)) + Encoded(big, d)
  {
    assert EncodedAll(big, descs + [d]) == EncodedAll(big, descs) + [Encoded(big, d)];
    JoinedAppend(EncodedAll(big, descs), Encoded(big, d));
  }

  class PageWriter {
    const page: nat
    const big: bool
    const flag: nat
    const compress: (nat, seq<Byte>) -> Outcome
    const numDumpable: nat
    const zeroOffset: nat
    const file: Vmcore
    const desc: DataCache
    const data: DataCache
    var offsetData: nat
    ghost const start: Image
    ghost var pages: seq<seq<Byte>>
    ghost var descs: seq<Descriptor>

    ghost predicate Shape()
      reads this
    {
      && 6 <= page && desc != data && desc.buf != data.buf && desc.file == file && data.file == file
      && desc.buf.Length == 4 * page && data.buf.Length == 4 * page
      && data.base == desc.base + DESCRIPTOR_SIZE * numDumpable && zeroOffset == data.base
    }

    /** The file is as it was but for the areas of descriptors and data. */
    ghost predicate Framed()
      reads data, file
    {
      SameOutside(start, file.image, desc.base, data.base + |data.stream|)
    }

    /** The descriptors so far are in the descriptor cache, and what they describe is in the
        data cache, after one page of zeros. */
    ghost predicate Valid()
      reads this, desc, data, desc.buf, data.buf, file, desc.file, data.file
    {
      && Shape() && desc.Valid() && data.Valid()
      && desc.stream == Joined(EncodedAll(big, descs)) && |descs| <= numDumpable
      && AllDescribed(page, flag, compress, pages, descs, data.base, data.stream)
      && Zeros(page) <= data.stream && offsetData == data.base + |data.stream| && Framed()
    }

    /** The state of write_dump_pages once both caches are prepared. */
    constructor (page: nat, big: bool, flag: nat, compress: (nat, seq<Byte>) -> Outcome,
                 numDumpable: nat, desc: DataCache, data: DataCache, zeroOffset: nat)
      requires 6 <= page && desc != data && desc.buf != data.buf && desc.file == data.file
      requires desc.buf.Length == 4 * page && data.buf.Length == 4 * page
      requires zeroOffset == data.base == desc.base + DESCRIPTOR_SIZE * numDumpable
      ensures Shape() && pages == [] && descs == [] && offsetData == zeroOffset
      ensures this.page == page && this.big == big && this.flag == flag && this.compress == compress
      ensures this.numDumpable == numDumpable && this.desc == desc && this.data == data && start == desc.file.image
    {
      this.page, this.big, this.flag, this.compress := page, big, flag, compress;
      this.numDumpable, this.file, this.zeroOffset := numDumpable, desc.file, zeroOffset;
      this.desc, this.data, offsetData := desc, data, zeroOffset;
      pages, descs, start := [], [], desc.file.image;
    }

    /** The page all zero pages share is the first of the data area. */
    method AddSharedPage()
      requires Shape() && desc.Valid() && data.Valid() && desc.stream == [] && data.stream == []
      requires pages == [] && descs == [] && offsetData == zeroOffset && Framed()
      modifies this`offsetData, data, data.buf, file
      ensures Valid()
    {
      assert EncodedAll(big, []) == [];
      AddData(Zeros(page));
      offsetData := offsetData + page;
      assert data.stream == Zeros(page);
    }

    /** Appends a descriptor to its cache, which does not touch the data area. */
    method AddDescriptor(d: Descriptor)
      requires Shape() && desc.Valid() && data.Valid() && Framed()
      requires desc.stream == Joined(EncodedAll(big, descs)) && |descs| < numDumpable
      modifies desc, desc.buf, file, this`descs
      ensures desc.Valid() && data.Valid() && descs == old(descs) + [d] && Framed()
      ensures desc.stream == Joined(EncodedAll(big, descs)) && data.stream == old(data.stream)
    {
      ghost var n := |data.stream| - data.dataSize;
      EncodedLength(big, descs);
      EncodedAppend(big, descs, d);
      ghost var before := file.image;
      desc.Append(Encoded(big, d));
      KeptApart(before, file.image, desc.base, desc.base + |old(desc.stream)|, data.base, data.stream[..n]);
      SameOutsideBoth(start, before, file.image, desc.base, data.base + |data.stream|, desc.base,
                      desc.base + |old(desc.stream)|, data.base + |data.stream|);
      descs := descs + [d];
    }

    /** Appends page data to its cache, which does not touch the descriptors. */
    method AddData(bytes: seq<Byte>)
      requires Shape() && desc.Valid() && data.Valid() && |bytes| <= page && Framed()
      requires desc.stream == Joined(EncodedAll(big, descs)) && |descs| <= numDumpable
      modifies data, data.buf, file
      ensures desc.Valid() && data.Valid() && data.stream == old(data.stream) + bytes && Framed()
      ensures desc.stream == old(desc.stream)
    {
      ghost var n := |desc.stream| - desc.dataSize;
      EncodedLength(big, descs);
      ghost var before := file.image;
      data.Append(bytes);
      KeptApart(before, file.image, data.base, data.base + |old(data.stream)|, desc.base, desc.stream[..n]);
      SameOutsideBoth(start, before, file.image, desc.base, data.base + |old(data.stream)|, data.base,
                      data.base + |old(data.stream)|, data.base + |data.stream|);
    }

    /** A page that is described now, among those described before. */
    lemma DescribedNext(bytes: seq<Byte>, d: Descriptor, before: seq<Byte>, payload: seq<Byte>,
                        pages: seq<seq<Byte>>, descs: seq<Descriptor>, base: nat)
      requires AllDescribed(page, flag, compress, pages, descs, base, before)
      requires Describes(page, flag, compress, |descs|, bytes, d, base, before + payload)
      ensures AllDescribed(page, flag, compress, pages + [bytes], descs + [d], base, before + payload)
    {
      DescribedGrows(page, flag, compress, pages, descs, base, before, payload);
    }

    /** A zero page: its descriptor points at the shared page. */
    method AddZeroPage(bytes: seq<Byte>)
      requires Valid() && |descs| < numDumpable && bytes == Zeros(page)
      modifies this, desc, desc.buf, file
      ensures Valid() && pages == old(pages) + [bytes]
    {
      var d := Descriptor(zeroOffset, page, 0);
      ghost var stream := data.stream;
      assert stream[0..page] == bytes;
      Unit(stream);
      DescribedNext(bytes, d, stream, [], pages, descs, data.base);
      AddDescriptor(d);
      pages := pages + [bytes];
    }

    /** Any other page: its data is appended, and its descriptor points there. */
    method AddPlainPage(k: nat, bytes: seq<Byte>)
      requires Valid() && |bytes| == page && k == |descs| < numDumpable && bytes != Zeros(page)
      modifies this, desc, data, desc.buf, data.buf, file
      ensures Valid() && pages == old(pages) + [bytes]
    {
      var outcome := compress(k, bytes);
      var payload, flags := bytes, 0;
      if Shrinks(page, outcome) {
        payload, flags := outcome.bytes, flag;
      }
      ghost var stream := data.stream;
      var d := Descriptor(offsetData, |payload|, flags);
      PlainDescribed(k, bytes, payload, d, data.base, stream);
      DescribedNext(bytes, d, stream, payload, pages, descs, data.base);
      PrefixGrows(Zeros(page), stream, payload);
      AddData(payload);
      offsetData := offsetData + |payload|;
      AddDescriptor(d);
      pages := pages + [bytes];
    }

    lemma PlainDescribed(k: nat, bytes: seq<Byte>, payload: seq<Byte>, d: Descriptor, base: nat, stream: seq<Byte>)
      requires bytes != Zeros(page) && d.offset == base + |stream| && d.size == |payload|
      requires if Shrinks(page, compress(k, bytes)) then payload == compress(k, bytes).bytes && d.flags == flag
               else payload == bytes && d.flags == 0
      ensures Describes(page, flag, compress, k, bytes, d, base, stream + payload)
    {
      assert (stream + payload)[|stream|..|stream| + |payload|] == payload;
    }

    /** The body of the loop of write_dump_pages. */
    method AddPage(k: nat, bytes: seq<Byte>)
      requires Valid() && |bytes| == page && k == |descs| < numDumpable
      modifies this, desc, data, desc.buf, data.buf, file
      ensures Valid() && pages == old(pages) + [bytes]
    {
      if bytes == Zeros(page) {
        AddZeroPage(bytes);
      } else {
        AddPlainPage(k, bytes);
      }
    }

    /** The first of the closing calls of write_cache, which does not touch the data area. */
    method SyncDescriptors()
      requires Shape() && desc.Valid() && data.Valid() && Framed() && |desc.stream| == DESCRIPTOR_SIZE * numDumpable
      modifies desc, file
      ensures data.Valid() && Framed() && HasAt(file.image, desc.base, desc.stream)
      ensures desc.stream == old(desc.stream) && data.stream == old(data.stream)
    {
      ghost var n, before, end := |data.stream| - data.dataSize, file.image, data.base + |data.stream|;
      desc.Sync();
      KeptApart(before, file.image, desc.base, desc.base + |desc.stream|, data.base, data.stream[..n]);
      SameOutsideBoth(start, before, file.image, desc.base, end, desc.base, desc.base + |desc.stream|, end);
    }

    /** The second, which does not touch the descriptors. */
    method SyncData()
      requires Shape() && data.Valid() && Framed() && |desc.stream| == DESCRIPTOR_SIZE * numDumpable
      requires HasAt(file.image, desc.base, desc.stream)
      modifies data, file
      ensures Framed() && HasAt(file.image, desc.base, desc.stream) && HasAt(file.image, data.base, data.stream)
      ensures desc.stream == old(desc.stream) && data.stream == old(data.stream)
    {
      ghost var before, end := file.image, data.base + |data.stream|;
      data.Sync();
      KeptApart(before, file.image, data.base, end, desc.base, desc.stream);
      SameOutsideBoth(start, before, file.image, desc.base, end, data.base, end, end);
    }

    method Finish()
      requires Valid() && |descs| == numDumpable
      modifies desc, data, file
      ensures HasAt(file.image, desc.base, Joined(EncodedAll(big, descs))) && HasAt(file.image, data.base, data.stream)
      ensures |Joined(EncodedAll(big, descs))| == DESCRIPTOR_SIZE * numDumpable
      ensures data.stream == old(data.stream) && Framed()
    {
      EncodedLength(big, descs);
      SyncDescriptors();
      SyncData();
    }
  }

  /** The walk never passes more pages than there are. */
  lemma {:induction false} CountGrows(page: nat, blocks: seq<Block>, i: nat, n: nat)
    requires page > 0 && i <= n <= |blocks|
    ensures PageCount(page, blocks, i) <= PageCount(page, blocks, n)
  {
    if i < n {
      CountGrows(page, blocks, i, n - 1);
    }
  }

  lemma PassedBound(page: nat, blocks: seq<Block>, i: nat, pfn: nat)
    requires page > 0 && i < |blocks| && InBlock(page, blocks[i], pfn)
    ensures PageCount(page, blocks, i) + pfn - First(page, blocks[i]) + 1 <= PageCount(page, blocks, |blocks|)
  {
    CountStep(page, blocks, i);
    CountGrows(page, blocks, i + 1, |blocks|);
  }

  lemma CountStep(page: nat, blocks: seq<Block>, i: nat)
    requires page > 0 && i < |blocks| && First(page, blocks[i]) <= Limit(page, blocks[i])
    ensures PageCount(page, blocks, i + 1)
         == PageCount(page, blocks, i) + Limit(page, blocks[i]) - First(page, blocks[i])
  {
  }

  /** The caches and the shared page. */
  method Prepare(page: nat, big: bool, flag: nat, compress: (nat, seq<Byte>) -> Outcome,
                 file: Vmcore, offsetPage: nat, numDumpable: nat) returns (w: PageWriter)
    requires 6 <= page
    modifies file
    ensures fresh(w) && fresh(w.desc) && fresh(w.data) && fresh(w.desc.buf) && fresh(w.data.buf)
    ensures w.file == file && w.Valid() && w.pages == [] && w.descs == [] && w.desc.base == offsetPage
    ensures w.start == old(file.image)
    ensures w.page == page && w.big == big && w.flag == flag && w.compress == compress && w.numDumpable == numDumpable
  {
    var offsetData := offsetPage + DESCRIPTOR_SIZE * numDumpable;
    var desc := new DataCache(file, 4 * page, offsetPage);
    var data := new DataCache(file, 4 * page, offsetData);
    w := new PageWriter(page, big, flag, compress, numDumpable, desc, data, offsetData);
    w.AddSharedPage();
  }

  /** Adds the page the walk has come to. */
  method AddVisited(w: PageWriter, k: nat, ghost blocks: seq<Block>, ghost pfns: seq<nat>, ghost pfn: nat, ghost i: nat,
                    bytes: seq<Byte>)
    requires w.Valid() && GuestOk(w.page, blocks) && Visited(w.page, blocks, pfns, w.pages)
    requires k == |w.descs| < w.numDumpable && PageBytes(w.page, blocks, pfn, i, bytes)
    requires NextAfter(w.page, blocks, pfns, pfn)
    modifies w, w.desc, w.data, w.desc.buf, w.data.buf, w.file
    ensures w.Valid() && |w.descs| == k + 1 && Visited(w.page, blocks, pfns + [pfn], w.pages)
  {
    VisitNext(w.page, blocks, pfns, w.pages, pfn, i, bytes);
    w.AddPage(k, bytes);
  }

  /** The walk has come to the last of these page frames. */
  ghost predicate WalkedTo(walker: PageWalker, pfns: seq<nat>)
    reads walker
  {
    && walker.Valid() && walker.Passed() == |pfns| && (walker.started <==> pfns != [])
    && (walker.started ==> walker.block < |walker.blocks| && walker.pfn == pfns[|pfns| - 1])
  }

  /** get_next_page in terms of the page frames visited. */
  method WalkOn(walker: PageWalker, ghost pfns: seq<nat>) returns (more: bool, bytes: seq<Byte>)
    requires WalkedTo(walker, pfns)
    modifies walker
    ensures walker.Valid() && walker.started
    ensures more ==>
              && WalkedTo(walker, pfns + [walker.pfn]) && NextAfter(walker.page, walker.blocks, pfns, walker.pfn)
              && PageBytes(walker.page, walker.blocks, walker.pfn, walker.block, bytes)
              && |pfns| < PageCount(walker.page, walker.blocks, |walker.blocks|)
    ensures more && old(walker.started) ==> walker.Nearer(old(walker.block), old(walker.Left()))
    ensures !more ==>
              && pfns != [] && NoneAfter(walker.page, walker.blocks, pfns[|pfns| - 1])
              && |pfns| == PageCount(walker.page, walker.blocks, |walker.blocks|)
  {
    more, bytes := walker.Next();
    if more {
      PassedBound(walker.page, walker.blocks, walker.block, walker.pfn);
    }
  }

  /** A turn of the loop of write_dump_pages. */
  method DumpNext(walker: PageWalker, w: PageWriter, k: nat, ghost pfns: seq<nat>) returns (more: bool)
    requires WalkedTo(walker, pfns) && walker.page == w.page && w.Valid() && k == |pfns| == |w.descs|
    requires Visited(w.page, walker.blocks, pfns, w.pages)
    requires w.numDumpable == PageCount(w.page, walker.blocks, |walker.blocks|)
    modifies walker, w, w.desc, w.data, w.desc.buf, w.data.buf, w.file
    ensures w.Valid()
    ensures more ==> WalkedTo(walker, pfns + [walker.pfn]) && |w.descs| == k + 1
    ensures more ==> Visited(w.page, walker.blocks, pfns + [walker.pfn], w.pages)
    ensures more ==> walker.started && (old(walker.started) ==> walker.Nearer(old(walker.block), old(walker.Left())))
    ensures !more ==> AllVisited(w.page, walker.blocks, pfns) && k == w.numDumpable == |w.descs|
    ensures !more ==> Visited(w.page, walker.blocks, pfns, w.pages)
  {
    var bytes;
    more, bytes := WalkOn(walker, pfns);
    assert w.Valid() && Visited(w.page, walker.blocks, pfns, w.pages);
    if more {
      AddVisited(w, k, walker.blocks, pfns, walker.pfn, walker.block, bytes);
    } else {
      VisitedAll(w.page, walker.blocks, pfns);
    }
  }

  /** The loop of write_dump_pages. */
  method DumpAllPages(walker: PageWalker, w: PageWriter) returns (ghost pfns: seq<nat>)
    requires walker.Valid() && !walker.started && walker.page == w.page
    requires w.Valid() && w.descs == [] && w.pages == []
    requires w.numDumpable == PageCount(w.page, walker.blocks, |walker.blocks|)
    modifies walker, w, w.desc, w.data, w.desc.buf, w.data.buf, w.file
    ensures w.Valid() && Visited(w.page, walker.blocks, pfns, w.pages) && |w.descs| == w.numDumpable
    ensures AllVisited(w.page, walker.blocks, pfns)
  {
    pfns := [];
    var k := 0;
    while true
      invariant WalkedTo(walker, pfns) && w.Valid() && k == |pfns| == |w.descs|
      invariant Visited(w.page, walker.blocks, pfns, w.pages)
      decreases !walker.started, |walker.blocks| - walker.block, walker.Left()
    {
      var more := DumpNext(walker, w, k, pfns);
      if !more {
        break;
      }
      pfns := pfns + [walker.pfn];
      k := k + 1;
    }
  }

  /** The loop and the closing of the caches. */
  method DumpAndClose(walker: PageWalker, w: PageWriter)
    returns (ghost pfns: seq<nat>, ghost pages: seq<seq<Byte>>, ghost descs: seq<Descriptor>, ghost stream: seq<Byte>)
    requires walker.Valid() && !walker.started && walker.page == w.page
    requires w.Valid() && w.descs == [] && w.pages == []
    requires w.numDumpable == PageCount(w.page, walker.blocks, |walker.blocks|)
    modifies walker, w, w.desc, w.data, w.desc.buf, w.data.buf, w.file
    ensures Complete(w.page, walker.blocks, w.big, w.flag, w.compress, w.file.image, w.desc.base, w.data.base,
                     pfns, pages, descs, stream)
    ensures SameOutside(w.start, w.file.image, w.desc.base, w.data.base + |stream|)
  {
    pfns := DumpAllPages(walker, w);
    pages, descs, stream := w.pages, w.descs, w.data.stream;
    w.Finish();
  }

  /** write_dump_pages: the dump is complete, for any compressor, and nothing before the
      descriptors or after the data has changed.  The number of pages is the one
      write_dump_bitmap counted. */
  method WriteDumpPages(page: nat, blocks: seq<Block>, big: bool, flag: nat, compress: (nat, seq<Byte>) -> Outcome,
                        file: Vmcore, offsetPage: nat, numDumpable: nat)
    returns (ghost w: PageWriter, ghost pfns: seq<nat>, ghost pages: seq<seq<Byte>>, ghost descs: seq<Descriptor>,
             ghost stream: seq<Byte>)
    requires 6 <= page && GuestOk(page, blocks) && numDumpable == PageCount(page, blocks, |blocks|)
    modifies file
    ensures w.page == page && w.big == big && w.flag == flag && w.compress == compress && w.file == file
    ensures w.desc.base == offsetPage && w.data.base == offsetPage + DESCRIPTOR_SIZE * numDumpable
    ensures Complete(w.page, blocks, w.big, w.flag, w.compress, w.file.image, w.desc.base, w.data.base,
                     pfns, pages, descs, stream)
    ensures SameOutside(old(file.image), file.image, offsetPage, w.data.base + |stream|)
  {
    var walker := new PageWalker(page, blocks);
    var writer := Prepare(page, big, flag, compress, file, offsetPage, numDumpable);
    w := writer;
    pfns, pages, descs, stream := DumpAndClose(walker, writer);
  }

  // ---------------------------------------------------------------- reading the dump

  lemma {:induction false} ChunkInJoined(size: nat, chunks: seq<seq<Byte>>, k: nat)
    requires AllOf(size, chunks) && k < |chunks|
    ensures size * k + size <= |Joined(chunks)| && Joined(chunks)[size * k..size * k + size] == chunks[k]
  {
    var rest := Joined(chunks[1..]);
    if k > 0 {
      ChunkInJoined(size, chunks[1..], k - 1);
      assert size * k == size * (k - 1) + size;
      SliceAfter(chunks[0], rest, size * (k - 1), size);
    } else {
      assert (chunks[0] + rest)[0..size] == chunks[0];
    }
  }

  lemma SliceAfter(head: seq<Byte>, rest: seq<Byte>, at: nat, n: nat)
    requires at + n <= |rest|
    ensures (head + rest)[|head| + at..|head| + at + n] == rest[at..at + n]
  {
  }

  lemma DescriptorInFile(big: bool, image: Image, offsetPage: nat, descs: seq<Descriptor>, k: nat)
    requires k < |descs| && HasAt(image, offsetPage, Joined(EncodedAll(big, descs)))
    ensures HasAt(image, offsetPage + DESCRIPTOR_SIZE * k, Encoded(big, descs[k]))
  {
    var all := EncodedAll(big, descs);
    ChunkInJoined(DESCRIPTOR_SIZE, all, k);
    HasPart(image, offsetPage, Joined(all), DESCRIPTOR_SIZE * k, DESCRIPTOR_SIZE);
  }

  lemma PageInFile(page: nat, flag: nat, compress: (nat, seq<Byte>) -> Outcome, image: Image, offsetData: nat,
                   data: seq<Byte>, k: nat, bytes: seq<Byte>, d: Descriptor) returns (found: seq<Byte>)
    requires Describes(page, flag, compress, k, bytes, d, offsetData, data) && HasAt(image, offsetData, data)
    ensures |found| == d.size && HasAt(image, d.offset, found)
    ensures if bytes == Zeros(page) then found == bytes && d.flags == 0
            else if Shrinks(page, compress(k, bytes)) then found == compress(k, bytes).bytes && d.flags == flag
            else found == bytes && d.flags == 0
  {
    found := data[d.offset - offsetData..d.offset - offsetData + d.size];
    HasPart(image, offsetData, data, d.offset - offsetData, d.size);
  }

  /** What the descriptors name fits their fields. */
  lemma DescriptorFits(page: nat, flag: nat, compress: (nat, seq<Byte>) -> Outcome, base: nat, data: seq<Byte>,
                       k: nat, bytes: seq<Byte>, d: Descriptor)
    requires Describes(page, flag, compress, k, bytes, d, base, data) && |bytes| == page
    requires page < Capacity(4) && flag < Capacity(4) && base + |data| < Capacity(8)
    ensures d.offset < Capacity(8) && d.size < Capacity(4) && d.flags < Capacity(4)
  {
  }

  /** For every existing page frame the dump has a descriptor in the place of its number.  A
      reader that takes offset, size and flags from its bytes, in the byte order of the target,
      finds the page there: zeros, or compressed, or as it is. */
  lemma ReaderFinds(page: nat, blocks: seq<Block>, big: bool, flag: nat, compress: (nat, seq<Byte>) -> Outcome,
                    image: Image, offsetPage: nat, offsetData: nat,
                    pfns: seq<nat>, pages: seq<seq<Byte>>, descs: seq<Descriptor>, data: seq<Byte>, k: nat)
    returns (raw: seq<Byte>, found: seq<Byte>)
    requires GuestOk(page, blocks) && k < |descs|
    requires Complete(page, blocks, big, flag, compress, image, offsetPage, offsetData, pfns, pages, descs, data)
    requires page < Capacity(4) && flag < Capacity(4) && offsetData + |data| < Capacity(8)
    ensures |pfns| == |pages| == |descs| && IsPage(page, blocks, pfns[k], pages[k])
    ensures |raw| == DESCRIPTOR_SIZE && HasAt(image, offsetPage + DESCRIPTOR_SIZE * k, raw)
    ensures |found| == FieldValue(big, raw[8..12]) && HasAt(image, FieldValue(big, raw[0..8]), found)
    ensures var flags := FieldValue(big, raw[12..16]);
            if pages[k] == Zeros(page) then found == pages[k] && flags == 0
            else if Shrinks(page, compress(k, pages[k])) then found == compress(k, pages[k]).bytes && flags == flag
            else found == pages[k] && flags == 0
  {
    var d := descs[k];
    raw := Encoded(big, d);
    DescriptorInFile(big, image, offsetPage, descs, k);
    assert Describes(page, flag, compress, k, pages[k], d, offsetData, data) && IsPage(page, blocks, pfns[k], pages[k]);
    DescriptorFits(page, flag, compress, offsetData, data, k, pages[k], d);
    DescriptorFields(big, d);
    found := PageInFile(page, flag, compress, image, offsetData, data, k, pages[k], d);
  }

  // ---------------------------------------------------------------- the areas of the file

  const WORD: nat := 0x1_0000_0000

  /** The block counts and block size of create_header32 and create_header64 are 32 bits
      wide, and so are the sums and products of them. */
  function OffsetBitmap(page: nat, subHeader: nat, notes: nat): nat
    requires page > 0
  {
    (1 + DivRoundUp(subHeader + notes, page)) * page % WORD
  }

  function OffsetPage(page: nat, subHeader: nat, notes: nat, length: nat): nat
    requires page > 0
  {
    (1 + DivRoundUp(subHeader + notes, page) + DivRoundUp(length, page) * 2) * page % WORD
  }

  lemma RoundsUp(x: nat, page: nat)
    requires page > 0
    ensures x <= DivRoundUp(x, page) * page < x + page
  {
    PageSplit(page, x + page - 1);
  }

  lemma WholeRoundsUp(n: nat, page: nat)
    requires page > 0
    ensures DivRoundUp(page * n, page) == n
  {
    QuotientIs(page * n + page - 1, page, n);
  }

  /** Sub header and notes end before the bitmaps, and the bitmaps end where the page
      descriptors start exactly if that offset fits 32 bits; if it does not, the descriptors
      start before the bitmaps end.  `length` is a whole number of buffers, as
      DumpBitmap.LengthIsBuffers shows. */
  lemma AreasAreAdjacent(page: nat, subHeader: nat, notes: nat, length: nat, buffers: nat)
    requires page > 0 && length == page * buffers
    requires (1 + DivRoundUp(subHeader + notes, page)) * page < WORD
    ensures page + subHeader + notes <= OffsetBitmap(page, subHeader, notes)
    ensures OffsetPage(page, subHeader, notes, length) == OffsetBitmap(page, subHeader, notes) + 2 * length
        <==> OffsetBitmap(page, subHeader, notes) + 2 * length < WORD
    ensures OffsetBitmap(page, subHeader, notes) + 2 * length >= WORD ==>
              OffsetPage(page, subHeader, notes, length) < OffsetBitmap(page, subHeader, notes) + 2 * length
  {
    SubHeaderFits(page, subHeader, notes);
    PageOffset(page, subHeader, notes, length, buffers);
    Wraps(OffsetBitmap(page, subHeader, notes) + 2 * length);
  }

  lemma SubHeaderFits(page: nat, subHeader: nat, notes: nat)
    requires page > 0 && (1 + DivRoundUp(subHeader + notes, page)) * page < WORD
    ensures OffsetBitmap(page, subHeader, notes) == (1 + DivRoundUp(subHeader + notes, page)) * page
    ensures page + subHeader + notes <= OffsetBitmap(page, subHeader, notes)
  {
    var sub := DivRoundUp(subHeader + notes, page);
    RoundsUp(subHeader + notes, page);
    BlocksBefore(page, sub, 0, 0);
    Wraps((1 + sub) * page);
  }

  /** The offset of the descriptors, before it is cut to 32 bits, is the end of the bitmaps. */
  lemma PageOffset(page: nat, subHeader: nat, notes: nat, length: nat, buffers: nat)
    requires page > 0 && length == page * buffers
    requires (1 + DivRoundUp(subHeader + notes, page)) * page < WORD
    ensures OffsetPage(page, subHeader, notes, length) == (OffsetBitmap(page, subHeader, notes) + 2 * length) % WORD
  {
    SubHeaderFits(page, subHeader, notes);
    WholeRoundsUp(buffers, page);
    BlocksBefore(page, DivRoundUp(subHeader + notes, page), buffers, length);
  }

  lemma BlocksBefore(page: nat, sub: nat, buffers: nat, length: nat)
    requires length == page * buffers
    ensures (1 + sub) * page == page + sub * page
    ensures (1 + sub + buffers * 2) * page == (1 + sub) * page + 2 * length
  {
  }

  lemma Wraps(x: nat)
    ensures x % WORD == x <==> x < WORD
    ensures x >= WORD ==> x % WORD < x
  {
  }

  /** A guest of 64 TiB: its bitmaps fill exactly the 4 GiB that the offsets can tell apart, and
      the page descriptors are put on top of them. */
  lemma DescriptorsOnBitmap(subHeader: nat, notes: nat)
    requires 0 < subHeader + notes <= 4096
    ensures OffsetPage(4096, subHeader, notes, 0x8000_0000) == OffsetBitmap(4096, subHeader, notes)
  {
    QuotientIs(subHeader + notes + 4095, 4096, 1);
    WholeRoundsUp(0x8_0000, 4096);
  }
}
