/** The write-behind cache of the kdump writer: write_cache in dump.c. */
module KdumpCache {
  import opened Bytes

  /** The bytes at each offset of a file. */
  type Image = map<nat, Byte>

  function Overwrite(m: Image, offset: nat, data: seq<Byte>): Image {
    m + map i | offset <= i < offset + |data| :: ByteAt(data, offset, i)
  }

  function ByteAt(data: seq<Byte>, offset: nat, i: nat): Byte
    requires offset <= i < offset + |data|
  {
    data[i - offset]
  }

  ghost predicate HasAt(m: Image, offset: nat, data: seq<Byte>) {
    forall i :: offset <= i < offset + |data| ==> i in m && m[i] == data[i - offset]
  }

  /** The images differ only between two offsets. */
  ghost predicate SameOutside(m: Image, m': Image, low: nat, high: nat) {
    forall i :: i < low || high <= i ==> (i in m <==> i in m') && (i in m ==> m[i] == m'[i])
  }

  lemma KeptApart(m: Image, m': Image, low: nat, high: nat, offset: nat, data: seq<Byte>)
    requires SameOutside(m, m', low, high) && HasAt(m, offset, data)
    requires offset + |data| <= low || high <= offset
    ensures HasAt(m', offset, data)
  {
  }

  /** Two changes, each inside a range that lies in a larger one. */
  lemma SameOutsideBoth(m: Image, m': Image, m'': Image, low: nat, mid: nat, from: nat, to: nat, high: nat)
    requires SameOutside(m, m', low, mid) && SameOutside(m', m'', from, to)
    requires low <= from && to <= high && mid <= high
    ensures SameOutside(m, m'', low, high)
  {
  }

  /** The second image is the first after a write. */
  ghost predicate Written(m: Image, m': Image, offset: nat, data: seq<Byte>) {
    HasAt(m', offset, data) && SameOutside(m, m', offset, offset + |data|)
  }

  lemma OverwriteWrites(m: Image, offset: nat, data: seq<Byte>)
    ensures Written(m, Overwrite(m, offset, data), offset, data)
  {
  }

  lemma HasPart(m: Image, offset: nat, data: seq<Byte>, at: nat, n: nat)
    requires HasAt(m, offset, data) && at + n <= |data|
    ensures HasAt(m, offset + at, data[at..at + n])
  {
  }

  /** Writing the held end of a stream behind its start completes it. */
  lemma StreamWritten(m: Image, base: nat, stream: seq<Byte>, n: nat, held: seq<Byte>, offset: nat, m': Image)
    requires n + |held| == |stream| && stream[n..] == held && HasAt(m, base, stream[..n])
    requires offset == base + n && Written(m, m', offset, held)
    ensures HasAt(m', base, stream)
  {
    KeptApart(m, m', offset, offset + |held|, base, stream[..n]);
    forall i | base <= i < base + |stream|
      ensures i in m' && m'[i] == stream[i - base]
    {
      if i < offset {
        assert stream[i - base] == stream[..n][i - base];
      } else {
        assert stream[i - base] == held[i - offset];
      }
    }
  }

  class Vmcore {
    var image: Image

    constructor ()
    {
      image := map[];
    }

    method WriteBuffer(offset: nat, data: seq<Byte>)
      modifies this
      ensures image == Overwrite(old(image), offset, data) && Written(old(image), image, offset, data)
    {
      OverwriteWrites(image, offset, data);
      image := Overwrite(image, offset, data);
    }
  }

  class DataCache {
    const file: Vmcore
    const buf: array<Byte>
    var dataSize: nat
    var offset: nat
    ghost const base: nat
    ghost var stream: seq<Byte>

    /** The file holds the stream up to `offset`, and the buffer the rest of it. */
    ghost predicate Valid()
      reads this, buf, file
    {
      && dataSize <= buf.Length && dataSize <= |stream|
      && offset == base + |stream| - dataSize
      && stream[|stream| - dataSize..] == buf[..dataSize]
      && HasAt(file.image, base, stream[..|stream| - dataSize])
    }

    /** prepare_data_cache. */
    constructor (file: Vmcore, size: nat, offset: nat)
      ensures Valid() && stream == [] && base == offset && this.file == file && buf.Length == size && fresh(buf)
    {
      this.file := file;
      buf := new Byte[size](i => 0);
      dataSize := 0;
      this.offset := offset;
      base := offset;
      stream := [];
    }

    method CopyIn(data: seq<Byte>)
      requires dataSize + |data| <= buf.Length
      modifies buf, this`dataSize
      ensures dataSize == old(dataSize) + |data| && buf[..dataSize] == old(buf[..dataSize]) + data
    {
      ghost var held := buf[..dataSize];
      for i := 0 to |data|
        invariant dataSize == old(dataSize)
        invariant buf[..dataSize + i] == held + data[..i]
      {
        buf[dataSize + i] := data[i];
        assert buf[..dataSize + i + 1] == buf[..dataSize + i] + [data[i]];
        assert data[..i + 1] == data[..i] + [data[i]];
      }
      assert data[..|data|] == data;
      dataSize := dataSize + |data|;
    }

    /** Writes the buffer out at `offset`. */
    method Drain()
      requires Valid()
      modifies this`dataSize, this`offset, file
      ensures Valid() && dataSize == 0 && stream == old(stream)
      ensures SameOutside(old(file.image), file.image, old(offset), offset)
    {
      var held, end := buf[..dataSize], offset + dataSize;
      ghost var before := file.image;
      file.WriteBuffer(offset, held);
      StreamWritten(before, base, stream, |stream| - dataSize, held, offset, file.image);
      offset, dataSize := end, 0;
      assert stream[..|stream|] == stream && stream[|stream|..] == buf[..0];
    }

    /** write_cache without flag_sync: appends to the stream. */
    method Append(data: seq<Byte>)
      requires Valid() && |data| <= buf.Length
      modifies this`dataSize, this`offset, this`stream, buf, file
      ensures Valid() && stream == old(stream) + data
      ensures SameOutside(old(file.image), file.image, base, base + |old(stream)|)
    {
      if dataSize + |data| > buf.Length {
        Drain();
      }
      ghost var n := |stream| - dataSize;
      CopyIn(data);
      assert (stream + data)[..n] == stream[..n];
      assert (stream + data)[n..] == stream[n..] + data;
      stream := stream + data;
    }

    /** write_cache with flag_sync: afterwards the file holds the whole stream. */
    method Sync()
      requires Valid()
      modifies this`dataSize, this`offset, file
      ensures Valid() && dataSize == 0 && stream == old(stream) && HasAt(file.image, base, stream)
      ensures SameOutside(old(file.image), file.image, base, base + |stream|)
    {
      if dataSize > 0 {
        Drain();
      }
      assert stream[..|stream|] == stream;
    }
  }
}
