/** The single-buffer trace file writer, qem_trace_file.c. */
module TraceFile {
  import opened Bytes
  import opened Trace

  // ---------------------------------------------------------------- the file format

  /** qem_trace_header_t: size, record size, version, five reserved bytes. */
  function FileHeader(size: nat, recordSize: nat): (r: seq<Byte>)
    ensures |r| == 16
  {
    Little(8, size) + Little(2, recordSize) + Little(1, 1) + Zeros(5)
  }

  /** The fields come back from a header. */
  lemma FileHeaderFields(size: nat, recordSize: nat)
    requires size < Capacity(8) && recordSize < Capacity(2)
    ensures FromLittle(FileHeader(size, recordSize)[..8]) == size
    ensures FromLittle(FileHeader(size, recordSize)[8..10]) == recordSize
    ensures FromLittle(FileHeader(size, recordSize)[10..11]) == 1
  {
    var h := FileHeader(size, recordSize);
    assert h[..8] == Little(8, size) && h[8..10] == Little(2, recordSize) && h[10..11] == Little(1, 1);
    LittleRoundTrip(8, size);
    LittleRoundTrip(2, recordSize);
    Capacities();
    LittleRoundTrip(1, 1);
  }

  /** A trace file once it is closed. */
  function ClosedFile(recordSize: nat, records: seq<seq<Byte>>): seq<Byte> {
    FileHeader(recordSize + |records| * recordSize, recordSize) + Joined(records)
  }

  function Files(recordSize: nat, sessions: seq<seq<seq<Byte>>>): (r: seq<seq<Byte>>)
    ensures |r| == |sessions|
  {
    seq(|sessions|, i requires 0 <= i < |sessions| => ClosedFile(recordSize, sessions[i]))
  }

  lemma FilesLast(recordSize: nat, sessions: seq<seq<seq<Byte>>>)
    requires sessions != []
    ensures Files(recordSize, sessions)
         == Files(recordSize, sessions[..|sessions| - 1]) + [ClosedFile(recordSize, sessions[|sessions| - 1])]
  {
  }

  /** The size in the header counts one record for the header itself, so it is the length
      of the file exactly when a record is as long as the header. */
  lemma HeaderSizeIsFileLength(recordSize: nat, records: seq<seq<Byte>>)
    requires AllOf(recordSize, records) && recordSize + |records| * recordSize < Capacity(8)
    ensures FromLittle(ClosedFile(recordSize, records)[..8]) == |ClosedFile(recordSize, records)|
        <==> recordSize == 16
  {
    JoinedLength(recordSize, records);
    var size := recordSize + |records| * recordSize;
    assert ClosedFile(recordSize, records)[..8] == Little(8, size);
    LittleRoundTrip(8, size);
  }

  /** fwrite at a file position. */
  function WriteAt(file: seq<Byte>, pos: nat, bytes: seq<Byte>): seq<Byte>
    requires pos <= |file|
  {
    file[..pos] + bytes + if pos + |bytes| <= |file| then file[pos + |bytes|..] else []
  }

  /** Buffering a record adds it to the end of the stream. */
  lemma HeldAppend(body: seq<Byte>, held: seq<seq<Byte>>, records: seq<seq<Byte>>, record: seq<Byte>)
    requires body + Joined(held) == Joined(records)
    ensures body + Joined(held + [record]) == Joined(records + [record])
  {
    JoinedAppend(held, record);
    JoinedAppend(records, record);
    Associative(body, Joined(held), record);
  }

  /** Writing the final header over the first one completes the file. */
  lemma SealedFile(file: seq<Byte>, recordSize: nat, records: seq<seq<Byte>>, size: nat)
    requires |file| >= 16 && file[16..] == Joined(records) && AllOf(recordSize, records)
    requires size == recordSize + |file| - 16
    ensures WriteAt(file, 0, FileHeader(size, recordSize)) == ClosedFile(recordSize, records)
  {
    JoinedLength(recordSize, records);
    var header := FileHeader(size, recordSize);
    assert WriteAt(file, 0, header) == header + file[16..];
  }

  // ---------------------------------------------------------------- what the calls ask for

  datatype Call = Enable(kind: Kinds) | Disable(kind: Kinds) | Output(access: Access)

  /** The tracing state, the records of the open file, and those of the closed ones. */
  datatype Log = Log(state: Kinds, records: seq<seq<Byte>>, done: seq<seq<seq<Byte>>>)

  const EMPTY_LOG: Log := Log(NONE, [], [])

  predicate CallOk(log: Log, call: Call) {
    match call
    case Enable(kind) => kind != NONE
    case Disable(kind) => kind != NONE
    case Output(_) => log.state != NONE
  }

  function Logged(l: Layout, log: Log, call: Call): Log {
    match call
    case Enable(kind) => Log(kind, if log.state == NONE then [] else log.records, log.done)
    case Disable(kind) =>
      if log.state != NONE && Without(log.state, kind) == NONE then Log(NONE, [], log.done + [log.records])
      else log.(state := Without(log.state, kind))
    case Output(access) => log.(records := log.records + [Record(l, access)])
  }

  /** A file that has its header grows at its end. */
  lemma WriteAtEnd(file: seq<Byte>, bytes: seq<Byte>)
    requires |file| >= 16
    ensures var f := WriteAt(file, |file|, bytes);
            && |f| == |file| + |bytes| && f[..16] == file[..16] && f[16..] == file[16..] + bytes
  {
  }

  // ---------------------------------------------------------------- the writer

  class FileWriter {
    const layout: Layout
    const buffer: array<seq<Byte>>
    var state: Kinds
    var bufferSize: nat
    var fileSize: nat
    var file: seq<Byte>
    var pos: nat
    var closed: seq<seq<Byte>>
    ghost var log: Log

    /** The file, then the buffer, hold the records of the log; every closed file is the
        image of its records. */
    ghost predicate Valid()
      reads this, buffer
    {
      && 0 < buffer.Length && bufferSize <= buffer.Length && state == log.state
      && closed == Files(RecordSize(layout), log.done)
      && AllOf(RecordSize(layout), log.records)
      && (state != NONE ==> Opened(log.records))
    }

    ghost predicate Opened(records: seq<seq<Byte>>)
      reads this, buffer
    {
      && bufferSize <= buffer.Length && pos == |file| && |file| >= 16
      && file[..16] == FileHeader(0, RecordSize(layout))
      && file[16..] + Joined(buffer[..bufferSize]) == Joined(records)
      && fileSize == RecordSize(layout) + |file| - 16
    }

    constructor (layout: Layout, capacity: nat)
      requires capacity > 0
      ensures Valid() && state == NONE && log == EMPTY_LOG && this.layout == layout && fresh(buffer)
    {
      this.layout := layout;
      buffer := new seq<Byte>[capacity](i => []);
      state, bufferSize, fileSize, file, pos, closed := NONE, 0, 0, [], 0, [];
      log := EMPTY_LOG;
    }

    method WriteHeader(size: nat)
      modifies this`file, this`pos, this`bufferSize
      ensures file == WriteAt(old(file), 0, FileHeader(size, RecordSize(layout))) && pos == 16 && bufferSize == 0
    {
      pos := 0;
      file := WriteAt(file, pos, FileHeader(size, RecordSize(layout)));
      pos := 16;
      bufferSize := 0;
    }

    method InitTracing()
      modifies this`file, this`pos, this`bufferSize, this`fileSize
      ensures Opened([])
    {
      file, pos := [], 0;
      WriteHeader(0);
      fileSize := RecordSize(layout);
      assert file == FileHeader(0, RecordSize(layout));
      assert file[..16] == file && file[16..] == [] && buffer[..0] == [];
    }

    /** Writes the buffered records at the end of the file. */
    method FlushBuffer(ghost records: seq<seq<Byte>>)
      requires Opened(records)
      modifies this`file, this`pos, this`bufferSize, this`fileSize
      ensures Opened(records) && bufferSize == 0
    {
      var bytes := Joined(buffer[..bufferSize]);
      WriteAtEnd(file, bytes);
      Unit(file[16..] + bytes);
      file := WriteAt(file, pos, bytes);
      pos := pos + |bytes|;
      fileSize := fileSize + |bytes|;
      bufferSize := 0;
      assert buffer[..0] == [];
    }

    method CloseTracing(ghost records: seq<seq<Byte>>)
      requires Opened(records) && AllOf(RecordSize(layout), records)
      modifies this`file, this`pos, this`bufferSize, this`fileSize, this`closed
      ensures closed == old(closed) + [ClosedFile(RecordSize(layout), records)] && bufferSize == 0
    {
      if bufferSize != 0 {
        FlushBuffer(records);
      }
      assert buffer[..0] == [];
      Unit(file[16..]);
      SealedFile(file, RecordSize(layout), records, fileSize);
      WriteHeader(fileSize);
      closed := closed + [file];
    }

    method Enable(kind: Kinds)
      requires Valid() && kind != NONE
      modifies this
      ensures Valid() && log == Logged(layout, old(log), Call.Enable(kind))
    {
      log := Logged(layout, log, Call.Enable(kind));
      if state == kind {
        return;
      }
      if state == NONE {
        InitTracing();
      }
      state := kind;
    }

    method Disable(kind: Kinds)
      requires Valid() && kind != NONE
      modifies this
      ensures Valid() && log == Logged(layout, old(log), Call.Disable(kind))
    {
      ghost var records := log.records;
      log := Logged(layout, log, Call.Disable(kind));
      if state == NONE {
        return;
      }
      state := Without(state, kind);
      if state == NONE {
        CloseTracing(records);
      }
    }

    /** Copies a record into the buffer. */
    method Append(record: seq<Byte>, ghost records: seq<seq<Byte>>)
      requires Opened(records) && bufferSize < buffer.Length
      modifies this`bufferSize, buffer
      ensures Opened(records + [record])
    {
      ghost var held, body := buffer[..bufferSize], file[16..];
      buffer[bufferSize] := record;
      bufferSize := bufferSize + 1;
      assert buffer[..bufferSize] == held + [record];
      HeldAppend(body, held, records, record);
    }

    method Output(access: Access)
      requires Valid() && state != NONE
      modifies this, buffer
      ensures Valid() && log == Logged(layout, old(log), Call.Output(access))
    {
      if bufferSize == buffer.Length {
        FlushBuffer(log.records);
      }
      Append(Record(layout, access), log.records);
      log := Logged(layout, log, Call.Output(access));
    }
  }
}
