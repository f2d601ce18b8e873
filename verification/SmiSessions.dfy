/** The trace stream of qem_trace_smi.c.

Enabling tracing opens a session and disabling it closes the session.  A session is the
stream version and the record size, the records, one all-zero record, and zeros up to the
end of a block.  The stream is what the calls to the ring of SmiRing are meant to produce,
which by SmiRing.ReaderGetsTheStream is what the reader gets. */
module SmiSessions {
  import opened Bytes
  import opened Pages
  import SmiMask
  import opened SmiRing
  import opened Trace

  const STREAM_VERSION: nat := 1

  /** The records of one session, each a packed qem_trace_t. */
  type Session = seq<seq<Byte>>

  function Header(size: nat): (r: seq<Byte>)
    ensures |r| == 8
  {
    Little(4, STREAM_VERSION) + Little(4, size)
  }

  function Unpadded(size: nat, session: Session): seq<Byte> {
    Header(size) + Joined(session) + Zeros(size)
  }

  function Closed(blockSize: nat, size: nat, session: Session): seq<Byte>
    requires blockSize > 0
  {
    Unpadded(size, session) + Zeros(Padding(blockSize, |Unpadded(size, session)|))
  }

  function Images(blockSize: nat, size: nat, sessions: seq<Session>): (r: seq<seq<Byte>>)
    requires blockSize > 0
    ensures |r| == |sessions|
  {
    seq(|sessions|, i requires 0 <= i < |sessions| => Closed(blockSize, size, sessions[i]))
  }

  function Stream(blockSize: nat, size: nat, sessions: seq<Session>): seq<Byte>
    requires blockSize > 0
  {
    Joined(Images(blockSize, size, sessions))
  }

  ghost predicate SessionsOk(size: nat, sessions: seq<Session>) {
    forall i :: 0 <= i < |sessions| ==> AllOf(size, sessions[i])
  }

  // ---------------------------------------------------------------- layout

  lemma PaddedIsAligned(blockSize: nat, length: nat)
    requires blockSize > 0
    ensures Aligned(blockSize, length + Padding(blockSize, length))
  {
    PageOf(blockSize, length);
    var base := length - PageOff(blockSize, length);
    assert PageOff(blockSize, base + blockSize) == PageOff(blockSize, base);
  }

  lemma {:induction false} JoinedIsAligned(blockSize: nat, images: seq<seq<Byte>>)
    requires blockSize > 0
    requires forall i :: 0 <= i < |images| ==> Aligned(blockSize, |images[i]|)
    ensures Aligned(blockSize, |Joined(images)|)
  {
    if images != [] {
      JoinedIsAligned(blockSize, images[1..]);
      AlignedSum(blockSize, |images[0]|, |Joined(images[1..])|);
    }
  }

  /** Every session ends, and so the next one starts, on a block boundary. */
  lemma StreamIsAligned(blockSize: nat, size: nat, sessions: seq<Session>)
    requires blockSize > 0
    ensures Aligned(blockSize, |Stream(blockSize, size, sessions)|)
  {
    var images := Images(blockSize, size, sessions);
    forall i | 0 <= i < |images|
      ensures Aligned(blockSize, |images[i]|)
    {
      PaddedIsAligned(blockSize, |Unpadded(size, sessions[i])|);
    }
    JoinedIsAligned(blockSize, images);
  }

  lemma StreamAppend(blockSize: nat, size: nat, sessions: seq<Session>, session: Session)
    requires blockSize > 0
    ensures Stream(blockSize, size, sessions + [session])
         == Stream(blockSize, size, sessions) + Closed(blockSize, size, session)
  {
    var images, image := Images(blockSize, size, sessions), Closed(blockSize, size, session);
    assert Images(blockSize, size, sessions + [session]) == images + [image];
    JoinedAppend(images, image);
  }

  /** Padding counts from any block boundary. */
  lemma PaddingFromBoundary(blockSize: nat, whole: nat, length: nat)
    requires blockSize > 0 && Aligned(blockSize, whole)
    ensures Padding(blockSize, whole + length) == Padding(blockSize, length)
  {
    PageOf(blockSize, length);
    var off := PageOff(blockSize, length);
    AlignedSum(blockSize, whole, length - off);
    PageBase(blockSize, whole + length - off, whole + length);
  }

  // ---------------------------------------------------------------- the tracer

  /** The globals of qem_trace_smi.c, with the calls made to the ring. */
  class Tracer {
    const blockSize: nat
    const layout: Layout
    const size: nat := RecordSize(layout)
    var state: Kinds
    var calls: seq<Step>
    ghost var done: seq<Session>
    ghost var current: Session

    /** A session is open exactly when the state is not zero, and it starts on a block
        boundary. */
    ghost predicate Valid()
      reads this
    {
      && blockSize > 0 && SessionsOk(size, done) && AllOf(size, current)
      && Intended(blockSize, calls)
         == Stream(blockSize, size, done) + (if state == NONE then [] else Header(size) + Joined(current))
    }

    constructor (blockSize: nat, layout: Layout)
      requires blockSize > 0
      ensures Valid() && state == NONE && done == [] && this.blockSize == blockSize && this.layout == layout
    {
      this.blockSize, this.layout := blockSize, layout;
      state, calls, done, current := NONE, [], [], [];
    }

    method Send(buffer: seq<Byte>)
      requires blockSize > 0
      modifies this`calls
      ensures Intended(blockSize, calls) == old(Intended(blockSize, calls)) + buffer
    {
      calls := calls + [SmiRing.Send(buffer)];
      assert calls[..|calls| - 1] == old(calls);
    }

    method FlushRing()
      requires blockSize > 0
      modifies this`calls
      ensures var before := old(Intended(blockSize, calls));
              Intended(blockSize, calls) == before + Zeros(Padding(blockSize, |before|))
    {
      calls := calls + [SmiRing.Flush(SmiMask.ZERO)];
      assert calls[..|calls| - 1] == old(calls);
    }

    method InitTracing()
      requires Valid() && state == NONE
      modifies this`calls
      ensures Intended(blockSize, calls) == Stream(blockSize, size, done) + Header(size)
    {
      Unit(Stream(blockSize, size, done));
      Send(Little(4, STREAM_VERSION));
      Send(Little(4, size));
      Associative(Stream(blockSize, size, done), Little(4, STREAM_VERSION), Little(4, size));
    }

    method CloseTracing()
      requires blockSize > 0
      requires Intended(blockSize, calls) == Stream(blockSize, size, done) + (Header(size) + Joined(current))
      modifies this`calls
      ensures Intended(blockSize, calls) == Stream(blockSize, size, done) + Closed(blockSize, size, current)
    {
      ghost var before, open := Stream(blockSize, size, done), Unpadded(size, current);
      Send(Zeros(size));
      Associative(before, Header(size) + Joined(current), Zeros(size));
      StreamIsAligned(blockSize, size, done);
      PaddingFromBoundary(blockSize, |before|, |open|);
      FlushRing();
      Associative(before, open, Zeros(Padding(blockSize, |open|)));
    }

    /** Enabling replaces the state; from zero it opens a session. */
    method Enable(kind: Kinds)
      requires Valid() && kind != NONE
      modifies this
      ensures Valid() && state == kind && done == old(done)
      ensures current == if old(state) == NONE then [] else old(current)
    {
      if state == kind {
        return;
      }
      if state == NONE {
        InitTracing();
        current := [];
      }
      state := kind;
    }

    /** Disabling clears bits; when none is left it closes the session. */
    method Disable(kind: Kinds)
      requires Valid() && kind != NONE
      modifies this
      ensures Valid() && state == Without(old(state), kind)
      ensures if old(state) != NONE && state == NONE then done == old(done) + [old(current)]
              else done == old(done) && current == old(current)
    {
      if state == NONE {
        return;
      }
      state := Without(state, kind);
      if state == NONE {
        CloseTracing();
        StreamAppend(blockSize, size, done, current);
        done := done + [current];
      }
    }

    /** Output is only called while tracing is enabled. */
    method Output(a: Access)
      requires Valid() && state != NONE
      modifies this
      ensures Valid() && state == old(state) && done == old(done)
      ensures current == old(current) + [Record(layout, a)]
    {
      var record := Record(layout, a);
      Send(record);
      JoinedAppend(current, record);
      Associative(Header(size), Joined(current), record);
      Associative(Stream(blockSize, size, done), Header(size) + Joined(current), record);
      current := current + [record];
    }
  }

  // ---------------------------------------------------------------- reading the stream back

  datatype Reading = Reading(records: Session, length: nat)

  /** Records up to the first all-zero one, and the bytes they take with it. */
  function ReadRecords(size: nat, s: seq<Byte>): Reading
    requires size > 0
  {
    if |s| < size then Reading([], |s|)
    else if s[..size] == Zeros(size) then Reading([], size)
    else
      var rest := ReadRecords(size, s[size..]);
      Reading([s[..size]] + rest.records, size + rest.length)
  }

  datatype Parsed = Parsed(records: Session, rest: seq<Byte>)

  /** The first session of a stream, whose record size is in its header, and what follows it. */
  function ReadSession(blockSize: nat, s: seq<Byte>): (p: Parsed)
    requires blockSize > 0 && |s| >= 8 && FromLittle(s[4..8]) > 0
    ensures |p.rest| < |s|
  {
    var reading := ReadRecords(FromLittle(s[4..8]), s[8..]);
    var end := 8 + reading.length + Padding(blockSize, 8 + reading.length);
    Parsed(reading.records, if end > |s| then [] else s[end..])
  }

  /** The sessions of a stream. */
  function ReadSessions(blockSize: nat, s: seq<Byte>): seq<Session>
    requires blockSize > 0
    decreases |s|
  {
    if |s| < 8 || FromLittle(s[4..8]) == 0 then []
    else
      var p := ReadSession(blockSize, s);
      [p.records] + ReadSessions(blockSize, p.rest)
  }

  ghost predicate NoZeroRecord(session: Session) {
    forall i :: 0 <= i < |session| ==> session[i] != Zeros(|session[i]|)
  }

  ghost predicate NoZeroRecords(sessions: seq<Session>) {
    forall i :: 0 <= i < |sessions| ==> NoZeroRecord(sessions[i])
  }

  lemma {:induction false} RecordsRoundTrip(size: nat, session: Session, tail: seq<Byte>)
    requires size > 0 && AllOf(size, session) && NoZeroRecord(session)
    ensures ReadRecords(size, Joined(session) + Zeros(size) + tail) == Reading(session, |Joined(session)| + size)
  {
    var s := Joined(session) + Zeros(size) + tail;
    if session == [] {
      assert s[..size] == Zeros(size);
    } else {
      RecordsRoundTrip(size, session[1..], tail);
      assert s[..size] == session[0];
      assert s[size..] == Joined(session[1..]) + Zeros(size) + tail;
      assert session == [session[0]] + session[1..];
    }
  }

  lemma {:induction false} ReadingHasNoZero(size: nat, s: seq<Byte>)
    requires size > 0
    ensures NoZeroRecord(ReadRecords(size, s).records)
  {
    if |s| >= size && s[..size] != Zeros(size) {
      ReadingHasNoZero(size, s[size..]);
    }
  }

  lemma NoZeroCons(session: Session, rest: seq<Session>)
    requires NoZeroRecord(session) && NoZeroRecords(rest)
    ensures NoZeroRecords([session] + rest)
  {
  }

  lemma {:induction false} SessionsHaveNoZero(blockSize: nat, s: seq<Byte>)
    requires blockSize > 0
    ensures NoZeroRecords(ReadSessions(blockSize, s))
    decreases |s|
  {
    if |s| >= 8 && FromLittle(s[4..8]) != 0 {
      var p := ReadSession(blockSize, s);
      ReadingHasNoZero(FromLittle(s[4..8]), s[8..]);
      SessionsHaveNoZero(blockSize, p.rest);
      NoZeroCons(p.records, ReadSessions(blockSize, p.rest));
    }
  }

  lemma HeaderSize(size: nat)
    requires size < 0x1_0000_0000
    ensures FromLittle(Header(size)[..4]) == STREAM_VERSION && FromLittle(Header(size)[4..8]) == size
  {
    assert Header(size)[..4] == Little(4, STREAM_VERSION) && Header(size)[4..8] == Little(4, size);
    Capacities();
    LittleRoundTrip(4, STREAM_VERSION);
    LittleRoundTrip(4, size);
  }

  /** One session is read back, and the next one starts where it ends. */
  lemma FirstSession(blockSize: nat, size: nat, session: Session, tail: seq<Byte>)
    requires blockSize > 0 && 0 < size < 0x1_0000_0000 && AllOf(size, session) && NoZeroRecord(session)
    ensures ReadSessions(blockSize, Closed(blockSize, size, session) + tail)
         == [session] + ReadSessions(blockSize, tail)
  {
    var body := Joined(session) + Zeros(size);
    var padding := Zeros(Padding(blockSize, |Unpadded(size, session)|));
    HeaderSize(size);
    RecordsRoundTrip(size, session, padding + tail);
    Associative(Header(size), Joined(session), Zeros(size));
    FirstReading(blockSize, Header(size), body, padding, tail, size, session);
  }

  /** Reading a header and what follows it. */
  lemma FirstReading(blockSize: nat, header: seq<Byte>, body: seq<Byte>, padding: seq<Byte>, tail: seq<Byte>,
                     size: nat, session: Session)
    requires blockSize > 0 && |header| == 8 && FromLittle(header[4..8]) == size > 0
    requires ReadRecords(size, body + (padding + tail)) == Reading(session, |body|)
    requires |padding| == Padding(blockSize, |header| + |body|)
    ensures var s := ((header + body) + padding) + tail;
            FromLittle(s[4..8]) == size && ReadSession(blockSize, s) == Parsed(session, tail)
  {
    HeaderAndBody(header, body, padding, tail);
  }

  lemma HeaderAndBody(header: seq<Byte>, body: seq<Byte>, padding: seq<Byte>, tail: seq<Byte>)
    requires |header| == 8
    ensures var s := ((header + body) + padding) + tail;
            && s[4..8] == header[4..8] && s[8..] == body + (padding + tail)
            && s[8 + |body| + |padding|..] == tail
  {
  }

  lemma StreamCons(blockSize: nat, size: nat, sessions: seq<Session>)
    requires blockSize > 0 && sessions != []
    ensures Stream(blockSize, size, sessions)
         == Closed(blockSize, size, sessions[0]) + Stream(blockSize, size, sessions[1..])
  {
    assert Images(blockSize, size, sessions)[1..] == Images(blockSize, size, sessions[1..]);
  }

  lemma {:induction false} ReadStream(blockSize: nat, size: nat, sessions: seq<Session>)
    requires blockSize > 0 && 0 < size < 0x1_0000_0000 && SessionsOk(size, sessions) && NoZeroRecords(sessions)
    ensures ReadSessions(blockSize, Stream(blockSize, size, sessions)) == sessions
  {
    if sessions != [] {
      var rest := sessions[1..];
      ReadStream(blockSize, size, rest);
      StreamCons(blockSize, size, sessions);
      FirstSession(blockSize, size, sessions[0], Stream(blockSize, size, rest));
      assert sessions == [sessions[0]] + rest;
    }
  }

  /** A reader that stops at the all-zero record gets back the sessions and their records
      exactly when no record is itself all zeros. */
  lemma ReadBack(blockSize: nat, size: nat, sessions: seq<Session>)
    requires blockSize > 0 && 0 < size < 0x1_0000_0000 && SessionsOk(size, sessions)
    ensures ReadSessions(blockSize, Stream(blockSize, size, sessions)) == sessions <==> NoZeroRecords(sessions)
  {
    SessionsHaveNoZero(blockSize, Stream(blockSize, size, sessions));
    if NoZeroRecords(sessions) {
      ReadStream(blockSize, size, sessions);
    }
  }

  lemma NullNotRead(blockSize: nat, layout: Layout, a: Access, sessions: seq<Session>)
    requires blockSize > 0 && SessionsOk(RecordSize(layout), sessions) && AccessOk(layout, a) && IsNull(layout, a)
    requires sessions != [] && sessions[|sessions| - 1] == [Record(layout, a)]
    ensures ReadSessions(blockSize, Stream(blockSize, RecordSize(layout), sessions)) != sessions
  {
    NullRecord(layout, a);
    assert sessions[|sessions| - 1][0] == Zeros(RecordSize(layout));
    assert !NoZeroRecord(sessions[|sessions| - 1]);
    ReadBack(blockSize, RecordSize(layout), sessions);
  }

  /** The condition matters: whatever a tracer has recorded before, a session with a single
      access whose record is all zeros, such as Access(0, 0, 0, 0), is not read back. */
  method NullAccessIsLost(t: Tracer, a: Access)
    requires t.Valid() && t.state == NONE && AccessOk(t.layout, a) && IsNull(t.layout, a)
    modifies t
    ensures t.Valid() && t.state == NONE && t.done == old(t.done) + [[Record(t.layout, a)]]
    ensures ReadSessions(t.blockSize, Stream(t.blockSize, t.size, t.done)) != t.done
  {
    var kind := Kinds(true, false);
    t.Enable(kind);
    t.Output(a);
    t.Disable(kind);
    NullNotRead(t.blockSize, t.layout, a, t.done);
  }

  /** The calls of a run are those of a tracer; what an uninitialised variable held does not
      matter. */
  ghost predicate SameCalls(a: seq<Step>, b: seq<Step>) {
    && |a| == |b|
    && forall i :: 0 <= i < |a| ==> a[i] == b[i] || (a[i].Flush? && b[i].Flush?)
  }

  lemma {:induction false} SameStream(blockSize: nat, a: seq<Step>, b: seq<Step>)
    requires blockSize > 0 && SameCalls(a, b)
    ensures Intended(blockSize, a) == Intended(blockSize, b)
    decreases |a|
  {
    if a != [] {
      SameStream(blockSize, a[..|a| - 1], b[..|b| - 1]);
    }
  }

  /** The tracer, the ring and the reader together: once a tracer has closed its sessions and
      the ring has been drained, whatever the interleaving, the reader has consumed exactly the
      closed sessions, and can tell them apart again unless a record is all zeros. */
  lemma ConsumedSessions(r: Ring, states: seq<State>, steps: seq<Step>, t: Tracer)
    requires IsRun(r, states, steps) && t.Valid() && t.state == NONE && t.blockSize == r.blockSize
    requires SameCalls(Calls(steps), t.calls)
    requires var s := states[|steps|]; s.pc.Idle? && s.index == 0 && s.count == 0
    ensures states[|steps|].consumed == Stream(r.blockSize, t.size, t.done)
    ensures ReadSessions(r.blockSize, states[|steps|].consumed) == t.done <==> NoZeroRecords(t.done)
  {
    assert steps[..|steps|] == steps;
    ReaderGetsTheStream(r, states, steps, |steps|);
    CallsDetermineStream(r.blockSize, steps);
    SameStream(r.blockSize, Calls(steps), t.calls);
    Unit(Stream(r.blockSize, t.size, t.done));
    ReadBack(r.blockSize, t.size, t.done);
  }
}
