/** The double-buffered trace file writer, qem_trace_file_mt_buff.c.

One producer calls qem_trace_enable, qem_trace_output and qem_trace_disable.  When its
buffer is full it takes the semaphore, starts a detached thread that writes the buffer
out and posts the semaphore, and goes on with the other buffer.  Every access to shared
data is a step; a flusher writes one record per step.  `log` and `records` are the history
of the calls: what they ask for, and what has been put into a buffer for the open file. */
module TraceThreads {
  import opened Bytes
  import opened Trace
  import opened TraceFile

  /** QEM_TRACE_BUFFER_SIZE records of sizeof(qem_trace_t) bytes. */
  datatype Config = Config(layout: Layout, capacity: nat)

  function Size(c: Config): nat {
    RecordSize(c.layout)
  }

  /** A thread in qem_trace_flush_routine. */
  datatype Flusher =
    | Start(buf: nat)
    | Writing(buf: nat, n: nat, k: nat)
    | Counting(buf: nat)
    | Emptying(buf: nat)
    | Posting

  /** Why the header is written. */
  datatype Goal = Opening(kind: Kinds) | Closing

  datatype PC =
    | Idle
    | Seek(goal: Goal, size: nat)
    | HeaderWait(goal: Goal, size: nat)
    | HeaderWrite(goal: Goal, size: nat)
    | HeaderReset(goal: Goal)
    | HeaderPost(goal: Goal)
    | Finish(goal: Goal)
    | Check(record: seq<Byte>)
    | Wait(record: seq<Byte>)
    | Spawn(record: seq<Byte>)
    | Switch(record: seq<Byte>)
    | Fill(record: seq<Byte>)
    | Bump(record: seq<Byte>)
    | CloseWait
    | CloseWrite
    | CloseCount
    | CloseEmpty
    | ClosePost

  datatype State = State(
    state: Kinds,
    current: nat,
    sizes: seq<nat>,
    buffers: seq<seq<seq<Byte>>>,
    file: seq<Byte>,
    pos: nat,
    fileSize: nat,
    sem: nat,
    pc: PC,
    flushers: seq<Flusher>,
    closed: seq<seq<Byte>>,
    log: Log,
    records: seq<seq<Byte>>)

  datatype Step = Invoke(call: Call) | Produce | Flush(i: nat)

  ghost predicate Shaped(c: Config, s: State) {
    && c.capacity > 0 && s.current < 2 && |s.sizes| == 2 && |s.buffers| == 2
    && (forall b :: 0 <= b < 2 ==> s.sizes[b] <= c.capacity && |s.buffers[b]| == c.capacity)
    && s.pos <= |s.file|
  }

  ghost predicate FlusherShaped(c: Config, s: State, f: Flusher) {
    match f
    case Writing(buf, n, k) => buf < 2 && k <= n <= c.capacity
    case Posting => true
    case _ => f.buf < 2
  }

  // ---------------------------------------------------------------- the steps

  function Holding(s: State, b: nat): seq<seq<Byte>>
    requires b < |s.sizes| && b < |s.buffers| && s.sizes[b] <= |s.buffers[b]|
  {
    s.buffers[b][..s.sizes[b]]
  }

  function Appended(s: State, bytes: seq<Byte>): State
    requires s.pos <= |s.file|
  {
    s.(file := WriteAt(s.file, s.pos, bytes), pos := s.pos + |bytes|)
  }

  /** The start of a call, up to the first access to data the flusher uses. */
  ghost function Begin(c: Config, s: State, call: Call): State {
    var t := s.(log := Logged(c.layout, s.log, call));
    match call
    case Enable(kind) =>
      if s.state == NONE then t.(file := [], pos := 0, sem := 1, records := [], pc := Seek(Opening(kind), 0))
      else t.(state := kind)
    case Disable(kind) =>
      if s.state == NONE then t
      else if Without(s.state, kind) == NONE then t.(state := NONE, pc := CloseWait)
      else t.(state := Without(s.state, kind))
    case Output(access) => t.(pc := Check(Record(c.layout, access)))
  }

  /** qem_write_header and what follows it. */
  ghost function HeaderStep(c: Config, s: State): State
    requires Shaped(c, s)
    requires HeaderPc(s.pc)
  {
    match s.pc
    case Seek(goal, size) => s.(pos := 0, pc := HeaderWait(goal, size))
    case HeaderWait(goal, size) => s.(sem := if s.sem == 0 then 0 else s.sem - 1, pc := HeaderWrite(goal, size))
    case HeaderWrite(goal, size) => Appended(s, FileHeader(size, Size(c))).(pc := HeaderReset(goal))
    case HeaderReset(goal) => s.(sizes := s.sizes[s.current := 0], pc := HeaderPost(goal))
    case HeaderPost(goal) => s.(sem := s.sem + 1, pc := Finish(goal))
    case Finish(goal) =>
      match goal
      case Opening(kind) => s.(fileSize := Size(c), state := kind, pc := Idle)
      case Closing => s.(closed := s.closed + [s.file], pc := Idle)
  }

  /** qem_trace_output. */
  ghost function OutputStep(c: Config, s: State): State
    requires Shaped(c, s)
    requires OutputPc(s.pc)
  {
    match s.pc
    case Check(record) => s.(pc := if s.sizes[s.current] == c.capacity then Wait(record) else Fill(record))
    case Wait(record) => s.(sem := if s.sem == 0 then 0 else s.sem - 1, pc := Spawn(record))
    case Spawn(record) => s.(flushers := s.flushers + [Start(s.current)], pc := Switch(record))
    case Switch(record) => s.(current := (s.current + 1) % 2, pc := Fill(record))
    case Fill(record) =>
      if s.sizes[s.current] < c.capacity then
        s.(buffers := s.buffers[s.current := s.buffers[s.current][s.sizes[s.current] := record]], pc := Bump(record))
      else s
    case Bump(record) =>
      s.(sizes := s.sizes[s.current := s.sizes[s.current] + 1], records := s.records + [record], pc := Idle)
  }

  /** qem_close_tracing, up to the header. */
  ghost function CloseStep(c: Config, s: State): State
    requires Shaped(c, s)
    requires ClosePc(s.pc)
  {
    match s.pc
    case CloseWait => s.(sem := if s.sem == 0 then 0 else s.sem - 1, pc := CloseWrite)
    case CloseWrite =>
      if s.sizes[s.current] != 0 then Appended(s, Joined(Holding(s, s.current))).(pc := CloseCount)
      else s.(pc := ClosePost)
    case CloseCount => s.(fileSize := s.fileSize + s.sizes[s.current] * Size(c), pc := CloseEmpty)
    case CloseEmpty => s.(sizes := s.sizes[s.current := 0], pc := ClosePost)
    case ClosePost => s.(sem := s.sem + 1, pc := Seek(Closing, s.fileSize))
  }

  ghost function ProduceStep(c: Config, s: State): State
    requires Shaped(c, s)
  {
    match s.pc
    case Idle => s
    case Seek(_, _) => HeaderStep(c, s)
    case HeaderWait(_, _) => HeaderStep(c, s)
    case HeaderWrite(_, _) => HeaderStep(c, s)
    case HeaderReset(_) => HeaderStep(c, s)
    case HeaderPost(_) => HeaderStep(c, s)
    case Finish(_) => HeaderStep(c, s)
    case Check(_) => OutputStep(c, s)
    case Wait(_) => OutputStep(c, s)
    case Spawn(_) => OutputStep(c, s)
    case Switch(_) => OutputStep(c, s)
    case Fill(_) => OutputStep(c, s)
    case Bump(_) => OutputStep(c, s)
    case _ => CloseStep(c, s)
  }

  /** A step of flusher i; posting the semaphore ends the thread. */
  ghost function FlushStep(c: Config, s: State, i: nat): State
    requires Shaped(c, s) && i < |s.flushers| && FlusherShaped(c, s, s.flushers[i])
  {
    match s.flushers[i]
    case Start(buf) => s.(flushers := s.flushers[i := Writing(buf, s.sizes[buf], 0)])
    case Writing(buf, n, k) =>
      if k < n then Appended(s, s.buffers[buf][k]).(flushers := s.flushers[i := Writing(buf, n, k + 1)])
      else s.(flushers := s.flushers[i := Counting(buf)])
    case Counting(buf) =>
      s.(fileSize := s.fileSize + s.sizes[buf] * Size(c), flushers := s.flushers[i := Emptying(buf)])
    case Emptying(buf) => s.(sizes := s.sizes[buf := 0], flushers := s.flushers[i := Posting])
    case Posting => s.(sem := s.sem + 1, flushers := s.flushers[..i] + s.flushers[i + 1..])
  }

  ghost predicate Enabled(c: Config, s: State, step: Step) {
    match step
    case Invoke(call) => s.pc.Idle? && CallOk(s.log, call)
    case Produce => !s.pc.Idle? && (s.pc.HeaderWait? || s.pc.Wait? || s.pc.CloseWait? ==> s.sem > 0)
    case Flush(i) => i < |s.flushers| && FlusherShaped(c, s, s.flushers[i])
  }

  ghost function Apply(c: Config, s: State, step: Step): State
    requires Shaped(c, s) && Enabled(c, s, step)
  {
    match step
    case Invoke(call) => Begin(c, s, call)
    case Produce => ProduceStep(c, s)
    case Flush(i) => FlushStep(c, s, i)
  }

  ghost predicate Init(c: Config, s: State) {
    && Shaped(c, s) && s.state == NONE && s.sizes == [0, 0] && s.sem == 1 && s.pc == Idle && s.flushers == []
    && s.closed == [] && s.log == EMPTY_LOG && s.records == []
  }

  ghost predicate Moves(c: Config, s: State, t: State, step: Step) {
    Shaped(c, s) && Enabled(c, s, step) && t == Apply(c, s, step)
  }

  ghost predicate IsRun(c: Config, states: seq<State>, steps: seq<Step>) {
    && |states| == |steps| + 1 && Init(c, states[0])
    && forall i :: 0 <= i < |steps| ==> Moves(c, states[i], states[i + 1], steps[i])
  }

  // ---------------------------------------------------------------- phases

  predicate HeaderPc(pc: PC) {
    pc.Seek? || pc.HeaderWait? || pc.HeaderWrite? || pc.HeaderReset? || pc.HeaderPost? || pc.Finish?
  }

  predicate OutputPc(pc: PC) {
    pc.Check? || pc.Wait? || pc.Spawn? || pc.Switch? || pc.Fill? || pc.Bump?
  }

  predicate ClosePc(pc: PC) {
    pc.CloseWait? || pc.CloseWrite? || pc.CloseCount? || pc.CloseEmpty? || pc.ClosePost?
  }

  /** The producer has taken the semaphore and neither posted it nor passed it on. */
  predicate Holds(pc: PC) {
    || pc.HeaderWrite? || pc.HeaderReset? || pc.HeaderPost? || pc.Spawn?
    || pc.CloseWrite? || pc.CloseCount? || pc.CloseEmpty? || pc.ClosePost?
  }

  /** Between the call that closes the file and its fclose. */
  predicate IsClosing(pc: PC) {
    ClosePc(pc) || (HeaderPc(pc) && pc.goal.Closing?)
  }

  predicate IsOpening(pc: PC) {
    HeaderPc(pc) && pc.goal.Opening?
  }

  /** The file has its first header and is being filled. */
  predicate Active(s: State) {
    s.state != NONE || ClosePc(s.pc) || (IsOpening(s.pc) && !BeforeHeader(s.pc))
  }

  predicate BeforeHeader(pc: PC) {
    pc.Seek? || pc.HeaderWait? || pc.HeaderWrite?
  }

  // ---------------------------------------------------------------- the invariant: threads and buffers

  /** Exactly one of: the semaphore is free, the producer has it, a flusher has it. */
  predicate SemOk(s: State) {
    s.sem + |s.flushers| + (if Holds(s.pc) then 1 else 0) == 1
  }

  predicate PhaseOk(s: State) {
    && (HeaderPc(s.pc) || ClosePc(s.pc) ==> s.state == NONE)
    && (OutputPc(s.pc) ==> s.state != NONE)
    && (s.flushers != [] ==> s.state != NONE || s.pc.CloseWait?)
  }

  /** The buffer a flusher works on; the producer is about to leave it in `Switch`. */
  function FlushBuffer(s: State): nat
    requires s.current < 2
  {
    if s.pc.Switch? then s.current else 1 - s.current
  }

  ghost predicate FlusherOk(c: Config, s: State)
    requires Shaped(c, s)
  {
    s.flushers != [] ==>
      match s.flushers[0]
      case Writing(buf, n, k) => buf == FlushBuffer(s) && k <= n == s.sizes[buf]
      case Posting => true
      case f => f.buf == FlushBuffer(s)
  }

  ghost predicate BuffersOk(c: Config, s: State)
    requires Shaped(c, s)
  {
    && (s.flushers == [] || s.flushers[0].Posting? ==> s.sizes[FlushBuffer(s)] == 0)
    && (s.pc.Switch? ==> s.sizes[1 - s.current] == 0)
    && (s.state == NONE && (!ClosePc(s.pc) || s.pc.ClosePost?) ==> s.sizes[s.current] == 0)
    && (s.pc.Fill? || s.pc.Bump? ==> s.sizes[s.current] < c.capacity)
  }

  ghost predicate RecordsOk(c: Config, s: State)
    requires Shaped(c, s)
  {
    && AllOf(Size(c), Holding(s, 0)) && AllOf(Size(c), Holding(s, 1)) && AllOf(Size(c), s.records)
    && (OutputPc(s.pc) ==> |s.pc.record| == Size(c))
    && (s.pc.Bump? && s.sizes[s.current] < c.capacity ==> s.buffers[s.current][s.sizes[s.current]] == s.pc.record)
  }

  ghost predicate Core(c: Config, s: State) {
    Shaped(c, s) && SemOk(s) && PhaseOk(s) && FlusherOk(c, s) && BuffersOk(c, s)
  }

  // ---------------------------------------------------------------- the invariant: the file

  ghost function InFlight(c: Config, s: State): seq<seq<Byte>>
    requires Shaped(c, s) && FlusherOk(c, s)
  {
    if s.flushers == [] then []
    else
      match s.flushers[0]
      case Start(buf) => Holding(s, buf)
      case Writing(buf, n, k) => s.buffers[buf][k..n]
      case _ => []
  }

  ghost function Held(c: Config, s: State): seq<seq<Byte>>
    requires Shaped(c, s)
  {
    if s.pc.Switch? || s.pc.CloseCount? || s.pc.CloseEmpty? then [] else Holding(s, s.current)
  }

  /** Bytes that are in the file but not yet in qem_file_size. */
  ghost function Uncounted(c: Config, s: State): nat
    requires Shaped(c, s)
  {
    if s.pc.CloseCount? then s.sizes[s.current] * Size(c)
    else if s.flushers == [] then 0
    else
      match s.flushers[0]
      case Writing(_, _, k) => k * Size(c)
      case Counting(buf) => if buf < 2 then s.sizes[buf] * Size(c) else 0
      case _ => 0
  }

  /** File contents, then the buffer in flight, then the current buffer, are the records. */
  ghost predicate StreamOk(c: Config, s: State)
    requires Shaped(c, s) && FlusherOk(c, s)
  {
    && |s.file| >= 16 && s.pos == |s.file| && s.file[..16] == FileHeader(0, Size(c))
    && s.file[16..] + (Joined(InFlight(c, s)) + Joined(Held(c, s))) == Joined(s.records)
  }

  ghost predicate CountOk(c: Config, s: State)
    requires Shaped(c, s)
  {
    s.fileSize + Uncounted(c, s) == Size(c) + |s.file| - 16
  }

  ghost predicate FileOk(c: Config, s: State)
    requires Shaped(c, s) && FlusherOk(c, s)
  {
    && (Active(s) ==> StreamOk(c, s) && (!IsOpening(s.pc) ==> CountOk(c, s)))
    && (IsOpening(s.pc) ==> s.records == [])
    && (IsOpening(s.pc) && BeforeHeader(s.pc) ==> s.file == [] && s.pos == 0 && s.pc.size == 0)
    && (HeaderPc(s.pc) && s.pc.goal.Closing? ==>
          if BeforeHeader(s.pc) then
            && |s.file| >= 16 && s.file[16..] == Joined(s.records) && s.pc.size == Size(c) + |s.records| * Size(c)
            && (s.pc.Seek? || s.pos == 0)
          else s.file == ClosedFile(Size(c), s.records))
  }

  // ---------------------------------------------------------------- the invariant: the calls

  ghost predicate LogOk(c: Config, s: State) {
    && s.log.state == (if IsOpening(s.pc) then s.pc.goal.kind else s.state)
    && (if IsClosing(s.pc) then
          && s.log.done != [] && s.log.done[|s.log.done| - 1] == s.records
          && s.closed == Files(Size(c), s.log.done[..|s.log.done| - 1])
        else s.closed == Files(Size(c), s.log.done))
    && (s.state != NONE || IsOpening(s.pc) ==>
          s.log.records == s.records + if OutputPc(s.pc) then [s.pc.record] else [])
  }

  ghost predicate Inv(c: Config, s: State) {
    Core(c, s) && RecordsOk(c, s) && FileOk(c, s) && LogOk(c, s)
  }

  lemma InitHolds(c: Config, s: State)
    requires Init(c, s)
    ensures Inv(c, s)
  {
  }

  // ---------------------------------------------------------------- threads and buffers are kept

  lemma BeginThreads(c: Config, s: State, call: Call)
    requires Core(c, s) && LogOk(c, s) && Enabled(c, s, Invoke(call))
    ensures Shaped(c, Begin(c, s, call)) && SemOk(Begin(c, s, call)) && PhaseOk(Begin(c, s, call))
  {
    assert s.sem == 1 || s.flushers != [];
  }

  lemma BeginBuffers(c: Config, s: State, call: Call)
    requires Core(c, s) && LogOk(c, s) && Enabled(c, s, Invoke(call)) && Shaped(c, Begin(c, s, call))
    ensures FlusherOk(c, Begin(c, s, call)) && BuffersOk(c, Begin(c, s, call))
  {
    BuffersKept(c, s, Begin(c, s, call));
  }

  lemma BuffersKept(c: Config, s: State, t: State)
    requires Core(c, s) && Shaped(c, t) && s.pc.Idle?
    requires t.sizes == s.sizes && t.current == s.current && t.flushers == s.flushers
    requires t.pc.Idle? || t.pc.Seek? || t.pc.Check? || t.pc.CloseWait?
    requires t.state == NONE && !t.pc.CloseWait? ==> s.state == NONE
    ensures FlusherOk(c, t) && BuffersOk(c, t)
  {
  }

  lemma BeginCore(c: Config, s: State, call: Call)
    requires Core(c, s) && LogOk(c, s) && Enabled(c, s, Invoke(call))
    ensures Core(c, Begin(c, s, call))
  {
    BeginThreads(c, s, call);
    BeginBuffers(c, s, call);
  }

  lemma BeginRecords(c: Config, s: State, call: Call)
    requires Shaped(c, s) && RecordsOk(c, s) && s.pc.Idle? && Shaped(c, Begin(c, s, call))
    ensures RecordsOk(c, Begin(c, s, call))
  {
  }

  lemma HeaderCore(c: Config, s: State)
    requires Core(c, s) && HeaderPc(s.pc) && Enabled(c, s, Produce)
    requires s.pc.HeaderWrite? ==> s.pos == 0
    ensures Core(c, HeaderStep(c, s))
  {
    if BeforeHeader(s.pc) {
      BeforeHeaderCore(c, s);
    }
  }

  lemma BeforeHeaderCore(c: Config, s: State)
    requires Core(c, s) && BeforeHeader(s.pc) && Enabled(c, s, Produce)
    requires s.pc.HeaderWrite? ==> s.pos == 0
    ensures Core(c, HeaderStep(c, s))
  {
  }

  lemma HeaderRecords(c: Config, s: State)
    requires Core(c, s) && RecordsOk(c, s) && HeaderPc(s.pc) && Enabled(c, s, Produce)
    requires Core(c, HeaderStep(c, s))
    ensures RecordsOk(c, HeaderStep(c, s))
  {
    var t := HeaderStep(c, s);
    assert Holding(t, 0) == Holding(s, 0) && Holding(t, 1) == Holding(s, 1);
  }

  lemma OutputThreads(c: Config, s: State)
    requires Core(c, s) && OutputPc(s.pc) && Enabled(c, s, Produce)
    ensures Shaped(c, OutputStep(c, s)) && SemOk(OutputStep(c, s)) && PhaseOk(OutputStep(c, s))
  {
  }

  lemma OutputBuffers(c: Config, s: State)
    requires Core(c, s) && OutputPc(s.pc) && Enabled(c, s, Produce) && Shaped(c, OutputStep(c, s))
    ensures FlusherOk(c, OutputStep(c, s)) && BuffersOk(c, OutputStep(c, s))
  {
  }

  lemma OutputCore(c: Config, s: State)
    requires Core(c, s) && OutputPc(s.pc) && Enabled(c, s, Produce)
    ensures Core(c, OutputStep(c, s))
  {
    OutputThreads(c, s);
    OutputBuffers(c, s);
  }

  lemma OutputRecords(c: Config, s: State)
    requires Core(c, s) && RecordsOk(c, s) && OutputPc(s.pc) && Enabled(c, s, Produce)
    requires Core(c, OutputStep(c, s))
    ensures RecordsOk(c, OutputStep(c, s))
  {
    var t, b := OutputStep(c, s), s.current;
    if s.pc.Fill? {
      assert Holding(t, b) == Holding(s, b);
    } else if s.pc.Bump? {
      assert Holding(t, b) == Holding(s, b) + [s.pc.record];
    }
  }

  lemma CloseCore(c: Config, s: State)
    requires Core(c, s) && RecordsOk(c, s) && ClosePc(s.pc) && Enabled(c, s, Produce)
    ensures Core(c, CloseStep(c, s)) && RecordsOk(c, CloseStep(c, s))
  {
    var t := CloseStep(c, s);
    if s.pc.CloseEmpty? {
      assert Holding(t, s.current) == [] && Holding(t, 1 - s.current) == Holding(s, 1 - s.current);
    }
  }

  lemma FlushShape(c: Config, s: State, i: nat)
    requires Core(c, s) && Enabled(c, s, Flush(i))
    ensures i == 0 && |s.flushers| == 1
    ensures Shaped(c, FlushStep(c, s, i)) && SemOk(FlushStep(c, s, i)) && PhaseOk(FlushStep(c, s, i))
  {
  }

  lemma FlushFlusher(c: Config, s: State)
    requires Core(c, s) && Enabled(c, s, Flush(0)) && |s.flushers| == 1 && Shaped(c, FlushStep(c, s, 0))
    ensures FlusherOk(c, FlushStep(c, s, 0))
  {
  }

  lemma FlushBuffers(c: Config, s: State)
    requires Core(c, s) && Enabled(c, s, Flush(0)) && |s.flushers| == 1 && Shaped(c, FlushStep(c, s, 0))
    ensures BuffersOk(c, FlushStep(c, s, 0))
  {
    if s.flushers[0].Emptying? {
      EmptiedBuffers(c, s);
    }
  }

  lemma EmptiedBuffers(c: Config, s: State)
    requires Core(c, s) && |s.flushers| == 1 && s.flushers[0].Emptying? && Enabled(c, s, Flush(0))
    requires Shaped(c, FlushStep(c, s, 0))
    ensures BuffersOk(c, FlushStep(c, s, 0))
  {
  }

  lemma FlushCore(c: Config, s: State, i: nat)
    requires Core(c, s) && Enabled(c, s, Flush(i))
    ensures i == 0 && |s.flushers| == 1
    ensures Core(c, FlushStep(c, s, i))
  {
    FlushShape(c, s, i);
    FlushFlusher(c, s);
    FlushBuffers(c, s);
  }

  lemma FlushRecords(c: Config, s: State)
    requires Core(c, s) && RecordsOk(c, s) && Enabled(c, s, Flush(0))
    requires Core(c, FlushStep(c, s, 0))
    ensures RecordsOk(c, FlushStep(c, s, 0))
  {
    var t := FlushStep(c, s, 0);
    if s.flushers[0].Emptying? {
      var b := s.flushers[0].buf;
      assert Holding(t, b) == [] && Holding(t, 1 - b) == Holding(s, 1 - b);
    }
  }

  // ---------------------------------------------------------------- the calls are kept

  lemma BeginLog(c: Config, s: State, call: Call)
    requires Shaped(c, s) && LogOk(c, s) && Enabled(c, s, Invoke(call))
    ensures LogOk(c, Begin(c, s, call))
  {
    var t := Begin(c, s, call);
    if call.Disable? && t.pc.CloseWait? {
      assert s.log.records == s.records + [] == s.records;
      assert t.log.done[..|t.log.done| - 1] == s.log.done;
    }
  }

  lemma HeaderLog(c: Config, s: State)
    requires Shaped(c, s) && LogOk(c, s) && PhaseOk(s) && HeaderPc(s.pc)
    requires s.pc.Finish? && s.pc.goal.Closing? ==> s.file == ClosedFile(Size(c), s.records)
    ensures LogOk(c, HeaderStep(c, s))
  {
    if s.pc.Finish? {
      FinishLog(c, s);
    } else {
      LogKept(c, s, HeaderStep(c, s));
    }
  }

  lemma FinishLog(c: Config, s: State)
    requires Shaped(c, s) && LogOk(c, s) && PhaseOk(s) && s.pc.Finish?
    requires s.pc.goal.Closing? ==> s.file == ClosedFile(Size(c), s.records)
    ensures LogOk(c, HeaderStep(c, s))
  {
    if s.pc.goal.Closing? {
      FilesLast(Size(c), s.log.done);
    }
  }

  /** A step inside a call that neither starts nor ends its effect. */
  lemma LogKept(c: Config, s: State, t: State)
    requires LogOk(c, s) && t.log == s.log && t.closed == s.closed && t.records == s.records && t.state == s.state
    requires t.pc == s.pc || (HeaderPc(s.pc) && HeaderPc(t.pc) && t.pc.goal == s.pc.goal)
    ensures LogOk(c, t)
  {
  }

  lemma OutputLog(c: Config, s: State)
    requires Shaped(c, s) && LogOk(c, s) && PhaseOk(s) && OutputPc(s.pc)
    ensures LogOk(c, OutputStep(c, s))
  {
  }

  lemma CloseLog(c: Config, s: State)
    requires Shaped(c, s) && LogOk(c, s) && PhaseOk(s) && ClosePc(s.pc)
    ensures LogOk(c, CloseStep(c, s))
  {
  }

  lemma FlushLog(c: Config, s: State)
    requires Shaped(c, s) && LogOk(c, s) && Enabled(c, s, Flush(0))
    ensures LogOk(c, FlushStep(c, s, 0))
  {
    LogKept(c, s, FlushStep(c, s, 0));
  }

  // ---------------------------------------------------------------- the file is kept

  /** Writing the first record in flight to the file moves it in front of the rest. */
  lemma MoveFirst(body: seq<Byte>, flight: seq<seq<Byte>>, held: seq<Byte>)
    requires flight != []
    ensures (body + flight[0]) + (Joined(flight[1..]) + held) == body + (Joined(flight) + held)
  {
    Associative(flight[0], Joined(flight[1..]), held);
    Associative(body, flight[0], Joined(flight[1..]) + held);
  }

  /** The end of the file grows by what is appended. */
  lemma AppendedBody(s: State, bytes: seq<Byte>)
    requires s.pos == |s.file| >= 16
    ensures var t := Appended(s, bytes);
            t.pos == |t.file| && |t.file| >= 16 && t.file[..16] == s.file[..16] && t.file[16..] == s.file[16..] + bytes
  {
    WriteAtEnd(s.file, bytes);
  }

  lemma BeginFile(c: Config, s: State, call: Call)
    requires Core(c, s) && FileOk(c, s) && LogOk(c, s) && Enabled(c, s, Invoke(call)) && Core(c, Begin(c, s, call))
    ensures FileOk(c, Begin(c, s, call))
  {
    if s.state != NONE || !call.Enable? {
      FileKept(c, s, Begin(c, s, call));
    }
  }

  /** A step of the producer that touches neither the file nor the buffers. */
  lemma FileKept(c: Config, s: State, t: State)
    requires Shaped(c, s) && FlusherOk(c, s) && FileOk(c, s) && Shaped(c, t) && FlusherOk(c, t)
    requires t.file == s.file && t.pos == s.pos && t.fileSize == s.fileSize && t.records == s.records
    requires t.sizes == s.sizes && t.buffers == s.buffers && t.current == s.current && t.flushers == s.flushers
    requires s.pc.Idle? && (t.pc.Idle? || t.pc.CloseWait? || t.pc.Check?) && (Active(t) ==> Active(s))
    ensures FileOk(c, t)
  {
    assert InFlight(c, t) == InFlight(c, s) && Held(c, t) == Held(c, s) && Uncounted(c, t) == Uncounted(c, s);
  }

  lemma OpeningHeader(c: Config, s: State)
    requires Core(c, s) && FileOk(c, s) && s.pc.HeaderWrite? && s.pc.goal.Opening? && Core(c, HeaderStep(c, s))
    ensures FileOk(c, HeaderStep(c, s))
  {
    var t := HeaderStep(c, s);
    assert t.file == FileHeader(0, Size(c));
    assert Holding(t, t.current) == [];
    assert t.file[16..] == [];
  }

  lemma ClosingHeader(c: Config, s: State)
    requires Core(c, s) && FileOk(c, s) && s.pc.HeaderWrite? && s.pc.goal.Closing? && Core(c, HeaderStep(c, s))
    ensures FileOk(c, HeaderStep(c, s))
  {
    assert HeaderStep(c, s).file == FileHeader(s.pc.size, Size(c)) + s.file[16..];
  }

  lemma HeaderFile(c: Config, s: State)
    requires Core(c, s) && FileOk(c, s) && HeaderPc(s.pc) && Enabled(c, s, Produce) && Core(c, HeaderStep(c, s))
    ensures FileOk(c, HeaderStep(c, s))
  {
    if s.pc.HeaderWrite? {
      if s.pc.goal.Opening? {
        OpeningHeader(c, s);
      } else {
        ClosingHeader(c, s);
      }
    } else if s.pc.Finish? {
      FinishFile(c, s);
    } else {
      HeaderFileKept(c, s);
    }
  }

  lemma FinishFile(c: Config, s: State)
    requires Core(c, s) && FileOk(c, s) && s.pc.Finish? && Core(c, HeaderStep(c, s))
    ensures FileOk(c, HeaderStep(c, s))
  {
    var t := HeaderStep(c, s);
    if s.pc.goal.Opening? {
      assert Holding(s, s.current) == [] && Holding(t, t.current) == [];
    }
  }

  lemma StreamKept(c: Config, s: State, t: State)
    requires Shaped(c, s) && FlusherOk(c, s) && StreamOk(c, s) && Shaped(c, t) && FlusherOk(c, t)
    requires t.file == s.file && t.pos == s.pos && t.records == s.records
    requires InFlight(c, t) == InFlight(c, s) && Held(c, t) == Held(c, s)
    ensures StreamOk(c, t)
  {
  }

  lemma HeaderFileKept(c: Config, s: State)
    requires Core(c, s) && FileOk(c, s) && HeaderPc(s.pc) && Core(c, HeaderStep(c, s))
    requires !s.pc.HeaderWrite? && !s.pc.Finish?
    ensures FileOk(c, HeaderStep(c, s))
  {
    var t := HeaderStep(c, s);
    if Active(s) {
      assert Holding(s, s.current) == [] && Holding(t, t.current) == [];
      StreamKept(c, s, t);
    } else {
      InactiveKept(c, s);
    }
  }

  lemma InactiveKept(c: Config, s: State)
    requires Core(c, s) && FileOk(c, s) && HeaderPc(s.pc) && !Active(s) && Core(c, HeaderStep(c, s))
    requires !s.pc.HeaderWrite? && !s.pc.Finish?
    ensures FileOk(c, HeaderStep(c, s))
  {
  }

  /** The step that counts a record in the buffer adds it to the end of the stream. */
  lemma BumpStream(body: seq<Byte>, flight: seq<Byte>, held: seq<seq<Byte>>, records: seq<seq<Byte>>, record: seq<Byte>)
    requires body + (flight + Joined(held)) == Joined(records)
    ensures body + (flight + Joined(held + [record])) == Joined(records + [record])
  {
    Associative(body, flight, Joined(held));
    HeldAppend(body + flight, held, records, record);
    Associative(body, flight, Joined(held + [record]));
  }

  lemma BumpFile(c: Config, s: State)
    requires Core(c, s) && RecordsOk(c, s) && FileOk(c, s) && s.pc.Bump? && Core(c, OutputStep(c, s))
    ensures FileOk(c, OutputStep(c, s))
  {
    var t, b := OutputStep(c, s), s.current;
    assert Holding(t, b) == Holding(s, b) + [s.pc.record];
    assert InFlight(c, t) == InFlight(c, s) && Uncounted(c, t) == Uncounted(c, s);
    BumpStream(s.file[16..], Joined(InFlight(c, s)), Holding(s, b), s.records, s.pc.record);
  }

  lemma FillFile(c: Config, s: State)
    requires Core(c, s) && FileOk(c, s) && s.pc.Fill? && Core(c, OutputStep(c, s))
    ensures FileOk(c, OutputStep(c, s))
  {
    var t, b := OutputStep(c, s), s.current;
    assert Holding(t, b) == Holding(s, b);
    assert InFlight(c, t) == InFlight(c, s) && Uncounted(c, t) == Uncounted(c, s);
  }

  /** Handing the buffer to a flusher, and leaving it, move it from held to in flight. */
  lemma HandOverFile(c: Config, s: State)
    requires Core(c, s) && FileOk(c, s) && (s.pc.Spawn? || s.pc.Switch?) && Core(c, OutputStep(c, s))
    ensures FileOk(c, OutputStep(c, s))
  {
    var t := OutputStep(c, s);
    if s.pc.Spawn? {
      assert InFlight(c, s) == [] && Held(c, t) == [];
      assert InFlight(c, t) == Held(c, s);
      assert [] + Joined(Held(c, s)) == Joined(Held(c, s)) + [];
    } else {
      assert Held(c, t) == [] && Held(c, s) == [];
      assert InFlight(c, t) == InFlight(c, s) && Uncounted(c, t) == Uncounted(c, s);
    }
  }

  lemma OutputFile(c: Config, s: State)
    requires Core(c, s) && RecordsOk(c, s) && FileOk(c, s) && OutputPc(s.pc) && Enabled(c, s, Produce)
    requires Core(c, OutputStep(c, s))
    ensures FileOk(c, OutputStep(c, s))
  {
    if s.pc.Fill? {
      FillFile(c, s);
    } else if s.pc.Bump? {
      BumpFile(c, s);
    } else if s.pc.Spawn? || s.pc.Switch? {
      HandOverFile(c, s);
    } else {
      var t := OutputStep(c, s);
      assert InFlight(c, t) == InFlight(c, s) && Held(c, t) == Held(c, s) && Uncounted(c, t) == Uncounted(c, s);
    }
  }

  /** Writing the current buffer at the end of the file when nothing is in flight. */
  lemma CloseStream(body: seq<Byte>, held: seq<Byte>, records: seq<Byte>)
    requires body + ([] + held) == records
    ensures (body + held) + ([] + []) == records
  {
    Unit(held);
    Unit(body + held);
    Unit([]);
  }

  lemma CloseWriteFile(c: Config, s: State)
    requires Core(c, s) && RecordsOk(c, s) && FileOk(c, s) && s.pc.CloseWrite? && Core(c, CloseStep(c, s))
    ensures FileOk(c, CloseStep(c, s))
  {
    if s.sizes[s.current] == 0 {
      assert Holding(s, s.current) == [];
    } else {
      CloseWriteStream(c, s);
      CloseWriteCount(c, s);
    }
  }

  lemma CloseWriteStream(c: Config, s: State)
    requires Core(c, s) && StreamOk(c, s) && s.pc.CloseWrite? && s.sizes[s.current] != 0 && Core(c, CloseStep(c, s))
    ensures StreamOk(c, CloseStep(c, s))
  {
    var held := Holding(s, s.current);
    AppendedBody(s, Joined(held));
    CloseStream(s.file[16..], Joined(held), Joined(s.records));
  }

  lemma CloseWriteCount(c: Config, s: State)
    requires Core(c, s) && RecordsOk(c, s) && CountOk(c, s) && s.pos == |s.file| >= 16
    requires s.pc.CloseWrite? && s.sizes[s.current] != 0 && Shaped(c, CloseStep(c, s))
    ensures CountOk(c, CloseStep(c, s))
  {
    var held := Holding(s, s.current);
    AppendedBody(s, Joined(held));
    JoinedLength(Size(c), held);
  }

  lemma ClosePostFile(c: Config, s: State)
    requires Core(c, s) && RecordsOk(c, s) && FileOk(c, s) && s.pc.ClosePost? && Core(c, CloseStep(c, s))
    ensures FileOk(c, CloseStep(c, s))
  {
    assert InFlight(c, s) == [] && Held(c, s) == [];
    assert s.file[16..] + ([] + []) == s.file[16..];
    JoinedLength(Size(c), s.records);
  }

  lemma CloseFile(c: Config, s: State)
    requires Core(c, s) && RecordsOk(c, s) && FileOk(c, s) && ClosePc(s.pc) && Enabled(c, s, Produce)
    requires Core(c, CloseStep(c, s))
    ensures FileOk(c, CloseStep(c, s))
  {
    if s.pc.CloseWrite? {
      CloseWriteFile(c, s);
    } else if s.pc.ClosePost? {
      ClosePostFile(c, s);
    } else if s.pc.CloseEmpty? {
      assert Holding(CloseStep(c, s), s.current) == [];
    }
  }

  lemma FlushRecordStream(c: Config, s: State)
    requires Core(c, s) && FileOk(c, s) && |s.flushers| == 1 && s.flushers[0].Writing?
    requires s.flushers[0].k < s.flushers[0].n && Core(c, FlushStep(c, s, 0))
    ensures StreamOk(c, FlushStep(c, s, 0))
  {
    var t := FlushStep(c, s, 0);
    var buf, k := s.flushers[0].buf, s.flushers[0].k;
    var record, flight := s.buffers[buf][k], InFlight(c, s);
    AppendedBody(s, record);
    assert flight[0] == record && flight[1..] == InFlight(c, t) && Held(c, t) == Held(c, s);
    MoveFirst(s.file[16..], flight, Joined(Held(c, s)));
  }

  lemma FlushRecordCount(c: Config, s: State)
    requires Core(c, s) && RecordsOk(c, s) && CountOk(c, s) && s.pos == |s.file| >= 16
    requires |s.flushers| == 1 && s.flushers[0].Writing? && s.flushers[0].k < s.flushers[0].n
    requires Shaped(c, FlushStep(c, s, 0))
    ensures CountOk(c, FlushStep(c, s, 0))
  {
    var buf, k := s.flushers[0].buf, s.flushers[0].k;
    var record := s.buffers[buf][k];
    assert record == Holding(s, buf)[k];
    AppendedBody(s, record);
    assert (k + 1) * Size(c) == k * Size(c) + Size(c);
  }

  lemma FlushWriteFile(c: Config, s: State)
    requires Core(c, s) && RecordsOk(c, s) && FileOk(c, s) && |s.flushers| == 1 && s.flushers[0].Writing?
    requires Core(c, FlushStep(c, s, 0))
    ensures FileOk(c, FlushStep(c, s, 0))
  {
    FlusherIsActive(s);
    FlusherIsActive(FlushStep(c, s, 0));
    if s.flushers[0].k < s.flushers[0].n {
      FlushRecordStream(c, s);
      FlushRecordCount(c, s);
    } else {
      FlushDone(c, s);
    }
  }

  /** A flusher only works on a file that is being filled. */
  lemma FlusherIsActive(s: State)
    requires PhaseOk(s) && s.flushers != []
    ensures Active(s) && !HeaderPc(s.pc)
  {
  }

  lemma FlushDone(c: Config, s: State)
    requires Core(c, s) && |s.flushers| == 1 && s.flushers[0].Writing? && s.flushers[0].k == s.flushers[0].n
    requires StreamOk(c, s) && CountOk(c, s) && Core(c, FlushStep(c, s, 0))
    ensures StreamOk(c, FlushStep(c, s, 0)) && CountOk(c, FlushStep(c, s, 0))
  {
    var t := FlushStep(c, s, 0);
    assert InFlight(c, s) == [] == InFlight(c, t) && Held(c, t) == Held(c, s);
  }

  lemma FlushFile(c: Config, s: State)
    requires Core(c, s) && RecordsOk(c, s) && FileOk(c, s) && |s.flushers| == 1 && FlusherShaped(c, s, s.flushers[0])
    requires Core(c, FlushStep(c, s, 0))
    ensures FileOk(c, FlushStep(c, s, 0))
  {
    var t := FlushStep(c, s, 0);
    if s.flushers[0].Writing? {
      FlushWriteFile(c, s);
    } else {
      assert InFlight(c, t) == InFlight(c, s);
      assert Held(c, t) == Held(c, s);
    }
  }

  // ---------------------------------------------------------------- every step keeps the invariant

  lemma BeginKeeps(c: Config, s: State, call: Call)
    requires Inv(c, s) && Enabled(c, s, Invoke(call))
    ensures Inv(c, Begin(c, s, call))
  {
    BeginCore(c, s, call);
    BeginRecords(c, s, call);
    BeginFile(c, s, call);
    BeginLog(c, s, call);
  }

  lemma HeaderKeeps(c: Config, s: State)
    requires Inv(c, s) && HeaderPc(s.pc) && Enabled(c, s, Produce)
    ensures Inv(c, HeaderStep(c, s))
  {
    HeaderCore(c, s);
    HeaderRecords(c, s);
    HeaderFile(c, s);
    HeaderLog(c, s);
  }

  lemma OutputKeeps(c: Config, s: State)
    requires Inv(c, s) && OutputPc(s.pc) && Enabled(c, s, Produce)
    ensures Inv(c, OutputStep(c, s))
  {
    OutputCore(c, s);
    OutputRecords(c, s);
    OutputFile(c, s);
    OutputLog(c, s);
  }

  lemma CloseKeeps(c: Config, s: State)
    requires Inv(c, s) && ClosePc(s.pc) && Enabled(c, s, Produce)
    ensures Inv(c, CloseStep(c, s))
  {
    CloseCore(c, s);
    CloseFile(c, s);
    CloseLog(c, s);
  }

  lemma FlushKeeps(c: Config, s: State, i: nat)
    requires Inv(c, s) && Enabled(c, s, Flush(i))
    ensures Inv(c, FlushStep(c, s, i))
  {
    FlushCore(c, s, i);
    FlushRecords(c, s);
    FlushFile(c, s);
    FlushLog(c, s);
  }

  lemma StepKeepsInv(c: Config, s: State, t: State, step: Step)
    requires Inv(c, s) && Moves(c, s, t, step)
    ensures Inv(c, t)
  {
    match step
    case Invoke(call) => BeginKeeps(c, s, call);
    case Flush(i) => FlushKeeps(c, s, i);
    case Produce =>
      if HeaderPc(s.pc) {
        HeaderKeeps(c, s);
      } else if OutputPc(s.pc) {
        OutputKeeps(c, s);
      } else {
        CloseKeeps(c, s);
      }
  }

  lemma {:induction false} RunKeepsInv(c: Config, states: seq<State>, steps: seq<Step>, i: nat)
    requires IsRun(c, states, steps) && i < |states|
    ensures Inv(c, states[i])
  {
    if i == 0 {
      InitHolds(c, states[0]);
    } else {
      RunKeepsInv(c, states, steps, i - 1);
      NextKeepsInv(c, states, steps, i - 1, states[i]);
    }
  }

  lemma NextKeepsInv(c: Config, states: seq<State>, steps: seq<Step>, i: nat, t: State)
    requires IsRun(c, states, steps) && i < |steps| && t == states[i + 1] && Inv(c, states[i])
    ensures Inv(c, t)
  {
    assert Moves(c, states[i], states[i + 1], steps[i]);
    StepKeepsInv(c, states[i], t, steps[i]);
  }

  // ---------------------------------------------------------------- what the invariant gives

  /** There is never a second flusher; while the semaphore is free no buffer is in flight
      and the buffer that is not current is empty. */
  lemma OneFlusher(c: Config, states: seq<State>, steps: seq<Step>, i: nat)
    requires IsRun(c, states, steps) && i < |states|
    ensures Inv(c, states[i]) && |states[i].flushers| <= 1
    ensures states[i].sem > 0 ==> states[i].flushers == [] && states[i].sizes[1 - states[i].current] == 0
  {
    RunKeepsInv(c, states, steps, i);
  }

  /** While a file is open its contents after the header, then the buffer in flight, then
      the current buffer, are the records put into it, in order. */
  lemma FileIsStream(c: Config, states: seq<State>, steps: seq<Step>, i: nat)
    requires IsRun(c, states, steps) && i < |states| && states[i].state != NONE
    ensures Inv(c, states[i]) && StreamOk(c, states[i])
    ensures states[i].log.records
         == states[i].records + if OutputPc(states[i].pc) then [states[i].pc.record] else []
  {
    RunKeepsInv(c, states, steps, i);
  }

  /** A producer that waits for the semaphore waits for a flusher that can go on. */
  lemma NeverStuck(c: Config, states: seq<State>, steps: seq<Step>, i: nat)
    requires IsRun(c, states, steps) && i < |states| && !states[i].pc.Idle?
    ensures Enabled(c, states[i], Produce) || Enabled(c, states[i], Flush(0))
  {
    RunKeepsInv(c, states, steps, i);
  }

  /** The calls of a run. */
  function Calls(steps: seq<Step>): seq<Call> {
    if steps == [] then []
    else
      Calls(steps[..|steps| - 1])
      + match steps[|steps| - 1] case Invoke(call) => [call] case _ => []
  }

  /** What a series of calls asks for. */
  function LogOf(l: Layout, calls: seq<Call>): Log {
    if calls == [] then EMPTY_LOG else Logged(l, LogOf(l, calls[..|calls| - 1]), calls[|calls| - 1])
  }

  lemma {:induction false} LogFollowsCalls(c: Config, states: seq<State>, steps: seq<Step>, i: nat)
    requires IsRun(c, states, steps) && i < |states|
    ensures states[i].log == LogOf(c.layout, Calls(steps[..i]))
  {
    if i > 0 {
      LogFollowsCalls(c, states, steps, i - 1);
      assert steps[..i][..i - 1] == steps[..i - 1];
      LogStep(c, states[i - 1], states[i], steps[i - 1], Calls(steps[..i - 1]));
    }
  }

  lemma LogStep(c: Config, s: State, t: State, step: Step, calls: seq<Call>)
    requires Moves(c, s, t, step) && s.log == LogOf(c.layout, calls)
    ensures t.log == LogOf(c.layout, calls + match step case Invoke(call) => [call] case _ => [])
  {
    match step
    case Invoke(call) =>
      assert (calls + [call])[..|calls|] == calls;
    case _ =>
      assert calls + [] == calls;
  }

  /** The threaded writer refines the single-buffer one: whatever the interleaving, once the
      producer's calls have returned the closed files are the images of the records those
      calls ask for, which is what TraceFile.FileWriter.Valid says of the other writer. */
  lemma RefinesFileWriter(c: Config, states: seq<State>, steps: seq<Step>, i: nat)
    requires IsRun(c, states, steps) && i < |states| && states[i].pc.Idle?
    ensures states[i].closed == Files(Size(c), LogOf(c.layout, Calls(steps[..i])).done)
    ensures states[i].state == LogOf(c.layout, Calls(steps[..i])).state
  {
    RunKeepsInv(c, states, steps, i);
    LogFollowsCalls(c, states, steps, i);
  }

  // ---------------------------------------------------------------- beside the single-buffer writer

  /** Every call is one its callers may make. */
  predicate CallsOk(l: Layout, calls: seq<Call>) {
    calls == [] || (CallsOk(l, calls[..|calls| - 1]) && CallOk(LogOf(l, calls[..|calls| - 1]), calls[|calls| - 1]))
  }

  lemma {:induction false} RunCallsOk(c: Config, states: seq<State>, steps: seq<Step>, i: nat)
    requires IsRun(c, states, steps) && i < |states|
    ensures CallsOk(c.layout, Calls(steps[..i]))
  {
    if i > 0 {
      RunCallsOk(c, states, steps, i - 1);
      LogFollowsCalls(c, states, steps, i - 1);
      assert Moves(c, states[i - 1], states[i], steps[i - 1]);
      assert steps[..i][..i - 1] == steps[..i - 1];
      NextCallOk(c, states[i - 1], states[i], steps[i - 1], Calls(steps[..i - 1]));
    }
  }

  lemma NextCallOk(c: Config, s: State, t: State, step: Step, calls: seq<Call>)
    requires Moves(c, s, t, step) && s.log == LogOf(c.layout, calls) && CallsOk(c.layout, calls)
    ensures CallsOk(c.layout, calls + match step case Invoke(call) => [call] case _ => [])
  {
    match step
    case Invoke(call) =>
      assert (calls + [call])[..|calls|] == calls;
    case _ =>
      assert calls + [] == calls;
  }

  lemma {:induction false} PrefixOk(l: Layout, calls: seq<Call>, k: nat)
    requires CallsOk(l, calls) && k < |calls|
    ensures CallOk(LogOf(l, calls[..k]), calls[k])
    decreases |calls|
  {
    if k < |calls| - 1 {
      assert calls[..|calls| - 1][..k] == calls[..k];
      PrefixOk(l, calls[..|calls| - 1], k);
    }
  }

  /** A single-buffer writer that gets the calls one after the other. */
  method RunFileWriter(l: Layout, capacity: nat, calls: seq<Call>) returns (w: FileWriter)
    requires capacity > 0 && CallsOk(l, calls)
    ensures fresh(w) && w.Valid() && w.layout == l && w.log == LogOf(l, calls)
  {
    w := new FileWriter(l, capacity);
    for k := 0 to |calls|
      invariant fresh(w) && fresh(w.buffer) && w.Valid() && w.layout == l && w.log == LogOf(l, calls[..k])
    {
      PrefixOk(l, calls, k);
      assert calls[..k + 1][..k] == calls[..k];
      match calls[k]
      case Enable(kind) => w.Enable(kind);
      case Disable(kind) => w.Disable(kind);
      case Output(access) => w.Output(access);
    }
    assert calls[..|calls|] == calls;
  }

  /** The same calls, given to a single-buffer writer of any capacity, leave the same files. */
  method SameFiles(ghost c: Config, ghost states: seq<State>, ghost steps: seq<Step>, ghost i: nat,
                   l: Layout, capacity: nat, calls: seq<Call>)
    returns (w: FileWriter)
    requires IsRun(c, states, steps) && i < |states| && states[i].pc.Idle?
    requires l == c.layout && calls == Calls(steps[..i]) && capacity > 0
    ensures w.closed == states[i].closed && w.state == states[i].state
  {
    RunCallsOk(c, states, steps, i);
    RefinesFileWriter(c, states, steps, i);
    w := RunFileWriter(l, capacity, calls);
  }
}
