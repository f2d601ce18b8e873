/** The shared memory ring of qem_trace_smi_engine.c: one writer, one reader.

The writer stages bytes in a local buffer of one block.  When that is full, or on a flush,
it waits under the mutex for the bit of the next block to be clear, releases the mutex,
copies the block without it, and sets the bit under the mutex again.  The reader is not
part of the program: it is an environment that, when the mutex is free, takes the oldest
full block, and never writes block data.

Every step of a thread is a step of this system; the copy is one step per byte.  `sent`,
`consumed`, `tail` and `count` are the history of the run and the reader's position, which
the writer does not see. */
module SmiRing {
  import opened Bytes
  import opened Pages
  import opened SmiMask

  /** QEM_SMI_BLOCK_COUNT and QEM_SMI_BLOCK_SIZE. */
  datatype Ring = Ring(blockCount: nat, blockSize: nat)

  ghost predicate RingOk(r: Ring) {
    0 < r.blockCount <= 16 && 0 < r.blockSize
  }

  /** The call the writer is in: a send with what is left of the caller's bytes, or a flush. */
  datatype Job = Sending(rest: seq<Byte>) | Flushing

  datatype PC =
    | Idle
    | Top(rest: seq<Byte>)          // at the test of the send loop
    | Lock(job: Job)                // about to take the mutex
    | Test(job: Job)                // mutex held, mask loaded
    | Asleep(job: Job)              // in pthread_cond_wait, mutex released
    | Clear(k: nat)                 // in the memset of a flush
    | Copy(job: Job, k: nat)        // in the memcpy to the shared block
    | LockAgain(job: Job)           // about to take the mutex to mark the block
    | Mark(job: Job)                // mutex held, mask loaded

  datatype State = State(
    mask: Mask,
    data: seq<seq<Byte>>,
    locked: bool,
    local: seq<Byte>,
    index: nat,
    next: nat,
    blocks: Word,
    pc: PC,
    tail: nat,
    count: nat,
    consumed: seq<Byte>,
    sent: seq<Byte>)

  datatype Step =
    | Send(buffer: seq<Byte>)
    | Flush(garbage: Word)          // what the uninitialised variable holds
    | Write                         // the writer's next step
    | Take                          // the reader consumes a block

  // ---------------------------------------------------------------- ring positions

  /** (i + 1) % blockCount. */
  function Next(n: nat, i: nat): (r: nat)
    requires i < n
    ensures r == (i + 1) % n
  {
    if i + 1 == n then 0 else i + 1
  }

  /** The slot j places after `tail`. */
  function Slot(n: nat, tail: nat, j: nat): (r: nat)
    requires tail < n && j <= n
    ensures r < n
  {
    if tail + j < n then tail + j else tail + j - n
  }

  /** How far slot i is after `tail`. */
  function Distance(n: nat, tail: nat, i: nat): (r: nat)
    requires tail < n && i < n
    ensures r < n
  {
    if i >= tail then i - tail else i + n - tail
  }

  // ---------------------------------------------------------------- the steps

  function WriteByte(s: State, k: nat, b: Byte): State
    requires s.next < |s.data| && k < |s.data[s.next]|
  {
    s.(data := s.data[s.next := s.data[s.next][k := b]])
  }

  ghost predicate Sized(r: Ring, s: State) {
    && |s.data| == r.blockCount && (forall i :: 0 <= i < |s.data| ==> |s.data[i]| == r.blockSize)
    && |s.local| == r.blockSize && s.index <= r.blockSize
    && s.next < r.blockCount && s.tail < r.blockCount && s.count <= r.blockCount
  }

  /** How many bytes of the local buffer the job copies. */
  function Length(r: Ring, s: State, job: Job): nat {
    if job.Sending? then r.blockSize else s.index
  }

  /** The block the job puts into the ring: the full local buffer, or a part of it and zeros. */
  ghost function Staged(r: Ring, s: State, job: Job): seq<Byte>
    requires Sized(r, s)
  {
    if job.Sending? then s.local else s.local[..s.index] + Zeros(r.blockSize - s.index)
  }

  /** The test of the send loop and what follows it, up to taking the mutex. */
  ghost function Loop(r: Ring, s: State, rest: seq<Byte>): State
    requires Sized(r, s)
  {
    if s.index + |rest| > r.blockSize then
      var n := r.blockSize - s.index;
      s.(local := s.local[..s.index] + rest[..n], index := 0, pc := Lock(Sending(rest[n..])))
    else
      s.(local := s.local[..s.index] + rest + s.local[s.index + |rest|..],
         index := s.index + |rest|, pc := Idle)
  }

  /** Setting the bit of the block, moving on, and releasing the mutex. */
  ghost function Publish(r: Ring, s: State, job: Job): State
    requires RingOk(r) && Sized(r, s)
  {
    var t := s.(mask := Store(Marked(s.blocks, s.next)), next := Next(r.blockCount, s.next), locked := false,
                count := s.count + 1);
    match job
    case Sending(rest) => t.(pc := Top(rest))
    case Flushing => t.(pc := Idle, index := 0, sent := s.sent + Zeros(r.blockSize - s.index))
  }

  ghost function Advance(r: Ring, s: State): State
    requires RingOk(r) && Sized(r, s)
  {
    match s.pc
    case Idle => s
    case Top(rest) => Loop(r, s, rest)
    case Lock(job) => s.(locked := true, blocks := Load(s.blocks, s.mask), pc := Test(job))
    case Test(job) =>
      if Used(s.blocks, s.next) then s.(locked := false, pc := Asleep(job))
      else s.(locked := false, pc := if job.Sending? then Copy(job, 0) else Clear(0))
    case Asleep(job) => s.(locked := true, blocks := Load(s.blocks, s.mask), pc := Test(job))
    case Clear(k) =>
      if k < r.blockSize then WriteByte(s, k, 0).(pc := Clear(k + 1)) else s.(pc := Copy(Flushing, 0))
    case Copy(job, k) =>
      if k < Length(r, s, job) then WriteByte(s, k, s.local[k]).(pc := Copy(job, k + 1))
      else s.(pc := LockAgain(job))
    case LockAgain(job) => s.(locked := true, blocks := Load(s.blocks, s.mask), pc := Mark(job))
    case Mark(job) => Publish(r, s, job)
  }

  ghost function Apply(r: Ring, s: State, step: Step): State
    requires RingOk(r) && Sized(r, s)
  {
    match step
    case Send(buffer) => s.(pc := Top(buffer), blocks := ZERO, sent := s.sent + buffer)
    case Flush(garbage) => if s.index == 0 then s else s.(pc := Lock(Flushing), blocks := garbage)
    case Write => Advance(r, s)
    case Take =>
      s.(mask := s.mask[s.tail := false], consumed := s.consumed + s.data[s.tail],
         tail := Next(r.blockCount, s.tail), count := if s.count == 0 then 0 else s.count - 1)
  }

  ghost predicate Enabled(r: Ring, s: State, step: Step)
    requires RingOk(r) && Sized(r, s)
  {
    match step
    case Send(buffer) => s.pc.Idle? && s.index + |buffer| < 0x1_0000_0000  // the loop test adds in 32 bits
    case Flush(_) => s.pc.Idle?
    case Write => !s.pc.Idle?
    case Take => !s.locked && s.mask[s.tail]
  }

  ghost predicate Init(r: Ring, s: State) {
    && Sized(r, s) && s.mask == EMPTY && !s.locked && s.index == 0 && s.next == 0 && s.pc == Idle
    && s.tail == 0 && s.count == 0 && s.consumed == [] && s.sent == []
  }

  ghost predicate Moves(r: Ring, s: State, t: State, step: Step) {
    RingOk(r) && Sized(r, s) && Enabled(r, s, step) && t == Apply(r, s, step)
  }

  ghost predicate IsRun(r: Ring, states: seq<State>, steps: seq<Step>) {
    && |states| == |steps| + 1 && RingOk(r) && Init(r, states[0])
    && forall i :: 0 <= i < |steps| ==> Moves(r, states[i], states[i + 1], steps[i])
  }

  // ---------------------------------------------------------------- the invariant

  /** The bytes of the full blocks in ring order, oldest first. */
  ghost function Full(n: nat, data: seq<seq<Byte>>, tail: nat, count: nat): seq<Byte>
    requires tail < n == |data| && count <= n
  {
    if count == 0 then [] else Full(n, data, tail, count - 1) + data[Slot(n, tail, count - 1)]
  }

  /** A bit is set exactly for the `count` slots from `tail` on. */
  ghost predicate MaskOk(r: Ring, s: State)
    requires RingOk(r) && Sized(r, s)
  {
    && s.next == Slot(r.blockCount, s.tail, s.count)
    && forall i :: 0 <= i < r.blockCount ==> (s.mask[i] <==> Distance(r.blockCount, s.tail, i) < s.count)
  }

  ghost predicate Owns(pc: PC) {
    pc.Clear? || pc.Copy? || pc.LockAgain? || pc.Mark?
  }

  ghost predicate LockOk(s: State) {
    && (s.locked <==> s.pc.Test? || s.pc.Mark?)
    && (s.locked ==> Store(s.blocks) == s.mask)
  }

  ghost predicate FlushOk(r: Ring, s: State) {
    (s.pc.Lock? || s.pc.Test? || s.pc.Asleep? || s.pc.Copy? || s.pc.LockAgain? || s.pc.Mark?) ==>
      (s.pc.job.Sending? ==> s.index == 0)
  }

  /** What the writer has put into the block it owns. */
  ghost predicate BlockOk(r: Ring, s: State)
    requires Sized(r, s)
  {
    var block := s.data[s.next];
    match s.pc
    case Clear(k) => k <= r.blockSize && block[..k] == Zeros(k)
    case Copy(job, k) =>
      && k <= Length(r, s, job) && block[..k] == s.local[..k]
      && (job.Flushing? ==> block[s.index..] == Zeros(r.blockSize - s.index))
    case LockAgain(job) => block == Staged(r, s, job)
    case Mark(job) => block == Staged(r, s, job)
    case _ => true
  }

  /** The bytes staged in the writer, and those it has still to read from its caller. */
  ghost function Pending(s: State): seq<Byte>
    requires s.index <= |s.local|
  {
    match s.pc
    case Idle => s.local[..s.index]
    case Top(rest) => s.local[..s.index] + rest
    case Clear(_) => s.local[..s.index]
    case _ =>
      match s.pc.job
      case Sending(rest) => s.local + rest
      case Flushing => s.local[..s.index]
  }

  /** Consumed blocks, then full blocks in ring order, then the writer's bytes, are the
      bytes sent. */
  ghost predicate StreamOk(r: Ring, s: State)
    requires RingOk(r) && Sized(r, s)
  {
    s.consumed + Full(r.blockCount, s.data, s.tail, s.count) + Pending(s) == s.sent
  }

  ghost predicate Inv(r: Ring, s: State) {
    && RingOk(r) && Sized(r, s) && MaskOk(r, s) && LockOk(s) && FlushOk(r, s) && BlockOk(r, s)
    && (Owns(s.pc) ==> s.count < r.blockCount)
    && StreamOk(r, s)
  }

  lemma InitHolds(r: Ring, s: State)
    requires RingOk(r) && Init(r, s)
    ensures Inv(r, s)
  {
  }

  // ---------------------------------------------------------------- full blocks

  lemma {:induction false} FullFrame(n: nat, data: seq<seq<Byte>>, data': seq<seq<Byte>>, tail: nat, count: nat)
    requires tail < n == |data| == |data'| && count <= n
    requires forall j :: 0 <= j < count ==> data[Slot(n, tail, j)] == data'[Slot(n, tail, j)]
    ensures Full(n, data, tail, count) == Full(n, data', tail, count)
  {
    if count > 0 {
      FullFrame(n, data, data', tail, count - 1);
    }
  }

  /** The oldest block comes first. */
  lemma {:induction false} FullHead(n: nat, data: seq<seq<Byte>>, tail: nat, count: nat)
    requires tail < n == |data| && 0 < count <= n
    ensures Full(n, data, tail, count) == data[tail] + Full(n, data, Next(n, tail), count - 1)
  {
    if count > 1 {
      FullHead(n, data, tail, count - 1);
      assert Slot(n, tail, count - 1) == Slot(n, Next(n, tail), count - 2);
      assert (data[tail] + Full(n, data, Next(n, tail), count - 2)) + data[Slot(n, tail, count - 1)]
          == data[tail] + Full(n, data, Next(n, tail), count - 1);
    } else {
      assert Full(n, data, tail, 1) == data[tail];
    }
  }

  /** The block the writer owns is none of the full ones. */
  lemma OwnedIsFree(r: Ring, s: State)
    requires RingOk(r) && Sized(r, s) && MaskOk(r, s) && s.count < r.blockCount
    ensures !s.mask[s.next]
    ensures forall j :: 0 <= j < s.count ==> Slot(r.blockCount, s.tail, j) != s.next
  {
    assert Distance(r.blockCount, s.tail, s.next) == s.count;
  }

  /** Writing into the owned block does not change the full ones. */
  lemma WriteKeepsFull(r: Ring, s: State, k: nat, b: Byte)
    requires RingOk(r) && Sized(r, s) && MaskOk(r, s) && s.count < r.blockCount && k < r.blockSize
    ensures Full(r.blockCount, WriteByte(s, k, b).data, s.tail, s.count)
         == Full(r.blockCount, s.data, s.tail, s.count)
  {
    OwnedIsFree(r, s);
    FullFrame(r.blockCount, s.data, WriteByte(s, k, b).data, s.tail, s.count);
  }

  // ---------------------------------------------------------------- every step keeps the invariant

  lemma LoopKeeps(r: Ring, s: State)
    requires Inv(r, s) && s.pc.Top?
    ensures Inv(r, Loop(r, s, s.pc.rest))
  {
    var rest, n := s.pc.rest, r.blockSize - s.index;
    if s.index + |rest| > r.blockSize {
      assert rest == rest[..n] + rest[n..];
      assert Pending(Loop(r, s, rest)) == Pending(s);
    } else {
      assert Pending(Loop(r, s, rest)) == Pending(s);
    }
  }

  lemma LockKeeps(r: Ring, s: State)
    requires Inv(r, s) && (s.pc.Lock? || s.pc.Asleep? || s.pc.LockAgain?)
    ensures Inv(r, Advance(r, s))
  {
    assert Store(Load(s.blocks, s.mask)) == s.mask;
  }

  lemma TestKeeps(r: Ring, s: State)
    requires Inv(r, s) && s.pc.Test?
    ensures Inv(r, Advance(r, s))
  {
    UsedIsBit(s.blocks, s.next);
    if s.count == r.blockCount {
      assert Distance(r.blockCount, s.tail, s.next) < s.count;
      assert s.blocks[s.next] == Store(s.blocks)[s.next];
    }
  }

  lemma ClearKeeps(r: Ring, s: State)
    requires Inv(r, s) && s.pc.Clear?
    ensures Inv(r, Advance(r, s))
  {
    var k, block := s.pc.k, s.data[s.next];
    if k < r.blockSize {
      WriteKeepsFull(r, s, k, 0);
      assert block[k := 0][..k + 1] == block[..k] + [0];
    } else {
      assert block == block[..k];
      assert block[s.index..] == Zeros(r.blockSize - s.index);
    }
  }

  lemma CopyKeeps(r: Ring, s: State)
    requires Inv(r, s) && s.pc.Copy?
    ensures Inv(r, Advance(r, s))
  {
    var job, k, block := s.pc.job, s.pc.k, s.data[s.next];
    if k < Length(r, s, job) {
      WriteKeepsFull(r, s, k, s.local[k]);
      assert block[k := s.local[k]][..k + 1] == block[..k] + [s.local[k]];
      assert job.Flushing? ==> block[k := s.local[k]][s.index..] == block[s.index..];
    } else {
      assert block == block[..k] + block[k..];
    }
  }

  lemma PublishMask(r: Ring, s: State)
    requires Inv(r, s) && s.pc.Mark?
    ensures Sized(r, Publish(r, s, s.pc.job)) && MaskOk(r, Publish(r, s, s.pc.job))
  {
    MarkedBits(s.blocks, s.next);
    OwnedIsFree(r, s);
    var t := Publish(r, s, s.pc.job);
    assert t.mask == s.mask[s.next := true];
    assert Distance(r.blockCount, s.tail, s.next) == s.count;
    assert t.next == Slot(r.blockCount, s.tail, s.count + 1);
  }

  lemma PublishStream(consumed: seq<Byte>, full: seq<Byte>, block: seq<Byte>, rest: seq<Byte>)
    ensures consumed + (full + block) + rest == consumed + full + (block + rest)
  {
  }

  lemma PublishKeepsStream(r: Ring, s: State)
    requires Inv(r, s) && s.pc.Mark? && Sized(r, Publish(r, s, s.pc.job))
    ensures StreamOk(r, Publish(r, s, s.pc.job))
  {
    var t := Publish(r, s, s.pc.job);
    var full, staged := Full(r.blockCount, s.data, s.tail, s.count), Staged(r, s, s.pc.job);
    assert Full(r.blockCount, t.data, t.tail, t.count) == full + staged;
    if s.pc.job.Sending? {
      PublishStream(s.consumed, full, s.local, s.pc.job.rest);
    } else {
      FlushStream(s.consumed, full, s.local[..s.index], Zeros(r.blockSize - s.index));
      assert Pending(t) == [];
    }
  }

  lemma FlushStream(consumed: seq<Byte>, full: seq<Byte>, part: seq<Byte>, zeros: seq<Byte>)
    ensures consumed + (full + (part + zeros)) + [] == consumed + full + part + zeros
  {
  }

  lemma PublishKeeps(r: Ring, s: State)
    requires Inv(r, s) && s.pc.Mark?
    ensures Inv(r, Publish(r, s, s.pc.job))
  {
    PublishMask(r, s);
    PublishKeepsStream(r, s);
  }

  lemma TakeKeepsMask(r: Ring, s: State)
    requires Inv(r, s) && Enabled(r, s, Take)
    ensures s.count > 0 && Sized(r, Apply(r, s, Take)) && MaskOk(r, Apply(r, s, Take))
  {
    assert Distance(r.blockCount, s.tail, s.tail) == 0;
    var t := Apply(r, s, Take);
    forall i | 0 <= i < r.blockCount
      ensures t.mask[i] <==> Distance(r.blockCount, t.tail, i) < t.count
    {
      assert i != s.tail ==> Distance(r.blockCount, t.tail, i) == Distance(r.blockCount, s.tail, i) - 1;
    }
  }

  lemma TakeKeeps(r: Ring, s: State)
    requires Inv(r, s) && Enabled(r, s, Take)
    ensures Inv(r, Apply(r, s, Take))
  {
    TakeKeepsMask(r, s);
    FullHead(r.blockCount, s.data, s.tail, s.count);
    var t := Apply(r, s, Take);
    var rest := Full(r.blockCount, t.data, t.tail, t.count);
    TakeStream(s.consumed, s.data[s.tail], rest, Pending(s));
  }

  lemma TakeStream(consumed: seq<Byte>, block: seq<Byte>, rest: seq<Byte>, pending: seq<Byte>)
    ensures consumed + (block + rest) + pending == (consumed + block) + rest + pending
  {
  }

  lemma StepKeepsInv(r: Ring, s: State, t: State, step: Step)
    requires Inv(r, s) && Moves(r, s, t, step)
    ensures Inv(r, t)
  {
    match step
    case Send(buffer) =>
      var full := Full(r.blockCount, s.data, s.tail, s.count);
      assert s.consumed + full + (s.local[..s.index] + buffer) == s.consumed + full + s.local[..s.index] + buffer;
    case Flush(_) =>
    case Take => TakeKeeps(r, s);
    case Write =>
      match s.pc
      case Top(_) => LoopKeeps(r, s);
      case Lock(_) => LockKeeps(r, s);
      case Test(_) => TestKeeps(r, s);
      case Asleep(_) => LockKeeps(r, s);
      case Clear(_) => ClearKeeps(r, s);
      case Copy(_, _) => CopyKeeps(r, s);
      case LockAgain(_) => LockKeeps(r, s);
      case Mark(_) => PublishKeeps(r, s);
  }

  lemma {:induction false} RunKeepsInv(r: Ring, states: seq<State>, steps: seq<Step>, i: nat)
    requires IsRun(r, states, steps) && i < |states|
    ensures Inv(r, states[i])
  {
    if i == 0 {
      InitHolds(r, states[0]);
    } else {
      RunKeepsInv(r, states, steps, i - 1);
      assert Moves(r, states[i - 1], states[i], steps[i - 1]);
      StepKeepsInv(r, states[i - 1], states[i], steps[i - 1]);
    }
  }

  // ---------------------------------------------------------------- what the reader gets

  /** The stream the calls of a run are meant to produce: the bytes of the sends, and at
      each flush zeros up to the end of the block. */
  ghost function Intended(blockSize: nat, steps: seq<Step>): seq<Byte>
    requires blockSize > 0
  {
    if steps == [] then []
    else
      Extended(blockSize, Intended(blockSize, steps[..|steps| - 1]), steps[|steps| - 1])
  }

  /** The stream after one more step. */
  ghost function Extended(blockSize: nat, before: seq<Byte>, step: Step): seq<Byte>
    requires blockSize > 0
  {
    match step
    case Send(buffer) => before + buffer
    case Flush(_) => before + Zeros(Padding(blockSize, |before|))
    case _ => before
  }

  function Padding(blockSize: nat, length: nat): nat
    requires blockSize > 0
  {
    if Aligned(blockSize, length) then 0 else blockSize - PageOff(blockSize, length)
  }

  ghost predicate InFlush(pc: PC) {
    pc.Clear? || ((pc.Lock? || pc.Test? || pc.Asleep? || pc.Copy? || pc.LockAgain? || pc.Mark?) && pc.job.Flushing?)
  }

  /** The bytes sent, and the zeros of a flush that has not been published yet. */
  ghost function Owed(r: Ring, s: State): seq<Byte>
    requires s.index <= r.blockSize
  {
    if InFlush(s.pc) then s.sent + Zeros(r.blockSize - s.index) else s.sent
  }

  /** Whole blocks leave the writer. */
  ghost predicate WholeBlocks(r: Ring, s: State)
    requires RingOk(r) && Sized(r, s)
  {
    Aligned(r.blockSize, |s.consumed| + |Full(r.blockCount, s.data, s.tail, s.count)|)
  }

  lemma PaddingIsRest(blockSize: nat, whole: nat, index: nat)
    requires 0 < blockSize && Aligned(blockSize, whole) && 0 < index <= blockSize
    ensures Padding(blockSize, whole + index) == blockSize - index
    ensures Padding(blockSize, whole) == 0
  {
    if index == blockSize {
      assert PageOff(blockSize, whole + blockSize) == PageOff(blockSize, whole);
    } else {
      PageBase(blockSize, whole, whole + index);
    }
  }

  lemma TakeKeepsWhole(r: Ring, s: State)
    requires Inv(r, s) && WholeBlocks(r, s) && Enabled(r, s, Take)
    ensures Sized(r, Apply(r, s, Take)) && WholeBlocks(r, Apply(r, s, Take))
  {
    TakeKeepsMask(r, s);
    FullHead(r.blockCount, s.data, s.tail, s.count);
  }

  lemma PublishKeepsWhole(r: Ring, s: State)
    requires Inv(r, s) && WholeBlocks(r, s) && s.pc.Mark?
    ensures Sized(r, Publish(r, s, s.pc.job)) && WholeBlocks(r, Publish(r, s, s.pc.job))
  {
    PublishMask(r, s);
    var whole := |s.consumed| + |Full(r.blockCount, s.data, s.tail, s.count)|;
    assert PageOff(r.blockSize, whole + r.blockSize) == PageOff(r.blockSize, whole);
  }

  lemma WriteKeepsWhole(r: Ring, s: State)
    requires Inv(r, s) && WholeBlocks(r, s) && !s.pc.Mark? && Sized(r, Advance(r, s))
    ensures WholeBlocks(r, Advance(r, s))
  {
    if s.pc.Clear? && s.pc.k < r.blockSize {
      WriteKeepsFull(r, s, s.pc.k, 0);
    } else if s.pc.Copy? && s.pc.k < Length(r, s, s.pc.job) {
      WriteKeepsFull(r, s, s.pc.k, s.local[s.pc.k]);
    }
  }

  lemma WholeBlocksKept(r: Ring, s: State, t: State, step: Step)
    requires Inv(r, s) && WholeBlocks(r, s) && Moves(r, s, t, step) && Sized(r, t)
    ensures WholeBlocks(r, t)
  {
    if step.Take? {
      TakeKeepsWhole(r, s);
    } else if step.Write? {
      if s.pc.Mark? {
        PublishKeepsWhole(r, s);
      } else {
        WriteKeepsWhole(r, s);
      }
    }
  }

  lemma OwedFlush(r: Ring, s: State)
    requires Inv(r, s) && WholeBlocks(r, s) && s.pc.Idle? && s.index > 0
    ensures Padding(r.blockSize, |s.sent|) == r.blockSize - s.index
  {
    var whole := |s.consumed| + |Full(r.blockCount, s.data, s.tail, s.count)|;
    PaddingIsRest(r.blockSize, whole, s.index);
  }

  lemma OwedNoFlush(r: Ring, s: State)
    requires Inv(r, s) && WholeBlocks(r, s) && s.pc.Idle? && s.index == 0
    ensures Padding(r.blockSize, |s.sent|) == 0
  {
    var whole := |s.consumed| + |Full(r.blockCount, s.data, s.tail, s.count)|;
    PaddingIsRest(r.blockSize, whole, r.blockSize);
  }

  lemma OwedAfterFlush(r: Ring, s: State, garbage: Word)
    requires Inv(r, s) && WholeBlocks(r, s) && s.pc.Idle?
    ensures Owed(r, Apply(r, s, Flush(garbage))) == Extended(r.blockSize, Owed(r, s), Flush(garbage))
  {
    if s.index == 0 {
      OwedNoFlush(r, s);
      assert Zeros(0) == [];
      Unit(s.sent);
    } else {
      OwedFlush(r, s);
    }
  }

  /** A step of the writer adds nothing to the stream: a flush has been counted from its call on. */
  lemma OwedAfterWrite(r: Ring, s: State)
    requires Inv(r, s)
    ensures Advance(r, s).index <= r.blockSize && Owed(r, Advance(r, s)) == Owed(r, s)
  {
  }

  lemma OwedStep(r: Ring, s: State, t: State, step: Step)
    requires Inv(r, s) && WholeBlocks(r, s) && Moves(r, s, t, step)
    ensures t.index <= r.blockSize && Owed(r, t) == Extended(r.blockSize, Owed(r, s), step)
  {
    match step
    case Send(_) =>
    case Flush(garbage) => OwedAfterFlush(r, s, garbage);
    case Write => OwedAfterWrite(r, s);
    case Take =>
  }

  lemma IntendedStep(blockSize: nat, steps: seq<Step>, i: nat)
    requires blockSize > 0 && 0 < i <= |steps|
    ensures Intended(blockSize, steps[..i]) == Extended(blockSize, Intended(blockSize, steps[..i - 1]), steps[i - 1])
  {
    assert steps[..i][..i - 1] == steps[..i - 1] && steps[..i][i - 1] == steps[i - 1];
  }

  lemma {:induction false} OwedIsIntended(r: Ring, states: seq<State>, steps: seq<Step>, i: nat)
    requires IsRun(r, states, steps) && i < |states|
    ensures Inv(r, states[i]) && WholeBlocks(r, states[i])
    ensures Owed(r, states[i]) == Intended(r.blockSize, steps[..i])
  {
    RunKeepsInv(r, states, steps, i);
    if i > 0 {
      OwedIsIntended(r, states, steps, i - 1);
      var s, t, step := states[i - 1], states[i], steps[i - 1];
      WholeBlocksKept(r, s, t, step);
      OwedStep(r, s, t, step);
      IntendedStep(r.blockSize, steps, i);
    }
  }

  /** In every state of every run, the blocks the reader has consumed, then the full blocks
      in ring order, then the bytes in the writer's hands, are the stream its calls were
      meant to produce; so the reader only ever sees a prefix of that stream. */
  lemma ReaderGetsTheStream(r: Ring, states: seq<State>, steps: seq<Step>, i: nat)
    requires IsRun(r, states, steps) && i < |states|
    ensures Inv(r, states[i])
    ensures var s := states[i];
            var full := Full(r.blockCount, s.data, s.tail, s.count);
            var padding := if InFlush(s.pc) then Zeros(r.blockSize - s.index) else [];
            s.consumed + full + Pending(s) + padding == Intended(r.blockSize, steps[..i])
    ensures states[i].consumed <= Intended(r.blockSize, steps[..i])
    ensures states[i].pc.Idle? ==>
              states[i].consumed + Full(r.blockCount, states[i].data, states[i].tail, states[i].count)
              + states[i].local[..states[i].index] == Intended(r.blockSize, steps[..i])
  {
    OwedIsIntended(r, states, steps, i);
  }

  /** The calls of a run, without the steps inside them and those of the reader. */
  function Calls(steps: seq<Step>): seq<Step> {
    if steps == [] then []
    else
      var last := steps[|steps| - 1];
      Calls(steps[..|steps| - 1]) + if last.Send? || last.Flush? then [last] else []
  }

  /** Only the calls determine the stream. */
  lemma {:induction false} CallsDetermineStream(blockSize: nat, steps: seq<Step>)
    requires blockSize > 0
    ensures Intended(blockSize, steps) == Intended(blockSize, Calls(steps))
  {
    if steps != [] {
      var before, last := steps[..|steps| - 1], steps[|steps| - 1];
      CallsDetermineStream(blockSize, before);
      if last.Send? || last.Flush? {
        assert (Calls(before) + [last])[..|Calls(before)|] == Calls(before);
      } else {
        assert Calls(before) + [] == Calls(before);
      }
    }
  }

  // ---------------------------------------------------------------- the copy without the mutex

  /** No step changes the data of a block whose bit is set, nor does the reader change data. */
  lemma SetBlocksAreStable(r: Ring, s: State, t: State, step: Step, i: nat)
    requires Inv(r, s) && Moves(r, s, t, step) && i < r.blockCount
    ensures |t.data| == r.blockCount
    ensures s.mask[i] || step.Take? ==> t.data[i] == s.data[i]
    ensures step.Write? && Owns(s.pc) ==> !s.mask[s.next]
  {
    if Owns(s.pc) {
      OwnedIsFree(r, s);
    }
  }

  // ---------------------------------------------------------------- termination and progress

  /** Each turn of the send loop takes exactly one block off the bytes left to place. */
  lemma TurnTakesOneBlock(r: Ring, s: State)
    requires Inv(r, s) && s.pc.Top? && s.index + |s.pc.rest| > r.blockSize
    ensures var t := Advance(r, s);
            t.pc.Lock? && t.pc.job.Sending? && t.index + |t.pc.job.rest| == s.index + |s.pc.rest| - r.blockSize
  {
  }

  /** The bytes of the call that are not in a published block yet, or on their way there. */
  ghost function BytesLeft(s: State): nat {
    match s.pc
    case Idle => 0
    case Top(rest) => s.index + |rest|
    case Clear(_) => 0
    case _ => match s.pc.job case Sending(rest) => |rest| case Flushing => 0
  }

  /** The steps to the next test of the loop, or to the end of a flush, sleeping aside. */
  ghost function StepsLeft(r: Ring, s: State): nat {
    match s.pc
    case Idle => 0
    case Top(_) => 1
    case Mark(_) => 2
    case LockAgain(_) => 3
    case Copy(job, k) => 4 + (if k <= Length(r, s, job) then Length(r, s, job) - k else 0)
    case Clear(k) => 5 + r.blockSize + (if k <= r.blockSize then r.blockSize - k else 0)
    case Lock(_) => 2 * r.blockSize + 7
    case _ => 2 * r.blockSize + 6
  }

  ghost predicate Nearer(r: Ring, s: State, t: State) {
    BytesLeft(t) < BytesLeft(s) || (BytesLeft(t) == BytesLeft(s) && StepsLeft(r, t) < StepsLeft(r, s))
  }

  /** Every step of the writer that does not put it to sleep, or wake it, brings it nearer
      to the end of its call, and it goes to sleep only when every block is full. */
  lemma WriterProgress(r: Ring, s: State)
    requires Inv(r, s) && !s.pc.Idle? && !s.pc.Asleep?
    ensures if Advance(r, s).pc.Asleep? then s.count == r.blockCount else Nearer(r, s, Advance(r, s))
  {
    if s.pc.Test? {
      SleepsOnlyIfFull(r, s);
    }
  }

  lemma SleepsOnlyIfFull(r: Ring, s: State)
    requires Inv(r, s) && s.pc.Test?
    ensures Advance(r, s).pc.Asleep? ==> s.count == r.blockCount
  {
    UsedIsBit(s.blocks, s.next);
    if s.count < r.blockCount {
      OwnedIsFree(r, s);
      assert s.blocks[s.next] == Store(s.blocks)[s.next];
    }
  }

  /** A sleeping writer is never stuck: either the reader has a block to consume, or the
      writer, once awake, goes on to copy its block. */
  lemma SleepingWriterGoesOn(r: Ring, s: State)
    requires Inv(r, s) && s.pc.Asleep?
    ensures Enabled(r, s, Take) || (Inv(r, Advance(r, s)) && Owns(Advance(r, Advance(r, s)).pc))
  {
    if s.count < r.blockCount {
      LockKeeps(r, s);
      OwnedIsFree(r, s);
      MaskOperations(s.blocks, s.mask, s.next);
    } else {
      assert Distance(r.blockCount, s.tail, s.tail) == 0;
    }
  }
}
