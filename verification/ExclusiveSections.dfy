/** The vCPU exclusive-section protocol of cpus-common.c, as a step system.

Threads are numbered 0..|pc|; a thread whose number is in `cpus` drives the CPU
of that number, and every thread may ask for an exclusive section.  One step is
one access to shared memory, or one lock operation, of one thread.  The memory
barriers of the source are what makes interleaving semantics the right one.

`hasWaiter` is only touched with the lock held, so reading `running` and marking
the CPU are one step of the scan.  The order of the scan is left open, so it
covers the list order of CPU_FOREACH.  Condition variables may wake up a thread
at any time, as POSIX allows. */
module ExclusiveSections {

  type Tid = nat

  datatype Owner = Nobody | Held(tid: Tid)

  datatype PC =
    | Outside
    // cpu_exec_start
    | StartReadPending | StartLock | StartTestWaiter
    | StartIdleTest | StartIdleWait | StartSetRunning | StartUnlock
    | Executing
    // cpu_exec_end
    | EndReadPending | EndLock | EndTestWaiter | EndDecrement | EndSignal | EndUnlock
    // start_exclusive
    | ExclLock | ExclIdleTest | ExclIdleWait | ExclClaim
    | ExclScan(todo: set<Tid>, found: nat) | ExclPublish(count: nat)
    | ExclDrainTest | ExclDrainWait | ExclUnlock
    | Exclusive
    // end_exclusive
    | LeaveLock | LeaveClear | LeaveBroadcast | LeaveUnlock

  datatype State = State(
    pc: seq<PC>,
    cpus: set<Tid>,            // the CPU list
    running: set<Tid>,         // cpu->running, read and written without the lock
    hasWaiter: set<Tid>,       // cpu->has_waiter, protected by the lock
    pending: nat,              // pending_cpus
    lock: Owner,               // qemu_cpu_list_lock
    resumeSleepers: set<Tid>,  // asleep on exclusive_resume
    drainSleepers: set<Tid>)   // asleep on exclusive_cond

  datatype Step =
    | BeginExec(t: Tid)
    | BeginExclusive(t: Tid)
    | Advance(t: Tid, pick: Tid)  // pick: the CPU scanned next, or the thread a signal wakes
    | SpuriousWakeup(t: Tid)
    | ListAdd(t: Tid)
    | ListRemove(t: Tid)

  // ---------------------------------------------------------------- program counters

  predicate HoldsLock(p: PC) {
    || p.StartTestWaiter? || p.StartIdleTest? || p.StartSetRunning? || p.StartUnlock?
    || p.EndTestWaiter? || p.EndDecrement? || p.EndSignal? || p.EndUnlock?
    || p.ExclIdleTest? || p.ExclClaim? || p.ExclScan? || p.ExclPublish?
    || p.ExclDrainTest? || p.ExclUnlock?
    || p.LeaveClear? || p.LeaveBroadcast? || p.LeaveUnlock?
  }

  /** The thread needs the lock to make its next step. */
  predicate WantsLock(p: PC) {
    || p.StartLock? || p.StartIdleWait? || p.EndLock?
    || p.ExclLock? || p.ExclIdleWait? || p.ExclDrainWait? || p.LeaveLock?
  }

  /** cpu->running is true at exactly these points. */
  predicate FlagsRunning(p: PC) {
    p.StartReadPending? || p.StartLock? || p.StartTestWaiter? || p.StartUnlock? || p.Executing?
  }

  /** Nothing in cpu_exec_start can stop the CPU from executing any more. */
  predicate Committed(p: PC) {
    p.StartSetRunning? || p.StartUnlock? || p.Executing?
  }

  predicate InExecStart(p: PC) {
    || p.StartReadPending? || p.StartLock? || p.StartTestWaiter?
    || p.StartIdleTest? || p.StartIdleWait? || p.StartSetRunning? || p.StartUnlock?
  }

  predicate InExecEnd(p: PC) {
    || p.Executing? || p.EndReadPending? || p.EndLock? || p.EndTestWaiter?
    || p.EndDecrement? || p.EndSignal? || p.EndUnlock?
  }

  predicate InStartExclusive(p: PC) {
    || p.ExclLock? || p.ExclIdleTest? || p.ExclIdleWait? || p.ExclClaim? || p.ExclScan?
    || p.ExclPublish? || p.ExclDrainTest? || p.ExclDrainWait? || p.ExclUnlock?
  }

  /** A CPU at one of these points still has its locked decrement ahead of it. */
  predicate WillDecrement(p: PC) {
    FlagsRunning(p) || p.EndReadPending? || p.EndLock? || p.EndTestWaiter?
  }

  /** The thread has raised pending_cpus and not yet reset it. */
  predicate Claims(p: PC) {
    || p.ExclScan? || p.ExclPublish? || p.ExclDrainTest? || p.ExclDrainWait? || p.ExclUnlock?
    || InSection(p)
  }

  /** Between the return of start_exclusive and the reset in end_exclusive. */
  predicate InSection(p: PC) {
    p.Exclusive? || p.LeaveLock? || p.LeaveClear?
  }

  predicate InLeave(p: PC) {
    InSection(p) || p.LeaveBroadcast? || p.LeaveUnlock?
  }

  // ---------------------------------------------------------------- steps

  predicate Init(s: State) {
    && (forall t :: 0 <= t < |s.pc| ==> s.pc[t] == Outside)
    && (forall t :: t in s.cpus ==> t < |s.pc|)
    && s.running == {} && s.hasWaiter == {} && s.pending == 0 && s.lock == Nobody
    && s.resumeSleepers == {} && s.drainSleepers == {}
  }

  predicate Asleep(s: State, t: Tid) {
    t in s.resumeSleepers || t in s.drainSleepers
  }

  predicate CanAdvance(s: State, t: Tid, pick: Tid) {
    && t < |s.pc|
    && !s.pc[t].Outside?
    && (WantsLock(s.pc[t]) ==> s.lock == Nobody && !Asleep(s, t))
    && (s.pc[t].ExclScan? && s.pc[t].todo != {} ==> pick in s.pc[t].todo)
    && (s.pc[t].EndSignal? && s.pending == 1 && s.drainSleepers != {} ==> pick in s.drainSleepers)
  }

  predicate Enabled(s: State, a: Step) {
    && a.t < |s.pc|
    && match a
       case BeginExec(t) => s.pc[t].Outside? && t in s.cpus
       case BeginExclusive(t) => s.pc[t].Outside?
       case Advance(t, pick) => CanAdvance(s, t, pick)
       case SpuriousWakeup(t) => Asleep(s, t)
       case ListAdd(t) => s.lock == Nobody && t !in s.cpus
       case ListRemove(t) => s.lock == Nobody && t in s.cpus && s.pc[t].Outside?
  }

  function At(s: State, t: Tid, p: PC): State
    requires t < |s.pc|
  {
    s.(pc := s.pc[t := p])
  }

  function Lock(s: State, t: Tid, p: PC): State
    requires t < |s.pc|
  {
    At(s, t, p).(lock := Held(t))
  }

  function Unlock(s: State, t: Tid, p: PC): State
    requires t < |s.pc|
  {
    At(s, t, p).(lock := Nobody)
  }

  /** One step of cpu_exec_start. */
  function AdvanceStart(s: State, t: Tid): State
    requires t < |s.pc|
  {
    match s.pc[t]
    case StartReadPending => if s.pending == 0 then At(s, t, Executing) else At(s, t, StartLock)
    case StartLock => Lock(s, t, StartTestWaiter)
    case StartTestWaiter =>
      if t in s.hasWaiter then At(s, t, StartUnlock)
      else At(s, t, StartIdleTest).(running := s.running - {t})
    case StartIdleTest =>
      if s.pending > 0 then Unlock(s, t, StartIdleWait).(resumeSleepers := s.resumeSleepers + {t})
      else At(s, t, StartSetRunning)
    case StartIdleWait => Lock(s, t, StartIdleTest)
    case StartSetRunning => At(s, t, StartUnlock).(running := s.running + {t})
    case _ => Unlock(s, t, Executing)
  }

  /** One step of cpu_exec_end. */
  function AdvanceEnd(s: State, t: Tid, pick: Tid): State
    requires t < |s.pc|
  {
    match s.pc[t]
    case Executing => At(s, t, EndReadPending).(running := s.running - {t})
    case EndReadPending => if s.pending == 0 then At(s, t, Outside) else At(s, t, EndLock)
    case EndLock => Lock(s, t, EndTestWaiter)
    case EndTestWaiter =>
      if t in s.hasWaiter then At(s, t, EndDecrement).(hasWaiter := s.hasWaiter - {t})
      else At(s, t, EndUnlock)
    case EndDecrement => At(s, t, EndSignal).(pending := if s.pending == 0 then 0 else s.pending - 1)
    case EndSignal =>
      if s.pending == 1 then At(s, t, EndUnlock).(drainSleepers := s.drainSleepers - {pick})
      else At(s, t, EndUnlock)
    case _ => Unlock(s, t, Outside)
  }

  /** One step of start_exclusive. */
  function AdvanceEnter(s: State, t: Tid, pick: Tid): State
    requires t < |s.pc|
  {
    match s.pc[t]
    case ExclLock => Lock(s, t, ExclIdleTest)
    case ExclIdleTest =>
      if s.pending > 0 then Unlock(s, t, ExclIdleWait).(resumeSleepers := s.resumeSleepers + {t})
      else At(s, t, ExclClaim)
    case ExclIdleWait => Lock(s, t, ExclIdleTest)
    case ExclClaim => At(s, t, ExclScan(s.cpus, 0)).(pending := 1)
    case ExclScan(todo, found) =>
      if todo == {} then At(s, t, ExclPublish(found))
      else if pick in s.running then
        At(s, t, ExclScan(todo - {pick}, found + 1)).(hasWaiter := s.hasWaiter + {pick})
      else At(s, t, ExclScan(todo - {pick}, found))
    case ExclPublish(count) => At(s, t, ExclDrainTest).(pending := count + 1)
    case ExclDrainTest =>
      if s.pending > 1 then Unlock(s, t, ExclDrainWait).(drainSleepers := s.drainSleepers + {t})
      else At(s, t, ExclUnlock)
    case ExclDrainWait => Lock(s, t, ExclDrainTest)
    case _ => Unlock(s, t, Exclusive)
  }

  /** One step of end_exclusive. */
  function AdvanceLeave(s: State, t: Tid): State
    requires t < |s.pc|
  {
    match s.pc[t]
    case Exclusive => At(s, t, LeaveLock)
    case LeaveLock => Lock(s, t, LeaveClear)
    case LeaveClear => At(s, t, LeaveBroadcast).(pending := 0)
    case LeaveBroadcast => At(s, t, LeaveUnlock).(resumeSleepers := {})
    case _ => Unlock(s, t, Outside)
  }

  function Apply(s: State, a: Step): State
    requires Enabled(s, a)
  {
    match a
    case BeginExec(t) => At(s, t, StartReadPending).(running := s.running + {t})
    case BeginExclusive(t) => At(s, t, ExclLock)
    case Advance(t, pick) =>
      var p := s.pc[t];
      if InExecStart(p) then AdvanceStart(s, t)
      else if InExecEnd(p) then AdvanceEnd(s, t, pick)
      else if InStartExclusive(p) then AdvanceEnter(s, t, pick)
      else AdvanceLeave(s, t)
    case SpuriousWakeup(t) =>
      s.(resumeSleepers := s.resumeSleepers - {t}, drainSleepers := s.drainSleepers - {t})
    case ListAdd(t) => s.(cpus := s.cpus + {t})
    case ListRemove(t) => s.(cpus := s.cpus - {t})
  }

  /** A run: every state follows from the previous one by some enabled step. */
  ghost predicate IsRun(run: seq<State>) {
    && |run| > 0
    && Init(run[0])
    && forall i :: 0 < i < |run| ==> Next(run[i - 1], run[i])
  }

  ghost predicate Next(s: State, s': State) {
    exists a :: Enabled(s, a) && s' == Apply(s, a)
  }

  // ---------------------------------------------------------------- the invariant

  /** A CPU that has given up its mark but not yet lowered pending_cpus. */
  function Decrementing(s: State): nat {
    if s.lock.Held? && s.lock.tid < |s.pc| && s.pc[s.lock.tid].EndDecrement? then 1 else 0
  }

  ghost predicate LockMatches(s: State) {
    && (forall t :: 0 <= t < |s.pc| ==> (HoldsLock(s.pc[t]) <==> s.lock == Held(t)))
    && (s.lock.Held? ==> s.lock.tid < |s.pc|)
  }

  ghost predicate FlagsMatch(s: State) {
    && (forall t :: 0 <= t < |s.pc| ==> (FlagsRunning(s.pc[t]) <==> t in s.running))
    && (forall t :: 0 <= t < |s.pc| && (InExecStart(s.pc[t]) || InExecEnd(s.pc[t])) ==> t in s.cpus)
    && (forall t :: t in s.cpus ==> t < |s.pc|)
  }

  ghost predicate OwnerClaims(s: State, o: Owner) {
    && (forall t :: 0 <= t < |s.pc| ==> (Claims(s.pc[t]) <==> o == Held(t)))
    && (o.Held? ==> o.tid < |s.pc|)
    && (s.pending > 0 <==> o.Held?)
    && (forall t :: 0 <= t < |s.pc| && (s.pc[t].ExclClaim? || s.pc[t].StartSetRunning?) ==> s.pending == 0)
  }

  /** Every marked CPU is listed and still has its decrement to do. */
  ghost predicate MarksWillClear(s: State) {
    forall c :: c in s.hasWaiter ==> c in s.cpus && c < |s.pc| && WillDecrement(s.pc[c])
  }

  function Todo(p: PC): set<Tid> {
    if p.ExclScan? then p.todo else {}
  }

  function Found(p: PC): nat {
    if p.ExclScan? then p.found else if p.ExclPublish? then p.count else 0
  }

  /** pending_cpus counts the marked CPUs, plus one for the owner, once published;
      before that the owner's own counter does. */
  ghost predicate Counted(s: State, o: Owner) {
    match o
    case Nobody => s.hasWaiter == {} && Decrementing(s) == 0
    case Held(x) =>
      && x < |s.pc|
      && if s.pc[x].ExclScan? || s.pc[x].ExclPublish?
         then && s.pending == 1 && Found(s.pc[x]) == |s.hasWaiter|
              && s.hasWaiter !! Todo(s.pc[x]) && Todo(s.pc[x]) <= s.cpus
         else && s.pending == 1 + |s.hasWaiter| + Decrementing(s)
              && (s.pc[x].ExclUnlock? || InSection(s.pc[x]) ==> s.pending == 1)
  }

  /** A CPU the scan has passed without marking is not executing. */
  ghost predicate PassedAreStopped(s: State, o: Owner) {
    o.Held? && o.tid < |s.pc| ==>
      forall c :: c in s.cpus && c !in s.hasWaiter && c !in Todo(s.pc[o.tid]) && c < |s.pc| ==> !Committed(s.pc[c])
  }

  /** Whoever sleeps has a wake-up coming: the lock holder is about to send it,
      or the condition that lets it sleep still holds. */
  ghost predicate SleepersAreOwed(s: State) {
    && (forall t :: t in s.drainSleepers ==>
          t < |s.pc| && s.pc[t].ExclDrainWait?
          && (s.pending > 1 || (s.lock.Held? && s.lock.tid < |s.pc| && s.pc[s.lock.tid].EndSignal?)))
    && (forall t :: t in s.resumeSleepers ==>
          t < |s.pc| && (s.pc[t].StartIdleWait? || s.pc[t].ExclIdleWait?)
          && (s.pending > 0 || (s.lock.Held? && s.lock.tid < |s.pc| && s.pc[s.lock.tid].LeaveBroadcast?)))
  }

  ghost predicate Inv(s: State, o: Owner) {
    && LockMatches(s) && FlagsMatch(s) && OwnerClaims(s, o) && MarksWillClear(s) && Counted(s, o)
    && PassedAreStopped(s, o) && SleepersAreOwed(s)
  }

  function NextOwner(s: State, a: Step, o: Owner): Owner
    requires Enabled(s, a)
  {
    if a.Advance? && s.pc[a.t].ExclClaim? then Held(a.t)
    else if a.Advance? && s.pc[a.t].LeaveClear? then Nobody
    else o
  }

  lemma InitInv(s: State)
    requires Init(s)
    ensures Inv(s, Nobody)
  {
  }

  // What a step of each function of the source moves.

  /** Thread t has moved, and no other. */
  predicate Moved(s: State, s': State, t: Tid) {
    t < |s.pc| && |s'.pc| == |s.pc| && s'.pc == s.pc[t := s'.pc[t]]
  }

  lemma StartMoves(s: State, a: Step)
    requires Enabled(s, a) && a.Advance? && InExecStart(s.pc[a.t])
    ensures var s' := Apply(s, a);
            && Moved(s, s', a.t) && s'.pending == s.pending && s'.cpus == s.cpus && s'.hasWaiter == s.hasWaiter
            && (InExecStart(s'.pc[a.t]) || s'.pc[a.t].Executing?)
            && (s'.pc[a.t].StartSetRunning? ==> s.pending == 0)
  {
  }

  lemma EndMoves(s: State, a: Step)
    requires Enabled(s, a) && a.Advance? && InExecEnd(s.pc[a.t])
    ensures var s' := Apply(s, a);
            && Moved(s, s', a.t) && s'.cpus == s.cpus
            && ((InExecEnd(s'.pc[a.t]) && !s'.pc[a.t].Executing?) || s'.pc[a.t].Outside?)
            && (!s.pc[a.t].EndDecrement? ==> s'.pending == s.pending)
  {
  }

  lemma EnterMoves(s: State, a: Step)
    requires Enabled(s, a) && a.Advance? && InStartExclusive(s.pc[a.t])
    ensures var s' := Apply(s, a);
            && Moved(s, s', a.t) && s'.cpus == s.cpus && s'.running == s.running
            && (|| (InStartExclusive(s'.pc[a.t]) && !s'.pc[a.t].ExclLock?)
                || (s.pc[a.t].ExclUnlock? && s'.pc[a.t].Exclusive?))
            && (s'.pc[a.t].ExclClaim? ==> s.pending == 0)
  {
  }

  lemma LeaveMoves(s: State, a: Step)
    requires Enabled(s, a) && a.Advance? && InLeave(s.pc[a.t])
    ensures var s' := Apply(s, a);
            && Moved(s, s', a.t) && s'.cpus == s.cpus && s'.running == s.running && s'.hasWaiter == s.hasWaiter
            && ((InLeave(s'.pc[a.t]) && !s'.pc[a.t].Exclusive?) || s'.pc[a.t].Outside?)
            && s'.pending == if s.pc[a.t].LeaveClear? then 0 else s.pending
  {
  }

  /** The decrement leaves the owner's own part of pending_cpus. */
  lemma DecrementLeavesOwner(s: State, a: Step, o: Owner)
    requires Enabled(s, a) && a.Advance? && s.pc[a.t].EndDecrement?
    requires LockMatches(s) && OwnerClaims(s, o) && Counted(s, o)
    ensures Apply(s, a).pending > 0 && s.pending > 0
  {
    assert s.lock == Held(a.t);
  }

  /** A thread that moves without claiming or giving up the section. */
  lemma ClaimsKept(s: State, s': State, t: Tid, o: Owner)
    requires OwnerClaims(s, o) && Moved(s, s', t) && (s'.pending > 0 <==> s.pending > 0)
    requires Claims(s'.pc[t]) <==> Claims(s.pc[t])
    requires s'.pc[t].ExclClaim? || s'.pc[t].StartSetRunning? ==> s.pending == 0
    ensures OwnerClaims(s', o)
  {
  }

  /** A thread that moves without touching flags. */
  lemma FlagsKept(s: State, s': State, t: Tid)
    requires FlagsMatch(s) && Moved(s, s', t) && s'.running == s.running && s'.cpus == s.cpus
    requires FlagsRunning(s'.pc[t]) <==> FlagsRunning(s.pc[t])
    requires InExecStart(s'.pc[t]) || InExecEnd(s'.pc[t]) ==> InExecStart(s.pc[t]) || InExecEnd(s.pc[t])
    ensures FlagsMatch(s')
  {
  }

  // Preservation, one lemma for each function of the source and part of the invariant.

  lemma ExternalKeepsLocking(s: State, a: Step)
    requires Enabled(s, a) && !a.Advance?
    requires LockMatches(s) && FlagsMatch(s)
    ensures LockMatches(Apply(s, a))
    ensures FlagsMatch(Apply(s, a))
  {
  }

  lemma ExternalKeepsClaims(s: State, a: Step, o: Owner)
    requires Enabled(s, a) && !a.Advance?
    requires OwnerClaims(s, o)
    ensures OwnerClaims(Apply(s, a), NextOwner(s, a, o))
  {
  }

  lemma ExternalKeepsMarks(s: State, a: Step)
    requires Enabled(s, a) && !a.Advance? && MarksWillClear(s)
    ensures MarksWillClear(Apply(s, a))
  {
  }

  lemma ExternalKeepsSleepers(s: State, a: Step)
    requires Enabled(s, a) && !a.Advance? && LockMatches(s) && SleepersAreOwed(s)
    ensures SleepersAreOwed(Apply(s, a))
  {
  }

  lemma ExternalKeepsCount(s: State, a: Step, o: Owner)
    requires Enabled(s, a) && !a.Advance?
    requires Inv(s, o)
    ensures Counted(Apply(s, a), NextOwner(s, a, o))
    ensures PassedAreStopped(Apply(s, a), NextOwner(s, a, o))
  {
  }

  lemma StartKeepsLock(s: State, a: Step)
    requires Enabled(s, a) && a.Advance? && InExecStart(s.pc[a.t])
    requires LockMatches(s)
    ensures LockMatches(Apply(s, a))
  {
  }

  lemma StartKeepsFlags(s: State, a: Step)
    requires Enabled(s, a) && a.Advance? && InExecStart(s.pc[a.t])
    requires FlagsMatch(s)
    ensures FlagsMatch(Apply(s, a))
  {
  }

  lemma StartKeepsClaims(s: State, a: Step, o: Owner)
    requires Enabled(s, a) && a.Advance? && InExecStart(s.pc[a.t]) && OwnerClaims(s, o)
    ensures OwnerClaims(Apply(s, a), NextOwner(s, a, o))
  {
    StartMoves(s, a);
    ClaimsKept(s, Apply(s, a), a.t, o);
  }

  lemma StartKeepsMarks(s: State, a: Step, o: Owner)
    requires Enabled(s, a) && a.Advance? && InExecStart(s.pc[a.t])
    requires LockMatches(s) && FlagsMatch(s) && OwnerClaims(s, o) && Counted(s, o) && MarksWillClear(s)
    ensures MarksWillClear(Apply(s, a))
  {
  }

  lemma StartKeepsCount(s: State, a: Step, o: Owner)
    requires Enabled(s, a) && a.Advance? && InExecStart(s.pc[a.t])
    requires LockMatches(s) && FlagsMatch(s) && OwnerClaims(s, o) && Counted(s, o)
    ensures Counted(Apply(s, a), NextOwner(s, a, o))
  {
  }

  lemma StartKeepsStopped(s: State, a: Step, o: Owner)
    requires Enabled(s, a) && a.Advance? && InExecStart(s.pc[a.t])
    requires LockMatches(s) && FlagsMatch(s) && OwnerClaims(s, o) && PassedAreStopped(s, o)
    ensures PassedAreStopped(Apply(s, a), NextOwner(s, a, o))
  {
  }

  lemma StartKeepsSleepers(s: State, a: Step, o: Owner)
    requires Enabled(s, a) && a.Advance? && InExecStart(s.pc[a.t])
    requires LockMatches(s) && FlagsMatch(s) && OwnerClaims(s, o) && Counted(s, o) && SleepersAreOwed(s)
    ensures SleepersAreOwed(Apply(s, a))
  {
  }

  lemma EndKeepsLock(s: State, a: Step)
    requires Enabled(s, a) && a.Advance? && InExecEnd(s.pc[a.t])
    requires LockMatches(s)
    ensures LockMatches(Apply(s, a))
  {
  }

  lemma EndKeepsFlags(s: State, a: Step)
    requires Enabled(s, a) && a.Advance? && InExecEnd(s.pc[a.t])
    requires FlagsMatch(s)
    ensures FlagsMatch(Apply(s, a))
  {
  }

  lemma EndKeepsClaims(s: State, a: Step, o: Owner)
    requires Enabled(s, a) && a.Advance? && InExecEnd(s.pc[a.t])
    requires LockMatches(s) && OwnerClaims(s, o) && Counted(s, o)
    ensures OwnerClaims(Apply(s, a), NextOwner(s, a, o))
  {
    EndMoves(s, a);
    if s.pc[a.t].EndDecrement? {
      DecrementLeavesOwner(s, a, o);
    }
    ClaimsKept(s, Apply(s, a), a.t, o);
  }

  lemma EndKeepsMarks(s: State, a: Step, o: Owner)
    requires Enabled(s, a) && a.Advance? && InExecEnd(s.pc[a.t])
    requires LockMatches(s) && FlagsMatch(s) && OwnerClaims(s, o) && Counted(s, o) && MarksWillClear(s)
    ensures MarksWillClear(Apply(s, a))
  {
  }

  lemma EndKeepsCount(s: State, a: Step, o: Owner)
    requires Enabled(s, a) && a.Advance? && InExecEnd(s.pc[a.t])
    requires LockMatches(s) && FlagsMatch(s) && OwnerClaims(s, o) && Counted(s, o)
    ensures Counted(Apply(s, a), NextOwner(s, a, o))
  {
  }

  lemma EndKeepsStopped(s: State, a: Step, o: Owner)
    requires Enabled(s, a) && a.Advance? && InExecEnd(s.pc[a.t])
    requires LockMatches(s) && FlagsMatch(s) && OwnerClaims(s, o) && PassedAreStopped(s, o)
    ensures PassedAreStopped(Apply(s, a), NextOwner(s, a, o))
  {
  }

  lemma EndKeepsSleepers(s: State, a: Step, o: Owner)
    requires Enabled(s, a) && a.Advance? && InExecEnd(s.pc[a.t])
    requires LockMatches(s) && FlagsMatch(s) && OwnerClaims(s, o) && Counted(s, o) && SleepersAreOwed(s)
    ensures SleepersAreOwed(Apply(s, a))
  {
  }

  lemma EnterKeepsLock(s: State, a: Step)
    requires Enabled(s, a) && a.Advance? && InStartExclusive(s.pc[a.t])
    requires LockMatches(s)
    ensures LockMatches(Apply(s, a))
  {
  }

  lemma EnterKeepsFlags(s: State, a: Step)
    requires Enabled(s, a) && a.Advance? && InStartExclusive(s.pc[a.t])
    requires FlagsMatch(s)
    ensures FlagsMatch(Apply(s, a))
  {
    EnterMoves(s, a);
    FlagsKept(s, Apply(s, a), a.t);
  }

  lemma EnterKeepsClaims(s: State, a: Step, o: Owner)
    requires Enabled(s, a) && a.Advance? && InStartExclusive(s.pc[a.t])
    requires LockMatches(s) && OwnerClaims(s, o) && Counted(s, o)
    ensures OwnerClaims(Apply(s, a), NextOwner(s, a, o))
  {
    if s.pc[a.t].ExclClaim? {
      ClaimTaken(s, a, o);
    } else {
      EnterMoves(s, a);
      EnterKeepsPending(s, a, o);
      ClaimsKept(s, Apply(s, a), a.t, o);
    }
  }

  lemma ClaimTaken(s: State, a: Step, o: Owner)
    requires Enabled(s, a) && a.Advance? && s.pc[a.t].ExclClaim? && LockMatches(s) && OwnerClaims(s, o)
    ensures OwnerClaims(Apply(s, a), Held(a.t))
  {
    assert s.lock == Held(a.t);
  }

  lemma EnterKeepsPending(s: State, a: Step, o: Owner)
    requires Enabled(s, a) && a.Advance? && InStartExclusive(s.pc[a.t]) && !s.pc[a.t].ExclClaim? && OwnerClaims(s, o)
    ensures Apply(s, a).pending > 0 <==> s.pending > 0
    ensures Claims(Apply(s, a).pc[a.t]) <==> Claims(s.pc[a.t])
  {
  }

  lemma EnterKeepsMarks(s: State, a: Step, o: Owner)
    requires Enabled(s, a) && a.Advance? && InStartExclusive(s.pc[a.t])
    requires LockMatches(s) && FlagsMatch(s) && OwnerClaims(s, o) && Counted(s, o) && MarksWillClear(s)
    ensures MarksWillClear(Apply(s, a))
  {
    var s' := Apply(s, a);
    if s.pc[a.t].ExclScan? && s.pc[a.t].todo != {} && a.pick in s.running {
      RunningWillDecrement(s, o, a.pick);
    }
    forall c | c in s'.hasWaiter
      ensures c in s'.cpus && c < |s'.pc| && WillDecrement(s'.pc[c])
    {
      assert c in s.hasWaiter || c == a.pick;
    }
  }

  /** A CPU that flags itself running during a section has a decrement to come. */
  lemma RunningWillDecrement(s: State, o: Owner, c: Tid)
    requires FlagsMatch(s) && OwnerClaims(s, o) && o.Held? && c in s.running && c < |s.pc|
    ensures WillDecrement(s.pc[c])
  {
  }

  lemma EnterKeepsCount(s: State, a: Step, o: Owner)
    requires Enabled(s, a) && a.Advance? && InStartExclusive(s.pc[a.t])
    requires LockMatches(s) && OwnerClaims(s, o) && Counted(s, o)
    ensures Counted(Apply(s, a), NextOwner(s, a, o))
  {
    if s.pc[a.t].ExclScan? {
      ScanKeepsCount(s, a, o);
    } else if s.pc[a.t].ExclClaim? || s.pc[a.t].ExclPublish? {
      PublishKeepsCount(s, a, o);
    }
  }

  /** start_exclusive counts a CPU when it marks it. */
  lemma ScanKeepsCount(s: State, a: Step, o: Owner)
    requires Enabled(s, a) && a.Advance? && s.pc[a.t].ExclScan? && OwnerClaims(s, o) && Counted(s, o)
    ensures Counted(Apply(s, a), o)
  {
    assert o == Held(a.t);
  }

  lemma PublishKeepsCount(s: State, a: Step, o: Owner)
    requires Enabled(s, a) && a.Advance? && (s.pc[a.t].ExclClaim? || s.pc[a.t].ExclPublish?)
    requires LockMatches(s) && OwnerClaims(s, o) && Counted(s, o)
    ensures Counted(Apply(s, a), NextOwner(s, a, o))
  {
    assert s.lock == Held(a.t);
  }

  lemma EnterKeepsStopped(s: State, a: Step, o: Owner)
    requires Enabled(s, a) && a.Advance? && InStartExclusive(s.pc[a.t])
    requires LockMatches(s) && FlagsMatch(s) && OwnerClaims(s, o) && PassedAreStopped(s, o)
    ensures PassedAreStopped(Apply(s, a), NextOwner(s, a, o))
  {
  }

  lemma EnterKeepsSleepers(s: State, a: Step, o: Owner)
    requires Enabled(s, a) && a.Advance? && InStartExclusive(s.pc[a.t])
    requires LockMatches(s) && FlagsMatch(s) && OwnerClaims(s, o) && Counted(s, o) && SleepersAreOwed(s)
    ensures SleepersAreOwed(Apply(s, a))
  {
  }

  lemma LeaveKeepsLock(s: State, a: Step)
    requires Enabled(s, a) && a.Advance? && InLeave(s.pc[a.t])
    requires LockMatches(s)
    ensures LockMatches(Apply(s, a))
  {
  }

  lemma LeaveKeepsFlags(s: State, a: Step)
    requires Enabled(s, a) && a.Advance? && InLeave(s.pc[a.t])
    requires FlagsMatch(s)
    ensures FlagsMatch(Apply(s, a))
  {
    LeaveMoves(s, a);
    FlagsKept(s, Apply(s, a), a.t);
  }

  lemma LeaveKeepsClaims(s: State, a: Step, o: Owner)
    requires Enabled(s, a) && a.Advance? && InLeave(s.pc[a.t])
    requires OwnerClaims(s, o)
    ensures OwnerClaims(Apply(s, a), NextOwner(s, a, o))
  {
    LeaveMoves(s, a);
    if !s.pc[a.t].LeaveClear? {
      LeaveKeepsOwner(s, a);
      ClaimsKept(s, Apply(s, a), a.t, o);
    }
  }

  lemma LeaveKeepsOwner(s: State, a: Step)
    requires Enabled(s, a) && a.Advance? && InLeave(s.pc[a.t]) && !s.pc[a.t].LeaveClear?
    ensures Claims(Apply(s, a).pc[a.t]) <==> Claims(s.pc[a.t])
  {
  }

  lemma LeaveKeepsMarks(s: State, a: Step)
    requires Enabled(s, a) && a.Advance? && InLeave(s.pc[a.t]) && MarksWillClear(s)
    ensures MarksWillClear(Apply(s, a))
  {
    LeaveMoves(s, a);
  }

  lemma LeaveKeepsCount(s: State, a: Step, o: Owner)
    requires Enabled(s, a) && a.Advance? && InLeave(s.pc[a.t])
    requires LockMatches(s) && FlagsMatch(s) && OwnerClaims(s, o) && Counted(s, o) && PassedAreStopped(s, o)
    ensures Counted(Apply(s, a), NextOwner(s, a, o))
    ensures PassedAreStopped(Apply(s, a), NextOwner(s, a, o))
  {
  }

  lemma LeaveKeepsSleepers(s: State, a: Step, o: Owner)
    requires Enabled(s, a) && a.Advance? && InLeave(s.pc[a.t])
    requires LockMatches(s) && FlagsMatch(s) && OwnerClaims(s, o) && Counted(s, o) && SleepersAreOwed(s)
    ensures SleepersAreOwed(Apply(s, a))
  {
  }

  lemma StepKeepsInv(s: State, a: Step, o: Owner)
    requires Enabled(s, a) && Inv(s, o)
    ensures Inv(Apply(s, a), NextOwner(s, a, o))
  {
    if !a.Advance? {
      ExternalKeepsLocking(s, a);
      ExternalKeepsClaims(s, a, o);
      ExternalKeepsMarks(s, a);
      ExternalKeepsSleepers(s, a);
      ExternalKeepsCount(s, a, o);
    } else if InExecStart(s.pc[a.t]) {
      StartKeepsLock(s, a);
      StartKeepsFlags(s, a);
      StartKeepsClaims(s, a, o);
      StartKeepsMarks(s, a, o);
      StartKeepsCount(s, a, o);
      StartKeepsStopped(s, a, o);
      StartKeepsSleepers(s, a, o);
    } else if InExecEnd(s.pc[a.t]) {
      EndKeepsLock(s, a);
      EndKeepsFlags(s, a);
      EndKeepsClaims(s, a, o);
      EndKeepsMarks(s, a, o);
      EndKeepsCount(s, a, o);
      EndKeepsStopped(s, a, o);
      EndKeepsSleepers(s, a, o);
    } else if InStartExclusive(s.pc[a.t]) {
      EnterKeepsLock(s, a);
      EnterKeepsFlags(s, a);
      EnterKeepsClaims(s, a, o);
      EnterKeepsMarks(s, a, o);
      EnterKeepsCount(s, a, o);
      EnterKeepsStopped(s, a, o);
      EnterKeepsSleepers(s, a, o);
    } else {
      LeaveKeepsLock(s, a);
      LeaveKeepsFlags(s, a);
      LeaveKeepsClaims(s, a, o);
      LeaveKeepsMarks(s, a);
      LeaveKeepsCount(s, a, o);
      LeaveKeepsSleepers(s, a, o);
    }
  }

  lemma {:induction false} RunKeepsInv(run: seq<State>, n: nat) returns (o: Owner)
    requires IsRun(run) && n < |run|
    ensures Inv(run[n], o)
  {
    if n == 0 {
      o := Nobody;
      InitInv(run[0]);
    } else {
      var prev := RunKeepsInv(run, n - 1);
      assert Next(run[n - 1], run[n]);
      var a :| Enabled(run[n - 1], a) && run[n] == Apply(run[n - 1], a);
      StepKeepsInv(run[n - 1], a, prev);
      o := NextOwner(run[n - 1], a, prev);
    }
  }

  // ---------------------------------------------------------------- safety over whole runs

  /** In every reachable state at most one thread is inside an exclusive section,
      and while one is, no CPU is executing. */
  lemma MutualExclusion(run: seq<State>, n: nat, t: Tid, u: Tid)
    requires IsRun(run) && n < |run| && t < |run[n].pc| && u < |run[n].pc|
    requires InSection(run[n].pc[t])
    ensures InSection(run[n].pc[u]) ==> u == t
    ensures !Committed(run[n].pc[u])
  {
    var o := RunKeepsInv(run, n);
    var s := run[n];
    SectionExcludes(s, o, t);
  }

  /** Once the count is published, pending_cpus is one more than the number of
      CPUs that still owe a decrement, and each of those is on its way to it. */
  lemma PendingCountsMarks(run: seq<State>, n: nat, t: Tid)
    requires IsRun(run) && n < |run| && t < |run[n].pc|
    requires Claims(run[n].pc[t]) && !run[n].pc[t].ExclScan? && !run[n].pc[t].ExclPublish?
    ensures run[n].pending == 1 + |run[n].hasWaiter| + Decrementing(run[n])
    ensures forall c :: c in run[n].hasWaiter ==> c < |run[n].pc| && WillDecrement(run[n].pc[c])
  {
    var o := RunKeepsInv(run, n);
    assert o == Held(t);
  }

  /** A thread asleep in start_exclusive is owed a wake-up: a marked CPU still has
      its decrement to do, or the last one is between its decrement and its signal. */
  lemma DrainWakeupIsOwed(run: seq<State>, n: nat, t: Tid) returns (c: Tid)
    requires IsRun(run) && n < |run| && t in run[n].drainSleepers
    ensures c < |run[n].pc|
    ensures || (c in run[n].hasWaiter && WillDecrement(run[n].pc[c]))
            || run[n].pc[c].EndDecrement? || run[n].pc[c].EndSignal?
  {
    var s := run[n];
    var o := RunKeepsInv(run, n);
    if s.hasWaiter != {} {
      c :| c in s.hasWaiter;
    } else {
      assert o == Held(t);
      c := s.lock.tid;
    }
  }

  /** A thread asleep in exclusive_idle is owed a broadcast: some thread still
      claims the section, or is between the reset and the broadcast. */
  lemma ResumeWakeupIsOwed(run: seq<State>, n: nat, t: Tid) returns (x: Tid)
    requires IsRun(run) && n < |run| && t in run[n].resumeSleepers
    ensures x < |run[n].pc|
    ensures Claims(run[n].pc[x]) || run[n].pc[x].LeaveBroadcast?
  {
    var o := RunKeepsInv(run, n);
    x := if o.Held? then o.tid else run[n].lock.tid;
  }

  /** No deadlock: while any thread is inside the protocol, some thread inside it
      can take a step of its own, without help from a spurious wake-up. */
  lemma NoDeadlock(run: seq<State>, n: nat, t: Tid) returns (u: Tid, pick: Tid)
    requires IsRun(run) && n < |run| && t < |run[n].pc| && !run[n].pc[t].Outside?
    ensures CanAdvance(run[n], u, pick)
  {
    var s := run[n];
    var o := RunKeepsInv(run, n);
    u := t;
    if s.lock.Held? {
      u := s.lock.tid;
    } else if t in s.drainSleepers {
      u := DrainWakeupIsOwed(run, n, t);
    } else if t in s.resumeSleepers {
      u := ResumeWakeupIsOwed(run, n, t);
      if u in s.drainSleepers {
        u := DrainWakeupIsOwed(run, n, u);
      }
    }
    pick := 0;
    if s.pc[u].ExclScan? && s.pc[u].todo != {} {
      pick :| pick in s.pc[u].todo;
    } else if s.pc[u].EndSignal? && s.drainSleepers != {} {
      pick :| pick in s.drainSleepers;
    }
  }

  // ---------------------------------------------------------------- the drain is bounded

  /** Steps a marked CPU needs to reach and make its decrement. */
  function Work(p: PC): nat {
    match p
    case StartReadPending => 8
    case StartLock => 7
    case StartTestWaiter => 6
    case StartUnlock => 5
    case Executing => 4
    case EndReadPending => 3
    case EndLock => 2
    case EndTestWaiter => 1
    case _ => 0
  }

  function WorkLeft(s: State, n: nat): nat
    requires n <= |s.pc|
  {
    if n == 0 then 0
    else WorkLeft(s, n - 1) + if n - 1 in s.hasWaiter then Work(s.pc[n - 1]) else 0
  }

  lemma {:induction false} WorkLeftChangesAt(s: State, s': State, t: Tid, n: nat)
    requires |s'.pc| == |s.pc| && n <= |s.pc| && t < |s.pc|
    requires forall c :: 0 <= c < |s.pc| && c != t ==> s'.pc[c] == s.pc[c] && (c in s'.hasWaiter <==> c in s.hasWaiter)
    ensures WorkLeft(s', n) - WorkLeft(s, n) ==
            if t < n
            then (if t in s'.hasWaiter then Work(s'.pc[t]) else 0) - (if t in s.hasWaiter then Work(s.pc[t]) else 0)
            else 0
  {
    if n > 0 {
      WorkLeftChangesAt(s, s', t, n - 1);
    }
  }

  lemma StepMovesOneThread(s: State, a: Step)
    requires Enabled(s, a)
    ensures var s' := Apply(s, a);
            |s'.pc| == |s.pc| && forall c :: 0 <= c < |s.pc| && c != a.t ==> s'.pc[c] == s.pc[c]
  {
  }

  lemma DrainOnlyUnmarks(s: State, a: Step, o: Owner, x: Tid)
    requires Enabled(s, a) && OwnerClaims(s, o) && x < |s.pc| && (s.pc[x].ExclDrainTest? || s.pc[x].ExclDrainWait?)
    ensures Apply(s, a).hasWaiter == s.hasWaiter || Apply(s, a).hasWaiter == s.hasWaiter - {a.t}
  {
  }

  lemma MarkedStepDoesWork(s: State, a: Step, o: Owner)
    requires Enabled(s, a) && OwnerClaims(s, o) && Counted(s, o) && MarksWillClear(s) && a.t in s.hasWaiter
    ensures var s' := Apply(s, a);
            if a.Advance? then a.t !in s'.hasWaiter || Work(s'.pc[a.t]) < Work(s.pc[a.t])
            else Work(s'.pc[a.t]) == Work(s.pc[a.t])
  {
  }

  /** While start_exclusive drains, no step adds work for it to wait for, and every
      step of a marked CPU removes some: it waits for a bounded number of them. */
  lemma DrainIsBounded(run: seq<State>, n: nat, a: Step, x: Tid)
    requires IsRun(run) && n < |run| && Enabled(run[n], a)
    requires x < |run[n].pc| && (run[n].pc[x].ExclDrainTest? || run[n].pc[x].ExclDrainWait?)
    ensures var s := run[n]; var s' := Apply(s, a);
            && |s'.pc| == |s.pc|
            && s'.hasWaiter <= s.hasWaiter
            && WorkLeft(s', |s.pc|) <= WorkLeft(s, |s.pc|)
            && (a.Advance? && a.t in s.hasWaiter ==> WorkLeft(s', |s.pc|) < WorkLeft(s, |s.pc|))
  {
    var o := RunKeepsInv(run, n);
    var s, s' := run[n], Apply(run[n], a);
    StepMovesOneThread(s, a);
    DrainOnlyUnmarks(s, a, o, x);
    if a.t in s.hasWaiter {
      MarkedStepDoesWork(s, a, o);
    }
    WorkLeftChangesAt(s, s', a.t, |s.pc|);
  }

  // ---------------------------------------------------------------- refinement

  /** The interface the protocol implements: CPUs execute side by side, or one
      thread has the machine to itself. */
  datatype Spec = Spec(executing: set<Tid>, section: Owner)

  predicate SpecNext(a: Spec, b: Spec, t: Tid) {
    || b == a
    || (a.section == Nobody && b == a.(executing := a.executing + {t}))
    || b == a.(executing := a.executing - {t})
    || (a.section == Nobody && a.executing == {} && b == a.(section := Held(t)))
    || (a.section == Held(t) && b == a.(section := Nobody))
  }

  function Running(s: State): set<Tid> {
    set c | 0 <= c < |s.pc| && s.pc[c].Executing?
  }

  function Abs(s: State, o: Owner): Spec {
    Spec(Running(s), if o.Held? && o.tid < |s.pc| && InSection(s.pc[o.tid]) then o else Nobody)
  }

  /** A CPU starts executing only from the fast path with pending_cpus at 0, or
      with the lock held at the end of the slow path. */
  lemma ExecutingStep(s: State, a: Step)
    requires Enabled(s, a)
    ensures var s' := Apply(s, a);
            && (s'.pc[a.t].Executing? && !s.pc[a.t].Executing? ==>
                  s.pc[a.t].StartUnlock? || (s.pc[a.t].StartReadPending? && s.pending == 0))
            && (s'.pc[a.t].Exclusive? && !InSection(s.pc[a.t]) ==> s.pc[a.t].ExclUnlock?)
            && (InSection(s'.pc[a.t]) && !InSection(s.pc[a.t]) ==> s.pc[a.t].ExclUnlock?)
  {
    if a.Advance? {
      if InExecStart(s.pc[a.t]) {
        StartMoves(s, a);
        StartExecutes(s, a);
      } else if InExecEnd(s.pc[a.t]) {
        EndMoves(s, a);
      } else if InStartExclusive(s.pc[a.t]) {
        EnterMoves(s, a);
      } else {
        LeaveMoves(s, a);
      }
    }
  }

  lemma StartExecutes(s: State, a: Step)
    requires Enabled(s, a) && a.Advance? && InExecStart(s.pc[a.t])
    ensures Apply(s, a).pc[a.t].Executing? ==>
              s.pc[a.t].StartUnlock? || (s.pc[a.t].StartReadPending? && s.pending == 0)
  {
  }

  lemma SectionStep(s: State, a: Step, o: Owner)
    requires Enabled(s, a) && OwnerClaims(s, o)
    ensures NextOwner(s, a, o) != o ==>
              || (o == Nobody && Apply(s, a).pc[a.t].ExclScan?)
              || (o == Held(a.t) && InSection(s.pc[a.t]) && NextOwner(s, a, o) == Nobody)
    ensures InSection(s.pc[a.t]) && !InSection(Apply(s, a).pc[a.t]) ==> NextOwner(s, a, o) == Nobody
  {
  }

  lemma SectionExcludes(s: State, o: Owner, t: Tid)
    requires Inv(s, o) && t < |s.pc| && (s.pc[t].ExclUnlock? || InSection(s.pc[t]))
    ensures o == Held(t)
    ensures forall c :: 0 <= c < |s.pc| ==> !Committed(s.pc[c])
  {
    assert s.hasWaiter == {};
    assert forall c :: 0 <= c < |s.pc| && Committed(s.pc[c]) ==> c in s.cpus;
  }

  lemma MoveRefines(s: State, s': State, t: Tid, o: Owner, o': Owner)
    requires Inv(s, o) && t < |s.pc| && |s'.pc| == |s.pc|
    requires forall c :: 0 <= c < |s.pc| && c != t ==> s'.pc[c] == s.pc[c]
    requires s'.pc[t].Executing? && !s.pc[t].Executing? ==>
               s.pc[t].StartUnlock? || (s.pc[t].StartReadPending? && s.pending == 0)
    requires InSection(s'.pc[t]) && !InSection(s.pc[t]) ==> s.pc[t].ExclUnlock?
    requires o' != o ==> (o == Nobody && s'.pc[t].ExclScan? && o' == Held(t))
                         || (o == Held(t) && InSection(s.pc[t]) && o' == Nobody)
    requires InSection(s.pc[t]) && !InSection(s'.pc[t]) ==> o' == Nobody
    ensures SpecNext(Abs(s, o), Abs(s', o'), t)
  {
    if Abs(s, o).section.Held? {
      SectionExcludes(s, o, o.tid);
    }
    if s.pc[t].ExclUnlock? {
      SectionExcludes(s, o, t);
    }
    ExecutingMoves(s, s', t);
  }

  lemma ExecutingMoves(s: State, s': State, t: Tid)
    requires t < |s.pc| && |s'.pc| == |s.pc|
    requires forall c :: 0 <= c < |s.pc| && c != t ==> s'.pc[c] == s.pc[c]
    ensures Running(s') == if s'.pc[t].Executing? then Running(s) + {t} else Running(s) - {t}
    ensures t in Running(s) <==> s.pc[t].Executing?
  {
    assert Running(s') - {t} == Running(s) - {t};
  }

  lemma StepRefines(s: State, a: Step, o: Owner)
    requires Enabled(s, a) && Inv(s, o)
    ensures SpecNext(Abs(s, o), Abs(Apply(s, a), NextOwner(s, a, o)), a.t)
  {
    StepMovesOneThread(s, a);
    ExecutingStep(s, a);
    SectionStep(s, a, o);
    MoveRefines(s, Apply(s, a), a.t, o, NextOwner(s, a, o));
  }

  ghost predicate SpecStep(a: Spec, b: Spec) {
    exists t :: SpecNext(a, b, t)
  }

  /** The interface state shows which CPUs execute and which thread is inside a section. */
  ghost predicate Shows(a: Spec, s: State) {
    forall c :: 0 <= c < |s.pc| ==>
      && (c in a.executing <==> s.pc[c].Executing?)
      && (a.section == Held(c) <==> InSection(s.pc[c]))
  }

  lemma AbsShows(s: State, o: Owner)
    requires OwnerClaims(s, o)
    ensures Shows(Abs(s, o), s)
  {
  }

  lemma NextRefines(s: State, s': State, o: Owner) returns (o': Owner)
    requires Next(s, s') && Inv(s, o)
    ensures Inv(s', o') && SpecStep(Abs(s, o), Abs(s', o'))
  {
    var a :| Enabled(s, a) && s' == Apply(s, a);
    o' := NextOwner(s, a, o);
    StepKeepsInv(s, a, o);
    StepRefines(s, a, o);
  }

  /** A run of the interface that shows what a run of the protocol does, so far. */
  ghost predicate Follows(spec: seq<Spec>, run: seq<State>) {
    && 0 < |spec| <= |run| && spec[0] == Spec({}, Nobody)
    && (forall i :: 0 < i < |spec| ==> SpecStep(spec[i - 1], spec[i]))
    && forall i :: 0 <= i < |spec| ==> Shows(spec[i], run[i])
  }

  lemma FollowsInit(run: seq<State>)
    requires 0 < |run| && Init(run[0])
    ensures Inv(run[0], Nobody) && Follows([Abs(run[0], Nobody)], run)
  {
    InitInv(run[0]);
    AbsShows(run[0], Nobody);
  }

  lemma FollowsNext(spec: seq<Spec>, run: seq<State>, b: Spec)
    requires Follows(spec, run) && |spec| < |run|
    requires SpecStep(spec[|spec| - 1], b) && Shows(b, run[|spec|])
    ensures Follows(spec + [b], run)
  {
    var all := spec + [b];
    forall i | 0 < i < |all|
      ensures SpecStep(all[i - 1], all[i])
    {
      assert i < |spec| ==> all[i - 1] == spec[i - 1] && all[i] == spec[i];
    }
  }

  lemma {:induction false} PrefixRefines(run: seq<State>, n: nat) returns (spec: seq<Spec>, o: Owner)
    requires IsRun(run) && n < |run|
    ensures Follows(spec, run) && |spec| == n + 1
    ensures Inv(run[n], o) && spec[n] == Abs(run[n], o)
  {
    if n == 0 {
      o := Nobody;
      FollowsInit(run);
      spec := [Abs(run[0], o)];
    } else {
      var before, prev := PrefixRefines(run, n - 1);
      o := NextRefines(run[n - 1], run[n], prev);
      AbsShows(run[n], o);
      FollowsNext(before, run, Abs(run[n], o));
      spec := before + [Abs(run[n], o)];
    }
  }

  /** Every run of the protocol is a run of the interface. */
  lemma RunRefines(run: seq<State>) returns (spec: seq<Spec>)
    requires IsRun(run)
    ensures Follows(spec, run) && |spec| == |run|
  {
    var o: Owner;
    spec, o := PrefixRefines(run, |run| - 1);
  }
}
