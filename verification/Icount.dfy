/** Instruction counting and the virtual clock it drives, cpus.c.

One thread runs the vCPUs in turn.  A vCPU gets a budget of instructions, of which a 16-bit
decrementer and `extra` hold what is left.  Executed instructions are accounted into
qemu_icount whenever the clock is read by the running vCPU, the decrementer is refilled, or
the run ends.  The virtual clock is the count, scaled by a shift that may be adjusted, plus a
bias that time warps move.  `executed` is the history: the instructions all vCPUs together
have executed. */
module Icount {
  import opened Radix
  import opened Wrappers

  const MAX_ICOUNT_SHIFT: nat := 10
  const ICOUNT_WOBBLE: int := 100_000_000
  const INT32_MAX: nat := 0x7FFF_FFFF

  /** icount_budget, icount_decr.u16.low and icount_extra of a vCPU. */
  datatype Cpu = Cpu(budget: int, low: int, extra: int)

  const CLEARED := Cpu(0, 0, 0)

  predicate Cleared(c: Cpu) {
    c == CLEARED
  }

  predicate AllCleared(cpus: seq<Cpu>) {
    forall i {:trigger Cleared(cpus[i])} :: 0 <= i < |cpus| ==> Cleared(cpus[i])
  }

  /** The fields of timers_state, the static last_delta, the vCPUs and the one the thread runs.
      A warp that has not started has a warpStart of -1. */
  datatype State = State(
    icount: int,
    bias: int,
    shift: nat,
    warpStart: int,
    lastDelta: int,
    cpus: seq<Cpu>,
    running: Option<nat>,
    executed: nat)

  // ---------------------------------------------------------------- expressions over the state

  /** cpu_get_icount_executed: what the vCPU has executed and not accounted yet. */
  function Unaccounted(c: Cpu): int {
    c.budget - (c.low + c.extra)
  }

  /** What the first n vCPUs have executed and not accounted yet. */
  function OutstandingTo(cpus: seq<Cpu>, n: nat): int
    requires n <= |cpus|
  {
    if n == 0 then 0 else OutstandingTo(cpus, n - 1) + Unaccounted(cpus[n - 1])
  }

  function Outstanding(cpus: seq<Cpu>): int {
    OutstandingTo(cpus, |cpus|)
  }

  lemma {:induction false} OutstandingUpdateTo(cpus: seq<Cpu>, i: nat, c: Cpu, n: nat)
    requires i < |cpus| && n <= |cpus|
    ensures OutstandingTo(cpus[i := c], n)
         == OutstandingTo(cpus, n) + if i < n then Unaccounted(c) - Unaccounted(cpus[i]) else 0
  {
    if n > 0 {
      OutstandingUpdateTo(cpus, i, c, n - 1);
    }
  }

  lemma OutstandingUpdate(cpus: seq<Cpu>, i: nat, c: Cpu)
    requires i < |cpus|
    ensures Outstanding(cpus[i := c]) == Outstanding(cpus) - Unaccounted(cpus[i]) + Unaccounted(c)
  {
    OutstandingUpdateTo(cpus, i, c, |cpus|);
  }

  lemma {:induction false} OutstandingClearedTo(cpus: seq<Cpu>, n: nat)
    requires n <= |cpus| && AllCleared(cpus)
    ensures OutstandingTo(cpus, n) == 0
  {
    if n > 0 {
      OutstandingClearedTo(cpus, n - 1);
      assert Cleared(cpus[n - 1]);
    }
  }

  lemma OutstandingCleared(cpus: seq<Cpu>)
    requires AllCleared(cpus)
    ensures Outstanding(cpus) == 0
  {
    OutstandingClearedTo(cpus, |cpus|);
  }

  /** If only one vCPU runs, what is outstanding is its own. */
  lemma OutstandingIsRunning(cpus: seq<Cpu>, i: nat)
    requires i < |cpus| && AllCleared(cpus[i := CLEARED])
    ensures Outstanding(cpus) == Unaccounted(cpus[i])
  {
    OutstandingUpdate(cpus, i, CLEARED);
    OutstandingCleared(cpus[i := CLEARED]);
  }

  function Scale(s: State): (r: nat)
    ensures r > 0
  {
    Pow(2, s.shift)
  }

  /** The virtual clock without the unaccounted instructions. */
  function Reading(s: State): int {
    s.bias + s.icount * Scale(s)
  }

  /** qemu_icount_round: nanoseconds to instructions, rounded up. */
  function Round(s: State, count: nat): int {
    (count + Scale(s) - 1) / Scale(s)
  }

  /** tcg_get_icount_limit outside replay; a negative deadline means there is none. */
  function Limit(s: State, deadline: int): int {
    Round(s, if deadline < 0 || deadline > INT32_MAX then INT32_MAX else deadline)
  }

  /** A vCPU that uses up its budget reaches the deadline, and one instruction less would not
      do. */
  lemma BudgetReachesDeadline(s: State, deadline: nat)
    requires deadline <= INT32_MAX
    ensures Limit(s, deadline) >= 0 && (deadline == 0 ==> Limit(s, deadline) == 0)
    ensures Reading(s.(icount := s.icount + Limit(s, deadline))) >= Reading(s) + deadline
    ensures deadline > 0 ==> Reading(s.(icount := s.icount + Limit(s, deadline) - 1)) < Reading(s) + deadline
  {
    var n, q := Scale(s), Limit(s, deadline);
    QuotientBounds(deadline + n - 1, n);
    DivUnique(n - 1, n, 0);
    assert (s.icount + q) * n == s.icount * n + q * n;
    assert (s.icount + q - 1) * n == s.icount * n + q * n - n;
  }

  lemma QuotientBounds(x: nat, n: nat)
    requires n > 0
    ensures x / n >= 0 && x / n * n <= x < x / n * n + n
  {
  }

  // ---------------------------------------------------------------- steps

  predicate Runs(s: State, c: nat) {
    s.running == Some(c) && c < |s.cpus|
  }

  /** cpu_update_icount_locked. */
  function Updated(s: State, c: nat): State
    requires c < |s.cpus|
  {
    var ran := Unaccounted(s.cpus[c]);
    s.(cpus := s.cpus[c := s.cpus[c].(budget := s.cpus[c].budget - ran)], icount := s.icount + ran)
  }

  function Refilled(budget: int): Cpu {
    var left := if 0xFFFF < budget then 0xFFFF else budget;
    Cpu(budget, left, budget - left)
  }

  /** Reading the clock accounts if the running vCPU does it. */
  function Seen(s: State, byVcpu: bool): State {
    if byVcpu && s.running.Some? && s.running.value < |s.cpus| then Updated(s, s.running.value) else s
  }

  /** icount_adjust on a running machine: the shift follows the distance to real time, and
      the bias makes up for it. */
  function Adjusted(s: State, clock: int): State {
    var delta := Reading(s) - clock;
    var shift := NewShift(s.shift, s.lastDelta, delta);
    s.(shift := shift, lastDelta := delta, bias := Reading(s) - s.icount * Pow(2, shift))
  }

  function NewShift(shift: nat, lastDelta: int, delta: int): (r: nat)
    ensures delta >= 0 ==> shift - 1 <= r <= shift
    ensures delta <= 0 ==> shift <= r <= shift + 1
    ensures shift <= MAX_ICOUNT_SHIFT ==> r <= MAX_ICOUNT_SHIFT
  {
    var slower := if delta > 0 && lastDelta + ICOUNT_WOBBLE < delta * 2 && shift > 0 then shift - 1 else shift;
    if delta < 0 && lastDelta - ICOUNT_WOBBLE > delta * 2 && slower < MAX_ICOUNT_SHIFT then slower + 1 else slower
  }

  /** How far icount_warp_rt moves the clock. */
  function WarpDelta(s: State, clock: int, adaptive: bool): int {
    var delta := clock - s.warpStart;
    if adaptive && clock - Reading(s) < delta then clock - Reading(s) else delta
  }

  datatype Step =
    | Prepare(c: nat, limit: nat)                           // prepare_icount_for_run
    | Execute(n: nat)                                       // translated code
    | Refill                                                // the decrementer has run out
    | Read(byVcpu: bool)                                    // cpu_get_icount
    | Process                                               // process_icount_data
    | Adjust(clock: int, byVcpu: bool)                      // icount_adjust
    | Warp(clock: int, adaptive: bool, byVcpu: bool)        // icount_warp_rt
    | StartWarp(clock: int, deadline: int, sleep: bool)     // qemu_start_warp_timer

  /** The thread prepares a vCPU when it runs none; translated code executes no more than the
      decrementer allows. */
  predicate Enabled(s: State, step: Step) {
    match step
    case Prepare(c, _) => s.running.None? && c < |s.cpus|
    case Execute(n) => s.running.Some? && s.running.value < |s.cpus| && n <= s.cpus[s.running.value].low
    case Refill => s.running.Some? && s.running.value < |s.cpus|
    case Process => s.running.Some? && s.running.value < |s.cpus|
    case _ => true
  }

  function Apply(s: State, step: Step): State
    requires Enabled(s, step)
  {
    match step
    case Prepare(c, limit) => s.(cpus := s.cpus[c := Refilled(limit)], running := Some(c))
    case Execute(n) =>
      var c := s.running.value;
      s.(cpus := s.cpus[c := s.cpus[c].(low := s.cpus[c].low - n)], executed := s.executed + n)
    case Refill =>
      var c := s.running.value;
      var t := Updated(s, c);
      t.(cpus := t.cpus[c := Refilled(t.cpus[c].budget)])
    case Read(byVcpu) => Seen(s, byVcpu)
    case Process =>
      var c := s.running.value;
      var t := Updated(s, c);
      t.(cpus := t.cpus[c := CLEARED], running := None)
    case Adjust(clock, byVcpu) => Adjusted(Seen(s, byVcpu), clock)
    case Warp(clock, adaptive, byVcpu) =>
      if s.warpStart == -1 then s
      else
        var t := if adaptive then Seen(s, byVcpu) else s;
        t.(bias := t.bias + WarpDelta(t, clock, adaptive), warpStart := -1)
    case StartWarp(clock, deadline, sleep) =>
      if deadline <= 0 then s
      else if !sleep then s.(bias := s.bias + deadline)
      else if s.warpStart == -1 || s.warpStart > clock then s.(warpStart := clock)
      else s
  }

  predicate Init(s: State) {
    && s.icount == 0 && s.executed == 0 && s.running.None? && s.warpStart == -1 && s.shift <= MAX_ICOUNT_SHIFT
    && AllCleared(s.cpus)
  }

  ghost predicate IsRun(states: seq<State>, steps: seq<Step>) {
    && |states| == |steps| + 1 && Init(states[0])
    && forall i :: 0 <= i < |steps| ==> Enabled(states[i], steps[i]) && states[i + 1] == Apply(states[i], steps[i])
  }

  // ---------------------------------------------------------------- conservation

  /** A vCPU that is not running has nothing left of its budget. */
  predicate OthersCleared(s: State) {
    match s.running
    case None => AllCleared(s.cpus)
    case Some(c) => c < |s.cpus| && AllCleared(s.cpus[c := CLEARED]) && CpuOk(s.cpus[c])
  }

  predicate CpuOk(c: Cpu) {
    0 <= c.low <= 0xFFFF && 0 <= c.extra && 0 <= Unaccounted(c)
  }

  /** The count and what the vCPUs have outstanding are the instructions executed. */
  predicate Inv(s: State) {
    && OthersCleared(s)
    && s.icount + Outstanding(s.cpus) == s.executed
    && 0 <= s.icount && s.shift <= MAX_ICOUNT_SHIFT
  }

  lemma UpdatedKeeps(s: State, c: nat)
    requires Inv(s) && Runs(s, c)
    ensures Inv(Updated(s, c)) && Unaccounted(Updated(s, c).cpus[c]) == 0 && Updated(s, c).icount == s.executed
  {
    var t := Updated(s, c);
    OutstandingUpdate(s.cpus, c, t.cpus[c]);
    OutstandingIsRunning(s.cpus, c);
    assert t.cpus[c := CLEARED] == s.cpus[c := CLEARED];
  }

  lemma SeenKeeps(s: State, byVcpu: bool)
    requires Inv(s)
    ensures Inv(Seen(s, byVcpu))
  {
    if byVcpu && s.running.Some? {
      UpdatedKeeps(s, s.running.value);
    }
  }

  lemma PrepareKeeps(s: State, c: nat, limit: nat)
    requires Inv(s) && Enabled(s, Prepare(c, limit))
    ensures Inv(Apply(s, Prepare(c, limit)))
  {
    var cpu := Refilled(limit);
    OutstandingUpdate(s.cpus, c, cpu);
    assert Cleared(s.cpus[c]);
    SetBack(s.cpus, c, cpu);
  }

  lemma SetBack(cpus: seq<Cpu>, c: nat, cpu: Cpu)
    requires c < |cpus| && cpus[c] == CLEARED
    ensures cpus[c := cpu][c := CLEARED] == cpus
  {
  }

  lemma ExecuteKeeps(s: State, n: nat)
    requires Inv(s) && Enabled(s, Execute(n))
    ensures Inv(Apply(s, Execute(n)))
  {
    var c := s.running.value;
    var cpu := s.cpus[c].(low := s.cpus[c].low - n);
    OutstandingUpdate(s.cpus, c, cpu);
    assert s.cpus[c := cpu][c := CLEARED] == s.cpus[c := CLEARED];
  }

  lemma RefillKeeps(s: State)
    requires Inv(s) && Enabled(s, Refill)
    ensures Inv(Apply(s, Refill))
  {
    var c := s.running.value;
    var t := Updated(s, c);
    var cpu := Refilled(t.cpus[c].budget);
    UpdatedKeeps(s, c);
    OutstandingUpdate(t.cpus, c, cpu);
    assert t.cpus[c := cpu][c := CLEARED] == t.cpus[c := CLEARED];
  }

  lemma ProcessKeeps(s: State)
    requires Inv(s) && Enabled(s, Process)
    ensures Inv(Apply(s, Process))
  {
    var c := s.running.value;
    UpdatedKeeps(s, c);
    OutstandingUpdate(Updated(s, c).cpus, c, CLEARED);
  }

  lemma StepConserves(s: State, step: Step)
    requires Inv(s) && Enabled(s, step)
    ensures Inv(Apply(s, step))
  {
    match step
    case Prepare(c, limit) => PrepareKeeps(s, c, limit);
    case Execute(n) => ExecuteKeeps(s, n);
    case Refill => RefillKeeps(s);
    case Process => ProcessKeeps(s);
    case Read(byVcpu) => SeenKeeps(s, byVcpu);
    case Adjust(clock, byVcpu) => SeenKeeps(s, byVcpu);
    case Warp(clock, adaptive, byVcpu) => SeenKeeps(s, byVcpu);
    case StartWarp(_, _, _) =>
  }

  lemma {:induction false} RunConserves(states: seq<State>, steps: seq<Step>, i: nat)
    requires IsRun(states, steps) && i < |states|
    ensures Inv(states[i])
  {
    if i == 0 {
      OutstandingCleared(states[0].cpus);
    } else {
      RunConserves(states, steps, i - 1);
      StepConserves(states[i - 1], steps[i - 1]);
    }
  }

  /** The assertions of prepare_icount_for_run never fail: a vCPU that is prepared was left
      cleared by its last run. */
  lemma PreparedWasCleared(states: seq<State>, steps: seq<Step>, i: nat)
    requires IsRun(states, steps) && i < |steps| && steps[i].Prepare?
    ensures states[i].cpus[steps[i].c] == CLEARED
  {
    RunConserves(states, steps, i);
    assert Cleared(states[i].cpus[steps[i].c]);
  }

  /** When a run of a vCPU has been processed, its decrementer refilled or the clock read by
      it, the count is exact. */
  lemma CountIsExact(states: seq<State>, steps: seq<Step>, i: nat)
    requires IsRun(states, steps) && i < |steps|
    requires steps[i].Process? || steps[i].Refill? || (steps[i] == Read(true) && states[i].running.Some?)
    ensures states[i + 1].icount == states[i].executed == states[i + 1].executed
  {
    RunConserves(states, steps, i);
    UpdatedKeeps(states[i], states[i].running.value);
  }

  // ---------------------------------------------------------------- continuity

  /** Adjusting changes how fast the clock runs and not what it shows. */
  lemma AdjustKeepsReading(s: State, clock: int)
    ensures Reading(Adjusted(s, clock)) == Reading(s)
    ensures Adjusted(s, clock).icount == s.icount
    ensures s.shift - 1 <= Adjusted(s, clock).shift <= s.shift + 1
  {
  }

  /** The state once n more instructions have been counted. */
  function Later(s: State, n: nat): State {
    s.(icount := s.icount + n)
  }

  /** Adjusting steers towards real time: however many instructions follow, a clock that was
      ahead does not get further ahead than without it, and one that was behind not further
      behind. */
  lemma AdjustSteers(s: State, clock: int, n: nat)
    ensures Reading(s) >= clock ==> Reading(Later(Adjusted(s, clock), n)) <= Reading(Later(s, n))
    ensures Reading(s) <= clock ==> Reading(Later(Adjusted(s, clock), n)) >= Reading(Later(s, n))
  {
    var t := Adjusted(s, clock);
    AdjustKeepsReading(s, clock);
    LaterReading(s, n);
    LaterReading(t, n);
    ScaleOrder(t.shift, s.shift, n);
  }

  lemma LaterReading(s: State, n: nat)
    ensures Reading(Later(s, n)) == Reading(s) + n * Scale(s)
  {
    assert (s.icount + n) * Scale(s) == s.icount * Scale(s) + n * Scale(s);
  }

  lemma ScaleOrder(a: nat, b: nat, n: nat)
    requires a <= b + 1 && b <= a + 1
    ensures a <= b ==> n * Pow(2, a) <= n * Pow(2, b)
    ensures b <= a ==> n * Pow(2, b) <= n * Pow(2, a)
  {
    if a < b {
      Doubled(a, n);
    } else if b < a {
      Doubled(b, n);
    }
  }

  lemma Doubled(a: nat, n: nat)
    ensures n * Pow(2, a + 1) == 2 * (n * Pow(2, a))
  {
  }

  /** Accounting moves the clock by the accounted instructions. */
  lemma UpdateMovesReading(s: State, c: nat)
    requires c < |s.cpus|
    ensures Reading(Updated(s, c)) == Reading(s) + Unaccounted(s.cpus[c]) * Scale(s)
  {
    var ran := Unaccounted(s.cpus[c]);
    assert (s.icount + ran) * Scale(s) == s.icount * Scale(s) + ran * Scale(s);
  }

  /** The warp does not turn the clock back: real time has not passed the start of the warp
      backwards, and in adaptive mode the virtual clock is not ahead of real time. */
  predicate Forward(s: State, step: Step) {
    step.Warp? && s.warpStart != -1 ==>
      && step.clock >= s.warpStart
      && (step.adaptive ==> step.clock >= Reading(Seen(s, step.byVcpu)))
  }

  /** What a warp does to the clock: the reading at the end is never past real time in
      adaptive mode, and the clock goes back exactly if the warp is not forward. */
  lemma WarpGoesBackIff(s: State, step: Step)
    requires step.Warp? && s.warpStart != -1
    ensures var t := if step.adaptive then Seen(s, step.byVcpu) else s;
            Reading(Apply(s, step)) >= Reading(t) <==> Forward(s, step)
    ensures step.adaptive ==> Reading(Apply(s, step)) <= step.clock
    ensures !step.adaptive ==> Reading(Apply(s, step)) == Reading(s) + step.clock - s.warpStart
  {
  }

  /** A run at the end of which an adaptive warp turns the clock back: the guest executed 1000
      instructions of a nanosecond each while 500 nanoseconds passed. */
  lemma AdaptiveWarpCanGoBack() returns (states: seq<State>, steps: seq<Step>)
    ensures IsRun(states, steps) && |steps| == 5
    ensures Reading(states[4]) == 1000 && Reading(states[5]) == 500
  {
    var s0 := State(0, 0, 0, -1, 0, [CLEARED], None, 0);
    steps := [Prepare(0, 1000), Execute(1000), Process, StartWarp(400, 1, true), Warp(500, true, false)];
    var s1 := Apply(s0, steps[0]);
    var s2 := Apply(s1, steps[1]);
    var s3 := Apply(s2, steps[2]);
    var s4 := Apply(s3, steps[3]);
    var s5 := Apply(s4, steps[4]);
    states := [s0, s1, s2, s3, s4, s5];
  }

  lemma SeenMovesForward(s: State, byVcpu: bool)
    requires Inv(s)
    ensures Reading(s) <= Reading(Seen(s, byVcpu))
  {
    if byVcpu && s.running.Some? {
      UpdateMovesReading(s, s.running.value);
    }
  }

  lemma StepMovesForward(s: State, step: Step)
    requires Inv(s) && Enabled(s, step) && Forward(s, step)
    ensures Reading(s) <= Reading(Apply(s, step))
  {
    match step
    case Refill => UpdateMovesReading(s, s.running.value);
    case Process => UpdateMovesReading(s, s.running.value);
    case Read(byVcpu) => SeenMovesForward(s, byVcpu);
    case Adjust(clock, byVcpu) =>
      SeenMovesForward(s, byVcpu);
      AdjustKeepsReading(Seen(s, byVcpu), clock);
    case Warp(clock, adaptive, byVcpu) =>
      SeenMovesForward(s, byVcpu);
      if s.warpStart != -1 {
        WarpGoesBackIff(s, step);
      }
    case _ =>
  }

  /** Along every run whose warps are forward the virtual clock never decreases. */
  lemma {:induction false} ClockNeverGoesBack(states: seq<State>, steps: seq<Step>, i: nat, j: nat)
    requires IsRun(states, steps) && i <= j < |states|
    requires forall k :: i <= k < j ==> Forward(states[k], steps[k])
    ensures Reading(states[i]) <= Reading(states[j])
    decreases j - i
  {
    if i < j {
      ClockNeverGoesBack(states, steps, i, j - 1);
      RunConserves(states, steps, j - 1);
      StepMovesForward(states[j - 1], steps[j - 1]);
    }
  }

  /** The step is not one of those that move the clock without instructions. */
  predicate Counts(s: State, step: Step) {
    && (step.Warp? ==> s.warpStart == -1)
    && (step.StartWarp? ==> step.sleep || step.deadline <= 0)
  }

  lemma ScaleBound(s: State, n: nat)
    requires s.shift <= MAX_ICOUNT_SHIFT
    ensures n <= n * Scale(s) <= 1024 * n
  {
    ShiftBound(s.shift);
    MulOrder(1, Scale(s), n);
    MulOrder(Scale(s), 1024, n);
  }

  lemma {:induction false} ShiftBound(shift: nat)
    requires shift <= MAX_ICOUNT_SHIFT
    ensures 1 <= Pow(2, shift) <= 1024
    decreases MAX_ICOUNT_SHIFT - shift
  {
    if shift < MAX_ICOUNT_SHIFT {
      ShiftBound(shift + 1);
    } else {
      assert Pow(2, 10) == 1024;
    }
  }

  lemma StepRate(s: State, step: Step)
    requires Inv(s) && Enabled(s, step) && Counts(s, step)
    ensures var t := Apply(s, step);
            && s.icount <= t.icount
            && t.icount - s.icount <= Reading(t) - Reading(s) <= 1024 * (t.icount - s.icount)
  {
    if s.running.Some? {
      var c := s.running.value;
      UpdateMovesReading(s, c);
      ScaleBound(s, Unaccounted(s.cpus[c]));
    }
    if step.Adjust? {
      AdjustKeepsReading(Seen(s, step.byVcpu), step.clock);
    }
  }

  /** Along every stretch of a run without warps, however often the shift is adjusted, an
      instruction takes between 1 and 1024 nanoseconds of the virtual clock. */
  lemma {:induction false} RateIsBounded(states: seq<State>, steps: seq<Step>, i: nat, j: nat)
    requires IsRun(states, steps) && i <= j < |states|
    requires forall k :: i <= k < j ==> Counts(states[k], steps[k])
    ensures states[i].icount <= states[j].icount
    ensures states[j].icount - states[i].icount <= Reading(states[j]) - Reading(states[i])
    ensures Reading(states[j]) - Reading(states[i]) <= 1024 * (states[j].icount - states[i].icount)
    decreases j - i
  {
    if i < j {
      RateIsBounded(states, steps, i, j - 1);
      RunConserves(states, steps, j - 1);
      StepRate(states[j - 1], steps[j - 1]);
    }
  }

  // ---------------------------------------------------------------- deadlines

  /** The vCPU runs on, and nothing but its instructions moves the clock. */
  predicate Quiet(s: State, step: Step) {
    Counts(s, step) && !step.Prepare? && !step.Process? && !step.Adjust?
  }

  /** What a quiet step leaves alone: the end of the budget, counted in instructions. */
  lemma QuietStep(s: State, step: Step, c: nat)
    requires Inv(s) && Runs(s, c) && Enabled(s, step) && Quiet(s, step)
    ensures var t := Apply(s, step);
            && Runs(t, c) && t.shift == s.shift && t.bias == s.bias
            && t.icount + t.cpus[c].budget == s.icount + s.cpus[c].budget
  {
  }

  lemma {:induction false} QuietStretch(states: seq<State>, steps: seq<Step>, i: nat, j: nat)
    requires IsRun(states, steps) && i < j < |states| && steps[i].Prepare?
    requires forall k :: i < k < j ==> Quiet(states[k], steps[k])
    ensures var c := steps[i].c;
            && Runs(states[j], c) && states[j].shift == states[i].shift && states[j].bias == states[i].bias
            && states[j].icount + states[j].cpus[c].budget == states[i].icount + steps[i].limit
    decreases j
  {
    if i + 1 < j {
      QuietStretch(states, steps, i, j - 1);
      RunConserves(states, steps, j - 1);
      QuietStep(states[j - 1], steps[j - 1], steps[i].c);
    }
  }

  /** What the vCPU has not executed of its budget. */
  function Left(s: State, c: nat): int {
    if c < |s.cpus| then s.cpus[c].low + s.cpus[c].extra else 0
  }

  lemma ProcessedCount(states: seq<State>, steps: seq<Step>, i: nat, j: nat)
    requires IsRun(states, steps) && i < j < |steps| && steps[i].Prepare? && steps[j].Process?
    requires forall k :: i < k < j ==> Quiet(states[k], steps[k])
    ensures states[j + 1].icount == states[i].icount + steps[i].limit - Left(states[j], steps[i].c)
    ensures states[j + 1].shift == states[i].shift && states[j + 1].bias == states[i].bias
    ensures 0 <= Left(states[j], steps[i].c) <= steps[i].limit
  {
    QuietStretch(states, steps, i, j);
    RunConserves(states, steps, j);
    RateIsBounded(states, steps, i, j);
  }

  /** A vCPU that was prepared for a deadline, ran without an adjustment or a warp and has been
      processed: its timer is due exactly if it has used up the budget. */
  lemma DeadlineIsMet(states: seq<State>, steps: seq<Step>, i: nat, j: nat, deadline: nat)
    requires IsRun(states, steps) && i < j < |steps| && steps[i].Prepare? && steps[j].Process?
    requires deadline <= INT32_MAX && steps[i].limit == Limit(states[i], deadline)
    requires forall k :: i < k < j ==> Quiet(states[k], steps[k])
    ensures Reading(states[j + 1]) >= Reading(states[i]) + deadline <==> Left(states[j], steps[i].c) == 0
  {
    var s, t := states[i], states[j + 1];
    ProcessedCount(states, steps, i, j);
    BudgetReachesDeadline(s, deadline);
    if Left(states[j], steps[i].c) == 0 {
      ReadingOrder(s.(icount := s.icount + Limit(s, deadline)), t);
    } else {
      assert deadline > 0;
      ReadingOrder(t, s.(icount := s.icount + Limit(s, deadline) - 1));
    }
  }

  lemma ReadingOrder(s: State, t: State)
    requires s.bias == t.bias && s.shift == t.shift && s.icount <= t.icount
    ensures Reading(s) <= Reading(t)
  {
    CountOrder(s.icount, t.icount, Scale(s));
  }

  lemma CountOrder(a: int, b: int, n: nat)
    requires a <= b
    ensures a * n <= b * n
  {
  }

  // ---------------------------------------------------------------- the program

  class Timers {
    var qemuIcount: int
    var qemuIcountBias: int
    var icountTimeShift: nat
    var vmClockWarpStart: int
    var lastDelta: int
    var cpus: seq<Cpu>
    var running: Option<nat>
    ghost var executed: nat

    ghost function Value(): State
      reads this
    {
      State(qemuIcount, qemuIcountBias, icountTimeShift, vmClockWarpStart, lastDelta, cpus, running, executed)
    }

    ghost predicate Valid()
      reads this
    {
      Inv(Value())
    }

    constructor (n: nat, shift: nat)
      requires shift <= MAX_ICOUNT_SHIFT
      ensures Valid() && Init(Value()) && |cpus| == n && icountTimeShift == shift
    {
      qemuIcount, qemuIcountBias, icountTimeShift, vmClockWarpStart, lastDelta := 0, 0, shift, -1, 0;
      cpus, running, executed := seq(n, _ => CLEARED), None, 0;
      OutstandingCleared(seq(n, _ => CLEARED));
    }

    /** cpu_update_icount_locked: the count catches up with what was executed. */
    method UpdateIcountLocked(c: nat)
      requires Valid() && running == Some(c)
      modifies this`qemuIcount, this`cpus
      ensures Valid() && Value() == Updated(old(Value()), c)
      ensures qemuIcount == executed && cpus[c].low == old(cpus[c].low) && cpus[c].extra == old(cpus[c].extra)
    {
      UpdatedKeeps(Value(), c);
      var ran := cpus[c].budget - (cpus[c].low + cpus[c].extra);
      cpus := cpus[c := cpus[c].(budget := cpus[c].budget - ran)];
      qemuIcount := qemuIcount + ran;
    }

    /** cpu_get_icount_locked.  For the running vCPU the clock shows every instruction executed;
        for others it shows those accounted, and nothing changes. */
    method GetIcountLocked(byVcpu: bool) returns (r: int)
      requires Valid()
      modifies this`qemuIcount, this`cpus
      ensures Valid() && Value() == Seen(old(Value()), byVcpu) && old(Reading(Value())) <= r == Reading(Value())
      ensures byVcpu && running.Some? ==> r == qemuIcountBias + executed * Pow(2, icountTimeShift)
      ensures !byVcpu || running.None? ==> r == old(Reading(Value())) && cpus == old(cpus)
    {
      SeenMovesForward(Value(), byVcpu);
      if byVcpu && running.Some? {
        UpdateIcountLocked(running.value);
      }
      r := qemuIcountBias + qemuIcount * Pow(2, icountTimeShift);
    }

    /** The vCPU may now execute as many instructions as the limit says, the clock stands still,
        and the counters it finds are cleared, as the code asserts. */
    method PrepareIcountForRun(c: nat, limit: nat)
      requires Valid() && running.None? && c < |cpus|
      modifies this`cpus, this`running
      ensures Valid() && Value() == Apply(old(Value()), Prepare(c, limit))
      ensures old(cpus[c]) == CLEARED && running == Some(c) && cpus[c].low + cpus[c].extra == limit
      ensures Unaccounted(cpus[c]) == 0 && qemuIcount == executed && (cpus[c].extra == 0 || cpus[c].low == 0xFFFF)
    {
      StepConserves(Value(), Prepare(c, limit));
      OutstandingCleared(cpus);
      assert Cleared(cpus[c]);
      assert cpus[c].low == 0 && cpus[c].extra == 0;
      var budget := limit;
      var insnsLeft := if 0xFFFF < budget then 0xFFFF else budget;
      cpus := cpus[c := Cpu(budget, insnsLeft, budget - insnsLeft)];
      running := Some(c);
    }

    /** Translated code: only the decrementer moves. */
    method Execute(n: nat)
      requires Valid() && running.Some? && running.value < |cpus| && n <= cpus[running.value].low
      modifies this`cpus, this`executed
      ensures Valid() && Value() == Apply(old(Value()), Step.Execute(n))
      ensures executed == old(executed) + n && Reading(Value()) == old(Reading(Value()))
    {
      StepConserves(Value(), Step.Execute(n));
      var c := running.value;
      cpus := cpus[c := cpus[c].(low := cpus[c].low - n)];
      executed := executed + n;
    }

    /** The decrementer is filled up from `extra`; what the vCPU may still execute stays. */
    method RefillDecrementer()
      requires Valid() && running.Some? && running.value < |cpus|
      modifies this`qemuIcount, this`cpus
      ensures Valid() && Value() == Apply(old(Value()), Refill) && qemuIcount == executed
      ensures var c := running.value;
              && cpus[c].low + cpus[c].extra == old(cpus[c].low + cpus[c].extra)
              && (cpus[c].extra == 0 || cpus[c].low == 0xFFFF)
    {
      StepConserves(Value(), Refill);
      var c := running.value;
      UpdateIcountLocked(c);
      var budget := cpus[c].budget;
      var insnsLeft := if 0xFFFF < budget then 0xFFFF else budget;
      cpus := cpus[c := Cpu(budget, insnsLeft, budget - insnsLeft)];
    }

    /** The count is exact and no vCPU has anything outstanding. */
    method ProcessIcountData()
      requires Valid() && running.Some?
      modifies this`qemuIcount, this`cpus, this`running
      ensures Valid() && Value() == Apply(old(Value()), Process)
      ensures running.None? && qemuIcount == executed && Outstanding(cpus) == 0
      ensures Reading(Value()) == qemuIcountBias + executed * Pow(2, icountTimeShift) >= old(Reading(Value()))
    {
      StepConserves(Value(), Process);
      StepMovesForward(Value(), Process);
      var c := running.value;
      UpdateIcountLocked(c);
      cpus := cpus[c := CLEARED];
      running := None;
      OutstandingCleared(cpus);
    }

    method AdjustShift(delta: int)
      modifies this`icountTimeShift
      ensures icountTimeShift == NewShift(old(icountTimeShift), lastDelta, delta)
    {
      if delta > 0 && lastDelta + ICOUNT_WOBBLE < delta * 2 && icountTimeShift > 0 {
        icountTimeShift := icountTimeShift - 1;
      }
      if delta < 0 && lastDelta - ICOUNT_WOBBLE > delta * 2 && icountTimeShift < MAX_ICOUNT_SHIFT {
        icountTimeShift := icountTimeShift + 1;
      }
    }

    /** icount_adjust: nothing happens while the machine is stopped.  The clock shows what it
        showed, and steers towards real time from then on. */
    method IcountAdjust(machineRuns: bool, clock: int, byVcpu: bool)
      requires Valid()
      modifies this`qemuIcount, this`cpus, this`icountTimeShift, this`lastDelta, this`qemuIcountBias
      ensures Valid()
      ensures Value() == if machineRuns then Apply(old(Value()), Adjust(clock, byVcpu)) else old(Value())
      ensures machineRuns ==> Reading(Value()) == Reading(Seen(old(Value()), byVcpu))
      ensures machineRuns && Reading(Value()) >= clock ==> icountTimeShift <= old(icountTimeShift)
      ensures machineRuns && Reading(Value()) <= clock ==> icountTimeShift >= old(icountTimeShift)
    {
      if !machineRuns {
        return;
      }
      StepConserves(Value(), Adjust(clock, byVcpu));
      AdjustKeepsReading(Seen(Value(), byVcpu), clock);
      var curIcount := GetIcountLocked(byVcpu);
      var delta := curIcount - clock;
      AdjustShift(delta);
      lastDelta := delta;
      qemuIcountBias := curIcount - qemuIcount * Pow(2, icountTimeShift);
    }

    /** icount_warp_rt: the warp ends.  The clock moves by the real time since its start, or, in
        adaptive mode, to real time if that is less; on a stopped machine it stands still. */
    method IcountWarpRt(machineRuns: bool, clock: int, adaptive: bool, byVcpu: bool)
      requires Valid()
      modifies this`qemuIcount, this`cpus, this`qemuIcountBias, this`vmClockWarpStart
      ensures Valid() && vmClockWarpStart == -1
      ensures Value() == if machineRuns || old(vmClockWarpStart) == -1
                         then Apply(old(Value()), Warp(clock, adaptive, byVcpu))
                         else old(Value()).(warpStart := -1)
      ensures !machineRuns || old(vmClockWarpStart) == -1 ==> Reading(Value()) == old(Reading(Value()))
      ensures machineRuns && old(vmClockWarpStart) != -1 && !adaptive ==>
                Reading(Value()) == old(Reading(Value())) + clock - old(vmClockWarpStart)
      ensures machineRuns && old(vmClockWarpStart) != -1 && adaptive ==>
                var warped := Reading(Seen(old(Value()), byVcpu)) + clock - old(vmClockWarpStart);
                Reading(Value()) == if clock < warped then clock else warped
    {
      StepConserves(Value(), Warp(clock, adaptive, byVcpu));
      if vmClockWarpStart == -1 {
        return;
      }
      if machineRuns {
        var warpDelta := clock - vmClockWarpStart;
        if adaptive {
          var curIcount := GetIcountLocked(byVcpu);
          var delta := clock - curIcount;
          warpDelta := if warpDelta < delta then warpDelta else delta;
        }
        qemuIcountBias := qemuIcountBias + warpDelta;
      }
      vmClockWarpStart := -1;
    }

    /** The part of qemu_start_warp_timer that changes the clock: without sleep the clock jumps
        to the deadline, so that its timer is due; otherwise it stands still and a warp has
        started no later than now. */
    method StartWarpTimer(clock: int, deadline: int, sleep: bool)
      requires Valid()
      modifies this`qemuIcountBias, this`vmClockWarpStart
      ensures Valid() && Value() == Apply(old(Value()), StartWarp(clock, deadline, sleep))
      ensures Reading(Value()) == old(Reading(Value())) + if deadline > 0 && !sleep then deadline else 0
      ensures deadline > 0 && sleep ==> vmClockWarpStart <= clock
      ensures vmClockWarpStart == old(vmClockWarpStart) || (deadline > 0 && sleep && vmClockWarpStart == clock)
    {
      if deadline > 0 {
        if !sleep {
          qemuIcountBias := qemuIcountBias + deadline;
        } else if vmClockWarpStart == -1 || vmClockWarpStart > clock {
          vmClockWarpStart := clock;
        }
      }
    }
  }
}
