/**
 The monitor/wait polling loop, interleaved with any number of writers to the
 watched buffer: one transition per callback, clock read, monitor instruction,
 wake-up or store.
 */
module Spinloop {
  import opened Arithmetic

  const UINT32 := 0x1_0000_0000

  /**
   The buffer lies at `addr`; a monitor covers the one aligned line of `line` bytes
   that holds `addr`.  `ready` is what the callback computes from the buffer.
   */
  datatype Config = Config(
    addr: nat,
    line: nat,
    monitorx: bool,
    timeout: real,
    start: real,
    ready: seq<int> -> bool)

  datatype Verdict = True | False | Error

  datatype Pc =
    | FirstCheck
    | ClockCheck
    | NextIteration
    | Arm
    | SecondCheck
    | Wait
    | Parked
    | Pause
    | Ended(verdict: Verdict)

  /** `skipped` is history: iterations since the last clock check that went by without one. */
  datatype State = State(
    buf: seq<int>,
    clock: real,
    armed: bool,
    tripped: bool,
    iteration: nat,
    pc: Pc,
    skipped: nat)

  /** One step: the waiter's next action (which may raise or wake early), a store, or time passing. */
  datatype Action = Waiter(raises: bool) | Store(k: nat, v: int) | Tick(now: real)

  predicate HasTimeout(c: Config) { c.timeout > 0.000000001 }

  /** The length test alone decides whether the monitor is used. */
  predicate UsesMonitor(c: Config, s: State) { |s.buf| <= c.line && c.monitorx }

  /** A store to byte `k` of the buffer falls in the monitored line. */
  predicate Watched(c: Config, k: nat) {
    c.line > 0 && (c.addr + k) / c.line == c.addr / c.line
  }

  predicate Allowed(c: Config, s: State, a: Action) {
    match a
    case Waiter(_) => !s.pc.Ended?
    case Store(k, _) => k < |s.buf|
    case Tick(now) => now >= s.clock
  }

  function Check(c: Config, s: State, raises: bool, otherwise: Pc): Pc {
    if raises then Ended(Error) else if c.ready(s.buf) then Ended(True) else otherwise
  }

  /** The waiter's loop body, one step at a time. */
  function WaiterStep(c: Config, s: State, raises: bool): State
  {
    match s.pc
    case FirstCheck =>
      if HasTimeout(c) && s.iteration % 16 == 0 then s.(pc := Check(c, s, raises, ClockCheck))
      else s.(pc := Check(c, s, raises, NextIteration),
              skipped := if !raises && !c.ready(s.buf) then s.skipped + 1 else s.skipped)
    case ClockCheck =>
      if raises then s.(pc := Ended(Error))
      else if s.clock - c.start >= c.timeout then s.(pc := Ended(False))
      else s.(pc := NextIteration, skipped := 0)
    case NextIteration =>
      s.(iteration := (s.iteration + 1) % UINT32, pc := if UsesMonitor(c, s) then Arm else Pause)
    case Arm => s.(armed := true, tripped := false, pc := SecondCheck)
    case SecondCheck => s.(pc := Check(c, s, raises, Wait))
    case Wait => if s.tripped then s.(armed := false, pc := FirstCheck) else s.(pc := Parked)
    case Parked => s.(armed := false, pc := FirstCheck)
    case Pause => s.(pc := FirstCheck)
    case Ended(_) => s
  }

  function Apply(c: Config, s: State, a: Action): State
    requires Allowed(c, s, a)
  {
    match a
    case Waiter(raises) => WaiterStep(c, s, raises)
    case Store(k, v) => s.(buf := s.buf[k := v], tripped := s.tripped || (s.armed && Watched(c, k)))
    case Tick(now) => s.(clock := now)
  }

  ghost predicate Run(c: Config, s: State, acts: seq<Action>)
    decreases |acts|
  {
    acts == [] || (Allowed(c, s, acts[0]) && Run(c, Apply(c, s, acts[0]), acts[1..]))
  }

  ghost function After(c: Config, s: State, acts: seq<Action>): State
    requires Run(c, s, acts)
    decreases |acts|
  {
    if acts == [] then s else After(c, Apply(c, s, acts[0]), acts[1..])
  }

  ghost predicate Initial(c: Config, s: State) {
    s.pc == FirstCheck && s.iteration == 0 && s.skipped == 0 && !s.armed && !s.tripped && s.clock >= c.start
  }

  // -------------------------------------------------------- no lost wake-up

  /** The waiter sleeps although the condition holds and no store has tripped the monitor. */
  predicate LostWakeup(c: Config, s: State) {
    s.pc.Parked? && c.ready(s.buf) && !s.tripped
  }

  /** The whole buffer lies in the line of its first byte. */
  predicate OneLine(c: Config, s: State) {
    |s.buf| == 0 || (c.line > 0 && c.addr % c.line + |s.buf| <= c.line)
  }

  /** Either the monitor is not used, or it watches the whole buffer from arming to waking. */
  ghost predicate Vigilant(c: Config, s: State) {
    && (UsesMonitor(c, s) ==> OneLine(c, s))
    && (!UsesMonitor(c, s) ==> !s.pc.Arm? && !s.pc.SecondCheck? && !s.pc.Wait? && !s.pc.Parked?)
    && (s.pc.SecondCheck? || s.pc.Wait? || s.pc.Parked? ==> s.armed)
    && (s.pc.Wait? || s.pc.Parked? ==> s.tripped || !c.ready(s.buf))
  }

  lemma WatchedIffInLine(c: Config, k: nat)
    requires c.line > 0
    ensures Watched(c, k) <==> c.addr % c.line + k < c.line
  {
    var d := c.line;
    var q, r := c.addr / d, c.addr % d;
    var q', r' := (c.addr + k) / d, (c.addr + k) % d;
    assert (q' - q) * d == q' * d - q * d == r + k - r';
    if r + k < d {
      SmallMultiple(q' - q, d);
    }
  }

  lemma StepStaysVigilant(c: Config, s: State, a: Action)
    requires Vigilant(c, s) && Allowed(c, s, a)
    ensures Vigilant(c, Apply(c, s, a))
  {
    if a.Store? && c.line > 0 {
      WatchedIffInLine(c, a.k);
    }
  }

  /** In every interleaving with writers, a buffer in one line never has its condition slept through. */
  lemma {:induction false} NoLostWakeup(c: Config, s: State, acts: seq<Action>)
    requires Vigilant(c, s) && Run(c, s, acts)
    ensures Vigilant(c, After(c, s, acts)) && !LostWakeup(c, After(c, s, acts))
    decreases |acts|
  {
    if acts != [] {
      StepStaysVigilant(c, s, acts[0]);
      NoLostWakeup(c, Apply(c, s, acts[0]), acts[1..]);
    }
  }

  /** A one-line buffer is vigilant from the start. */
  lemma InitialIsVigilant(c: Config, s: State)
    requires Initial(c, s) && (UsesMonitor(c, s) ==> OneLine(c, s))
    ensures Vigilant(c, s)
  {
  }

  /** Waiting for byte `k` to become 1, without a timeout, at a given place. */
  function WaitForByte(addr: nat, line: nat, k: nat): Config {
    Config(addr, line, true, 0.0, 0.0, (b: seq<int>) => k < |b| && b[k] == 1)
  }

  /** The waiter's five steps from its first check to being parked, then the store. */
  function FatalRun(k: nat): seq<Action> {
    [Waiter(false), Waiter(false), Waiter(false), Waiter(false), Waiter(false), Store(k, 1)]
  }

  lemma RunStep(c: Config, s: State, acts: seq<Action>)
    requires acts != [] && Allowed(c, s, acts[0]) && Run(c, Apply(c, s, acts[0]), acts[1..])
    ensures Run(c, s, acts) && After(c, s, acts) == After(c, Apply(c, s, acts[0]), acts[1..])
  {
  }

  /** Five undisturbed waiter steps park it. */
  lemma FiveStepsPark(c: Config, s: State)
    requires Initial(c, s) && !HasTimeout(c) && UsesMonitor(c, s) && !c.ready(s.buf)
    ensures var p := s.(armed := true, iteration := 1, pc := Parked, skipped := 1);
      var s1 := WaiterStep(c, s, false);
      var s2 := WaiterStep(c, s1, false);
      var s3 := WaiterStep(c, s2, false);
      var s4 := WaiterStep(c, s3, false);
      WaiterStep(c, s4, false) == p &&
      s1.pc == NextIteration && s2.pc == Arm && s3.pc == SecondCheck && s4.pc == Wait
  {
  }

  /**
   The length test does not imply it: whenever a qualifying buffer crosses a line, some
   condition is slept through.  Together with NoLostWakeup: no wake-up is ever lost
   exactly when a monitored buffer lies in one line.
   */
  lemma CrossingBufferLosesWakeup(addr: nat, line: nat, s: State)
    requires 0 < |s.buf| <= line < addr % line + |s.buf|
    requires forall k :: 0 <= k < |s.buf| ==> s.buf[k] == 0
    requires Initial(WaitForByte(addr, line, |s.buf| - 1), s)
    ensures var k := |s.buf| - 1; var c := WaitForByte(addr, line, k);
      UsesMonitor(c, s) && !OneLine(c, s) && Run(c, s, FatalRun(k)) && LostWakeup(c, After(c, s, FatalRun(k)))
  {
    var k := |s.buf| - 1;
    var c := WaitForByte(addr, line, k);
    WatchedIffInLine(c, k);
    FiveStepsPark(c, s);
    var s1 := WaiterStep(c, s, false);
    var s2 := WaiterStep(c, s1, false);
    var s3 := WaiterStep(c, s2, false);
    var s4 := WaiterStep(c, s3, false);
    var s5 := WaiterStep(c, s4, false);
    var t := FatalRun(k);
    RunStep(c, s5, t[5..]);
    assert t[4..][1..] == t[5..];
    RunStep(c, s4, t[4..]);
    assert t[3..][1..] == t[4..];
    RunStep(c, s3, t[3..]);
    assert t[2..][1..] == t[3..];
    RunStep(c, s2, t[2..]);
    assert t[1..][1..] == t[2..];
    RunStep(c, s1, t[1..]);
    RunStep(c, s, t);
  }

  // ------------------------------------------------------------- the verdict

  /** A callback is being called. */
  predicate AtCheck(s: State) { s.pc.FirstCheck? || s.pc.SecondCheck? }

  /** What a waiter's step in this state must end the loop with, if with anything. */
  ghost predicate Decides(c: Config, s: State, raises: bool, v: Verdict) {
    match v
    case True => AtCheck(s) && !raises && c.ready(s.buf)
    case False => s.pc.ClockCheck? && !raises && s.clock - c.start >= c.timeout
    case Error => (AtCheck(s) || s.pc.ClockCheck?) && raises
  }

  /** A step ends the loop with a verdict exactly when it must. */
  lemma EndsIffDecided(c: Config, s: State, raises: bool, v: Verdict)
    requires !s.pc.Ended?
    ensures WaiterStep(c, s, raises).pc == Ended(v) <==> Decides(c, s, raises, v)
  {
  }

  /** Whenever the loop has ended, it was at a step of the waiter that called for just that verdict. */
  lemma {:induction false} VerdictWasDecided(c: Config, s: State, acts: seq<Action>) returns (k: nat)
    requires Run(c, s, acts) && !s.pc.Ended? && After(c, s, acts).pc.Ended?
    ensures k < |acts| && acts[k].Waiter? && Run(c, s, acts[..k])
    ensures Decides(c, After(c, s, acts[..k]), acts[k].raises, After(c, s, acts).pc.verdict)
    decreases |acts|
  {
    var s1, rest := Apply(c, s, acts[0]), acts[1..];
    if s1.pc.Ended? {
      k := 0;
      EndsIffDecided(c, s, acts[0].raises, s1.pc.verdict);
      EndedStays(c, s1, rest);
      assert acts[..0] == [];
    } else {
      var k1 := VerdictWasDecided(c, s1, rest);
      k := k1 + 1;
      assert acts[..k][0] == acts[0] && acts[..k][1..] == rest[..k1];
    }
  }

  lemma {:induction false} EndedStays(c: Config, s: State, acts: seq<Action>)
    requires Run(c, s, acts) && s.pc.Ended?
    ensures After(c, s, acts).pc == s.pc
    decreases |acts|
  {
    if acts != [] {
      EndedStays(c, Apply(c, s, acts[0]), acts[1..]);
    }
  }

  // ----------------------------------------------------- the clock is read often

  /** The counter and the skipped iterations agree modulo 16, through any wrap of the counter. */
  ghost predicate OnSchedule(c: Config, s: State) {
    HasTimeout(c) ==>
      && s.skipped <= 15
      && s.iteration < UINT32
      && (match s.pc
          case ClockCheck => s.iteration % 16 == 0
          case NextIteration => s.iteration % 16 == s.skipped
          case Ended(_) => true
          case _ => s.iteration % 16 == 0 || s.iteration % 16 == s.skipped + 1)
      && (s.pc == Ended(False) ==> s.clock - c.start >= c.timeout)
  }

  ghost predicate TimesOutOnlyLate(c: Config, s: State) {
    s.pc == Ended(False) ==> HasTimeout(c) && s.clock - c.start >= c.timeout
  }

  lemma WrapKeepsResidue(n: nat)
    requires n < UINT32
    ensures (n + 1) % UINT32 % 16 == (n % 16 + 1) % 16
  {
  }

  lemma StepStaysOnSchedule(c: Config, s: State, a: Action)
    requires OnSchedule(c, s) && TimesOutOnlyLate(c, s) && Allowed(c, s, a)
    requires !HasTimeout(c) ==> !s.pc.ClockCheck?
    ensures OnSchedule(c, Apply(c, s, a)) && TimesOutOnlyLate(c, Apply(c, s, a))
    ensures !HasTimeout(c) ==> !Apply(c, s, a).pc.ClockCheck?
  {
    if HasTimeout(c) && s.pc.NextIteration? {
      WrapKeepsResidue(s.iteration);
    }
  }

  /**
   In every run at most 15 iterations pass between two clock checks, even across a wrap
   of the 32-bit counter, and the loop reports a timeout only once the timeout has passed.
   */
  lemma {:induction false} ClockIsReadOften(c: Config, s: State, acts: seq<Action>)
    requires Run(c, s, acts)
    requires OnSchedule(c, s) && TimesOutOnlyLate(c, s) && (!HasTimeout(c) ==> !s.pc.ClockCheck?)
    ensures HasTimeout(c) ==> After(c, s, acts).skipped <= 15
    ensures OnSchedule(c, After(c, s, acts)) && TimesOutOnlyLate(c, After(c, s, acts))
    decreases |acts|
  {
    if acts != [] {
      StepStaysOnSchedule(c, s, acts[0]);
      ClockIsReadOften(c, Apply(c, s, acts[0]), acts[1..]);
    }
  }

  /** Callback rounds the loop can still make once the timeout has passed. */
  function RoundsLeft(s: State): nat {
    match s.pc
    case ClockCheck => 0
    case Ended(_) => 0
    case NextIteration => 16 - s.iteration % 16
    case _ => if s.iteration % 16 == 0 then 1 else 17 - s.iteration % 16
  }

  /** Rounds started by the waiter in a run: steps it takes from the first check. */
  ghost function Rounds(c: Config, s: State, acts: seq<Action>): nat
    requires Run(c, s, acts)
    decreases |acts|
  {
    if acts == [] then 0
    else (if acts[0].Waiter? && s.pc.FirstCheck? then 1 else 0) + Rounds(c, Apply(c, s, acts[0]), acts[1..])
  }

  lemma RoundUsesBudget(c: Config, s: State, a: Action)
    requires HasTimeout(c) && OnSchedule(c, s) && Allowed(c, s, a)
    requires s.clock - c.start >= c.timeout
    ensures RoundsLeft(Apply(c, s, a)) + (if a.Waiter? && s.pc.FirstCheck? then 1 else 0) <= RoundsLeft(s)
  {
    if s.pc.NextIteration? {
      WrapKeepsResidue(s.iteration);
    }
  }

  /** Once the timeout has passed the loop ends within 16 further rounds, whatever the writers do. */
  lemma {:induction false} TimeoutIsBounded(c: Config, s: State, acts: seq<Action>)
    requires HasTimeout(c) && Run(c, s, acts)
    requires OnSchedule(c, s) && TimesOutOnlyLate(c, s) && s.clock - c.start >= c.timeout
    ensures Rounds(c, s, acts) <= RoundsLeft(s) <= 16
    decreases |acts|
  {
    if acts != [] {
      RoundUsesBudget(c, s, acts[0]);
      StepStaysOnSchedule(c, s, acts[0]);
      TimeoutIsBounded(c, Apply(c, s, acts[0]), acts[1..]);
    }
  }
}
