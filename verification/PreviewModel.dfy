/**
 The preview gate of stage2_loader.c: two latches, a failure budget with a cooldown, a settle window
 and a minimum interval, as one step per call. Clock readings and core results are arbitrary.
 */
module PreviewModel {
  const NOT_SUPPORTED := -6
  const IO := -7
  const TIMEOUT := -10
  const CAMERA_BUSY := -110

  // maxFailures, cooldown, minInterval and settle, in seconds, as the environment fixes them.
  datatype Settings = Settings(maxFailures: int, cooldown: int, minInterval: int, settle: int)

  predicate Sane(c: Settings) {
    c.maxFailures > 0 && c.cooldown > 0 && c.minInterval >= 0 && c.settle >= 0
  }

  datatype Gate = Gate(disabled: bool, unhealthy: bool, terminal: int, backoffUntil: int, timeouts: int,
                       wasOpen: bool, settleUntil: int, lastFetch: int)

  const FRESH := Gate(false, false, 0, 0, 0, false, 0, 0)

  // The clock is read up to four times in a preview call; an unread reading is immaterial.
  datatype Op =
    | Preview(cool: int, settled: int, due: int, after: int, ret: int)
    | Init(ret: int, viewActive: bool, now: int)

  datatype Fetch = Fetch(at: int, ret: int)

  datatype State = State(gate: Gate, fetches: seq<Fetch>, answers: seq<int>)

  predicate TransportError(ret: int) {
    ret == IO || -70 <= ret <= -20
  }

  predicate Transient(ret: int) {
    ret == TIMEOUT || ret == CAMERA_BUSY
  }

  // ------------------------------------------------------------------ one call

  predicate Cooling(g: Gate, cool: int) {
    g.backoffUntil != 0 && cool < g.backoffUntil
  }

  predicate Settling(g: Gate, settled: int) {
    g.wasOpen && g.settleUntil != 0 && settled < g.settleUntil
  }

  predicate TooSoon(c: Settings, g: Gate, due: int) {
    c.minInterval > 0 && g.lastFetch != 0 && due - g.lastFetch < c.minInterval
  }

  predicate Fetches(c: Settings, g: Gate, op: Op)
    requires op.Preview?
  {
    !g.disabled && !g.unhealthy && !Cooling(g, op.cool) && !Settling(g, op.settled) && !TooSoon(c, g, op.due)
  }

  /** The settle window, once over, is disarmed. */
  function Passed(g: Gate): Gate {
    if g.wasOpen && g.settleUntil != 0 then g.(wasOpen := false, settleUntil := 0) else g
  }

  /** What the result of a fetch does to the gate. */
  function Classified(c: Settings, g: Gate, after: int, ret: int): Gate {
    if ret == 0 then g.(timeouts := 0, backoffUntil := 0)
    else if ret == NOT_SUPPORTED then g.(disabled := true)
    else if TransportError(ret) then g.(unhealthy := true, terminal := ret)
    else if !Transient(ret) then g
    else g.(timeouts := g.timeouts + 1,
            backoffUntil := if g.timeouts + 1 >= c.maxFailures then after + c.cooldown else g.backoffUntil)
  }

  function Answer(c: Settings, g: Gate, op: Op): int
    requires op.Preview?
  {
    if g.disabled then NOT_SUPPORTED
    else if g.unhealthy then g.terminal
    else if Cooling(g, op.cool) || Settling(g, op.settled) || TooSoon(c, g, op.due) then CAMERA_BUSY
    else op.ret
  }

  function Previewed(c: Settings, g: Gate, op: Op): Gate
    requires op.Preview?
  {
    if g.disabled || g.unhealthy || Cooling(g, op.cool) || Settling(g, op.settled) then g
    else if TooSoon(c, g, op.due) then Passed(g)
    else Classified(c, Passed(g).(lastFetch := op.due), op.after, op.ret)
  }

  /** A successful init clears every failure mark, keeps the pacing, and may arm the settle window. */
  function Initialised(c: Settings, g: Gate, op: Op): Gate
    requires op.Init?
  {
    if op.ret != 0 then g
    else
      var clean := g.(disabled := false, timeouts := 0, backoffUntil := 0, unhealthy := false, terminal := 0);
      if op.viewActive && c.settle > 0 then clean.(wasOpen := true, settleUntil := op.now + c.settle) else clean
  }

  function Step(c: Settings, s: State, op: Op): State {
    match op
    case Preview(_, _, due, _, ret) =>
      State(Previewed(c, s.gate, op), if Fetches(c, s.gate, op) then s.fetches + [Fetch(due, ret)] else s.fetches,
            s.answers + [Answer(c, s.gate, op)])
    case Init(_, _, _) => s.(gate := Initialised(c, s.gate, op))
  }

  function Run(c: Settings, s: State, ops: seq<Op>): State
    decreases |ops|
  {
    if ops == [] then s else Step(c, Run(c, s, ops[..|ops| - 1]), ops[|ops| - 1])
  }

  const START := State(FRESH, [], [])

  // --------------------------------------------------------------------- clock

  /** The last reading of the clock, `from` being the one before. */
  function End(from: int, ops: seq<Op>): int {
    if ops == [] then from
    else match ops[|ops| - 1] case Preview(_, _, _, after, _) => after case Init(_, _, now) => now
  }

  predicate Ticks(from: int, op: Op) {
    match op
    case Preview(cool, settled, due, after, _) => from <= cool <= settled <= due <= after
    case Init(_, _, now) => from <= now
  }

  /** The clock never runs backwards. */
  predicate Timed(from: int, ops: seq<Op>)
    decreases |ops|
  {
    ops != [] ==> Timed(from, ops[..|ops| - 1]) && Ticks(End(from, ops[..|ops| - 1]), ops[|ops| - 1])
  }

  lemma {:induction false} TimedEnd(from: int, ops: seq<Op>)
    requires Timed(from, ops)
    ensures End(from, ops) >= from
    decreases |ops|
  {
    if ops != [] {
      TimedEnd(from, ops[..|ops| - 1]);
    }
  }

  // -------------------------------------------------------------------- pacing

  /** The gate remembers the last fetch, unless the clock read zero; fetches are timed within the run. */
  ghost predicate Marked(s: State, from: int, end: int) {
    && s.gate.lastFetch == (if s.fetches == [] then 0 else s.fetches[|s.fetches| - 1].at)
    && s.gate.lastFetch <= end
    && (forall f <- s.fetches :: from <= f.at)
  }

  /** A fetch closer than the minimum interval to the one before follows a reading of zero. */
  ghost predicate Paced(c: Settings, s: State) {
    forall i :: 0 < i < |s.fetches| ==>
      s.fetches[i - 1].at == 0 || s.fetches[i].at - s.fetches[i - 1].at >= c.minInterval
  }

  /** A call that reaches the camera leaves its mark; no other call moves the mark. */
  lemma StepMarks(c: Settings, s: State, op: Op)
    ensures
      var t := Step(c, s, op);
      if op.Preview? && Fetches(c, s.gate, op)
      then t.fetches == s.fetches + [Fetch(op.due, op.ret)] && t.gate.lastFetch == op.due && !TooSoon(c, s.gate, op.due)
      else t.fetches == s.fetches && t.gate.lastFetch == s.gate.lastFetch
  {
  }

  lemma {:induction false} StepPaced(c: Settings, s: State, op: Op, from: int, mid: int)
    requires Sane(c) && 0 <= from <= mid && Marked(s, from, mid) && Paced(c, s) && Ticks(mid, op)
    ensures Marked(Step(c, s, op), from, End(mid, [op])) && Paced(c, Step(c, s, op))
  {
    hide Step, Fetches;
    StepMarks(c, s, op);
  }

  lemma {:induction false} RunMarked(c: Settings, from: int, ops: seq<Op>)
    requires Sane(c) && from >= 0 && Timed(from, ops)
    ensures Marked(Run(c, START, ops), from, End(from, ops)) && Paced(c, Run(c, START, ops))
    decreases |ops|
  {
    if ops != [] {
      var before := ops[..|ops| - 1];
      RunMarked(c, from, before);
      TimedEnd(from, before);
      StepPaced(c, Run(c, START, before), ops[|ops| - 1], from, End(from, before));
    }
  }

  /**
   Pacing over every run, re-inits included, on a clock that does not run backwards: two fetches from the
   camera come closer than the minimum interval only if the clock read zero at the first.
   */
  lemma {:induction false} FetchesPaced(c: Settings, from: int, ops: seq<Op>, i: nat)
    requires Sane(c) && from >= 0 && Timed(from, ops) && 0 < i < |Run(c, START, ops).fetches|
    ensures
      var f := Run(c, START, ops).fetches;
      && (f[i].at - f[i - 1].at < c.minInterval ==> f[i - 1].at == 0)
      && (from >= 1 ==> f[i].at - f[i - 1].at >= c.minInterval)
  {
    RunMarked(c, from, ops);
    assert Run(c, START, ops).fetches[i - 1] in Run(c, START, ops).fetches;
  }

  /**
   What a call after any run needs to reach the camera: no latch, no window still open, and the minimum
   interval since the last fetch, or a last fetch the gate has no mark of.
   */
  lemma {:induction false} AdmittedIff(c: Settings, from: int, ops: seq<Op>, op: Op)
    requires Sane(c) && from >= 0 && Timed(from, ops) && op.Preview? && Ticks(End(from, ops), op)
    ensures
      var s := Run(c, START, ops);
      Fetches(c, s.gate, op)
      <==> !s.gate.disabled && !s.gate.unhealthy && !Cooling(s.gate, op.cool) && !Settling(s.gate, op.settled)
           && (s.fetches == [] || s.fetches[|s.fetches| - 1].at == 0
               || op.due - s.fetches[|s.fetches| - 1].at >= c.minInterval)
  {
    hide Run;
    RunMarked(c, from, ops);
  }

  /** Under any interval, a second fetch may follow at any time a first one made when the clock read zero. */
  lemma ZeroClockUnpaced(c: Settings, due: int)
    requires Sane(c) && due >= 0
    ensures
      var ops := [Preview(0, 0, 0, 0, 0), Preview(due, due, due, due, 0)];
      Timed(0, ops) && Run(c, START, ops).fetches == [Fetch(0, 0), Fetch(due, 0)]
  {
    var one, two := Preview(0, 0, 0, 0, 0), Preview(due, due, due, due, 0);
    assert [one, two][..1] == [one] && [one][..0] == [];
    assert Run(c, START, [one]) == State(FRESH, [Fetch(0, 0)], [0]);
  }

  // ------------------------------------------------------------------- backoff

  /** No re-init, and nothing but timeouts and busy answers from the camera. */
  predicate Failing(op: Op) {
    op.Preview? && Transient(op.ret)
  }

  ghost predicate Spaced(c: Settings, s: State, end: int)
    requires Sane(c)
  {
    && s.gate.timeouts == |s.fetches| && !s.gate.disabled && !s.gate.unhealthy
    && (forall f <- s.fetches :: f.at <= end)
    && (|s.fetches| < c.maxFailures ==> s.gate.backoffUntil == 0)
    && (|s.fetches| >= c.maxFailures ==> s.gate.backoffUntil >= s.fetches[|s.fetches| - 1].at + c.cooldown
                                         && s.gate.backoffUntil > 0)
    && (forall i :: c.maxFailures <= i < |s.fetches| ==> s.fetches[i].at >= s.fetches[i - 1].at + c.cooldown)
  }

  /** A call answered by a transient failure moves the counter and the cooldown, never the latches. */
  lemma FailureMoves(c: Settings, g: Gate, op: Op)
    requires Failing(op) && !g.disabled && !g.unhealthy
    ensures
      var h := Previewed(c, g, op);
      && !h.disabled && !h.unhealthy
      && (if Fetches(c, g, op)
          then !Cooling(g, op.cool) && h.timeouts == g.timeouts + 1
               && h.backoffUntil == if h.timeouts >= c.maxFailures then op.after + c.cooldown else g.backoffUntil
          else h.timeouts == g.timeouts && h.backoffUntil == g.backoffUntil)
  {
  }

  lemma {:induction false} StepSpaced(c: Settings, s: State, op: Op, from: int)
    requires Sane(c) && Spaced(c, s, from) && from >= 0 && Failing(op) && Ticks(from, op)
    ensures Spaced(c, Step(c, s, op), End(from, [op]))
  {
    hide Previewed, Fetches, Answer;
    FailureMoves(c, s.gate, op);
    var t := Step(c, s, op);
    if Fetches(c, s.gate, op) {
      assert t.fetches == s.fetches + [Fetch(op.due, op.ret)];
    }
  }

  lemma {:induction false} FailuresSpaced(c: Settings, from: int, ops: seq<Op>)
    requires Sane(c) && from >= 0 && Timed(from, ops) && forall op <- ops :: Failing(op)
    ensures Spaced(c, Run(c, START, ops), End(from, ops))
    decreases |ops|
  {
    if ops != [] {
      var before := ops[..|ops| - 1];
      FailuresSpaced(c, from, before);
      TimedEnd(from, before);
      assert Failing(ops[|ops| - 1]);
      StepSpaced(c, Run(c, START, before), ops[|ops| - 1], End(from, before));
    }
  }

  /**
   Under nothing but transient failures the fetch j after the one that spends the budget comes at least j
   whole cooldowns later: the counter survives the window, so one further failure rearms it.
   */
  lemma {:induction false} CooldownsAddUp(c: Settings, from: int, ops: seq<Op>, j: nat)
    requires Sane(c) && from >= 0 && Timed(from, ops) && forall op <- ops :: Failing(op)
    requires c.maxFailures - 1 + j < |Run(c, START, ops).fetches|
    ensures
      var f := Run(c, START, ops).fetches;
      f[c.maxFailures - 1 + j].at >= f[c.maxFailures - 1].at + j * c.cooldown
    decreases j
  {
    FailuresSpaced(c, from, ops);
    if j > 0 {
      CooldownsAddUp(c, from, ops, j - 1);
      assert j * c.cooldown == (j - 1) * c.cooldown + c.cooldown;
    }
  }

  // ------------------------------------------------------------------- latches

  /** Both latches are never set together, and a kept terminal code is a transport error. */
  predicate Latched(g: Gate) {
    !(g.disabled && g.unhealthy) && (g.unhealthy ==> TransportError(g.terminal))
  }

  lemma {:induction false} NeverBothLatches(c: Settings, ops: seq<Op>)
    ensures Latched(Run(c, START, ops).gate)
    decreases |ops|
  {
    if ops != [] {
      NeverBothLatches(c, ops[..|ops| - 1]);
    }
  }

  predicate Revives(op: Op) {
    op.Init? && op.ret == 0
  }

  function Stuck(g: Gate): int {
    if g.disabled then NOT_SUPPORTED else g.terminal
  }

  /** Either latch answers every call with its one code and fetches nothing, until an init succeeds. */
  lemma {:induction false} LatchBlocks(c: Settings, s: State, ops: seq<Op>)
    requires (s.gate.disabled || s.gate.unhealthy) && forall op <- ops :: !Revives(op)
    ensures
      var t := Run(c, s, ops);
      && t.gate == s.gate && t.fetches == s.fetches && s.answers <= t.answers
      && forall i :: |s.answers| <= i < |t.answers| ==> t.answers[i] == Stuck(s.gate)
    decreases |ops|
  {
    if ops != [] {
      LatchBlocks(c, s, ops[..|ops| - 1]);
      assert !Revives(ops[|ops| - 1]);
    }
  }

  /** Call i of the run is a fetch answered with a code that latches. */
  predicate Latches(c: Settings, ops: seq<Op>, i: nat) {
    && i < |ops| && ops[i].Preview? && Fetches(c, Run(c, START, ops[..i]).gate, ops[i])
    && (ops[i].ret == NOT_SUPPORTED || TransportError(ops[i].ret))
  }

  /** That fetch, and no successful init since. */
  ghost predicate LatchedSince(c: Settings, ops: seq<Op>, i: nat) {
    Latches(c, ops, i) && forall j :: i < j < |ops| ==> !Revives(ops[j])
  }

  lemma {:induction false} LatchedBefore(c: Settings, ops: seq<Op>, i: nat)
    requires i < |ops| - 1
    ensures LatchedSince(c, ops, i) <==> LatchedSince(c, ops[..|ops| - 1], i) && !Revives(ops[|ops| - 1])
  {
    hide Run, Fetches, Revives;
    assert ops[..|ops| - 1][..i] == ops[..i];
  }

  /** What one call does to the latches. */
  lemma LatchStep(c: Settings, s: State, op: Op)
    requires Latched(s.gate)
    ensures
      var g, t := s.gate, Step(c, s, op).gate;
      var hit := op.Preview? && Fetches(c, g, op) && (op.ret == NOT_SUPPORTED || TransportError(op.ret));
      && (hit ==> t.disabled == (op.ret == NOT_SUPPORTED) && t.unhealthy == TransportError(op.ret)
                  && (t.unhealthy ==> t.terminal == op.ret) && !g.disabled && !g.unhealthy)
      && (Revives(op) ==> !t.disabled && !t.unhealthy)
      && (!hit && !Revives(op) ==>
            t.disabled == g.disabled && t.unhealthy == g.unhealthy && (t.unhealthy ==> t.terminal == g.terminal))
  {
  }

  lemma SinceWithin(c: Settings, ops: seq<Op>, i: nat)
    requires LatchedSince(c, ops, i)
    ensures i < |ops| && ops[i].Preview?
  {
  }

  lemma LatchedLast(c: Settings, ops: seq<Op>)
    requires ops != []
    ensures
      var last := |ops| - 1;
      var op, g := ops[last], Run(c, START, ops[..last]).gate;
      LatchedSince(c, ops, last)
      <==> op.Preview? && Fetches(c, g, op) && (op.ret == NOT_SUPPORTED || TransportError(op.ret))
  {
    hide Run, Fetches, TransportError;
  }

  /** The gate is latched as that answer latches it. */
  predicate LatchedWith(g: Gate, ret: int) {
    && (g.disabled <==> ret == NOT_SUPPORTED) && (g.unhealthy <==> TransportError(ret))
    && (g.unhealthy ==> g.terminal == ret)
  }

  /**
   The latches over every run: one is set exactly when some fetch was answered with a latching code and no
   init has succeeded since; it is the one for that code, and a transport error's code is the one kept.
   */
  lemma {:induction false} LatchedIff(c: Settings, ops: seq<Op>)
    ensures
      var g := Run(c, START, ops).gate;
      && (g.disabled || g.unhealthy <==> exists i: nat :: LatchedSince(c, ops, i))
      && forall i: nat :: LatchedSince(c, ops, i) ==> LatchedWith(g, ops[i].ret)
    decreases |ops|
  {
    hide Step, Fetches, TransportError, Revives, Latched;
    if ops != [] {
      var last := |ops| - 1;
      var before, s := ops[..last], Run(c, START, ops[..last]);
      LatchedIff(c, before);
      NeverBothLatches(c, before);
      LatchStep(c, s, ops[last]);
      LatchedLast(c, ops);
      hide LatchedSince;
      if i: nat :| LatchedSince(c, before, i) {
        SinceWithin(c, before, i);
        LatchedBefore(c, ops, i);
      }
      forall i: nat | LatchedSince(c, ops, i)
        ensures LatchedWith(Run(c, START, ops).gate, ops[i].ret)
      {
        SinceWithin(c, ops, i);
        if i < last {
          LatchedBefore(c, ops, i);
        }
      }
    }
  }

  // ------------------------------------------------------------------- windows

  /** No window reaches further ahead of the clock than its own length. */
  ghost predicate Bounded(c: Settings, g: Gate, end: int) {
    g.backoffUntil <= end + c.cooldown && g.settleUntil <= end + c.settle && g.lastFetch <= end
  }

  lemma {:induction false} StepBounded(c: Settings, s: State, op: Op, from: int)
    requires Sane(c) && Bounded(c, s.gate, from) && from >= 0 && Ticks(from, op)
    ensures Bounded(c, Step(c, s, op).gate, End(from, [op]))
  {
  }

  lemma {:induction false} WindowsBounded(c: Settings, from: int, ops: seq<Op>)
    requires Sane(c) && from >= 0 && Timed(from, ops)
    ensures Bounded(c, Run(c, START, ops).gate, End(from, ops))
    decreases |ops|
  {
    if ops != [] {
      var before := ops[..|ops| - 1];
      WindowsBounded(c, from, before);
      TimedEnd(from, before);
      StepBounded(c, Run(c, START, before), ops[|ops| - 1], End(from, before));
    }
  }

  /** Every window ends: once the longest has passed since the last call, an unlatched gate lets a call through. */
  lemma {:induction false} WindowsExpire(c: Settings, from: int, ops: seq<Op>, op: Op)
    requires Sane(c) && from >= 0 && Timed(from, ops) && op.Preview? && Ticks(op.cool, op)
    requires op.cool >= End(from, ops) + c.cooldown && op.cool >= End(from, ops) + c.settle
    requires op.cool >= End(from, ops) + c.minInterval
    ensures
      var g := Run(c, START, ops).gate;
      !g.disabled && !g.unhealthy ==> Fetches(c, g, op) && Answer(c, g, op) == op.ret
  {
    WindowsBounded(c, from, ops);
  }

  /** Once armed, the settle window holds back every fetch until it ends, whatever happens in between. */
  lemma {:induction false} SettleHolds(c: Settings, s: State, from: int, ops: seq<Op>)
    requires Sane(c) && from >= 0 && Timed(from, ops) && Bounded(c, s.gate, from)
    requires s.gate.wasOpen && s.gate.settleUntil != 0
    ensures
      var t := Run(c, s, ops);
      && s.fetches <= t.fetches && Bounded(c, t.gate, End(from, ops))
      && (forall i :: |s.fetches| <= i < |t.fetches| ==> t.fetches[i].at >= s.gate.settleUntil)
      && ((t.gate.wasOpen && t.gate.settleUntil >= s.gate.settleUntil) || End(from, ops) >= s.gate.settleUntil)
      && (t.gate.wasOpen ==> t.gate.settleUntil != 0)
    decreases |ops|
  {
    if ops != [] {
      var before := ops[..|ops| - 1];
      SettleHolds(c, s, from, before);
      TimedEnd(from, before);
      StepBounded(c, Run(c, s, before), ops[|ops| - 1], End(from, before));
    }
  }
}
