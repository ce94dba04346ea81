/**
 Hold-to-move with the dead man on this side of the wire: what each call of polaris-jog.c does to the
 axis records and which frames it hands to the link, and what that means for the records over whole runs.
 */
module JogModel {
  import opened Words

  const AXES := 3
  const LEASE_MS := 400.0
  const REPEAT_MS := 50.0
  const SPEED_MIN := 100
  const SPEED_MAX := 2500
  const GEAR_MIN := 1
  const GEAR_MAX := 5

  datatype Axis = Axis(speed: int, gear: int, pressed: bool, lease: real, next: real)

  datatype Frame = Fast(op: nat, speed: int) | Slow(op: nat, key: int, press: bool, level: int)

  const IDLE := Axis(0, 0, false, 0.0, 0.0)

  function FastOp(a: nat): nat {
    if a == 0 then 513 else if a == 1 then 514 else 521
  }

  function SlowOp(a: nat): nat {
    if a == 0 then 532 else if a == 1 then 533 else 534
  }

  function Clamp(v: int, lo: int, hi: int): int {
    if v < lo then lo else if v > hi then hi else v
  }

  function Magnitude(v: int): int {
    if v < 0 then -v else v
  }

  function Wanted(speed: int): int {
    (if speed < 0 then -1 else 1) * Clamp(Magnitude(speed), SPEED_MIN, SPEED_MAX)
  }

  /** The latched frame: key carries the direction, level the magnitude. */
  function SlowFrame(a: nat, gear: int, press: bool): Frame {
    Slow(SlowOp(a), if gear < 0 then 1 else 0, press, Clamp(Magnitude(gear), GEAR_MIN, GEAR_MAX))
  }

  predicate Moving(s: Axis) {
    s.pressed || s.speed != 0
  }

  // ------------------------------------------------------- one axis, one call

  // An axis record after a call, and the frames the call sent.
  datatype Move = Move(axis: Axis, sent: seq<Frame>)

  function Stopped(a: nat, s: Axis): Move {
    Move(IDLE, (if s.pressed then [SlowFrame(a, s.gear, false)] else [])
               + (if s.speed != 0 then [Fast(FastOp(a), 0)] else []))
  }

  function DrivenFast(a: nat, s: Axis, speed: int, now: real): Move {
    var released := if s.pressed then [SlowFrame(a, s.gear, false)] else [];
    var want := Wanted(speed);
    Move(Axis(want, if s.pressed then 0 else s.gear, false, now + LEASE_MS,
              if s.speed != want then now + REPEAT_MS else s.next),
         released + (if s.speed != want then [Fast(FastOp(a), want)] else []))
  }

  function DrivenSlow(a: nat, s: Axis, gear: int, now: real): Move {
    var halted := if s.speed != 0 then [Fast(FastOp(a), 0)] else [];
    var again := !s.pressed || s.gear != gear;
    Move(Axis(0, if again then gear else s.gear, true, now + LEASE_MS, 0.0),
         halted + (if again && s.pressed then [SlowFrame(a, s.gear, false)] else [])
         + (if again then [SlowFrame(a, gear, true)] else []))
  }

  function Ticked(a: nat, s: Axis, now: real): Move {
    if !Moving(s) then Move(s, [])
    else if now >= s.lease then Stopped(a, s)
    else if s.speed != 0 && now >= s.next then Move(s.(next := now + REPEAT_MS), [Fast(FastOp(a), s.speed)])
    else Move(s, [])
  }

  // ------------------------------------------------------------ whole machine

  // `wire` is every frame handed to the link so far; nothing ever clears it.
  datatype State = State(axes: seq<Axis>, wire: seq<Frame>)

  datatype Op =
    | Set(axis: int, speed: int, gear: int, now: real, up: bool)
    | Stop(axis: int)
    | StopAll
    | Tick(now: real, up: bool)

  const START := State([IDLE, IDLE, IDLE], [])

  predicate Shaped(s: State) {
    |s.axes| == AXES
  }

  predicate OnAxis(axis: int) {
    0 <= axis < AXES
  }

  /** A call that starts or renews motion on the axis. */
  predicate Renews(op: Op, axis: int) {
    op.Set? && op.axis == axis && OnAxis(axis) && !(op.speed == 0 && op.gear == 0) && op.up
  }

  function Apply(s: State, a: nat, m: Move): (t: State)
    requires Shaped(s) && a < AXES
    ensures Shaped(t)
  {
    State(s.axes[a := m.axis], s.wire + m.sent)
  }

  function StopTo(s: State, n: nat): (t: State)
    requires Shaped(s) && n <= AXES
    ensures Shaped(t)
  {
    if n == 0 then s else var p := StopTo(s, n - 1); Apply(p, n - 1, Stopped(n - 1, p.axes[n - 1]))
  }

  function TickTo(s: State, n: nat, now: real): (t: State)
    requires Shaped(s) && n <= AXES
    ensures Shaped(t)
  {
    if n == 0 then s else var p := TickTo(s, n - 1, now); Apply(p, n - 1, Ticked(n - 1, p.axes[n - 1], now))
  }

  function Step(s: State, op: Op): (t: State)
    requires Shaped(s)
    ensures Shaped(t)
  {
    match op
    case Set(axis, speed, gear, now, up) =>
      if !OnAxis(axis) then s
      else if speed == 0 && gear == 0 then Apply(s, axis, Stopped(axis, s.axes[axis]))
      else if !up then s
      else if speed != 0 then Apply(s, axis, DrivenFast(axis, s.axes[axis], speed, now))
      else Apply(s, axis, DrivenSlow(axis, s.axes[axis], gear, now))
    case Stop(axis) => if OnAxis(axis) then Apply(s, axis, Stopped(axis, s.axes[axis])) else s
    case StopAll => StopTo(s, AXES)
    case Tick(now, up) => if up then TickTo(s, AXES, now) else State([IDLE, IDLE, IDLE], s.wire)
  }

  function Run(s: State, ops: seq<Op>): (t: State)
    requires Shaped(s)
    ensures Shaped(t)
    decreases |ops|
  {
    if ops == [] then s else Step(Run(s, ops[..|ops| - 1]), ops[|ops| - 1])
  }

  lemma {:induction false} TickedAxis(s: State, n: nat, now: real, a: nat)
    requires Shaped(s) && n <= AXES && a < AXES
    ensures TickTo(s, n, now).axes[a] == if a < n then Ticked(a, s.axes[a], now).axis else s.axes[a]
    decreases n
  {
    if n > 0 {
      TickedAxis(s, n - 1, now, a);
      TickedAxis(s, n - 1, now, n - 1);
    }
  }

  lemma {:induction false} StoppedAxis(s: State, n: nat, a: nat)
    requires Shaped(s) && n <= AXES && a < AXES
    ensures StopTo(s, n).axes[a] == if a < n then IDLE else s.axes[a]
    decreases n
  {
    if n > 0 {
      StoppedAxis(s, n - 1, a);
    }
  }

  /** What a call does to one axis, when it touches it. */
  function MoveOf(s: State, op: Op, a: nat): Move
    requires Shaped(s) && a < AXES
  {
    var x := s.axes[a];
    match op
    case Set(axis, speed, gear, now, up) =>
      if axis != a then Move(x, [])
      else if speed == 0 && gear == 0 then Stopped(a, x)
      else if !up then Move(x, [])
      else if speed != 0 then DrivenFast(a, x, speed, now)
      else DrivenSlow(a, x, gear, now)
    case Stop(axis) => if axis == a then Stopped(a, x) else Move(x, [])
    case StopAll => Stopped(a, x)
    case Tick(now, up) => if up then Ticked(a, x, now) else Move(IDLE, [])
  }

  lemma {:induction false} StepMoves(s: State, op: Op, a: nat)
    requires Shaped(s) && a < AXES
    ensures Step(s, op).axes[a] == MoveOf(s, op, a).axis
  {
    hide DrivenFast, DrivenSlow, Ticked;
    match op
    case Set(axis, speed, gear, now, up) =>
    case Stop(axis) =>
    case StopAll => StoppedAxis(s, AXES, a);
    case Tick(now, up) =>
      if up {
        TickedAxis(s, AXES, now, a);
      }
  }

  // ---------------------------------------------------------------- dead man

  predicate Halts(op: Op, axis: int) {
    match op
    case Set(b, speed, gear, now, up) => b == axis && speed == 0 && gear == 0
    case Stop(b) => b == axis
    case StopAll => true
    case Tick(now, up) => !up
  }

  /** Call `i` granted the lease the axis holds, and nothing has stopped it since. */
  ghost predicate Grants(ops: seq<Op>, i: nat, axis: nat) {
    i < |ops| && Renews(ops[i], axis) && forall j :: i < j < |ops| ==> !Halts(ops[j], axis)
  }

  /** A call that does not renew the axis cannot start it or lengthen its lease. */
  lemma {:induction false} OnlyRenewalExtends(s: State, op: Op, axis: nat)
    requires Shaped(s) && axis < AXES && !Renews(op, axis) && Moving(Step(s, op).axes[axis])
    ensures Moving(s.axes[axis]) && Step(s, op).axes[axis].lease == s.axes[axis].lease
    ensures !Halts(op, axis)
  {
    match op
    case Set(b, speed, gear, now, up) =>
    case Stop(b) =>
    case StopAll => StoppedAxis(s, AXES, axis);
    case Tick(now, up) =>
      if up {
        TickedAxis(s, AXES, now, axis);
      }
  }

  lemma {:induction false} RenewalGrants(s: State, op: Op, axis: nat)
    requires Shaped(s) && axis < AXES && Renews(op, axis)
    ensures Step(s, op).axes[axis].lease == op.now + LEASE_MS
  {
  }

  /** Every moving axis holds a lease granted by one of the calls so far. */
  lemma {:induction false} LeasesGranted(ops: seq<Op>, axis: nat)
    requires axis < AXES && Moving(Run(START, ops).axes[axis])
    ensures exists i: nat :: Grants(ops, i, axis) && Run(START, ops).axes[axis].lease == ops[i].now + LEASE_MS
    decreases |ops|
  {
    hide Step;
    var n := |ops|;
    if n > 0 {
      var before := ops[..n - 1];
      if Renews(ops[n - 1], axis) {
        RenewalGrants(Run(START, before), ops[n - 1], axis);
        assert Grants(ops, n - 1, axis);
      } else {
        OnlyRenewalExtends(Run(START, before), ops[n - 1], axis);
        LeasesGranted(before, axis);
        var i: nat :| Grants(before, i, axis) && Run(START, before).axes[axis].lease == before[i].now + LEASE_MS;
        assert Grants(ops, i, axis);
      }
    }
  }

  /**
   The dead man: whatever calls came before, a tick at `now` with the link up leaves an axis moving
   only if some call renewed it less than 400 ms before and no stop came after that call.
   */
  lemma {:induction false} DeadMan(ops: seq<Op>, now: real, axis: nat)
    requires axis < AXES && Moving(Run(START, ops + [Tick(now, true)]).axes[axis])
    ensures exists i: nat :: Grants(ops, i, axis) && now - ops[i].now < LEASE_MS
  {
    var all := ops + [Tick(now, true)];
    assert all[..|all| - 1] == ops;
    TickedAxis(Run(START, ops), AXES, now, axis);
    LeasesGranted(ops, axis);
  }

  // ---------------------------------------------------------------- deadline

  /** When the axis next needs a tick. */
  function Due(s: Axis): real {
    if s.speed != 0 && s.next < s.lease then s.next else s.lease
  }

  predicate Acts(s: State, now: real)
    requires Shaped(s)
  {
    Step(s, Tick(now, true)) != s
  }

  /** Milliseconds until the earliest due axis among the first n, or -1. */
  function Deadline(axes: seq<Axis>, n: nat, now: real): (d: real)
    requires n <= |axes|
    ensures d == -1.0 || d >= 0.0
  {
    if n == 0 then -1.0
    else
      var best := Deadline(axes, n - 1, now);
      if !Moving(axes[n - 1]) then best
      else
        var d := if Due(axes[n - 1]) < now then 0.0 else Due(axes[n - 1]) - now;
        if best < 0.0 || d < best then d else best
  }

  lemma {:induction false} DeadlineIsEarliest(axes: seq<Axis>, n: nat, now: real, t: real)
    requires n <= |axes| && t >= now
    ensures Deadline(axes, n, now) < 0.0 <==> forall a :: 0 <= a < n ==> !Moving(axes[a])
    ensures (exists a :: 0 <= a < n && Moving(axes[a]) && t >= Due(axes[a]))
            <==> Deadline(axes, n, now) >= 0.0 && t >= now + Deadline(axes, n, now)
    decreases n
  {
    if n > 0 {
      DeadlineIsEarliest(axes, n - 1, now, t);
      assert Moving(axes[n - 1]) || !Moving(axes[n - 1]);
    }
  }

  lemma {:induction false} TickQuiet(s: State, n: nat, now: real)
    requires Shaped(s) && n <= AXES
    ensures |TickTo(s, n, now).wire| > |s.wire|
            <==> exists a :: 0 <= a < n && Moving(s.axes[a]) && now >= Due(s.axes[a])
    ensures |TickTo(s, n, now).wire| == |s.wire| ==> TickTo(s, n, now) == s
    ensures |TickTo(s, n, now).wire| >= |s.wire|
    decreases n
  {
    if n > 0 {
      TickQuiet(s, n - 1, now);
      TickedAxis(s, n - 1, now, n - 1);
      var m := Ticked(n - 1, s.axes[n - 1], now);
      assert m.sent != [] <==> Moving(s.axes[n - 1]) && now >= Due(s.axes[n - 1]);
      assert m.sent == [] ==> m == Move(s.axes[n - 1], []);
      assert s.axes[n - 1 := s.axes[n - 1]] == s.axes;
      assert s.wire + [] == s.wire;
    }
  }

  /**
   The computed sleep is exact: a tick at `t` sends something exactly when `t` has reached the
   deadline, and otherwise changes nothing; -1 means nothing is moving, so no tick ever acts.
   */
  lemma {:induction false} DeadlineExact(s: State, now: real, t: real)
    requires Shaped(s) && t >= now
    ensures
      var d := Deadline(s.axes, AXES, now);
      && (Acts(s, t) <==> d >= 0.0 && t >= now + d)
      && (Acts(s, t) ==> |Step(s, Tick(t, true)).wire| > |s.wire|)
      && (d == -1.0 <==> forall a :: 0 <= a < AXES ==> !Moving(s.axes[a]))
  {
    DeadlineIsEarliest(s.axes, AXES, now, t);
    TickQuiet(s, AXES, t);
  }

  // ----------------------------------------------------------------- records

  /** Never both pressed and fast, and fast only within the limits. */
  predicate Sound(s: Axis) {
    && !(s.pressed && s.speed != 0)
    && (s.speed != 0 ==> SPEED_MIN <= Magnitude(s.speed) <= SPEED_MAX)
  }

  lemma {:induction false} MoveSound(s: State, op: Op, a: nat)
    requires Shaped(s) && a < AXES && Sound(s.axes[a])
    ensures Sound(MoveOf(s, op, a).axis)
  {
  }

  lemma {:induction false} RecordsSound(ops: seq<Op>, a: nat)
    requires a < AXES
    ensures Sound(Run(START, ops).axes[a])
    decreases |ops|
  {
    assert Sound(IDLE);
    hide Step, MoveOf, Sound;
    if ops != [] {
      var before, op := ops[..|ops| - 1], ops[|ops| - 1];
      RecordsSound(before, a);
      StepMoves(Run(START, before), op, a);
      MoveSound(Run(START, before), op, a);
    }
  }

  // ----------------------------------------------------------------- cadence

  /** The call streams a non-zero fast frame to the axis. */
  predicate Streams(s: State, op: Op, a: nat)
    requires Shaped(s) && a < AXES
  {
    exists f <- MoveOf(s, op, a).sent :: f.Fast? && f.speed != 0
  }

  /** Call i is the last to have streamed to the axis. */
  ghost predicate LastStreamed(ops: seq<Op>, i: nat, a: nat)
    requires a < AXES
  {
    && i < |ops| && (ops[i].Set? || ops[i].Tick?) && Streams(Run(START, ops[..i]), ops[i], a)
    && forall j :: i < j < |ops| ==> !Streams(Run(START, ops[..j]), ops[j], a)
  }

  lemma {:induction false} MoveStreams(s: State, op: Op, a: nat)
    requires Shaped(s) && a < AXES && Sound(s.axes[a]) && MoveOf(s, op, a).axis.speed != 0
    ensures
      var t := MoveOf(s, op, a).axis;
      if Streams(s, op, a) then (op.Set? || op.Tick?) && t.next == op.now + REPEAT_MS
      else s.axes[a].speed != 0 && t.next == s.axes[a].next
  {
    var m := MoveOf(s, op, a);
    if m.sent != [] {
      assert m.sent[|m.sent| - 1] in m.sent;
    }
  }

  /** A later call that does not stream leaves the last streaming call what it was. */
  lemma {:induction false} StillLast(ops: seq<Op>, i: nat, a: nat)
    requires a < AXES && ops != [] && LastStreamed(ops[..|ops| - 1], i, a)
    requires !Streams(Run(START, ops[..|ops| - 1]), ops[|ops| - 1], a)
    ensures LastStreamed(ops, i, a)
  {
    hide Streams, Run;
    var before := ops[..|ops| - 1];
    assert before[..i] == ops[..i] && before[i] == ops[i];
    forall j | i < j < |ops|
      ensures !Streams(Run(START, ops[..j]), ops[j], a)
    {
      if j < |ops| - 1 {
        assert before[..j] == ops[..j] && before[j] == ops[j];
      }
    }
  }

  /** On a fast-driven axis the next repeat falls due 50 ms after the last fast frame. */
  lemma {:induction false} NextFollowsLast(ops: seq<Op>, a: nat)
    requires a < AXES && Run(START, ops).axes[a].speed != 0
    ensures exists i: nat :: LastStreamed(ops, i, a) && Run(START, ops).axes[a].next == ops[i].now + REPEAT_MS
    decreases |ops|
  {
    hide Step, MoveOf, Streams;
    var n := |ops|;
    if n > 0 {
      var before := ops[..n - 1];
      var s := Run(START, before);
      RecordsSound(before, a);
      StepMoves(s, ops[n - 1], a);
      MoveStreams(s, ops[n - 1], a);
      if Streams(s, ops[n - 1], a) {
        assert LastStreamed(ops, n - 1, a);
      } else {
        hide LastStreamed;
        NextFollowsLast(before, a);
        var i: nat :| LastStreamed(before, i, a) && s.axes[a].next == before[i].now + REPEAT_MS;
        StillLast(ops, i, a);
      }
    }
  }

  /** While its lease lasts, a tick streams to a fast-driven axis exactly when 50 ms have passed since the last. */
  lemma {:induction false} StreamedEvery50(ops: seq<Op>, now: real, a: nat)
    requires a < AXES && Run(START, ops).axes[a].speed != 0 && now < Run(START, ops).axes[a].lease
    ensures exists i: nat :: LastStreamed(ops, i, a)
                             && (Streams(Run(START, ops), Tick(now, true), a) <==> now - ops[i].now >= REPEAT_MS)
  {
    NextFollowsLast(ops, a);
    var i: nat :| LastStreamed(ops, i, a) && Run(START, ops).axes[a].next == ops[i].now + REPEAT_MS;
    var m := MoveOf(Run(START, ops), Tick(now, true), a);
    if m.sent != [] {
      assert m.sent[0] in m.sent;
    }
  }
}
