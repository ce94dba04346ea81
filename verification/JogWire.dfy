/**
 What the motor heads make of the frames polaris-jog.c hands to the link, of which the link may refuse any:
 while it is down, when its queue is full, or after a fault in the middle of a call.
 */
module JogWire {
  import opened Words
  import opened JogModel

  // ------------------------------------------------------------------- heads

  // What a head listening to one axis has been told: the press it holds and its fast speed.
  datatype Head = Head(press: Option<(int, int)>, fast: int)

  const REST := Head(None, 0)

  /** The axis whose fast stream an opcode is, or -1. */
  function FastAxis(op: nat): int {
    match op case 513 => 0 case 514 => 1 case 521 => 2 case _ => -1
  }

  /** The axis whose latched key an opcode is, or -1. */
  function SlowAxis(op: nat): int {
    match op case 532 => 0 case 533 => 1 case 534 => 2 case _ => -1
  }

  /** One frame as the head's manual allows it; None is a protocol violation. */
  function Observe(h: Head, a: nat, f: Frame): Option<Head> {
    match f
    case Fast(op, v) =>
      if FastAxis(op) != a then Some(h)
      else if v == 0 then Some(h.(fast := 0))
      else if h.press.Some? || !(100 <= Magnitude(v) <= 2500) then None
      else Some(h.(fast := v))
    case Slow(op, key, press, level) =>
      if SlowAxis(op) != a then Some(h)
      else if !(1 <= level <= 5) || !(0 <= key <= 1) then None
      else if press then if h.press.Some? || h.fast != 0 then None else Some(h.(press := Some((key, level))))
      else if h.press == Some((key, level)) then Some(h.(press := None)) else None
  }

  function Watch(h: Head, a: nat, wire: seq<Frame>): Option<Head>
    decreases |wire|
  {
    if wire == [] then Some(h)
    else
      var before := Watch(h, a, wire[..|wire| - 1]);
      if before.None? then None else Observe(before.value, a, wire[|wire| - 1])
  }

  /** What the record of the axis claims the head was told. */
  function Believed(a: nat, s: Axis): Head {
    var f := SlowFrame(a, s.gear, true);
    Head(if s.pressed then Some((f.key, f.level)) else None, s.speed)
  }

  lemma {:induction false} WatchAppend(h: Head, a: nat, wire: seq<Frame>, more: seq<Frame>)
    ensures Watch(h, a, wire + more)
            == if Watch(h, a, wire).None? then None else Watch(Watch(h, a, wire).value, a, more)
    decreases |more|
  {
    if more == [] {
      assert wire + more == wire;
    } else {
      var last := |more| - 1;
      WatchAppend(h, a, wire, more[..last]);
      assert (wire + more)[..|wire + more| - 1] == wire + more[..last];
    }
  }

  lemma {:induction false} WatchShort(h: Head, a: nat, x: Frame, y: Frame, z: Frame)
    ensures Watch(h, a, [x]) == Observe(h, a, x)
    ensures Watch(h, a, [x, y]) == if Observe(h, a, x).None? then None else Observe(Observe(h, a, x).value, a, y)
    ensures Watch(h, a, [x, y, z])
            == if Watch(h, a, [x, y]).None? then None else Observe(Watch(h, a, [x, y]).value, a, z)
  {
    assert [x][..0] == [] && [x, y][..1] == [x] && [x, y, z][..2] == [x, y];
  }

  /** The few frames of a move all carry the axis's own opcodes. */
  predicate Own(frames: seq<Frame>, a: nat) {
    |frames| <= 3 && forall f <- frames :: f.op == if f.Fast? then FastOp(a) else SlowOp(a)
  }

  /** A head is deaf to the frames of another axis. */
  lemma {:induction false} Deaf(frames: seq<Frame>, a: nat, b: nat, h: Head)
    requires a < AXES && b < AXES && a != b && Own(frames, a)
    ensures Watch(h, b, frames) == Some(h)
    decreases |frames|
  {
    if frames != [] {
      Deaf(frames[..|frames| - 1], a, b, h);
      assert frames[|frames| - 1] in frames;
    }
  }

  /** The one or two frames of a move unrolled. */
  lemma {:induction false} Unroll(frames: seq<Frame>, a: nat, h: Head)
    ensures |frames| == 0 ==> Watch(h, a, frames) == Some(h)
    ensures |frames| == 1 ==> Watch(h, a, frames) == Observe(h, a, frames[0])
    ensures |frames| == 2 ==> Watch(h, a, frames)
                              == if Observe(h, a, frames[0]).None? then None
                                 else Observe(Observe(h, a, frames[0]).value, a, frames[1])
  {
    if |frames| == 1 {
      assert frames == [frames[0]];
      WatchShort(h, a, frames[0], frames[0], frames[0]);
    } else if |frames| == 2 {
      assert frames == [frames[0], frames[1]];
      WatchShort(h, a, frames[0], frames[1], frames[1]);
    }
  }

  /** Taken whole, a move keeps its axis's head in step with the record. */
  ghost predicate Obeys(m: Move, a: nat, s: Axis) {
    Sound(m.axis) && Watch(Believed(a, s), a, m.sent) == Some(Believed(a, m.axis))
  }

  lemma {:induction false} StoppedObeys(a: nat, s: Axis)
    requires a < AXES && Sound(s)
    ensures Obeys(Stopped(a, s), a, s)
  {
    hide Watch;
    Unroll(Stopped(a, s).sent, a, Believed(a, s));
  }

  lemma {:induction false} DrivenFastObeys(a: nat, s: Axis, speed: int, now: real)
    requires a < AXES && Sound(s) && speed != 0
    ensures Obeys(DrivenFast(a, s, speed, now), a, s)
  {
    hide Watch;
    Unroll(DrivenFast(a, s, speed, now).sent, a, Believed(a, s));
  }

  lemma {:induction false} DrivenSlowObeys(a: nat, s: Axis, gear: int, now: real)
    requires a < AXES && Sound(s)
    ensures Obeys(DrivenSlow(a, s, gear, now), a, s)
  {
    hide Watch;
    Unroll(DrivenSlow(a, s, gear, now).sent, a, Believed(a, s));
  }

  lemma {:induction false} TickedObeys(a: nat, s: Axis, now: real)
    requires a < AXES && Sound(s)
    ensures Obeys(Ticked(a, s, now), a, s)
  {
    hide Watch;
    StoppedObeys(a, s);
    Unroll(Ticked(a, s, now).sent, a, Believed(a, s));
  }

  // --------------------------------------------------------------- the link

  // Whether the link takes the n-th frame handed to it. It refuses as it likes.
  type Link = nat -> bool

  /** The frames the link took, of those handed to it from position `from` on. */
  function Taken(link: Link, from: nat, frames: seq<Frame>): seq<Frame>
    decreases |frames|
  {
    if frames == [] then []
    else
      var last := |frames| - 1;
      Taken(link, from, frames[..last]) + (if link(from + last) then [frames[last]] else [])
  }

  /** What the head on an axis has been told in all; None once it was told what it must not be. */
  function Told(link: Link, a: nat, wire: seq<Frame>): Option<Head> {
    Watch(REST, a, Taken(link, 0, wire))
  }

  lemma {:induction false} TakenAppend(link: Link, from: nat, wire: seq<Frame>, more: seq<Frame>)
    ensures Taken(link, from, wire + more) == Taken(link, from, wire) + Taken(link, from + |wire|, more)
    decreases |more|
  {
    if more == [] {
      assert wire + more == wire;
    } else {
      var last := |more| - 1;
      TakenAppend(link, from, wire, more[..last]);
      assert (wire + more)[..|wire + more| - 1] == wire + more[..last];
    }
  }

  lemma {:induction false} TakenOwn(link: Link, from: nat, frames: seq<Frame>, a: nat)
    requires Own(frames, a)
    ensures Own(Taken(link, from, frames), a) && |Taken(link, from, frames)| <= |frames|
    decreases |frames|
  {
    if frames != [] {
      TakenOwn(link, from, frames[..|frames| - 1], a);
      assert frames[|frames| - 1] in frames;
    }
  }

  lemma {:induction false} TakenShort(link: Link, from: nat, frames: seq<Frame>)
    ensures |frames| == 0 ==> Taken(link, from, frames) == []
    ensures |frames| == 1 ==> Taken(link, from, frames) == if link(from) then frames else []
    ensures |frames| == 2 ==>
              Taken(link, from, frames) == (if link(from) then [frames[0]] else [])
                                           + (if link(from + 1) then [frames[1]] else [])
  {
    if |frames| == 1 {
      assert frames == [frames[0]] && frames[..0] == [];
    } else if |frames| == 2 {
      assert frames[..1] == [frames[0]] && frames[..1][..0] == [];
      assert Taken(link, from, frames[..1]) == if link(from) then [frames[0]] else [];
    }
  }

  // ------------------------------------------- what each head hears of a call

  function Hear(h: Option<Head>, a: nat, frames: seq<Frame>): Option<Head> {
    if h.None? then None else Watch(h.value, a, frames)
  }

  lemma {:induction false} ApplyHeard(link: Link, s: State, b: nat, m: Move, a: nat)
    requires Shaped(s) && a < AXES && b < AXES && Own(m.sent, b)
    ensures Told(link, a, Apply(s, b, m).wire)
            == if a == b then Hear(Told(link, a, s.wire), a, Taken(link, |s.wire|, m.sent)) else Told(link, a, s.wire)
  {
    hide Watch, Taken;
    var heard := Taken(link, |s.wire|, m.sent);
    TakenAppend(link, 0, s.wire, m.sent);
    TakenOwn(link, |s.wire|, m.sent, b);
    WatchAppend(REST, a, Taken(link, 0, s.wire), heard);
    if a != b && Told(link, a, s.wire).Some? {
      Deaf(heard, b, a, Told(link, a, s.wire).value);
    }
  }

  lemma OwnMoves(x: Axis, a: nat, speed: int, gear: int, now: real)
    requires a < AXES
    ensures Own(Stopped(a, x).sent, a) && Own(Ticked(a, x, now).sent, a)
    ensures Own(DrivenFast(a, x, speed, now).sent, a) && Own(DrivenSlow(a, x, gear, now).sent, a)
  {
  }

  lemma {:induction false} StopHeard(link: Link, s: State, n: nat, a: nat)
    requires Shaped(s) && n <= AXES && a < AXES
    ensures Told(link, a, StopTo(s, n).wire)
            == if a < n
               then Hear(Told(link, a, s.wire), a, Taken(link, |StopTo(s, a).wire|, Stopped(a, s.axes[a]).sent))
               else Told(link, a, s.wire)
    decreases n
  {
    hide Told, Taken, Hear, Own, Stopped;
    if n > 0 {
      StopHeard(link, s, n - 1, a);
      StoppedAxis(s, n - 1, n - 1);
      var p := StopTo(s, n - 1);
      OwnMoves(p.axes[n - 1], n - 1, 0, 0, 0.0);
      ApplyHeard(link, p, n - 1, Stopped(n - 1, p.axes[n - 1]), a);
    }
  }

  lemma {:induction false} TickHeard(link: Link, s: State, n: nat, now: real, a: nat)
    requires Shaped(s) && n <= AXES && a < AXES
    ensures Told(link, a, TickTo(s, n, now).wire)
            == if a < n
               then Hear(Told(link, a, s.wire), a,
                         Taken(link, |TickTo(s, a, now).wire|, Ticked(a, s.axes[a], now).sent))
               else Told(link, a, s.wire)
    decreases n
  {
    hide Told, Taken, Hear, Own, Ticked;
    if n > 0 {
      TickHeard(link, s, n - 1, now, a);
      TickedAxis(s, n - 1, now, n - 1);
      var p := TickTo(s, n - 1, now);
      OwnMoves(p.axes[n - 1], n - 1, 0, 0, now);
      ApplyHeard(link, p, n - 1, Ticked(n - 1, p.axes[n - 1], now), a);
    }
  }

  /** How many frames have been handed over when a call comes to the axis. */
  function At(s: State, op: Op, a: nat): nat
    requires Shaped(s) && a < AXES
  {
    if op.StopAll? then |StopTo(s, a).wire|
    else if op.Tick? && op.up then |TickTo(s, a, op.now).wire|
    else |s.wire|
  }

  lemma SilenceHeard(link: Link, a: nat, h: Option<Head>, from: nat)
    ensures Hear(h, a, Taken(link, from, [])) == h
  {
  }

  lemma {:induction false} SetHeard(link: Link, s: State, op: Op, a: nat)
    requires Shaped(s) && a < AXES && op.Set?
    ensures Told(link, a, Step(s, op).wire)
            == Hear(Told(link, a, s.wire), a, Taken(link, |s.wire|, MoveOf(s, op, a).sent))
  {
    SilenceHeard(link, a, Told(link, a, s.wire), |s.wire|);
    hide Told, Taken, Hear, Own, Stopped, DrivenFast, DrivenSlow;
    if OnAxis(op.axis) {
      var x := s.axes[op.axis];
      OwnMoves(x, op.axis, op.speed, op.gear, op.now);
      if op.speed == 0 && op.gear == 0 {
        ApplyHeard(link, s, op.axis, Stopped(op.axis, x), a);
      } else if op.up && op.speed != 0 {
        ApplyHeard(link, s, op.axis, DrivenFast(op.axis, x, op.speed, op.now), a);
      } else if op.up {
        ApplyHeard(link, s, op.axis, DrivenSlow(op.axis, x, op.gear, op.now), a);
      }
    }
  }

  lemma {:induction false} StopOneHeard(link: Link, s: State, op: Op, a: nat)
    requires Shaped(s) && a < AXES && op.Stop?
    ensures Told(link, a, Step(s, op).wire)
            == Hear(Told(link, a, s.wire), a, Taken(link, |s.wire|, MoveOf(s, op, a).sent))
  {
    SilenceHeard(link, a, Told(link, a, s.wire), |s.wire|);
    hide Told, Taken, Hear, Own, Stopped;
    if OnAxis(op.axis) {
      OwnMoves(s.axes[op.axis], op.axis, 0, 0, 0.0);
      ApplyHeard(link, s, op.axis, Stopped(op.axis, s.axes[op.axis]), a);
    }
  }

  lemma {:induction false} SweepHeard(link: Link, s: State, op: Op, a: nat)
    requires Shaped(s) && a < AXES && (op.StopAll? || op.Tick?)
    ensures Told(link, a, Step(s, op).wire)
            == Hear(Told(link, a, s.wire), a, Taken(link, At(s, op, a), MoveOf(s, op, a).sent))
  {
    SilenceHeard(link, a, Told(link, a, s.wire), |s.wire|);
    hide Told, Taken, Hear, StopTo, TickTo, Own, Stopped, Ticked;
    if op.StopAll? {
      StopHeard(link, s, AXES, a);
    } else if op.up {
      TickHeard(link, s, AXES, op.now, a);
    }
  }

  /** Of a call, the head on an axis hears exactly the frames of that axis's move that the link takes. */
  lemma {:induction false} StepHeard(link: Link, s: State, op: Op, a: nat)
    requires Shaped(s) && a < AXES
    ensures Told(link, a, Step(s, op).wire)
            == Hear(Told(link, a, s.wire), a, Taken(link, At(s, op, a), MoveOf(s, op, a).sent))
  {
    hide Told, Taken, Hear, Step, MoveOf;
    match op
    case Set(axis, speed, gear, now, up) => SetHeard(link, s, op, a);
    case Stop(axis) => StopOneHeard(link, s, op, a);
    case StopAll => SweepHeard(link, s, op, a);
    case Tick(now, up) => SweepHeard(link, s, op, a);
  }

  // ----------------------------------------------------- what a head now holds

  /** The frame ends a motion. */
  predicate Ends(f: Frame) {
    if f.Fast? then f.speed == 0 else !f.press
  }

  /** The link takes the frame with which the move ends the motion on record. */
  predicate Closes(link: Link, at: nat, m: Move) {
    m.sent != [] && Ends(m.sent[0]) && link(at)
  }

  /** The link takes the frame with which the move starts or repeats a motion. */
  predicate Opens(link: Link, at: nat, m: Move) {
    m.sent != [] && !Ends(m.sent[|m.sent| - 1]) && link(at + |m.sent| - 1)
  }

  /** What a head that held `k` is left with when told to end the motion on record `x`: a zero ends no press. */
  function Ended(x: Axis, k: Axis): Axis {
    if x.pressed || !k.pressed then IDLE else k
  }

  function Left(link: Link, at: nat, x: Axis, m: Move, k: Axis): Axis {
    if Closes(link, at, m) then Ended(x, k) else k
  }

  /** The motion a head holds after the move, as a record: the last it was told to start and not told to end. */
  function Held(link: Link, at: nat, x: Axis, m: Move, k: Axis): Axis {
    if Opens(link, at, m) then m.axis else Left(link, at, x, m, k)
  }

  /** The head holding `k` is told to release another press, or to start what its present motion forbids. */
  predicate Offends(link: Link, at: nat, a: nat, x: Axis, m: Move, k: Axis) {
    || (Closes(link, at, m) && x.pressed && Believed(a, k).press != Believed(a, x).press)
    || (Opens(link, at, m)
        && var left := Left(link, at, x, m, k); left.pressed || (left.speed != 0 && m.axis.pressed))
  }

  /** The motion the head on the axis holds after a run, by what it was last told to start and to end. */
  function Holds(link: Link, ops: seq<Op>, a: nat): Axis
    requires a < AXES
    decreases |ops|
  {
    if ops == [] then IDLE
    else
      var before, op := ops[..|ops| - 1], ops[|ops| - 1];
      var s := Run(START, before);
      Held(link, At(s, op, a), s.axes[a], MoveOf(s, op, a), Holds(link, before, a))
  }

  /** Call j offends the head on the axis. */
  ghost predicate Clashes(link: Link, ops: seq<Op>, j: nat, a: nat)
    requires a < AXES
  {
    j < |ops| &&
    var s := Run(START, ops[..j]);
    Offends(link, At(s, ops[j], a), a, s.axes[a], MoveOf(s, ops[j], a), Holds(link, ops[..j], a))
  }

  ghost predicate Clashed(link: Link, ops: seq<Op>, a: nat)
    requires a < AXES
  {
    exists j: nat :: Clashes(link, ops, j, a)
  }

  // A move as a head sees it, whatever the head holds and whichever of its frames the link takes.
  ghost predicate Fits(link: Link, at: nat, a: nat, x: Axis, m: Move, k: Axis) {
    && Sound(Held(link, at, x, m, k))
    && Watch(Believed(a, k), a, Taken(link, at, m.sent))
       == if Offends(link, at, a, x, m, k) then None else Some(Believed(a, Held(link, at, x, m, k)))
  }

  /** What a head makes of one frame, if the link takes it. */
  function Gets(link: Link, at: nat, a: nat, h: Head, f: Frame): Option<Head> {
    if link(at) then Observe(h, a, f) else Some(h)
  }

  lemma {:induction false} MoveHeard(link: Link, at: nat, m: Move, a: nat, h: Head)
    ensures |m.sent| == 0 ==> Watch(h, a, Taken(link, at, m.sent)) == Some(h)
    ensures |m.sent| == 1 ==> Watch(h, a, Taken(link, at, m.sent)) == Gets(link, at, a, h, m.sent[0])
    ensures |m.sent| == 2 ==>
              var first := Gets(link, at, a, h, m.sent[0]);
              Watch(h, a, Taken(link, at, m.sent))
              == if first.None? then None else Gets(link, at + 1, a, first.value, m.sent[1])
  {
    hide Observe, Watch, Taken;
    TakenShort(link, at, m.sent);
    Unroll(Taken(link, at, m.sent), a, h);
  }

  lemma {:induction false} StoppedFits(link: Link, at: nat, a: nat, x: Axis, k: Axis)
    requires a < AXES && Sound(x) && Sound(k)
    ensures Fits(link, at, a, x, Stopped(a, x), k)
  {
    hide Watch, Taken;
    MoveHeard(link, at, Stopped(a, x), a, Believed(a, k));
  }

  lemma {:induction false} DrivenFastFits(link: Link, at: nat, a: nat, x: Axis, k: Axis, speed: int, now: real)
    requires a < AXES && Sound(x) && Sound(k) && speed != 0
    ensures Fits(link, at, a, x, DrivenFast(a, x, speed, now), k)
  {
    hide Watch, Taken;
    MoveHeard(link, at, DrivenFast(a, x, speed, now), a, Believed(a, k));
  }

  lemma {:induction false} DrivenSlowFits(link: Link, at: nat, a: nat, x: Axis, k: Axis, gear: int, now: real)
    requires a < AXES && Sound(x) && Sound(k)
    ensures Fits(link, at, a, x, DrivenSlow(a, x, gear, now), k)
  {
    hide Watch, Taken;
    MoveHeard(link, at, DrivenSlow(a, x, gear, now), a, Believed(a, k));
  }

  lemma {:induction false} SilentFits(link: Link, at: nat, a: nat, x: Axis, m: Move, k: Axis)
    requires Sound(k) && m.sent == []
    ensures Fits(link, at, a, x, m, k)
  {
  }

  lemma {:induction false} RepeatFits(link: Link, at: nat, a: nat, x: Axis, k: Axis, next: real)
    requires a < AXES && Sound(x) && Sound(k) && x.speed != 0
    ensures Fits(link, at, a, x, Move(x.(next := next), [Fast(FastOp(a), x.speed)]), k)
  {
    hide Watch, Taken;
    MoveHeard(link, at, Move(x.(next := next), [Fast(FastOp(a), x.speed)]), a, Believed(a, k));
  }

  lemma {:induction false} TickedFits(link: Link, at: nat, a: nat, x: Axis, k: Axis, now: real)
    requires a < AXES && Sound(x) && Sound(k)
    ensures Fits(link, at, a, x, Ticked(a, x, now), k)
  {
    hide Fits, Stopped, Sound;
    StoppedFits(link, at, a, x, k);
    SilentFits(link, at, a, x, Move(x, []), k);
    if x.speed != 0 {
      RepeatFits(link, at, a, x, k, now + REPEAT_MS);
    }
  }

  lemma {:induction false} MoveFits(link: Link, s: State, op: Op, a: nat, k: Axis)
    requires Shaped(s) && a < AXES && Sound(s.axes[a]) && Sound(k)
    ensures Fits(link, At(s, op, a), a, s.axes[a], MoveOf(s, op, a), k)
  {
    hide Fits, Stopped, DrivenFast, DrivenSlow, Ticked, Sound, At;
    var x, at := s.axes[a], At(s, op, a);
    SilentFits(link, at, a, x, Move(x, []), k);
    SilentFits(link, at, a, x, Move(IDLE, []), k);
    StoppedFits(link, at, a, x, k);
    match op
    case Set(axis, speed, gear, now, up) =>
      DrivenSlowFits(link, at, a, x, k, gear, now);
      if speed != 0 {
        DrivenFastFits(link, at, a, x, k, speed, now);
      }
    case Stop(axis) =>
    case StopAll =>
    case Tick(now, up) => TickedFits(link, at, a, x, k, now);
  }

  lemma {:induction false} HoldsSound(link: Link, ops: seq<Op>, a: nat)
    requires a < AXES
    ensures Sound(Holds(link, ops, a))
    decreases |ops|
  {
    assert Sound(IDLE);
    hide Step, MoveOf, At, Held, Sound;
    if ops != [] {
      var before := ops[..|ops| - 1];
      HoldsSound(link, before, a);
      RecordsSound(before, a);
      MoveFits(link, Run(START, before), ops[|ops| - 1], a, Holds(link, before, a));
    }
  }

  lemma {:induction false} ClashedNow(link: Link, ops: seq<Op>, a: nat)
    requires a < AXES && ops != []
    ensures Clashed(link, ops, a) <==> Clashed(link, ops[..|ops| - 1], a) || Clashes(link, ops, |ops| - 1, a)
  {
    hide Run, Holds, Offends, At, MoveOf;
    var before := ops[..|ops| - 1];
    if j: nat :| Clashes(link, before, j, a) {
      ClashesBefore(link, ops, j, a);
    }
    if j: nat :| Clashes(link, ops, j, a) && j < |before| {
      ClashesBefore(link, ops, j, a);
    }
  }

  /**
   Wire discipline over every run and every link, which may refuse any frame: on each axis presses and
   releases alternate, a release names its press's key and level, levels are 1..5, no non-zero fast frame
   falls inside a press, no press falls inside a fast run and fast speeds are 100..2500, exactly unless some
   call offends what the head then holds; and until one does, the head was told what `Holds` says.
   */
  lemma {:induction false} WireDiscipline(link: Link, ops: seq<Op>, a: nat)
    requires a < AXES
    ensures Told(link, a, Run(START, ops).wire)
            == if Clashed(link, ops, a) then None else Some(Believed(a, Holds(link, ops, a)))
    decreases |ops|
  {
    hide Step, MoveOf, At, Held, Believed, Clashed, Sound, Offends, Watch, Taken;
    if ops == [] {
      NothingYet(link, a);
    } else {
      var before, op := ops[..|ops| - 1], ops[|ops| - 1];
      WireDiscipline(link, before, a);
      RecordsSound(before, a);
      HoldsSound(link, before, a);
      StepHeard(link, Run(START, before), op, a);
      MoveFits(link, Run(START, before), op, a, Holds(link, before, a));
      ClashedNow(link, ops, a);
    }
  }

  lemma NothingYet(link: Link, a: nat)
    requires a < AXES
    ensures Told(link, a, START.wire) == Some(Believed(a, IDLE)) && !Clashed(link, [], a)
  {
  }

  // ---------------------------------------------------- motions left standing

  predicate OpensAt(link: Link, ops: seq<Op>, i: nat, a: nat)
    requires a < AXES && i < |ops|
  {
    var s := Run(START, ops[..i]);
    Opens(link, At(s, ops[i], a), MoveOf(s, ops[i], a))
  }

  /** Call i tells the head to end a motion like `k`. */
  predicate EndsAt(link: Link, ops: seq<Op>, i: nat, a: nat, k: Axis)
    requires a < AXES && i < |ops|
  {
    var s := Run(START, ops[..i]);
    Closes(link, At(s, ops[i], a), MoveOf(s, ops[i], a)) && (s.axes[a].pressed || !k.pressed)
  }

  /** Call i set the head moving, and nothing the link took since has told it to end that or to move otherwise. */
  ghost predicate Standing(link: Link, ops: seq<Op>, i: nat, a: nat)
    requires a < AXES
  {
    && i < |ops| && OpensAt(link, ops, i, a)
    && forall j :: i < j < |ops| ==>
         !OpensAt(link, ops, j, a) && !EndsAt(link, ops, j, a, Run(START, ops[..i + 1]).axes[a])
  }

  lemma {:induction false} OpenedMoves(s: State, op: Op, a: nat)
    requires Shaped(s) && a < AXES && Sound(s.axes[a])
    ensures
      var m := MoveOf(s, op, a);
      m.sent != [] && !Ends(m.sent[|m.sent| - 1]) ==> Moving(m.axis)
  {
  }

  lemma {:induction false} StandingBefore(link: Link, ops: seq<Op>, i: nat, a: nat)
    requires a < AXES && i < |ops| - 1
    ensures
      var last := |ops| - 1;
      Standing(link, ops, i, a)
      <==> Standing(link, ops[..last], i, a) && !OpensAt(link, ops, last, a)
           && !EndsAt(link, ops, last, a, Run(START, ops[..i + 1]).axes[a])
  {
    hide OpensAt, EndsAt, Run;
    var before := ops[..|ops| - 1];
    assert before[..i + 1] == ops[..i + 1];
    var k := Run(START, ops[..i + 1]).axes[a];
    SameCall(link, ops, i, a, k);
    forall j: nat | i < j < |before|
      ensures OpensAt(link, before, j, a) <==> OpensAt(link, ops, j, a)
      ensures EndsAt(link, before, j, a, k) <==> EndsAt(link, ops, j, a, k)
    {
      SameCall(link, ops, j, a, k);
    }
  }

  lemma {:induction false} SameCall(link: Link, ops: seq<Op>, j: nat, a: nat, k: Axis)
    requires a < AXES && j < |ops| - 1
    ensures OpensAt(link, ops[..|ops| - 1], j, a) <==> OpensAt(link, ops, j, a)
    ensures EndsAt(link, ops[..|ops| - 1], j, a, k) <==> EndsAt(link, ops, j, a, k)
  {
    hide Run, At, MoveOf, Opens, Closes;
    assert ops[..|ops| - 1][..j] == ops[..j];
  }

  /** The head holds a motion exactly when some call's has been left standing, and then it holds that one. */
  lemma {:induction false} HoldsStanding(link: Link, ops: seq<Op>, a: nat, i: nat)
    requires a < AXES && Standing(link, ops, i, a)
    ensures Moving(Holds(link, ops, a)) && Holds(link, ops, a) == Run(START, ops[..i + 1]).axes[a]
    decreases |ops|
  {
    hide Step, At, MoveOf, Moving;
    var last := |ops| - 1;
    var s := Run(START, ops[..last]);
    RecordsSound(ops[..last], a);
    StepMoves(s, ops[last], a);
    OpenedMoves(s, ops[last], a);
    if i == last {
      assert ops[..i + 1] == ops && ops[..i + 1][..i] == ops[..i];
    } else {
      StandingBefore(link, ops, i, a);
      HoldsStanding(link, ops[..last], a, i);
      assert ops[..last][..i + 1] == ops[..i + 1];
    }
  }

  /** A call that starts nothing leaves the head a motion only if it was the one it held and was not ended. */
  lemma {:induction false} KeptMotion(link: Link, ops: seq<Op>, a: nat)
    requires a < AXES && ops != [] && !OpensAt(link, ops, |ops| - 1, a) && Moving(Holds(link, ops, a))
    ensures
      var before := ops[..|ops| - 1];
      Holds(link, ops, a) == Holds(link, before, a) && !EndsAt(link, ops, |ops| - 1, a, Holds(link, before, a))
  {
    hide Step, At, MoveOf, Run;
  }

  lemma {:induction false} StandingFrom(link: Link, ops: seq<Op>, a: nat) returns (i: nat)
    requires a < AXES && Moving(Holds(link, ops, a))
    ensures Standing(link, ops, i, a)
    decreases |ops|
  {
    hide Step, At, MoveOf, Run;
    var last := |ops| - 1;
    i := last;
    if !OpensAt(link, ops, last, a) {
      var before := ops[..last];
      i := StandingFrom(link, before, a);
      HoldsStanding(link, before, a, i);
      assert before[..i + 1] == ops[..i + 1];
      KeptMotion(link, ops, a);
      StandingBefore(link, ops, i, a);
    }
  }

  /**
   Once no call has renewed an axis for 400 ms, a tick leaves its head told to stand still, whatever the link
   refuses, exactly unless some call has clashed or some motion the head was told is left standing.
   */
  lemma {:induction false} SilenceStops(link: Link, ops: seq<Op>, now: real, axis: nat)
    requires axis < AXES
    requires forall i :: 0 <= i < |ops| && Renews(ops[i], axis) ==> now - ops[i].now >= LEASE_MS
    ensures
      var all := ops + [Tick(now, true)];
      && !Moving(Run(START, all).axes[axis])
      && (Told(link, axis, Run(START, all).wire) == Some(REST)
          <==> !Clashed(link, all, axis) && forall i: nat :: !Standing(link, all, i, axis))
  {
    hide Told, Clashed, Run, Standing;
    var all := ops + [Tick(now, true)];
    WireDiscipline(link, all, axis);
    if Moving(Run(START, all).axes[axis]) {
      DeadMan(ops, now, axis);
      assert false;
    }
    HoldsSound(link, all, axis);
    if Moving(Holds(link, all, axis)) {
      var i := StandingFrom(link, all, axis);
    } else if i: nat :| Standing(link, all, i, axis) {
      HoldsStanding(link, all, axis, i);
      assert false;
    }
  }

  /** The head moves as asked: direction as given, magnitude within its range. */
  predicate AsAsked(h: Head, speed: int, gear: int) {
    if speed != 0
    then h.press == None && (h.fast > 0 <==> speed > 0)
         && (100 <= Magnitude(speed) <= 2500 ==> h.fast == speed)
         && (Magnitude(speed) < 100 ==> Magnitude(h.fast) == 100)
         && (Magnitude(speed) > 2500 ==> Magnitude(h.fast) == 2500)
    else h.fast == 0 && h.press.Some?
         && (h.press.value.0 == 1 <==> gear < 0) && (h.press.value.0 == 0 <==> gear > 0)
         && h.press.value.1 == Clamp(Magnitude(gear), 1, 5)
  }

  /** The head holds what the record of the axis says. */
  predicate InStep(link: Link, ops: seq<Op>, a: nat)
    requires a < AXES
  {
    Believed(a, Holds(link, ops, a)) == Believed(a, Run(START, ops).axes[a])
  }

  lemma {:induction false} AcceptedAsked(s: State, axis: nat, speed: int, gear: int, now: real)
    requires Shaped(s) && axis < AXES && (speed != 0 || gear != 0)
    ensures AsAsked(Believed(axis, Step(s, Set(axis, speed, gear, now, true)).axes[axis]), speed, gear)
  {
  }

  /** Two heads told the same wish agree in all but how a fast one is bounded. */
  lemma {:induction false} AskedOnce(g: Head, h: Head, speed: int, gear: int)
    requires AsAsked(g, speed, gear) && AsAsked(h, speed, gear) && (speed != 0 || gear != 0)
    requires g.press.Some? ==> 0 <= g.press.value.0 <= 1
    requires h.press.Some? ==> 0 <= h.press.value.0 <= 1
    ensures g == h
  {
  }

  /**
   A call accepted while the link is up leaves the head told what was asked exactly if nothing has clashed,
   the call included, and the head holds what the record says. It does if the link takes the frame that starts
   the motion; and a call that need not send one leaves head and record agreed or not, as they were.
   */
  lemma {:induction false} HeadDoesAsAsked(link: Link, ops: seq<Op>, axis: nat, speed: int, gear: int, now: real)
    requires axis < AXES && (speed != 0 || gear != 0)
    ensures
      var op := Set(axis, speed, gear, now, true);
      var all, s := ops + [op], Run(START, ops);
      var told, m := Told(link, axis, Run(START, all).wire), MoveOf(s, op, axis);
      && (told.Some? <==> !Clashed(link, all, axis))
      && (told.Some? ==> (AsAsked(told.value, speed, gear) <==> InStep(link, all, axis)))
      && (m.sent != [] && link(|s.wire| + |m.sent| - 1) ==> InStep(link, all, axis))
      && (m.sent == [] ==> (InStep(link, all, axis) <==> InStep(link, ops, axis)))
  {
    hide Clashed, Told, Holds, Run, AsAsked, Step, MoveOf, Believed;
    var op := Set(axis, speed, gear, now, true);
    var all, s := ops + [op], Run(START, ops);
    WireDiscipline(link, all, axis);
    Following(link, ops, op, axis);
    AcceptedAsked(s, axis, speed, gear, now);
    if !Clashed(link, all, axis) && AsAsked(Believed(axis, Holds(link, all, axis)), speed, gear) {
      KeysAreBits(axis, Holds(link, all, axis));
      KeysAreBits(axis, Step(s, op).axes[axis]);
      AskedOnce(Believed(axis, Holds(link, all, axis)), Believed(axis, Step(s, op).axes[axis]), speed, gear);
    }
    RecordsSound(ops, axis);
    DrivenOpens(s, op, axis);
  }

  /** One call more. */
  lemma {:induction false} Following(link: Link, ops: seq<Op>, op: Op, a: nat)
    requires a < AXES
    ensures
      var all, s := ops + [op], Run(START, ops);
      && Run(START, all) == Step(s, op) && Step(s, op).axes[a] == MoveOf(s, op, a).axis
      && Holds(link, all, a) == Held(link, At(s, op, a), s.axes[a], MoveOf(s, op, a), Holds(link, ops, a))
  {
    hide Step, MoveOf, At, Held;
    var all := ops + [op];
    assert all[..|all| - 1] == ops;
    StepMoves(Run(START, ops), op, a);
  }

  lemma KeysAreBits(a: nat, k: Axis)
    ensures Believed(a, k).press.Some? ==> 0 <= Believed(a, k).press.value.0 <= 1
  {
  }

  /** A renewal's last frame, if it sends any, starts the motion; if it sends none the record meant the same before. */
  lemma DrivenOpens(s: State, op: Op, a: nat)
    requires Shaped(s) && a < AXES && Renews(op, a) && Sound(s.axes[a])
    ensures
      var m := MoveOf(s, op, a);
      && At(s, op, a) == |s.wire| && Moving(m.axis)
      && (m.sent != [] ==> !Ends(m.sent[|m.sent| - 1]))
      && (m.sent == [] ==> Believed(a, m.axis) == Believed(a, s.axes[a]) && Moving(s.axes[a]))
  {
  }

  // ------------------------------------------------------- losses and renewals

  /** The link takes every frame of a call that renews the axis; it may refuse any stop and any repeat. */
  ghost predicate Steady(link: Link, ops: seq<Op>, a: nat)
    requires a < AXES
  {
    forall j :: 0 <= j < |ops| && Renews(ops[j], a) ==> TakesAll(link, Run(START, ops[..j]), ops[j], a)
  }

  predicate TakesAll(link: Link, s: State, op: Op, a: nat)
    requires Shaped(s) && a < AXES
  {
    forall n :: At(s, op, a) <= n < At(s, op, a) + |MoveOf(s, op, a).sent| ==> link(n)
  }

  /** The call leaves a moving axis idle and the link takes nothing of it: a stop refused, or a tick without a link. */
  predicate Drops(link: Link, s: State, op: Op, a: nat)
    requires Shaped(s) && a < AXES
  {
    var m := MoveOf(s, op, a);
    Moving(s.axes[a]) && !Moving(m.axis) && !Closes(link, At(s, op, a), m)
  }

  predicate Loses(link: Link, ops: seq<Op>, i: nat, a: nat)
    requires a < AXES
  {
    i < |ops| && Drops(link, Run(START, ops[..i]), ops[i], a)
  }

  /** Since loss i no call has renewed the axis. */
  ghost predicate Unanswered(link: Link, ops: seq<Op>, i: nat, a: nat)
    requires a < AXES
  {
    Loses(link, ops, i, a) && forall j :: i < j < |ops| ==> !Renews(ops[j], a)
  }

  /**
   Call j is the first to renew the axis after loss i, and asks for what the head cannot take: anything
   while it holds a press, a press while it runs fast.
   */
  ghost predicate Collides(link: Link, ops: seq<Op>, i: nat, j: nat, a: nat)
    requires a < AXES
  {
    && i < j < |ops| && Unanswered(link, ops[..j], i, a) && Renews(ops[j], a)
    && (Run(START, ops[..i]).axes[a].pressed || ops[j].speed == 0)
  }

  /** On a steady link a call keeps head and record agreed while the record moves; only a loss parts them. */
  lemma {:induction false} SteadyMove(link: Link, s: State, op: Op, a: nat, k: Axis)
    requires Shaped(s) && a < AXES && Sound(s.axes[a]) && Sound(k)
    requires Moving(s.axes[a]) ==> Believed(a, k) == Believed(a, s.axes[a])
    requires Renews(op, a) ==> TakesAll(link, s, op, a)
    ensures
      var x, m, at := s.axes[a], MoveOf(s, op, a), At(s, op, a);
      var next := Held(link, at, x, m, k);
      && (Moving(m.axis) ==> Believed(a, next) == Believed(a, m.axis))
      && (Moving(m.axis) ==> Renews(op, a) || Moving(x))
      && (Renews(op, a) ==> Moving(m.axis))
      && (!Moving(m.axis) && Moving(x) ==> if Drops(link, s, op, a) then next == k else !Moving(next))
      && (!Moving(m.axis) && !Moving(x) ==> next == k)
      && (Offends(link, at, a, x, m, k)
          <==> !Moving(x) && Renews(op, a) && (k.pressed || (k.speed != 0 && op.speed == 0)))
  {
  }

  lemma {:induction false} SteadyBefore(link: Link, ops: seq<Op>, a: nat)
    requires a < AXES && ops != [] && Steady(link, ops, a)
    ensures Steady(link, ops[..|ops| - 1], a)
    ensures Renews(ops[|ops| - 1], a) ==> TakesAll(link, Run(START, ops[..|ops| - 1]), ops[|ops| - 1], a)
  {
    hide Run, TakesAll;
    var before := ops[..|ops| - 1];
    forall j | 0 <= j < |before| && Renews(before[j], a)
      ensures TakesAll(link, Run(START, before[..j]), before[j], a)
    {
      assert before[..j] == ops[..j];
    }
  }

  /** While the record moves, the head holds what it says. */
  lemma {:induction false} SteadyInStep(link: Link, ops: seq<Op>, a: nat)
    requires a < AXES && Steady(link, ops, a) && Moving(Run(START, ops).axes[a])
    ensures InStep(link, ops, a)
    decreases |ops|
  {
    hide Step, MoveOf, Believed, Moving, Sound;
    if ops != [] {
      SteadyLast(link, ops, a);
    } else {
      assert Holds(link, ops, a) == Run(START, ops).axes[a];
    }
  }

  /** What the last call of a steady run does. */
  lemma {:induction false} SteadyLast(link: Link, ops: seq<Op>, a: nat)
    requires a < AXES && ops != [] && Steady(link, ops, a)
    ensures
      var before, op := ops[..|ops| - 1], ops[|ops| - 1];
      var s, t, k, next := Run(START, before), Run(START, ops), Holds(link, before, a), Holds(link, ops, a);
      && (Moving(s.axes[a]) ==> InStep(link, before, a))
      && (Moving(t.axes[a]) ==> InStep(link, ops, a) && (Renews(op, a) || Moving(s.axes[a])))
      && (Renews(op, a) ==> Moving(t.axes[a]))
      && (!Moving(t.axes[a]) && Moving(s.axes[a]) ==>
            if Loses(link, ops, |before|, a) then next == k else !Moving(next))
      && (!Moving(t.axes[a]) && !Moving(s.axes[a]) ==> next == k)
      && (Loses(link, ops, |before|, a) ==> Moving(s.axes[a]) && !Moving(t.axes[a]))
      && (Clashes(link, ops, |before|, a)
          <==> !Moving(s.axes[a]) && Renews(op, a) && (k.pressed || (k.speed != 0 && op.speed == 0)))
    decreases |ops|, 0
  {
    hide Step, MoveOf, At, Held, Offends, Believed, Moving, Sound, Closes;
    var before, op := ops[..|ops| - 1], ops[|ops| - 1];
    var s := Run(START, before);
    SteadyBefore(link, ops, a);
    if Moving(s.axes[a]) {
      SteadyInStep(link, before, a);
    }
    RecordsSound(before, a);
    HoldsSound(link, before, a);
    StepMoves(s, op, a);
    SteadyMove(link, s, op, a, Holds(link, before, a));
  }

  lemma {:induction false} UnansweredBefore(link: Link, ops: seq<Op>, i: nat, a: nat)
    requires a < AXES && i < |ops| - 1
    ensures Unanswered(link, ops, i, a)
            <==> Unanswered(link, ops[..|ops| - 1], i, a) && !Renews(ops[|ops| - 1], a)
  {
    hide Run, Drops, Renews;
    assert ops[..|ops| - 1][..i] == ops[..i];
  }

  /** From a loss to the next renewal the record stands idle and the head keeps the motion the record had. */
  lemma {:induction false} LossKeeps(link: Link, ops: seq<Op>, i: nat, a: nat)
    requires a < AXES && Steady(link, ops, a) && Unanswered(link, ops, i, a)
    ensures i < |ops| && !Moving(Run(START, ops).axes[a]) && Moving(Run(START, ops[..i]).axes[a])
    ensures Believed(a, Holds(link, ops, a)) == Believed(a, Run(START, ops[..i]).axes[a])
    decreases |ops|
  {
    hide Run, Holds, Drops, Believed, Moving, Renews, Clashes;
    var before := ops[..|ops| - 1];
    SteadyLast(link, ops, a);
    if i < |before| {
      SteadyBefore(link, ops, a);
      UnansweredBefore(link, ops, i, a);
      hide Steady, Unanswered, Loses;
      LossKeeps(link, before, i, a);
      assert before[..i] == ops[..i];
    }
  }

  lemma {:induction false} LossFrom(link: Link, ops: seq<Op>, a: nat) returns (i: nat)
    requires a < AXES && Steady(link, ops, a) && !Moving(Run(START, ops).axes[a]) && Moving(Holds(link, ops, a))
    ensures Unanswered(link, ops, i, a) && i < |ops|
    decreases |ops|
  {
    if ops == [] {
      assert false;
    }
    hide Run, Holds, Drops, Believed, Moving, Renews, Clashes, Steady;
    SteadyLast(link, ops, a);
    i := |ops| - 1;
    if !Loses(link, ops, i, a) {
      SteadyBefore(link, ops, a);
      i := LossFrom(link, ops[..|ops| - 1], a);
      UnansweredBefore(link, ops, i, a);
    }
  }

  lemma SameMotion(a: nat, k: Axis, x: Axis)
    requires Believed(a, k) == Believed(a, x)
    ensures (k.pressed <==> x.pressed) && k.speed == x.speed && (Moving(k) <==> Moving(x))
  {
  }

  /** The last call of a steady run clashes exactly when it collides with some loss. */
  lemma {:induction false} CollisionNow(link: Link, ops: seq<Op>, a: nat)
    requires a < AXES && ops != [] && Steady(link, ops, a)
    ensures
      var last := |ops| - 1;
      Clashes(link, ops, last, a) <==> exists i: nat :: Collides(link, ops, i, last, a)
  {
    hide Run, Holds, Believed, Clashes, Steady, Loses, Renews;
    var last := |ops| - 1;
    var before := ops[..last];
    SteadyLast(link, ops, a);
    SteadyBefore(link, ops, a);
    if Clashes(link, ops, last, a) {
      var i := LossFrom(link, before, a);
      LossKeeps(link, before, i, a);
      SameMotion(a, Holds(link, before, a), Run(START, before[..i]).axes[a]);
      assert before[..i] == ops[..i];
      assert Collides(link, ops, i, last, a);
    }
    if i: nat :| Collides(link, ops, i, last, a) {
      LossKeeps(link, before, i, a);
      SameMotion(a, Holds(link, before, a), Run(START, before[..i]).axes[a]);
      assert before[..i] == ops[..i];
    }
  }

  lemma {:induction false} ClashIsCollision(link: Link, ops: seq<Op>, j: nat, a: nat)
    requires a < AXES && Steady(link, ops, a) && j < |ops|
    ensures Clashes(link, ops, j, a) <==> exists i: nat :: Collides(link, ops, i, j, a)
    decreases |ops|
  {
    hide Steady, Clashes, Collides;
    if j == |ops| - 1 {
      CollisionNow(link, ops, a);
    } else {
      var before := ops[..|ops| - 1];
      SteadyBefore(link, ops, a);
      ClashIsCollision(link, before, j, a);
      ClashesBefore(link, ops, j, a);
      if i: nat :| Collides(link, before, i, j, a) {
        CollidesBefore(link, ops, i, j, a);
      }
      if i: nat :| Collides(link, ops, i, j, a) {
        CollidesBefore(link, ops, i, j, a);
      }
    }
  }

  lemma {:induction false} ClashesBefore(link: Link, ops: seq<Op>, j: nat, a: nat)
    requires a < AXES && j < |ops| - 1
    ensures Clashes(link, ops[..|ops| - 1], j, a) <==> Clashes(link, ops, j, a)
  {
    hide Run, Holds, Offends, At, MoveOf;
    assert ops[..|ops| - 1][..j] == ops[..j];
  }

  lemma {:induction false} CollidesBefore(link: Link, ops: seq<Op>, i: nat, j: nat, a: nat)
    requires a < AXES && j < |ops| - 1
    ensures Collides(link, ops[..|ops| - 1], i, j, a) <==> Collides(link, ops, i, j, a)
  {
    hide Run, Unanswered, Renews;
    assert ops[..|ops| - 1][..j] == ops[..j];
    if i < j {
      assert ops[..|ops| - 1][..i] == ops[..i];
    }
  }

  lemma {:induction false} ClashedIsCollided(link: Link, ops: seq<Op>, a: nat)
    requires a < AXES && Steady(link, ops, a)
    ensures Clashed(link, ops, a) <==> exists i: nat, j: nat :: Collides(link, ops, i, j, a)
  {
    hide Steady, Run, Offends, Unanswered;
    if j: nat :| Clashes(link, ops, j, a) {
      ClashIsCollision(link, ops, j, a);
    }
    if i: nat, j: nat :| Collides(link, ops, i, j, a) {
      ClashIsCollision(link, ops, j, a);
    }
  }

  lemma LossStands(link: Link, ops: seq<Op>, i: nat, a: nat)
    requires a < AXES && Steady(link, ops, a) && Unanswered(link, ops, i, a)
    ensures Moving(Holds(link, ops, a))
  {
    hide Run, Holds, Steady, Unanswered;
    LossKeeps(link, ops, i, a);
    SameMotion(a, Holds(link, ops, a), Run(START, ops[..i]).axes[a]);
  }

  /** Under an idle record the head stands still exactly if no loss is unanswered. */
  lemma {:induction false} IdleHead(link: Link, ops: seq<Op>, a: nat)
    requires a < AXES && Steady(link, ops, a) && !Moving(Run(START, ops).axes[a])
    ensures Believed(a, Holds(link, ops, a)) == REST <==> forall i: nat :: !Unanswered(link, ops, i, a)
  {
    hide Run, Holds, Steady, Unanswered;
    HoldsSound(link, ops, a);
    if Moving(Holds(link, ops, a)) {
      var i := LossFrom(link, ops, a);
    }
    forall i: nat | Unanswered(link, ops, i, a)
      ensures Moving(Holds(link, ops, a))
    {
      LossStands(link, ops, i, a);
    }
  }

  /**
   On a link that may refuse any stop and any repeat, and is down at any tick, but takes what starts a motion:
   the conversation on an axis stays legal exactly unless the first renewal after a loss asks for anything
   while the record had a press, or for a press while it had a fast run. While nothing has clashed, the head
   holds what a moving record says; under an idle one it stands still exactly if no loss is unanswered.
   */
  lemma {:induction false} LossAndRenewal(link: Link, ops: seq<Op>, a: nat)
    requires a < AXES && Steady(link, ops, a)
    ensures
      var told, x := Told(link, a, Run(START, ops).wire), Run(START, ops).axes[a];
      && (told.None? <==> exists i: nat, j: nat :: Collides(link, ops, i, j, a))
      && (told.Some? ==> if Moving(x) then told.value == Believed(a, x)
                         else told.value == REST <==> forall i: nat :: !Unanswered(link, ops, i, a))
  {
    hide Run, Told, Holds, Clashed, Collides, Steady, Unanswered;
    WireDiscipline(link, ops, a);
    ClashedIsCollided(link, ops, a);
    if Moving(Run(START, ops).axes[a]) {
      SteadyInStep(link, ops, a);
    } else {
      IdleHead(link, ops, a);
    }
  }

  /** With a link that is never down and refuses nothing the whole conversation is legal and head and record agree. */
  lemma {:induction false} NothingRefused(link: Link, ops: seq<Op>, a: nat)
    requires a < AXES && (forall n :: link(n)) && forall op <- ops :: op.Tick? ==> op.up
    ensures Told(link, a, Run(START, ops).wire) == Some(Believed(a, Run(START, ops).axes[a]))
  {
    hide Run, Told, At, MoveOf;
    LossAndRenewal(link, ops, a);
    if i: nat, j: nat :| Collides(link, ops, i, j, a) {
      NothingLost(link, ops[..j], i, a);
    }
    forall i: nat
      ensures !Unanswered(link, ops, i, a)
    {
      NothingLost(link, ops, i, a);
    }
  }

  lemma NothingLost(link: Link, ops: seq<Op>, i: nat, a: nat)
    requires a < AXES && (forall n :: link(n)) && forall op <- ops :: op.Tick? ==> op.up
    ensures !Loses(link, ops, i, a)
  {
    hide Drops, Run;
    if i < |ops| {
      assert ops[i] in ops;
      TakenStops(link, Run(START, ops[..i]), ops[i], a);
    }
  }

  lemma TakenStops(link: Link, s: State, op: Op, a: nat)
    requires Shaped(s) && a < AXES && (forall n :: link(n)) && (op.Tick? ==> op.up)
    ensures !Drops(link, s, op, a)
  {
    hide At;
    match op
    case Set(axis, speed, gear, now, up) => assert speed != 0 ==> Wanted(speed) != 0;
    case Stop(axis) =>
    case StopAll =>
    case Tick(now, up) =>
  }

  /** A run of two or three calls, step by step. */
  lemma ShortRun(x: Op, y: Op, z: Op)
    ensures Run(START, [x, y]) == Step(Step(START, x), y)
    ensures Run(START, [x, y, z]) == Step(Step(Step(START, x), y), z)
  {
    hide Step, Run;
    assert [] + [x] == [x] && [x] + [y] == [x, y] && [x, y] + [z] == [x, y, z];
    RunNext([], x);
    RunNext([x], y);
    RunNext([x, y], z);
    RunNone();
  }

  lemma RunNext(ops: seq<Op>, op: Op)
    ensures Run(START, ops + [op]) == Step(Run(START, ops), op)
  {
    hide Step;
    assert (ops + [op])[..|ops|] == ops;
  }

  lemma RunNone()
    ensures Run(START, []) == START
  {
  }

  lemma PressAgain(link: Link, wire: seq<Frame>, press: Frame)
    requires press == SlowFrame(0, 3, true)
    ensures link(0) && wire == [press] ==> Told(link, 0, wire) == Some(Head(Some((0, 3)), 0))
    ensures link(0) && link(1) && wire == [press, press] ==> Told(link, 0, wire) == None
    ensures link(0) && !link(1) && |wire| == 2 && wire[0] == press ==>
              Told(link, 0, wire) == Some(Head(Some((0, 3)), 0))
    ensures link(0) && !link(1) && link(2) && |wire| == 3 && wire[0] == wire[2] == press ==> Told(link, 0, wire) == None
  {
    hide Watch, Taken;
    TakenShort(link, 0, wire);
    if |wire| == 3 {
      TakenShort(link, 0, wire[..2]);
      assert Taken(link, 0, wire) == Taken(link, 0, wire[..2]) + (if link(2) then [wire[2]] else []) by {
        TakenNext(link, wire);
      }
    }
    Unroll(Taken(link, 0, wire), 0, REST);
  }

  lemma TakenNext(link: Link, wire: seq<Frame>)
    requires |wire| == 3
    ensures Taken(link, 0, wire) == Taken(link, 0, wire[..2]) + (if link(2) then [wire[2]] else [])
  {
  }

  /** Two presses with a tick between them that finds the link down: the record is cleared unsent. */
  lemma LossForgetsPress(link: Link, now: real)
    requires link(0) && link(1)
    ensures
      var press := Set(0, 0, 3, now, true);
      Told(link, 0, Run(START, [press, Tick(now, false), press]).wire) == None
  {
    var press, frame := Set(0, 0, 3, now, true), SlowFrame(0, 3, true);
    ShortRun(press, Tick(now, false), press);
    var s := Step(Step(START, press), Tick(now, false));
    assert s.wire == [frame];
    assert Step(s, press).wire == [frame, frame];
    PressAgain(link, Step(s, press).wire, frame);
  }

  /** What a press, a stop of every axis and the same press hand over. */
  lemma PressStopPress(now: real)
    ensures
      var press, frame := Set(0, 0, 3, now, true), SlowFrame(0, 3, true);
      var t := Step(Step(START, press), StopAll);
      t.wire == [frame, SlowFrame(0, 3, false)] && Step(t, press).wire == t.wire + [frame]
  {
    var press, frame := Set(0, 0, 3, now, true), SlowFrame(0, 3, true);
    var s := Step(START, press);
    assert s.wire == [frame];
    assert StopTo(s, 1).wire == [frame, SlowFrame(0, 3, false)];
    assert StopTo(s, 3).wire == StopTo(s, 2).wire == StopTo(s, 1).wire;
    StoppedAxis(s, AXES, 0);
  }

  /** Two presses with a stop between them that the link refuses: the record is cleared, the head still pressed. */
  lemma RefusedStopForgetsPress(link: Link, now: real)
    requires link(0) && !link(1) && link(2)
    ensures
      var press := Set(0, 0, 3, now, true);
      && Told(link, 0, Run(START, [press, StopAll]).wire) == Some(Head(Some((0, 3)), 0))
      && Told(link, 0, Run(START, [press, StopAll, press]).wire) == None
  {
    hide Step, StopTo;
    var press, frame := Set(0, 0, 3, now, true), SlowFrame(0, 3, true);
    ShortRun(press, StopAll, press);
    PressStopPress(now);
    var t := Step(Step(START, press), StopAll);
    PressAgain(link, t.wire, frame);
    PressAgain(link, Step(t, press).wire, frame);
  }
}
