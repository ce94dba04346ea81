/**
 polaris_rate_protocol.py: the rate and jog frames, and the command envelope with its shared clock,
 acceleration limit and watchdog. Rates and times are reals.
 */
module RateModel {
  import opened Words

  // ------------------------------------------------------------------ frames

  predicate OnAxis(axis: int) {
    1 <= axis <= 3
  }

  /** 2^e. */
  function PowerOfTwo(e: int): (r: real)
    ensures r > 0.0
    decreases if e < 0 then -e else e
  {
    if e == 0 then 1.0 else if e > 0 then 2.0 * PowerOfTwo(e - 1) else PowerOfTwo(e + 1) / 2.0
  }

  predicate Finite(bits: word) {
    bits / 0x80_0000 % 256 != 255
  }

  function Magnitude(exponent: nat, fraction: nat): real {
    if exponent == 0 then fraction as real * PowerOfTwo(-149)
    else (0x80_0000 + fraction) as real * PowerOfTwo(exponent - 150)
  }

  /** The value of an IEEE 754 single. */
  function FloatValue(bits: word): real
    requires Finite(bits)
  {
    var magnitude := Magnitude(bits / 0x80_0000 % 256, bits % 0x80_0000);
    if bits >= 0x8000_0000 then -magnitude else magnitude
  }

  lemma FieldsApart(bits: word)
    requires bits < 0x7F80_0000
    ensures bits / 0x80_0000 % 256 == bits / 0x80_0000 < 255
    ensures (bits + 0x8000_0000) / 0x80_0000 % 256 == bits / 0x80_0000
    ensures (bits + 0x8000_0000) % 0x80_0000 == bits % 0x80_0000
  {
    assert (bits + 0x8000_0000) / 0x80_0000 == bits / 0x80_0000 + 256;
  }

  lemma {:induction false} MagnitudeDoubles(exponent: nat, fraction: nat)
    requires exponent >= 1
    ensures Magnitude(exponent + 1, fraction) == 2.0 * Magnitude(exponent, fraction)
  {
    var p := PowerOfTwo(exponent - 150);
    assert PowerOfTwo(exponent - 149) == 2.0 * p;
    hide PowerOfTwo;
    var n := (0x80_0000 + fraction) as real;
    assert n * (2.0 * p) == 2.0 * (n * p);
  }

  lemma {:induction false} FromOneToTwo(fraction: nat)
    ensures 8388608.0 * Magnitude(127, fraction) == (8388608 + fraction) as real
  {
    assert PowerOfTwo(-8) == 1.0 / 256.0 && PowerOfTwo(-16) == 1.0 / 65536.0;
    assert PowerOfTwo(-23) == 1.0 / 8388608.0;
    hide PowerOfTwo;
  }

  lemma {:induction false} MultiplesOfLeast(bits: nat)
    requires bits < 0x100_0000
    ensures Magnitude(bits / 0x80_0000, bits % 0x80_0000) == bits as real * Magnitude(0, 1)
  {
    hide PowerOfTwo;
    assert bits == bits / 0x80_0000 * 0x80_0000 + bits % 0x80_0000;
  }

  /**
   What fixes the value of every single: the top bit changes its sign; from one to two it rises by equal steps;
   each further exponent doubles it; and the smallest are the whole multiples of the least.
   */
  lemma {:induction false} SinglesAre(bits: word)
    requires bits < 0x7F80_0000
    ensures Finite(bits) && Finite(bits + 0x8000_0000)
    ensures FloatValue(bits + 0x8000_0000) == -FloatValue(bits)
    ensures 0x3F80_0000 <= bits < 0x4000_0000 ==> 8388608.0 * FloatValue(bits) == (8388608 + bits - 0x3F80_0000) as real
    ensures 0x100_0000 <= bits ==> FloatValue(bits) == 2.0 * FloatValue(bits - 0x80_0000)
    ensures bits < 0x100_0000 ==> FloatValue(bits) == bits as real * FloatValue(1)
  {
    hide Magnitude;
    FieldsApart(bits);
    if 0x100_0000 <= bits {
      FieldsApart(bits - 0x80_0000);
      assert bits / 0x80_0000 == (bits - 0x80_0000) / 0x80_0000 + 1;
      MagnitudeDoubles((bits - 0x80_0000) / 0x80_0000, bits % 0x80_0000);
    } else {
      MultiplesOfLeast(bits);
    }
    if 0x3F80_0000 <= bits < 0x4000_0000 {
      assert bits / 0x80_0000 == 127;
      FromOneToTwo(bits % 0x80_0000);
    }
  }

  /** `encode_frame`, given the single the rate rounds to. */
  function EncodeFrame(axis: int, bits: word): Option<seq<byte>> {
    if OnAxis(axis) && Finite(bits) then Some([0xAC, 0x4A, axis] + Bytes4(bits)) else None
  }

  function DecodeFrame(frame: seq<byte>): Option<(int, real)> {
    if |frame| != 7 || frame[..2] != [0xAC, 0x4A] || !OnAxis(frame[2]) || !Finite(Load(frame, 3)) then None
    else Some((frame[2] as int, FloatValue(Load(frame, 3))))
  }

  function EncodeJogFrame(axis: int, speed: int): Option<seq<byte>> {
    if OnAxis(axis) && -32768 <= speed <= 32767
    then Some([0xAC, 0x41, axis, speed % 256, speed / 256 % 256])
    else None
  }

  function DecodeJogFrame(frame: seq<byte>): Option<(int, int)> {
    if |frame| != 5 || frame[..2] != [0xAC, 0x41] || !OnAxis(frame[2]) then None
    else
      var raw := frame[3] as int + 256 * frame[4] as int;
      Some((frame[2] as int, if raw >= 32768 then raw - 65536 else raw))
  }

  lemma FrameRoundTrip(axis: int, bits: word)
    requires EncodeFrame(axis, bits).Some?
    ensures DecodeFrame(EncodeFrame(axis, bits).value) == Some((axis, FloatValue(bits)))
  {
    var frame := EncodeFrame(axis, bits).value;
    PackBytes(bits);
    assert frame[3] == ByteOf(bits, 0) && frame[4] == ByteOf(bits, 1);
    assert frame[5] == ByteOf(bits, 2) && frame[6] == ByteOf(bits, 3);
    assert frame[..2] == [0xAC, 0x4A];
  }

  /** Which bytes are a rate frame, and that each is the encoding of what it says. */
  lemma FrameIs(frame: seq<byte>)
    ensures DecodeFrame(frame).Some?
            <==>
            && |frame| == 7 && frame[0] == 0xAC && frame[1] == 0x4A && 1 <= frame[2] <= 3
            && !(frame[6] % 128 == 127 && frame[5] >= 128)
    ensures DecodeFrame(frame).Some? ==> EncodeFrame(frame[2], Load(frame, 3)) == Some(frame)
  {
    if |frame| == 7 {
      var bits := Load(frame, 3);
      BytesPack(frame[3], frame[4], frame[5], frame[6]);
      ExponentBits(frame[3], frame[4], frame[5], frame[6]);
      hide ByteOf, Pack;
      assert frame[..2] == [frame[0], frame[1]];
      assert frame == [frame[0], frame[1], frame[2]] + Bytes4(bits);
    }
  }

  lemma ExponentBits(b0: byte, b1: byte, b2: byte, b3: byte)
    ensures Finite(Pack(b0, b1, b2, b3)) <==> !(b3 % 128 == 127 && b2 >= 128)
  {
    var w := Pack(b0, b1, b2, b3);
    assert w == 0x80_0000 * (2 * b3 + b2 / 128) + 0x1_0000 * (b2 % 128) + 0x100 * b1 + b0;
    assert w / 0x80_0000 == 2 * b3 + b2 / 128;
  }

  lemma DecodeEncodedJog(axis: int, speed: int)
    requires EncodeJogFrame(axis, speed).Some?
    ensures DecodeJogFrame(EncodeJogFrame(axis, speed).value) == Some((axis, speed))
  {
    var f := EncodeJogFrame(axis, speed).value;
    assert f[..2] == [0xAC, 0x41];
  }

  /** Every jog frame that decodes is the encoding of what it says. */
  lemma EncodeDecodedJog(frame: seq<byte>)
    requires DecodeJogFrame(frame).Some?
    ensures EncodeJogFrame(DecodeJogFrame(frame).value.0, DecodeJogFrame(frame).value.1) == Some(frame)
  {
    var (axis, v) := DecodeJogFrame(frame).value;
    var raw := frame[3] as int + 256 * frame[4] as int;
    assert raw % 256 == frame[3] as int && raw / 256 == frame[4] as int;
    assert v % 256 == frame[3] as int && v / 256 % 256 == frame[4] as int;
    assert frame[0] == frame[..2][0] && frame[1] == frame[..2][1];
    assert EncodeJogFrame(axis, v).value == frame;
  }

  // ---------------------------------------------------------------- envelope

  const SLACK := 0.000000000001
  const JOG_SPEED_MIN := 100

  datatype Limits = Limits(maxRate: real, maxAccel: real, watchdog: real, maxSpeed: int)

  // The jog envelope sets maxRate to its maxSpeed; the rate envelope has no use for maxSpeed.
  predicate Sane(c: Limits) {
    c.maxRate > 0.0 && c.maxAccel > 0.0 && c.watchdog > 0.0 && c.maxSpeed as real <= c.maxRate
  }

  datatype State = State(rates: map<int, real>, last: Option<real>, stopped: bool, reason: string)

  datatype Op =
    | Request(frame: seq<byte>, now: real)
    | RequestJog(frame: seq<byte>, now: real)
    | Tick(now: real)
    | Stop(reason: string)

  const ZERO := map[1 := 0.0, 2 := 0.0, 3 := 0.0]

  const START := State(ZERO, None, true, "initial")

  function Abs(x: real): real {
    if x < 0.0 then -x else x
  }

  predicate Shaped(s: State) {
    s.rates.Keys == {1, 2, 3}
  }

  /** The clock has not run back and the step is within the acceleration limit since the last accepted request. */
  predicate Reachable(c: Limits, s: State, axis: int, rate: real, now: real)
    requires Shaped(s) && OnAxis(axis)
  {
    s.last.Some? ==> now >= s.last.value
                     && Abs(rate - s.rates[axis]) <= c.maxAccel * (now - s.last.value) + SLACK
  }

  /** The axis and rate a request would set, if it is accepted. */
  function Granted(c: Limits, s: State, op: Op): Option<(int, real)>
    requires Shaped(s)
  {
    match op
    case Request(frame, now) =>
      (match DecodeFrame(frame)
       case None => None
       case Some((axis, rate)) =>
         if Abs(rate) <= c.maxRate && Reachable(c, s, axis, rate, now) then Some((axis, rate)) else None)
    case RequestJog(frame, now) =>
      (match DecodeJogFrame(frame)
       case None => None
       case Some((axis, speed)) =>
         if (speed == 0 || speed >= JOG_SPEED_MIN || speed <= -JOG_SPEED_MIN) && -c.maxSpeed <= speed <= c.maxSpeed
            && Reachable(c, s, axis, speed as real, now)
         then Some((axis, speed as real))
         else None)
    case _ => None
  }

  predicate AllZero(s: State) {
    forall a <- s.rates :: s.rates[a] == 0.0
  }

  predicate Late(c: Limits, s: State, now: real) {
    s.last.None? || now - s.last.value > c.watchdog
  }

  function Step(c: Limits, s: State, op: Op): (t: State)
    requires Shaped(s)
    ensures Shaped(t)
  {
    match op
    case Request(_, now) =>
      (match Granted(c, s, op)
       case None => s
       case Some((axis, rate)) => State(s.rates[axis := rate], Some(now), false, "commanded"))
    case RequestJog(_, now) =>
      (match Granted(c, s, op)
       case None => s
       case Some((axis, rate)) =>
         var rates := s.rates[axis := rate];
         State(rates, Some(now), rate == 0.0 && forall a <- rates :: rates[a] == 0.0,
               if rate == 0.0 then "stop-commanded" else "jog-commanded"))
    case Tick(now) => if Late(c, s, now) then s.(rates := ZERO, stopped := true, reason := "watchdog") else s
    case Stop(reason) => s.(rates := ZERO, stopped := true, reason := reason)
  }

  function Run(c: Limits, s: State, ops: seq<Op>): (t: State)
    requires Shaped(s)
    ensures Shaped(t)
    decreases |ops|
  {
    if ops == [] then s else Step(c, Run(c, s, ops[..|ops| - 1]), ops[|ops| - 1])
  }

  /** The step asked of an axis is one the head can make in the time since the last accepted request. */
  predicate InTime(c: Limits, s: State, was: real, rate: real, now: real) {
    s.last.None? ||
    (0.0 <= now - s.last.value
     && was - c.maxAccel * (now - s.last.value) - SLACK <= rate <= was + c.maxAccel * (now - s.last.value) + SLACK)
  }

  /** A request sets the axis its frame names to the rate its frame carries, and no other, or nothing changes. */
  lemma RequestSets(c: Limits, s: State, frame: seq<byte>, now: real)
    requires Shaped(s)
    ensures
      var t, d := Step(c, s, Request(frame, now)), DecodeFrame(frame);
      if d.Some? && -c.maxRate <= d.value.1 <= c.maxRate && InTime(c, s, s.rates[d.value.0], d.value.1, now)
      then (forall a :: 1 <= a <= 3 ==> t.rates[a] == if a == d.value.0 then d.value.1 else s.rates[a])
           && t.last == Some(now) && !t.stopped && t.reason == "commanded"
      else t == s
  {
    hide FloatValue, Load;
  }

  /**
   So does a jog request, whose speed must be zero or between the floor and the limit either way; it is a stop
   when it leaves every axis at rest.
   */
  lemma JogSets(c: Limits, s: State, frame: seq<byte>, now: real)
    requires Shaped(s)
    ensures
      var t, d := Step(c, s, RequestJog(frame, now)), DecodeJogFrame(frame);
      if d.Some? && (d.value.1 == 0 || 100 <= d.value.1 || d.value.1 <= -100) && -c.maxSpeed <= d.value.1 <= c.maxSpeed
         && InTime(c, s, s.rates[d.value.0], d.value.1 as real, now)
      then (forall a :: 1 <= a <= 3 ==> t.rates[a] == if a == d.value.0 then d.value.1 as real else s.rates[a])
           && t.last == Some(now) && (t.stopped <==> forall a :: 1 <= a <= 3 ==> t.rates[a] == 0.0)
           && t.reason == if d.value.1 == 0 then "stop-commanded" else "jog-commanded"
      else t == s
  {
    hide Load;
  }

  /** No axis is beyond the rate limit, and a stopped head stands still. */
  ghost predicate Safe(c: Limits, s: State) {
    && Shaped(s) && (forall a <- s.rates :: Abs(s.rates[a]) <= c.maxRate) && (s.stopped ==> AllZero(s))
  }

  lemma GrantedBounded(c: Limits, s: State, op: Op)
    requires Sane(c) && Shaped(s) && Granted(c, s, op).Some?
    ensures OnAxis(Granted(c, s, op).value.0) && Abs(Granted(c, s, op).value.1) <= c.maxRate
  {
    hide Reachable;
  }

  lemma {:induction false} StepSafe(c: Limits, s: State, op: Op)
    requires Sane(c) && Safe(c, s)
    ensures Safe(c, Step(c, s, op))
  {
    hide Granted;
    if Granted(c, s, op).Some? {
      GrantedBounded(c, s, op);
    }
  }

  lemma {:induction false} AlwaysSafe(c: Limits, ops: seq<Op>)
    requires Sane(c)
    ensures Safe(c, Run(c, START, ops))
    decreases |ops|
  {
    hide Step;
    if ops != [] {
      AlwaysSafe(c, ops[..|ops| - 1]);
      StepSafe(c, Run(c, START, ops[..|ops| - 1]), ops[|ops| - 1]);
    }
  }

  /** Driven by jog frames alone, the stop flag says exactly whether every axis stands still. */
  lemma {:induction false} JogStoppedIff(c: Limits, ops: seq<Op>)
    requires forall op <- ops :: !op.Request?
    ensures Run(c, START, ops).stopped <==> AllZero(Run(c, START, ops))
    decreases |ops|
  {
    hide Granted;
    if ops != [] {
      JogStoppedIff(c, ops[..|ops| - 1]);
      assert ops[|ops| - 1] in ops;
      JogStepStoppedIff(c, Run(c, START, ops[..|ops| - 1]), ops[|ops| - 1]);
    }
  }

  lemma JogStepStoppedIff(c: Limits, s: State, op: Op)
    requires Shaped(s) && !op.Request? && (s.stopped <==> AllZero(s))
    ensures Step(c, s, op).stopped <==> AllZero(Step(c, s, op))
  {
    hide Granted;
    GrantsRequests(c, s, op);
    if Granted(c, s, op).Some? {
      var (axis, rate) := Granted(c, s, op).value;
      assert axis in Step(c, s, op).rates && Step(c, s, op).rates[axis] == rate;
    }
  }

  // ---------------------------------------------------------------- refusals

  predicate Asks(op: Op) {
    op.Request? || op.RequestJog?
  }

  /** The run without its refused requests. */
  function Heeded(c: Limits, s: State, ops: seq<Op>): seq<Op>
    requires Shaped(s)
    decreases |ops|
  {
    if ops == [] then []
    else
      var before, op := ops[..|ops| - 1], ops[|ops| - 1];
      var kept := Heeded(c, s, before);
      if Asks(op) && Granted(c, Run(c, s, before), op).None? then kept else kept + [op]
  }

  /**
   A refused request leaves no trace in any run: without the refused ones the rest is decided as before,
   each request now accepted, and the same state is reached, clock and reason included.
   */
  lemma {:induction false} RefusalsLeaveNoTrace(c: Limits, s: State, ops: seq<Op>)
    requires Shaped(s)
    ensures
      var kept := Heeded(c, s, ops);
      && Run(c, s, kept) == Run(c, s, ops)
      && forall i :: 0 <= i < |kept| && Asks(kept[i]) ==> Granted(c, Run(c, s, kept[..i]), kept[i]).Some?
    decreases |ops|
  {
    hide Granted;
    if ops != [] {
      var before, op := ops[..|ops| - 1], ops[|ops| - 1];
      RefusalsLeaveNoTrace(c, s, before);
      var was, kept := Heeded(c, s, before), Heeded(c, s, ops);
      if kept != was {
        assert kept[..|kept| - 1] == was;
        forall i | 0 <= i < |kept| && Asks(kept[i])
          ensures Granted(c, Run(c, s, kept[..i]), kept[i]).Some?
        {
          assert i < |was| ==> kept[..i] == was[..i];
        }
      }
    }
  }

  // -------------------------------------------------------------------- ramp

  predicate Stops(c: Limits, s: State, op: Op) {
    op.Stop? || (op.Tick? && Late(c, s, op.now))
  }

  /** Nothing in the run stops the head, watchdog included. */
  predicate Unstopped(c: Limits, s: State, ops: seq<Op>)
    requires Shaped(s)
    decreases |ops|
  {
    ops == [] || (Unstopped(c, s, ops[..|ops| - 1]) && !Stops(c, Run(c, s, ops[..|ops| - 1]), ops[|ops| - 1]))
  }

  function Accepted(c: Limits, s: State, ops: seq<Op>): nat
    requires Shaped(s)
    decreases |ops|
  {
    if ops == [] then 0
    else
      var before := ops[..|ops| - 1];
      Accepted(c, s, before) + (if Granted(c, Run(c, s, before), ops[|ops| - 1]).Some? then 1 else 0)
  }

  /** How far an axis may move between two times. */
  function Ramp(a: real, from: real, to: real): real {
    a * (to - from)
  }

  function Slack(n: nat): real {
    n as real * SLACK
  }

  lemma RampAdds(a: real, t0: real, t1: real, t2: real, n: nat)
    ensures Ramp(a, t0, t1) + Ramp(a, t1, t2) == Ramp(a, t0, t2)
    ensures Slack(n + 1) == Slack(n) + SLACK && Slack(0) == 0.0
    ensures Ramp(a, t0, t0) == 0.0
  {
    assert a * (t1 - t0) + a * (t2 - t1) == a * (t2 - t0);
    assert (n + 1) as real == n as real + 1.0;
  }

  /** Only an accepted request moves the shared clock. */
  lemma ClockMoves(c: Limits, s: State, op: Op)
    requires Shaped(s)
    ensures Granted(c, s, op).Some? ==> Asks(op) && Step(c, s, op).last == Some(op.now)
    ensures Granted(c, s, op).None? ==> Step(c, s, op).last == s.last
  {
    hide Reachable, DecodeFrame, DecodeJogFrame;
  }

  lemma RampRises(a: real, from: real, to: real)
    requires a > 0.0 && to >= from
    ensures Ramp(a, from, to) >= 0.0
  {
  }

  lemma ReachableWithin(c: Limits, s: State, axis: int, rate: real, now: real)
    requires Shaped(s) && s.last.Some? && OnAxis(axis) && Reachable(c, s, axis, rate, now)
    ensures now >= s.last.value && Abs(rate - s.rates[axis]) <= Ramp(c.maxAccel, s.last.value, now) + SLACK
  {
    hide Abs;
  }

  lemma GrantedReachable(c: Limits, s: State, op: Op)
    requires Shaped(s) && Granted(c, s, op).Some?
    ensures
      var (axis, rate) := Granted(c, s, op).value;
      Asks(op) && OnAxis(axis) && Reachable(c, s, axis, rate, op.now)
  {
    hide Reachable, Abs, FloatValue, Load;
  }

  /** A call that does not stop the head sets the one rate granted, or nothing. */
  lemma StepRates(c: Limits, s: State, op: Op)
    requires Shaped(s) && !Stops(c, s, op)
    ensures Granted(c, s, op).None? ==> Step(c, s, op) == s
    ensures Granted(c, s, op).Some? && Asks(op) ==>
              && Step(c, s, op).last == Some(op.now)
              && Step(c, s, op).rates == s.rates[Granted(c, s, op).value.0 := Granted(c, s, op).value.1]
  {
    hide Granted, Late;
  }

  /** From one accepted request to the next the axis moves within the ramp. */
  predicate Follows(c: Limits, s: State, t: State, axis: int)
    requires Shaped(s) && Shaped(t) && OnAxis(axis) && s.last.Some? && t.last.Some?
  {
    Abs(t.rates[axis] - s.rates[axis]) <= Ramp(c.maxAccel, s.last.value, t.last.value) + SLACK
  }

  lemma {:induction false} OneStepRamp(c: Limits, s: State, op: Op, axis: int)
    requires Sane(c) && Shaped(s) && s.last.Some? && OnAxis(axis) && !Stops(c, s, op)
    ensures
      var t := Step(c, s, op);
      && t.last.Some? && t.last.value >= s.last.value
      && if Granted(c, s, op).Some? then Follows(c, s, t, axis) else t.last == s.last && t.rates == s.rates
  {
    hide Granted, Ramp, Step, Stops, Reachable, Abs;
    StepRates(c, s, op);
    if Granted(c, s, op).Some? {
      GrantedReachable(c, s, op);
      var (moved, rate) := Granted(c, s, op).value;
      ReachableWithin(c, s, moved, rate, op.now);
      RampRises(c.maxAccel, s.last.value, op.now);
      if axis != moved {
        assert Step(c, s, op).rates[axis] == s.rates[axis];
        AbsNone(s.rates[axis]);
      }
    }
  }

  lemma AbsNone(x: real)
    ensures Abs(x - x) == 0.0
  {
  }

  /**
   The ramp over a run: from any state with a clock, and with no stop between, each axis moves by at most
   the acceleration limit times the time from the first to the last accepted request, plus the slack once
   per accepted step, although all axes share one clock.
   */
  lemma {:induction false} RampEnvelope(c: Limits, s: State, ops: seq<Op>, axis: int)
    requires Sane(c) && Shaped(s) && s.last.Some? && OnAxis(axis) && Unstopped(c, s, ops)
    ensures
      var t := Run(c, s, ops);
      && t.last.Some? && t.last.value >= s.last.value
      && Abs(t.rates[axis] - s.rates[axis])
         <= Ramp(c.maxAccel, s.last.value, t.last.value) + Slack(Accepted(c, s, ops))
    decreases |ops|
  {
    hide Step, Granted, Ramp, Slack, Stops;
    if ops == [] {
      RampAdds(c.maxAccel, s.last.value, s.last.value, s.last.value, 0);
    } else {
      var before := ops[..|ops| - 1];
      RampEnvelope(c, s, before, axis);
      var m, t := Run(c, s, before), Run(c, s, ops);
      OneStepRamp(c, m, ops[|ops| - 1], axis);
      RampAdds(c.maxAccel, s.last.value, m.last.value, t.last.value, Accepted(c, s, before));
    }
  }

  // ---------------------------------------------------------------- watchdog

  /** Request i of the run is accepted. */
  ghost predicate Accepts(c: Limits, ops: seq<Op>, i: nat) {
    i < |ops| && Asks(ops[i]) && Granted(c, Run(c, START, ops[..i]), ops[i]).Some?
  }

  lemma GrantsRequests(c: Limits, s: State, op: Op)
    requires Shaped(s)
    ensures Granted(c, s, op).Some? ==> Asks(op)
    ensures Granted(c, s, op).Some? && s.last.Some? ==> op.now >= s.last.value
  {
    hide DecodeFrame, DecodeJogFrame;
  }

  lemma {:induction false} LastWasAccepted(c: Limits, ops: seq<Op>)
    requires Run(c, START, ops).last.Some?
    ensures exists i: nat :: Accepts(c, ops, i) && Run(c, START, ops).last == Some(ops[i].now)
    decreases |ops|
  {
    hide Granted, Step;
    var n := |ops|;
    if n > 0 {
      var before := ops[..n - 1];
      ClockMoves(c, Run(c, START, before), ops[n - 1]);
      if Granted(c, Run(c, START, before), ops[n - 1]).Some? {
        assert Accepts(c, ops, n - 1);
      } else {
        LastWasAccepted(c, before);
        var i: nat :| Accepts(c, before, i) && Run(c, START, before).last == Some(before[i].now);
        assert ops[..i] == before[..i];
        assert Accepts(c, ops, i);
      }
    }
  }

  /** The shared clock is the latest of the accepted readings. */
  lemma {:induction false} LastIsLatest(c: Limits, ops: seq<Op>, i: nat)
    requires Accepts(c, ops, i)
    ensures Run(c, START, ops).last.Some? && ops[i].now <= Run(c, START, ops).last.value
    decreases |ops|
  {
    hide Granted, Step;
    var before := ops[..|ops| - 1];
    GrantsRequests(c, Run(c, START, before), ops[|ops| - 1]);
    ClockMoves(c, Run(c, START, before), ops[|ops| - 1]);
    if i < |before| {
      assert ops[..i] == before[..i];
      LastIsLatest(c, before, i);
    }
  }

  /**
   The watchdog over every run: a tick stops the head, and says so, exactly unless some accepted request
   is at most the watchdog time old; then it changes nothing at all.
   */
  lemma {:induction false} TickStopsIff(c: Limits, ops: seq<Op>, now: real)
    ensures
      var s, t := Run(c, START, ops), Run(c, START, ops + [Tick(now)]);
      if exists i: nat :: Accepts(c, ops, i) && now - ops[i].now <= c.watchdog then t == s
      else AllZero(t) && t.stopped && t.reason == "watchdog"
  {
    hide Granted;
    assert (ops + [Tick(now)])[..|ops|] == ops;
    var s := Run(c, START, ops);
    if !Late(c, s, now) {
      LastWasAccepted(c, ops);
    } else if i: nat :| Accepts(c, ops, i) && now - ops[i].now <= c.watchdog {
      LastIsLatest(c, ops, i);
    }
  }

  /** After any run, a tick leaves an axis turning only if a request was accepted within the watchdog before it. */
  lemma {:induction false} TurningWasCommanded(c: Limits, ops: seq<Op>, now: real)
    requires Sane(c) && !AllZero(Run(c, START, ops + [Tick(now)]))
    ensures exists i: nat :: Accepts(c, ops, i) && now - ops[i].now <= c.watchdog
  {
    hide Run, AllZero;
    TickStopsIff(c, ops, now);
  }
}
