/** The text polaris-jog.c puts each of its frames into, and what a reader of the link's format makes of it. */
module JogText {
  import opened Words
  import opened LinkSpec
  import opened LinkCache
  import opened Link
  import opened JogModel

  const SUB_CONTROL := 3

  /** `<name>:%d;` */
  function Entry(name: string, n: int): seq<byte>
    requires forall i :: 0 <= i < |name| ==> name[i] as int < 256
  {
    Ascii(name) + [COLON] + Decimal(n) + [SEMI]
  }

  /** `speed:%d;` and `key:%d;state:%d;level:%d;` */
  function Payload(f: Frame): seq<byte> {
    match f
    case Fast(_, v) => Entry("speed", v)
    case Slow(_, key, press, level) =>
      Entry("key", key) + (Entry("state", if press then 1 else 0) + Entry("level", level))
  }

  /** What `plink_send` prints for it. */
  function Text(f: Frame): seq<byte> {
    PrintFrame(f.op, SUB_CONTROL, Payload(f))
  }

  /** The entries of the payload. */
  function Pairs(f: Frame): seq<Pair> {
    match f
    case Fast(_, v) => [Pair(Ascii("speed"), Decimal(v))]
    case Slow(_, key, press, level) =>
      [Pair(Ascii("key"), Decimal(key)), Pair(Ascii("state"), Decimal(if press then 1 else 0)),
       Pair(Ascii("level"), Decimal(level))]
  }

  function Printed(p: Pair): seq<byte> {
    p.key + [COLON] + p.value + [SEMI]
  }

  lemma {:induction false} PrintsPairs(f: Frame)
    ensures Payload(f) == PrintPairs(Pairs(f))
  {
    hide Decimal, PrintPairs, Ascii;
    if f.Fast? {
      PrintOne(Pairs(f)[0]);
    } else {
      PrintThree(Pairs(f)[0], Pairs(f)[1], Pairs(f)[2]);
    }
  }

  lemma {:induction false} PrintOne(p: Pair)
    ensures PrintPairs([p]) == Printed(p)
  {
    assert [p][1..] == [];
  }

  lemma {:induction false} PrintThree(p: Pair, q: Pair, r: Pair)
    ensures PrintPairs([p, q, r]) == Printed(p) + (Printed(q) + Printed(r))
  {
    assert [p, q, r][1..] == [q, r] && [q, r][1..] == [r];
    PrintOne(r);
  }

  lemma {:induction false} PairsValid(f: Frame)
    ensures forall p <- Pairs(f) :: ValidPair(p)
  {
    hide Decimal;
    match f {
      case Fast(_, v) =>
        DecimalDigits(v);
      case Slow(_, key, press, level) =>
        DecimalDigits(key);
        DecimalDigits(if press then 1 else 0);
        DecimalDigits(level);
    }
  }

  /** The number a reader finds under a key, in a buffer of `cap` bytes. */
  function NumberAt(payload: seq<byte>, key: seq<byte>, cap: nat): Option<int>
    requires cap > 0
  {
    match Arg(payload, key, cap) case None => None case Some(v) => Some(Atoi(v))
  }

  lemma {:induction false} ReadsBack(f: Frame, key: seq<byte>, n: int, cap: nat)
    requires |Decimal(n)| < cap && Lookup(Pairs(f), key) == Some(Decimal(n))
    ensures NumberAt(Payload(f), key, cap) == Some(n)
  {
    hide Decimal, Lookup, Arg, Atoi;
    PairsValid(f);
    PrintsPairs(f);
    ArgRoundTrip(Pairs(f), key, cap);
    DecimalReadsBack(n);
  }

  /** Read with a buffer of 64 bytes, the payload gives the frame's numbers. */
  predicate NumbersAre(payload: seq<byte>, f: Frame) {
    match f
    case Fast(_, v) => NumberAt(payload, Ascii("speed"), 64) == Some(v)
    case Slow(_, key, press, level) =>
      && NumberAt(payload, Ascii("key"), 64) == Some(key)
      && NumberAt(payload, Ascii("state"), 64) == Some(if press then 1 else 0)
      && NumberAt(payload, Ascii("level"), 64) == Some(level)
  }

  /** Its numbers are no wider than any a head takes. */
  predicate Modest(f: Frame) {
    && f.op < 1000
    && match f
       case Fast(_, v) => -99999 <= v <= 99999
       case Slow(_, key, _, level) => 0 <= key < 10 && 0 <= level < 10
  }

  lemma {:induction false} ShortDecimal(n: int)
    ensures 0 <= n < 10 ==> |Decimal(n)| == 1
    ensures 0 <= n < 1000 ==> |Decimal(n)| <= 3
    ensures -99999 <= n <= 99999 ==> |Decimal(n)| <= 6
  {
    ShortNat(n);
    ShortNat(-n);
  }

  lemma {:induction false} ShortNat(n: int)
    ensures 0 <= n < 10 ==> |Decimal(n)| == 1
    ensures 0 <= n < 100 ==> |Decimal(n)| <= 2
    ensures 0 <= n < 1000 ==> |Decimal(n)| <= 3
    ensures 0 <= n < 10000 ==> |Decimal(n)| <= 4
    ensures 0 <= n <= 99999 ==> |Decimal(n)| <= 5
    decreases if n < 0 then 0 else n
  {
    if n >= 10 {
      ShortNat(n / 10);
    }
  }

  /**
   A frame's payload fits its buffer, and handed to the link it is text the link takes whole, whose fields are the
   opcode, 3 and the payload.
   */
  lemma {:induction false} FrameReads(f: Frame)
    requires Modest(f)
    ensures |Payload(f)| < 64 && WholeFrame(Text(f)) && |Text(f)| < ARGS_MAX + 64
    ensures FieldsAre(Text(f), Ascii("1"), f.op, 3, Payload(f) + Ascii("#"))
  {
    hide Payload, FieldsAre, Decimal, WholeFrame, PrintFrame;
    PayloadPlain(f);
    PrintedFramesAreWhole(f.op, SUB_CONTROL, Payload(f));
    FrameFields(f.op, SUB_CONTROL, Payload(f));
    TextShort(f);
  }

  /** And its payload gives each of its numbers back under that number's key. */
  lemma {:induction false} NumbersRead(f: Frame)
    requires Modest(f)
    ensures NumbersAre(Payload(f), f)
  {
    hide Payload, NumberAt, Decimal;
    match f {
      case Fast(_, v) =>
        ShortDecimal(v);
        ReadsBack(f, Ascii("speed"), v, 64);
      case Slow(_, key, press, level) =>
        var state := if press then 1 else 0;
        ShortDecimal(key);
        ShortDecimal(state);
        ShortDecimal(level);
        assert Ascii("key")[0] != Ascii("state")[0] && Ascii("key")[0] != Ascii("level")[0];
        assert Ascii("state")[0] != Ascii("level")[0];
        LookupThree(Pairs(f));
        ReadsBack(f, Ascii("key"), key, 64);
        ReadsBack(f, Ascii("state"), state, 64);
        ReadsBack(f, Ascii("level"), level, 64);
    }
  }

  lemma {:induction false} LookupThree(ps: seq<Pair>)
    requires |ps| == 3 && ps[0].key != ps[1].key && ps[0].key != ps[2].key && ps[1].key != ps[2].key
    ensures Lookup(ps, ps[0].key) == Some(ps[0].value)
    ensures Lookup(ps, ps[1].key) == Some(ps[1].value)
    ensures Lookup(ps, ps[2].key) == Some(ps[2].value)
  {
    assert ps[1..][0] == ps[1] && ps[1..][1..] == ps[2..] && ps[2..][0] == ps[2];
    assert Lookup(ps[2..], ps[2].key) == Some(ps[2].value);
    assert Lookup(ps[1..], ps[2].key) == Lookup(ps[2..], ps[2].key);
  }

  lemma {:induction false} PayloadPlain(f: Frame)
    ensures HASH !in Payload(f)
  {
    hide Decimal;
    match f {
      case Fast(_, v) =>
        DecimalDigits(v);
      case Slow(_, key, press, level) =>
        DecimalDigits(key);
        DecimalDigits(if press then 1 else 0);
        DecimalDigits(level);
    }
  }

  lemma {:induction false} TextShort(f: Frame)
    requires Modest(f)
    ensures |Payload(f)| < 64 && |Text(f)| < ARGS_MAX + 64
  {
    hide Decimal;
    ShortDecimal(f.op);
    ShortDecimal(SUB_CONTROL);
    match f {
      case Fast(_, v) =>
        ShortDecimal(v);
      case Slow(_, key, press, level) =>
        ShortDecimal(key);
        ShortDecimal(if press then 1 else 0);
        ShortDecimal(level);
    }
  }

  // ---------------------------------------------------------------- every run

  predicate AllModest(frames: seq<Frame>) {
    forall f <- frames :: Modest(f)
  }

  lemma MovesModest(a: nat, x: Axis, speed: int, gear: int, now: real)
    requires Sound(x)
    ensures AllModest(Stopped(a, x).sent) && AllModest(Ticked(a, x, now).sent)
    ensures AllModest(DrivenFast(a, x, speed, now).sent) && AllModest(DrivenSlow(a, x, gear, now).sent)
  {
  }

  lemma {:induction false} StopModest(s: State, n: nat)
    requires Shaped(s) && n <= AXES && AllModest(s.wire) && forall a :: 0 <= a < AXES ==> Sound(s.axes[a])
    ensures AllModest(StopTo(s, n).wire)
    decreases n
  {
    if n > 0 {
      hide Stopped, Sound, Modest;
      StopModest(s, n - 1);
      StoppedAxis(s, n - 1, n - 1);
      MovesModest(n - 1, s.axes[n - 1], 0, 0, 0.0);
    }
  }

  lemma {:induction false} TickModest(s: State, n: nat, now: real)
    requires Shaped(s) && n <= AXES && AllModest(s.wire) && forall a :: 0 <= a < AXES ==> Sound(s.axes[a])
    ensures AllModest(TickTo(s, n, now).wire)
    decreases n
  {
    if n > 0 {
      hide Ticked, Sound, Modest;
      TickModest(s, n - 1, now);
      TickedAxis(s, n - 1, now, n - 1);
      MovesModest(n - 1, s.axes[n - 1], 0, 0, now);
    }
  }

  lemma {:induction false} StepModest(s: State, op: Op)
    requires Shaped(s) && AllModest(s.wire) && forall a :: 0 <= a < AXES ==> Sound(s.axes[a])
    ensures AllModest(Step(s, op).wire)
  {
    hide Stopped, DrivenFast, DrivenSlow, Ticked, Sound, Modest, StopTo, TickTo;
    match op
    case Set(axis, speed, gear, now, up) =>
      if OnAxis(axis) {
        MovesModest(axis, s.axes[axis], speed, gear, now);
      }
    case Stop(axis) =>
      if OnAxis(axis) {
        MovesModest(axis, s.axes[axis], 0, 0, 0.0);
      }
    case StopAll => StopModest(s, AXES);
    case Tick(now, up) => TickModest(s, AXES, now);
  }

  /** Every frame any run of calls hands to the link is text the link takes whole, and reads back. */
  lemma {:induction false} WireReads(ops: seq<Op>)
    ensures forall f <- Run(START, ops).wire ::
              && WholeFrame(Text(f)) && |Text(f)| < ARGS_MAX + 64
              && FieldsAre(Text(f), Ascii("1"), f.op, 3, Payload(f) + Ascii("#")) && NumbersAre(Payload(f), f)
    decreases |ops|
  {
    hide WholeFrame, Text, FieldsAre, NumbersAre, Payload, Modest;
    WireModest(ops);
    forall f <- Run(START, ops).wire
      ensures WholeFrame(Text(f)) && |Text(f)| < ARGS_MAX + 64
      ensures FieldsAre(Text(f), Ascii("1"), f.op, 3, Payload(f) + Ascii("#")) && NumbersAre(Payload(f), f)
    {
      FrameReads(f);
      NumbersRead(f);
    }
  }

  lemma {:induction false} WireModest(ops: seq<Op>)
    ensures AllModest(Run(START, ops).wire)
    decreases |ops|
  {
    hide Step, Modest, Sound;
    if ops != [] {
      var before := ops[..|ops| - 1];
      WireModest(before);
      forall a | 0 <= a < AXES
        ensures Sound(Run(START, before).axes[a])
      {
        RecordsSound(before, a);
      }
      StepModest(Run(START, before), ops[|ops| - 1]);
    }
  }
}
