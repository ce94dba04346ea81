/** The control link's wire format: an incremental parser for `<cmd>@<args>#` frames between `h#` pulses. */
module LinkSpec {
  import opened Words

  const RX_BUF := 16384
  const TX_BUF := 8192
  const ARGS_MAX := 512
  const SLOTS := 128

  const AT: byte := 64
  const HASH: byte := 35
  const PULSE: byte := 104

  // ----------------------------------------------------------------- parsing

  datatype Msg = Msg(cmd: int, args: seq<byte>)

  /** The first index at or after `from` holding `c`, or |s|. */
  function First(s: seq<byte>, c: byte, from: nat): (i: nat)
    requires from <= |s|
    ensures from <= i <= |s| && (i < |s| ==> s[i] == c) && forall j :: from <= j < i ==> s[j] != c
    decreases |s| - from
  {
    if from == |s| || s[from] == c then from else First(s, c, from + 1)
  }

  function EatPulses(s: seq<byte>): (r: seq<byte>)
    ensures |r| <= |s|
  {
    if |s| >= 2 && s[0] == PULSE && s[1] == HASH then EatPulses(s[2..]) else s
  }

  /** Where the first usable `@` is: one with three bytes before it. */
  function AtIndex(s: seq<byte>): nat {
    if |s| < 3 then |s| else First(s, AT, 3)
  }

  predicate Space(b: byte) {
    b == 32 || 9 <= b <= 13
  }

  /** `atoi`: blanks, an optional sign, then digits up to the first other byte. */
  function Atoi(s: seq<byte>): int {
    if s == [] then 0
    else if Space(s[0]) then Atoi(s[1..])
    else if s[0] == 45 then 0 - Digits(s[1..], 0)
    else if s[0] == 43 then Digits(s[1..], 0)
    else Digits(s, 0)
  }

  function Digits(s: seq<byte>, acc: nat): nat {
    if s == [] || !(48 <= s[0] <= 57) then acc else Digits(s[1..], 10 * acc + (s[0] - 48))
  }

  /** Every complete frame of the stream, and the bytes left over. */
  function Parse(s: seq<byte>): (r: (seq<Msg>, seq<byte>))
    ensures |r.1| <= |s|
    decreases |s|, 1
  {
    ParseFrames(EatPulses(s))
  }

  /** The same for a stream that does not start with a pulse. */
  function ParseFrames(t: seq<byte>): (r: (seq<Msg>, seq<byte>))
    ensures |r.1| <= |t|
    decreases |t|, 0
  {
    var at := AtIndex(t);
    if at == |t| then ([], t)
    else
      var hash := First(t, HASH, at);
      if hash == |t| then ([], t)
      else
        var rest := Parse(t[hash + 1..]);
        ([Msg(Atoi(t[at - 3..at]), t[at + 1..hash])] + rest.0, rest.1)
  }

  lemma {:induction false} EatAppend(a: seq<byte>, b: seq<byte>)
    ensures EatPulses(a + b) == EatPulses(EatPulses(a) + b)
    ensures |EatPulses(a)| >= 2 ==> EatPulses(a + b) == EatPulses(a) + b
  {
    if |a| >= 2 && a[0] == PULSE && a[1] == HASH {
      assert (a + b)[2..] == a[2..] + b;
      EatAppend(a[2..], b);
    } else if |a| >= 2 {
      assert EatPulses(a + b) == a + b;
    }
  }

  lemma {:induction false} EatTwice(s: seq<byte>)
    ensures EatPulses(EatPulses(s)) == EatPulses(s)
  {
    if |s| >= 2 && s[0] == PULSE && s[1] == HASH {
      EatTwice(s[2..]);
    }
  }

  lemma {:induction false} FirstAppend(a: seq<byte>, b: seq<byte>, c: byte, from: nat)
    requires from <= |a| && First(a, c, from) < |a|
    ensures First(a + b, c, from) == First(a, c, from)
    decreases |a| - from
  {
    if a[from] != c {
      FirstAppend(a, b, c, from + 1);
    }
  }

  /** The parser's step with its parts named. */
  lemma {:induction false} FrameSplit(t: seq<byte>)
    ensures
      var at := AtIndex(t);
      ParseFrames(t)
      == if at == |t| || First(t, HASH, at) == |t| then ([], t)
         else
           var hash := First(t, HASH, at);
           var tail := Parse(t[hash + 1..]);
           ([Msg(Atoi(t[at - 3..at]), t[at + 1..hash])] + tail.0, tail.1)
  {
    hide Parse, First, Atoi;
  }

  /** A frame found in a prefix is found, and cut, in the whole stream. */
  lemma {:induction false} FrameAppend(t: seq<byte>, b: seq<byte>)
    requires AtIndex(t) < |t| && First(t, HASH, AtIndex(t)) < |t|
    ensures
      var at := AtIndex(t);
      var hash := First(t, HASH, at);
      var tail := Parse(t[hash + 1..] + b);
      ParseFrames(t + b) == ([Msg(Atoi(t[at - 3..at]), t[at + 1..hash])] + tail.0, tail.1)
  {
    hide Parse, Atoi, ParseFrames, First;
    var at := AtIndex(t);
    var hash := First(t, HASH, at);
    FrameSplit(t + b);
    FirstAppend(t, b, AT, 3);
    FirstAppend(t, b, HASH, at);
    assert (t + b)[hash + 1..] == t[hash + 1..] + b;
    assert (t + b)[at - 3..at] == t[at - 3..at] && (t + b)[at + 1..hash] == t[at + 1..hash];
  }

  /** Without the leading pulses, and whether a frame follows. */
  lemma {:induction false} ParseEats(s: seq<byte>)
    ensures Parse(s) == ParseFrames(EatPulses(s))
  {
    hide ParseFrames;
  }

  lemma AtLate(t: seq<byte>)
    ensures AtIndex(t) <= |t| && (AtIndex(t) < |t| ==> AtIndex(t) >= 3 && t[AtIndex(t)] == AT)
  {
  }

  /** Parsing a stream is parsing a prefix and then the residue with the rest. */
  lemma {:induction false} ParseAppend(a: seq<byte>, b: seq<byte>)
    ensures Parse(a + b) == (Parse(a).0 + Parse(Parse(a).1 + b).0, Parse(Parse(a).1 + b).1)
    decreases |a|
  {
    hide Atoi, First, Parse, ParseFrames, EatPulses, AtIndex;
    var t := EatPulses(a);
    var at := AtIndex(t);
    ParseEats(a);
    ParseEats(a + b);
    ParseEats(t + b);
    EatAppend(a, b);
    AtLate(t);
    FrameSplit(t);
    if at < |t| && First(t, HASH, at) < |t| {
      var hash := First(t, HASH, at);
      var tail := t[hash + 1..];
      FrameAppend(t, b);
      ParseAppend(tail, b);
      var m := [Msg(Atoi(t[at - 3..at]), t[at + 1..hash])];
      assert m + (Parse(tail).0 + Parse(Parse(tail).1 + b).0) == (m + Parse(tail).0) + Parse(Parse(tail).1 + b).0;
    } else {
      assert [] + Parse(t + b).0 == Parse(t + b).0;
    }
  }

  // ------------------------------------------------------------- fed in chunks

  /** One `rx_once`: a full buffer is discarded before reading, and again when it holds no frame at all. */
  function Feed(rest: seq<byte>, chunk: seq<byte>): (seq<Msg>, seq<byte>) {
    var kept := if |rest| == RX_BUF then [] else rest;
    var r := Parse(kept + chunk);
    (r.0, if AtIndex(r.1) == |r.1| && |r.1| == RX_BUF then [] else r.1)
  }

  /**
   Of one read: a buffer that was full goes first; then the frames are those of what is left with the read behind it,
   and the rest is kept, unless it fills the buffer without a single `@` that could end an opcode.
   */
  lemma {:induction false} FeedIs(rest: seq<byte>, chunk: seq<byte>)
    requires |rest| <= 16384
    ensures
      var stream := (if |rest| < 16384 then rest else []) + chunk;
      var left := Parse(stream).1;
      && Feed(rest, chunk).0 == Parse(stream).0
      && Feed(rest, chunk).1
         == if |left| == 16384 && forall j :: 3 <= j < |left| ==> left[j] != 64 then [] else left
  {
    hide Parse;
    var left := Parse((if |rest| < 16384 then rest else []) + chunk).1;
    assert |left| >= 3 && AtIndex(left) < |left| ==> left[AtIndex(left)] == 64;
  }

  function FeedAll(rest: seq<byte>, chunks: seq<seq<byte>>): (seq<Msg>, seq<byte>)
    decreases |chunks|
  {
    if chunks == [] then ([], rest)
    else
      var one := Feed(rest, chunks[0]);
      var more := FeedAll(one.1, chunks[1..]);
      (one.0 + more.0, more.1)
  }

  /** No chunk leaves a full buffer behind. */
  predicate NeverFull(rest: seq<byte>, chunks: seq<seq<byte>>)
    decreases |chunks|
  {
    |rest| < RX_BUF &&
    (chunks != [] ==> var left := Parse(rest + chunks[0]).1; NeverFull(left, chunks[1..]))
  }

  function Concat(chunks: seq<seq<byte>>): seq<byte> {
    if chunks == [] then [] else chunks[0] + Concat(chunks[1..])
  }

  lemma {:induction false} FeedParses(rest: seq<byte>, chunks: seq<seq<byte>>)
    requires NeverFull(rest, chunks) && Parse(rest) == ([], rest)
    ensures FeedAll(rest, chunks) == Parse(rest + Concat(chunks))
    decreases |chunks|
  {
    if chunks == [] {
      assert rest + Concat(chunks) == rest;
    } else {
      var r := Parse(rest + chunks[0]);
      assert NeverFull(r.1, chunks[1..]);
      assert |r.1| < RX_BUF;
      ResidueIsStuck(rest + chunks[0]);
      FeedParses(r.1, chunks[1..]);
      assert rest + Concat(chunks) == (rest + chunks[0]) + Concat(chunks[1..]);
      ParseAppend(rest + chunks[0], Concat(chunks[1..]));
    }
  }

  lemma {:induction false} ResidueIsStuck(s: seq<byte>)
    ensures Parse(Parse(s).1) == ([], Parse(s).1)
    decreases |s|
  {
    var t := EatPulses(s);
    var at := AtIndex(t);
    if at == |t| || First(t, HASH, at) == |t| {
      EatTwice(s);
    } else {
      ResidueIsStuck(t[First(t, HASH, at) + 1..]);
    }
  }

  /**
   Chunk independence: however the stream is split, while the residue stays below the buffer size the
   messages and the residue are those of the whole stream.
   */
  lemma {:induction false} ChunkIndependence(chunks: seq<seq<byte>>)
    requires NeverFull([], chunks)
    ensures FeedAll([], chunks) == Parse(Concat(chunks))
  {
    FeedParses([], chunks);
    assert [] + Concat(chunks) == Concat(chunks);
  }

  // -------------------------------------------------------------- round trip

  // What the head sends: pulses, and frames with a three-digit opcode.
  datatype Item = Pulse | Frame(d2: nat, d1: nat, d0: nat, args: seq<byte>)

  predicate ValidItem(i: Item) {
    i.Frame? ==> i.d2 < 10 && i.d1 < 10 && i.d0 < 10 && HASH !in i.args
  }

  function PrintItem(i: Item): seq<byte>
    requires ValidItem(i)
  {
    match i
    case Pulse => [PULSE, HASH]
    case Frame(d2, d1, d0, args) => [48 + d2, 48 + d1, 48 + d0, AT] + args + [HASH]
  }

  function Print(items: seq<Item>): seq<byte>
    requires forall i :: i in items ==> ValidItem(i)
  {
    if items == [] then [] else PrintItem(items[0]) + Print(items[1..])
  }

  function Messages(items: seq<Item>): seq<Msg> {
    if items == [] then []
    else
      (match items[0]
       case Pulse => []
       case Frame(d2, d1, d0, args) => [Msg(100 * d2 + 10 * d1 + d0, args)]) + Messages(items[1..])
  }

  lemma {:induction false} OpcodeValue(d2: nat, d1: nat, d0: nat)
    requires d2 < 10 && d1 < 10 && d0 < 10
    ensures Atoi([48 + d2, 48 + d1, 48 + d0]) == 100 * d2 + 10 * d1 + d0
  {
    var s: seq<byte> := [48 + d2, 48 + d1, 48 + d0];
    assert s[1..] == [48 + d1, 48 + d0] && s[1..][1..] == [48 + d0] && s[1..][1..][1..] == [];
    assert Digits(s, 0) == Digits(s[1..], d2) == Digits(s[1..][1..], 10 * d2 + d1);
    assert Digits(s[1..][1..], 10 * d2 + d1) == Digits(s[1..][1..][1..], 100 * d2 + 10 * d1 + d0);
  }

  lemma {:induction false} FirstIs(s: seq<byte>, c: byte, from: nat, i: nat)
    requires from <= i < |s| && s[i] == c && forall j :: from <= j < i ==> s[j] != c
    ensures First(s, c, from) == i
  {
  }

  /** A printed frame's parts, with anything behind it. */
  lemma {:induction false} FrameParts(f: Item, rest: seq<byte>)
    requires f.Frame? && ValidItem(f)
    ensures
      var s := PrintItem(f) + rest;
      var hash := 4 + |f.args|;
      && EatPulses(s) == s && AtIndex(s) == 3 && First(s, HASH, 3) == hash < |s|
      && s[0..3] == [48 + f.d2, 48 + f.d1, 48 + f.d0] && s[4..hash] == f.args && s[hash + 1..] == rest
  {
    hide First;
    var s := PrintItem(f) + rest;
    var hash := 4 + |f.args|;
    FirstIs(s, AT, 3, 3);
    forall j | 3 <= j < hash
      ensures s[j] != HASH
    {
      if 4 <= j {
        assert s[j] == f.args[j - 4] && f.args[j - 4] in f.args;
      }
    }
    FirstIs(s, HASH, 3, hash);
  }

  lemma {:induction false} ParseFrame(f: Item, rest: seq<byte>)
    requires f.Frame? && ValidItem(f)
    ensures Parse(PrintItem(f) + rest)
            == ([Msg(100 * f.d2 + 10 * f.d1 + f.d0, f.args)] + Parse(rest).0, Parse(rest).1)
  {
    hide Atoi, First, EatPulses, AtIndex, PrintItem;
    var s := PrintItem(f) + rest;
    FrameParts(f, rest);
    OpcodeValue(f.d2, f.d1, f.d0);
    assert Parse(s) == ParseFrames(s);
  }

  /** Everything the head prints comes back, in order, with nothing left over. */
  lemma {:induction false} RoundTrip(items: seq<Item>)
    requires forall i :: i in items ==> ValidItem(i)
    ensures Parse(Print(items)) == (Messages(items), [])
  {
    if items != [] {
      RoundTrip(items[1..]);
      if items[0].Pulse? {
        var s := Print(items);
        assert s[2..] == Print(items[1..]) && s[0] == PULSE && s[1] == HASH;
        assert [] + Messages(items[1..]) == Messages(items[1..]);
      } else {
        ParseFrame(items[0], Print(items[1..]));
      }
    }
  }
}
