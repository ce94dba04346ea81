/** Validating the mode field of the conditions text (offsets 0xE4 to 0x10C and 0x180 to 0x224). */
module BulbField {
  import opened Words
  import opened Arm
  import opened BulbTable
  import opened BulbMachine
  import opened BulbRun
  import opened BulbQuery

  /** The byte the code reads at index `k`: the terminating NUL one past the end. */
  function Peek(text: seq<byte>, k: int): byte {
    if 0 <= k < |text| then text[k] else 0
  }

  predicate Digit(b: byte) {
    48 <= b <= 57
  }

  predicate Delimited(text: seq<byte>, i: int) {
    2 <= i && Peek(text, i - 2) == 59 && Peek(text, i - 1) == 32
  }

  /** The number at `d`, as the parser reads it: one or two digits, no leading zero, then a semicolon. */
  function FieldValue(text: seq<byte>, d: int): Option<nat> {
    var c1, c2, c3 := Peek(text, d), Peek(text, d + 1), Peek(text, d + 2);
    if !Digit(c1) then None
    else if c2 == 59 then Some(c1 - 48)
    else if c1 == 48 || !Digit(c2) then None
    else if c3 == 59 then Some(10 * (c1 - 48) + (c2 - 48))
    else None
  }

  lemma TextByte(p: Platform, w: World, o: Oracle, m0: Machine, t: Point, k: int)
    requires HoldsText(p, w, o, m0, t) && 0 <= k <= |w.text|
    ensures ByteAt(t.m.cpu.mem, w.value.value + k) == Some(Peek(w.text, k))
    ensures w.value.value + |w.text| < TWO32
  {
    hide Held;
    if k < |w.text| {
      assert ByteAt(t.m.cpu.mem, w.value.value + k) == Some(w.text[k]);
    }
  }

  lemma TextState(p: Platform, w: World, o: Oracle, m0: Machine, t: Point)
    requires HoldsText(p, w, o, m0, t)
    ensures Bounds(p) && Going(p, o, m0, t) && ValueOk(w)
    ensures p.stackLow <= t.m.cpu.r.sp < p.stackTop - 2064 + 1 && t.m.cpu.r.sp % 4 == 0
    ensures t.m.cpu.r.sp + 4 in t.m.cpu.mem && t.m.cpu.mem[t.m.cpu.r.sp + 4] == w.value.value
  {
    hide Loaded, ValidPlatform, Behaved, StackMapped, TextAt, Reach;
  }

  predicate RegistersOnly(s: Cpu, s1: Cpu) {
    s1.mem == s.mem && s1.r.sp == s.r.sp && s1.r.r4 == s.r.r4 && s1.r.fp == s.r.fp
  }

  /** An instruction that only touches r0-r3 and flags leaves the borrowed text where it was. */
  lemma Read1(p: Platform, w: World, o: Oracle, m0: Machine, t: Point, off: int) returns (t1: Point)
    requires HoldsText(p, w, o, m0, t) && AtOff(p, t, off)
    requires !Table(p.a, off).Blank? && Effect(p.a, off, Table(p.a, off), t.m.cpu).Done?
    requires RegistersOnly(t.m.cpu, Effect(p.a, off, Table(p.a, off), t.m.cpu).cpu)
    ensures t1 == Then(t, Effect(p.a, off, Table(p.a, off), t.m.cpu).cpu)
    ensures HoldsText(p, w, o, m0, t1)
  {
    hide Run, Loaded, ValidPlatform, Behaved, FrameOf, TextAt, Table, Effect, Freed;
    t1 := Tick(p, o, m0, t, off);
  }

  /** A comparison and its branch, the borrowed text untouched. */
  lemma Test1(p: Platform, w: World, o: Oracle, m0: Machine, t: Point,
              off: int, reg: Reg, imm: word, cond: Cond, target: int)
      returns (t1: Point)
    requires HoldsText(p, w, o, m0, t) && AtOff(p, t, off) && 0 <= off < 0x2F0 && 0 <= target < 0x300
    requires Table(p.a, off).Raw? && Decode(Table(p.a, off).w) == Op32(AL, DpImm(CMP, R0, reg, imm))
    requires Table(p.a, off + 4).Br? && Table(p.a, off + 4).target == p.a.cave + target
    requires CondOf(Table(p.a, off + 4).cond) == Some(cond) && !Table(p.a, off + 4).link && cond in {EQ, NE, CC, HI}
    requires !reg.PC?
    ensures HoldsText(p, w, o, m0, t1) && t1.n == t.n + 2
    ensures t1.m.cpu.r == t.m.cpu.r && t1.m.cpu.mem == t.m.cpu.mem
    ensures AtOff(p, t1, if Meets(cond, Read(t.m.cpu, reg), imm) then target else off + 8)
  {
    hide Run, Step, Loaded, ValidPlatform, Decode, Behaved, FrameOf, TextAt, Table, Freed;
    t1 := Test(p, o, m0, t, off, reg, imm, cond, target);
  }

  // -------------------------------------------------------------- delimiters

  lemma Distance(p: Platform, w: World, o: Oracle, m0: Machine, t0: Point, i: int) returns (t: Point)
    requires HoldsText(p, w, o, m0, t0) && AtOff(p, t0, 0xE4)
    requires FirstAt(w.text, MODE_KEY, i) && t0.m.cpu.r.r0 == w.value.value + i
    ensures HoldsText(p, w, o, m0, t) && t.n <= t0.n + 4 && t.m.cpu.r.r0 == w.value.value + i
    ensures AtOff(p, t, if 2 <= i then 0xF4 else 0x158)
  {
    hide HoldsText, Going, Decode, Pow2, OccursAt;
    TextState(p, w, o, m0, t0);
    StackLoads();
    Shifted();
    CompareR2();
    t := Read1(p, w, o, m0, t0, 0xE4);
    t := Read1(p, w, o, m0, t, 0xE8);
    t := Test1(p, w, o, m0, t, 0xEC, R2, 2, CC, 0x158);
  }

  lemma KeyFits(text: seq<byte>, i: int)
    requires OccursAt(text, MODE_KEY, i)
    ensures 0 <= i && i + 18 <= |text|
  {
  }

  lemma SpaceBefore(p: Platform, w: World, o: Oracle, m0: Machine, t0: Point, i: int) returns (t: Point)
    requires HoldsText(p, w, o, m0, t0) && AtOff(p, t0, 0x100)
    requires 1 <= i <= |w.text| && t0.m.cpu.r.r0 == w.value.value + i
    ensures HoldsText(p, w, o, m0, t) && t.n <= t0.n + 4 && t.m.cpu.r.r0 == w.value.value + i
    ensures AtOff(p, t, if Peek(w.text, i - 1) == 32 then 0x180 else 0x158)
  {
    hide HoldsText, Going, Decode, Pow2, ByteAt, Peek;
    TextState(p, w, o, m0, t0);
    TextByte(p, w, o, m0, t0, i - 1);
    ByteLoads();
    CompareR1Letter();
    t := Read1(p, w, o, m0, t0, 0x100);
    t := Test1(p, w, o, m0, t, 0x104, R1, 32, NE, 0x158);
    if Peek(w.text, i - 1) == 32 {
      t := Read1(p, w, o, m0, t, 0x10C);
    }
  }

  lemma Delimiter(p: Platform, w: World, o: Oracle, m0: Machine, t0: Point, i: int) returns (t: Point)
    requires HoldsText(p, w, o, m0, t0) && AtOff(p, t0, 0xF4)
    requires FirstAt(w.text, MODE_KEY, i) && 2 <= i && t0.m.cpu.r.r0 == w.value.value + i
    ensures HoldsText(p, w, o, m0, t) && t.n <= t0.n + 7 && t.m.cpu.r.r0 == w.value.value + i
    ensures AtOff(p, t, if Delimited(w.text, i) then 0x180 else 0x158)
  {
    hide HoldsText, Going, Decode, Pow2, OccursAt, ByteAt, Peek;
    TextState(p, w, o, m0, t0);
    KeyFits(w.text, i);
    TextByte(p, w, o, m0, t0, i - 2);
    ByteLoads();
    CompareR1Letter();
    t := Read1(p, w, o, m0, t0, 0xF4);
    t := Test1(p, w, o, m0, t, 0xF8, R1, 59, NE, 0x158);
    if Peek(w.text, i - 2) == 59 {
      t := SpaceBefore(p, w, o, m0, t, i);
    }
  }

  // ------------------------------------------------------------------ digits

  lemma DigitInside(text: seq<byte>, d: int)
    ensures Digit(Peek(text, d)) || Peek(text, d) == 59 ==> 0 <= d < |text|
  {
  }

  lemma FirstDigit(p: Platform, w: World, o: Oracle, m0: Machine, t0: Point, d: int) returns (t: Point)
    requires HoldsText(p, w, o, m0, t0) && AtOff(p, t0, 0x180)
    requires 18 <= d <= |w.text| && t0.m.cpu.r.r0 == w.value.value + d - 18
    ensures HoldsText(p, w, o, m0, t) && t.n <= t0.n + 6
    ensures t.m.cpu.r.r1 == Peek(w.text, d)
    ensures Digit(Peek(w.text, d)) ==> d < |w.text| && t.m.cpu.r.r0 == w.value.value + d + 1
    ensures AtOff(p, t, if Digit(Peek(w.text, d)) then 0x198 else 0x158)
  {
    hide HoldsText, Going, Decode, Pow2, ByteAt, Peek;
    TextState(p, w, o, m0, t0);
    TextByte(p, w, o, m0, t0, d);
    DigitInside(w.text, d);
    ByteLoads();
    CompareR1Range();
    Constants();
    t := Read1(p, w, o, m0, t0, 0x180);
    t := Read1(p, w, o, m0, t, 0x184);
    t := Test1(p, w, o, m0, t, 0x188, R1, 48, CC, 0x158);
    if Peek(w.text, d) >= 48 {
      t := Test1(p, w, o, m0, t, 0x190, R1, 57, HI, 0x158);
    }
  }

  /** After the first digit: a semicolon ends the field, or a second digit must follow. */
  lemma SecondByte(p: Platform, w: World, o: Oracle, m0: Machine, t0: Point, d: int) returns (t: Point)
    requires HoldsText(p, w, o, m0, t0) && AtOff(p, t0, 0x198)
    requires 0 <= d < |w.text| && Digit(Peek(w.text, d))
    requires t0.m.cpu.r.r0 == w.value.value + d + 1 && t0.m.cpu.r.r1 == Peek(w.text, d)
    ensures HoldsText(p, w, o, m0, t) && t.n <= t0.n + 4
    ensures t.m.cpu.r.r1 == Peek(w.text, d) - 48 && t.m.cpu.r.r2 == Peek(w.text, d + 1)
    ensures Digit(Peek(w.text, d + 1)) || Peek(w.text, d + 1) == 59 ==>
              d + 1 < |w.text| && t.m.cpu.r.r0 == w.value.value + d + 2
    ensures AtOff(p, t, if Peek(w.text, d + 1) == 59 then 0x1D8 else 0x1A8)
  {
    hide HoldsText, Going, Decode, Pow2, ByteAt, Peek;
    TextState(p, w, o, m0, t0);
    TextByte(p, w, o, m0, t0, d + 1);
    DigitInside(w.text, d + 1);
    SmallSteps();
    ByteLoads();
    CompareR2();
    t := Read1(p, w, o, m0, t0, 0x198);
    t := Read1(p, w, o, m0, t, 0x19C);
    t := Test1(p, w, o, m0, t, 0x1A0, R2, 59, EQ, 0x1D8);
  }

  lemma SecondDigit(p: Platform, w: World, o: Oracle, m0: Machine, t0: Point, d: int) returns (t: Point)
    requires HoldsText(p, w, o, m0, t0) && AtOff(p, t0, 0x1A8)
    requires t0.m.cpu.r.r1 == Peek(w.text, d) - 48 && t0.m.cpu.r.r2 == Peek(w.text, d + 1)
    ensures HoldsText(p, w, o, m0, t) && t.n <= t0.n + 6 && t.m.cpu.r == t0.m.cpu.r
    ensures AtOff(p, t, if Peek(w.text, d) != 48 && Digit(Peek(w.text, d + 1)) then 0x1C0 else 0x158)
  {
    hide HoldsText, Going, Decode, Pow2, Peek;
    TextState(p, w, o, m0, t0);
    CompareR1Range();
    CompareR2();
    t := Test1(p, w, o, m0, t0, 0x1A8, R1, 0, EQ, 0x158);
    if Peek(w.text, d) != 48 {
      t := Test1(p, w, o, m0, t, 0x1B0, R2, 48, CC, 0x158);
      if Peek(w.text, d + 1) >= 48 {
        t := Test1(p, w, o, m0, t, 0x1B8, R2, 57, HI, 0x158);
      }
    }
  }

  lemma DigitOf(s: Cpu)
    requires 48 <= s.r.r2 <= 57
    ensures Exec(s, DpImm(SUB, R2, R2, 48)) == Done(Next(s).(r := s.r.(r2 := s.r.r2 - 48)))
  {
  }

  lemma SmallWrap(x: nat)
    requires x < 256
    ensures Wrap(x) == x
  {
  }

  lemma TimesFive(s: Cpu)
    requires s.r.r1 <= 9
    ensures Exec(s, DpReg(ADD, R1, R1, R1, 2)) == Done(Next(s).(r := s.r.(r1 := 5 * s.r.r1)))
  {
    SmallWrap(5 * s.r.r1);
    SmallWrap(4 * s.r.r1);
    assert s.r.r1 * Pow2(2) == 4 * s.r.r1;
    hide Wrap, Pow2;
  }

  lemma PlusTwice(s: Cpu)
    requires s.r.r1 <= 45 && s.r.r2 <= 9
    ensures Exec(s, DpReg(ADD, R1, R2, R1, 1)) == Done(Next(s).(r := s.r.(r1 := s.r.r2 + 2 * s.r.r1)))
  {
    SmallWrap(s.r.r2 + 2 * s.r.r1);
    SmallWrap(2 * s.r.r1);
    assert s.r.r1 * Pow2(1) == 2 * s.r.r1;
    hide Wrap, Pow2;
  }

  /** Ten times the first digit plus the second, by shifted additions. */
  lemma Combine(p: Platform, w: World, o: Oracle, m0: Machine, t0: Point, d: int) returns (t: Point)
    requires HoldsText(p, w, o, m0, t0) && AtOff(p, t0, 0x1C0)
    requires Digit(Peek(w.text, d)) && Digit(Peek(w.text, d + 1))
    requires t0.m.cpu.r.r1 == Peek(w.text, d) - 48 && t0.m.cpu.r.r2 == Peek(w.text, d + 1)
    ensures HoldsText(p, w, o, m0, t) && t.n <= t0.n + 3 && AtOff(p, t, 0x1CC)
    ensures t.m.cpu.r.r0 == t0.m.cpu.r.r0
    ensures t.m.cpu.r.r1 == 10 * (Peek(w.text, d) - 48) + (Peek(w.text, d + 1) - 48)
  {
    hide HoldsText, Going, Decode, Pow2, Peek, Exec;
    TextState(p, w, o, m0, t0);
    SmallSteps();
    Shifted();
    DigitOf(t0.m.cpu);
    t := Read1(p, w, o, m0, t0, 0x1C0);
    TimesFive(t.m.cpu);
    t := Read1(p, w, o, m0, t, 0x1C4);
    PlusTwice(t.m.cpu);
    t := Read1(p, w, o, m0, t, 0x1C8);
  }

  lemma ThirdByte(p: Platform, w: World, o: Oracle, m0: Machine, t0: Point, d: int) returns (t: Point)
    requires HoldsText(p, w, o, m0, t0) && AtOff(p, t0, 0x1CC)
    requires 0 <= d && d + 1 < |w.text| && t0.m.cpu.r.r0 == w.value.value + d + 2
    ensures HoldsText(p, w, o, m0, t) && t.n <= t0.n + 3
    ensures t.m.cpu.r.r0 == t0.m.cpu.r.r0 && t.m.cpu.r.r1 == t0.m.cpu.r.r1
    ensures AtOff(p, t, if Peek(w.text, d + 2) == 59 then 0x1D8 else 0x158)
  {
    hide HoldsText, Going, Decode, Pow2, ByteAt, Peek;
    TextState(p, w, o, m0, t0);
    TextByte(p, w, o, m0, t0, d + 2);
    ByteLoads();
    CompareR2();
    t := Read1(p, w, o, m0, t0, 0x1CC);
    t := Test1(p, w, o, m0, t, 0x1D0, R2, 59, NE, 0x158);
  }

  /** The parser accepts exactly the fields FieldValue accepts, and computes their value. */
  lemma Field(p: Platform, w: World, o: Oracle, m0: Machine, t0: Point, d: int) returns (t: Point)
    requires HoldsText(p, w, o, m0, t0) && AtOff(p, t0, 0x180)
    requires 18 <= d <= |w.text| && t0.m.cpu.r.r0 == w.value.value + d - 18
    ensures HoldsText(p, w, o, m0, t) && t.n <= t0.n + 22
    ensures AtOff(p, t, if FieldValue(w.text, d).Some? then 0x1D8 else 0x158)
    ensures FieldValue(w.text, d).Some? ==>
              && d + 1 < |w.text| && t.m.cpu.r.r0 == w.value.value + d + 2
              && t.m.cpu.r.r1 == FieldValue(w.text, d).value
  {
    hide HoldsText, Peek;
    t := FirstDigit(p, w, o, m0, t0, d);
    if Digit(Peek(w.text, d)) {
      t := SecondByte(p, w, o, m0, t, d);
      if Peek(w.text, d + 1) != 59 {
        t := SecondDigit(p, w, o, m0, t, d);
        if Peek(w.text, d) != 48 && Digit(Peek(w.text, d + 1)) {
          t := Combine(p, w, o, m0, t, d);
          t := ThirdByte(p, w, o, m0, t, d);
        }
      }
    }
  }

  // ---------------------------------------------------------- duplicate keys

  lemma SaveMode(p: Platform, w: World, o: Oracle, m0: Machine, t0: Point) returns (t: Point)
    requires HoldsText(p, w, o, m0, t0) && AtOff(p, t0, 0x1D8)
    ensures HoldsText(p, w, o, m0, t) && t.n <= t0.n + 2 && AtOff(p, t, 0x204)
    ensures t.m.cpu.r == t0.m.cpu.r
    ensures t.m.cpu.r.sp + 8 in t.m.cpu.mem && t.m.cpu.mem[t.m.cpu.r.sp + 8] == t0.m.cpu.r.r1
  {
    hide Run, Step, Loaded, ValidPlatform, Decode, Pow2, Behaved, FrameOf, CString, Freed;
    FrameBounds(p, m0.cpu, t0.m.cpu);
    Stores();
    var s := t0.m.cpu;
    BufferStoreKeeps(p, m0.cpu, s, s.r.sp + 8, s.r.r1);
    TextAfterStore(p, s.mem, s.r.sp + 8, s.r.r1, w.value.value, w.text);
    t := Tick(p, o, m0, t0, 0x1D8);
    t := Tick(p, o, m0, t, 0x200);
  }

  /** The second search starts at the last byte of the field. */
  lemma Rewind(p: Platform, w: World, o: Oracle, m0: Machine, t0: Point) returns (t: Point)
    requires HoldsText(p, w, o, m0, t0) && AtOff(p, t0, 0x204) && t0.m.cpu.r.r0 >= 1
    ensures HoldsText(p, w, o, m0, t) && t.n <= t0.n + 2 && AtOff(p, t, 0x20C)
    ensures t.m.cpu.r == t0.m.cpu.r.(r0 := t0.m.cpu.r.r0 - 1, r1 := (p.a.cave + MODE_KEY_TEXT) as word)
    ensures t.m.cpu.mem == t0.m.cpu.mem
  {
    hide HoldsText, Loaded, ValidPlatform, Reach, Decode, Pow2;
    TextState(p, w, o, m0, t0);
    SmallSteps();
    Literals();
    LiteralAt(p.a, t0.m.cpu.mem, 0x250);
    t := Read1(p, w, o, m0, t0, 0x204);
    t := Read1(p, w, o, m0, t, 0x208);
  }

  lemma ByteAfterStore(p: Platform, mem: Memory, k: int, v: word, at: int)
    requires p.stackLow <= k < p.stackTop && p.stackTop % 4 == 0 && (at < p.stackLow || p.stackTop <= at)
    ensures ByteAt(mem[k := v], at) == ByteAt(mem, at)
  {
    FloorAbove(p.stackTop, at);
    hide ByteOf;
  }

  lemma FloorAbove(x: int, at: int)
    requires x % 4 == 0
    ensures at - at % 4 <= at && (x <= at ==> x <= at - at % 4)
  {
  }

  lemma TextAfterStore(p: Platform, mem: Memory, k: int, v: word, ptr: word, text: seq<byte>)
    requires TextAt(p, mem, ptr, text) && ValidPlatform(p) && p.stackLow <= k < p.stackTop && k % 4 == 0
    ensures TextAt(p, mem[k := v], ptr, text)
  {
    assert p.stackTop % 4 == 0;
    hide ValidPlatform, ByteAt;
    forall i | 0 <= i < |text|
      ensures ByteAt(mem[k := v], ptr + i) == Some(text[i])
    {
      assert ByteAt(mem, ptr + i) == Some(text[i]);
      ByteAfterStore(p, mem, k, v, ptr + i);
    }
    ByteAfterStore(p, mem, k, v, ptr + |text|);
  }

  lemma Suffix(mem: Memory, ptr: int, text: seq<byte>, k: int)
    requires CString(mem, ptr, text) && 0 <= k <= |text|
    ensures CString(mem, ptr + k, text[k..])
  {
    forall i | 0 <= i < |text| - k
      ensures ByteAt(mem, ptr + k + i) == Some(text[k..][i])
    {
      assert ByteAt(mem, ptr + (k + i)) == Some(text[k + i]);
    }
  }

  lemma DuplicateCall(p: Platform, w: World, o: Oracle, m0: Machine, t0: Point, k: int) returns (t: Point)
    requires HoldsText(p, w, o, m0, t0) && AtOff(p, t0, 0x20C) && 0 <= k <= |w.text|
    requires t0.m.cpu.r.r0 == w.value.value + k && t0.m.cpu.r.r1 == p.a.cave + MODE_KEY_TEXT
    requires t0.m.cpu.r.sp + 8 in t0.m.cpu.mem
    ensures HoldsText(p, w, o, m0, t) && t.n <= t0.n + 2 && AtOff(p, t, 0x210)
    ensures Found(w.text[k..], MODE_KEY, (w.value.value + k) as word, t.m.cpu.r.r0)
    ensures t.m.cpu.r.sp == t0.m.cpu.r.sp && t.m.cpu.r.sp + 8 in t.m.cpu.mem
    ensures t.m.cpu.mem[t.m.cpu.r.sp + 8] == t0.m.cpu.mem[t0.m.cpu.r.sp + 8]
  {
    hide Run, Step, Loaded, ValidPlatform, Decode, Pow2, Behaved, KeepsCaller, FrameOf, CString, Freed, Found;
    FrameBounds(p, m0.cpu, t0.m.cpu);
    MatchStrings(p.a, t0.m.cpu.mem);
    Suffix(t0.m.cpu.mem, w.value.value, w.text, k);
    var m := Called(p, t0.m, 0x20C, StrStr);
    t := Invoke(p, w, o, m0, m0.cpu, t0, 0x20C, StrStr);
    SlotKept(p, m, StrStr, t.m.cpu.mem, t.m.cpu.r.sp);
    SlotKept(p, m, StrStr, t.m.cpu.mem, t.m.cpu.r.sp + 4);
    SlotKept(p, m, StrStr, t.m.cpu.mem, t.m.cpu.r.sp + 8);
    TextKept(p, m, t.m.cpu.mem, w.value.value, w.text);
  }

  ghost predicate Repeated(text: seq<byte>, k: int)
    requires 0 <= k <= |text|
  {
    exists j :: OccursAt(text[k..], MODE_KEY, j)
  }

  lemma DuplicateTest(p: Platform, w: World, o: Oracle, m0: Machine, t0: Point, k: int, mode: nat)
      returns (t: Point)
    requires HoldsText(p, w, o, m0, t0) && AtOff(p, t0, 0x210) && 0 < k <= |w.text| && w.value.value + k < TWO32
    requires Found(w.text[k..], MODE_KEY, (w.value.value + k) as word, t0.m.cpu.r.r0)
    requires t0.m.cpu.r.sp + 8 in t0.m.cpu.mem && t0.m.cpu.mem[t0.m.cpu.r.sp + 8] == mode
    ensures HoldsText(p, w, o, m0, t) && t.n <= t0.n + 6
    ensures AtOff(p, t, if !Repeated(w.text, k) && mode <= 31 then 0x1E0 else 0x158)
    ensures AtOff(p, t, 0x1E0) ==> t.m.cpu.r.r1 == mode
  {
    hide HoldsText, Going, Decode, Pow2, OccursAt;
    TextState(p, w, o, m0, t0);
    CompareR0R3();
    CompareR1Range();
    StackLoads();
    t := Test1(p, w, o, m0, t0, 0x210, R0, 0, NE, 0x158);
    if !Repeated(w.text, k) {
      t := Read1(p, w, o, m0, t, 0x218);
      t := Test1(p, w, o, m0, t, 0x21C, R1, 31, HI, 0x158);
      if mode <= 31 {
        t := Read1(p, w, o, m0, t, 0x224);
      }
    }
  }

  predicate BulbMode(mode: nat) {
    mode == 9 || mode == 12 || mode == 20
  }

  lemma Dispatch(p: Platform, w: World, o: Oracle, m0: Machine, t0: Point, mode: nat) returns (t: Point)
    requires HoldsText(p, w, o, m0, t0) && AtOff(p, t0, 0x1E0) && t0.m.cpu.r.r1 == mode
    ensures HoldsText(p, w, o, m0, t) && t.n <= t0.n + 7
    ensures AtOff(p, t, if BulbMode(mode) then 0x11C else 0x110)
  {
    hide HoldsText, Going, Decode, Pow2;
    TextState(p, w, o, m0, t0);
    CompareR1Letter();
    t := Test1(p, w, o, m0, t0, 0x1E0, R1, 9, EQ, 0x11C);
    if mode != 9 {
      t := Test1(p, w, o, m0, t, 0x1E8, R1, 12, EQ, 0x11C);
      if mode != 12 {
        t := Test1(p, w, o, m0, t, 0x1F0, R1, 20, EQ, 0x11C);
        if mode != 20 {
          t := Read1(p, w, o, m0, t, 0x1F8);
        }
      }
    }
  }
}
