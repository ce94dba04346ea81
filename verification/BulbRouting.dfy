/** The ways out of the trampoline and the routing theorem over every text and every permitted reply. */
module BulbRouting {
  import opened Words
  import opened Arm
  import opened BulbTable
  import opened BulbMachine
  import opened BulbRun
  import opened BulbQuery
  import opened BulbField
  import opened BulbText

  // ---------------------------------------------------------------- outcomes

  /** The timed-Bulb helper is entered as if called in place of the burst helper. */
  ghost predicate BulbEntered(p: Platform, s0: Cpu, s: Cpu) {
    && s.pc == p.a.bulb
    && s.r.r0 == s0.r.r0 && s.r.r1 == s0.r.r1 && s.r.r2 == s0.r.r2
    && s.r.sp == s0.r.sp && s.r.lr == s0.r.lr && s.r.r4 == s0.r.r4 && s.r.fp == s0.r.fp
    && CallerKept(p, s0, s.mem)
  }

  /** The burst helper continues after its prologue: {r4, fp, lr} pushed, fp set, 172 bytes of locals. */
  ghost predicate StockResumed(p: Platform, s0: Cpu, s: Cpu) {
    var sp := s0.r.sp;
    && s.pc == p.a.burst + 12
    && s.r.r0 == s0.r.r0 && s.r.r1 == s0.r.r1 && s.r.r2 == s0.r.r2
    && s.r.sp == sp - 12 - 172 && s.r.fp == sp - 4 && s.r.r4 == s0.r.r4 && s.r.lr == s0.r.lr
    && {sp - 12, sp - 8, sp - 4} <= s.mem.Keys
    && s.mem[sp - 12] == s0.r.r4 && s.mem[sp - 8] == s0.r.fp && s.mem[sp - 4] == s0.r.lr
    && CallerKept(p, s0, s.mem)
  }

  /** GP_ERROR_CAMERA_BUSY (-110) is returned to the caller. */
  ghost predicate Refused(p: Platform, s0: Cpu, s: Cpu) {
    && s.pc == s0.r.lr && s.r.r0 == Wrap(-110)
    && s.r.sp == s0.r.sp && s.r.r4 == s0.r.r4 && s.r.fp == s0.r.fp
    && CallerKept(p, s0, s.mem)
  }

  /**
   The widget is released by the last call of the run and by no earlier one. No load from its text comes
   after: `KeepsCaller` lets the free unmap all of it, so such a load would fault and the run would not end.
   */
  ghost predicate FreedLast(w: World, log: seq<Call>) {
    && |log| > 0 && WidgetOk(w)
    && log[|log| - 1].callee == WidgetFree && log[|log| - 1].r0 == w.widget.value
    && !Freed(log[..|log| - 1])
  }

  // ------------------------------------------------------------------- exits

  lemma PopArgs(p: Platform, s0: Cpu, s: Cpu)
    requires FrameOf(p, s0, s0.r.sp - 2064, s.r.r4, s.r.fp, s.mem) && s.r.sp == s0.r.sp - 16
    ensures ExecPop(s, ARGS)
            == Done(Next(s).(r := Regs(s0.r.r0, s0.r.r1, s0.r.r2, s.r.r3, s.r.r4, s.r.fp, s0.r.sp, s0.r.lr)))
  {
  }

  /** `add sp, sp, #2048; pop {r0, r1, r2, lr}` */
  lemma CloseFrame(p: Platform, o: Oracle, m0: Machine, t0: Point, off: int) returns (t: Point)
    requires Going(p, o, m0, t0) && InFrame(p, m0.cpu, t0.m.cpu) && AtOff(p, t0, off) && 0 <= off < 0x200
    requires Table(p.a, off) == Raw(0xE28D_DB02) && Table(p.a, off + 4) == Raw(0xE8BD_4007)
    requires p.stackLow + 2064 <= m0.cpu.r.sp
    ensures Going(p, o, m0, t) && t.n == t0.n + 2 && t.m.log == t0.m.log && AtOff(p, t, off + 8)
    ensures Restored(p, m0.cpu, t.m.cpu)
  {
    hide Run, Step, Loaded, ValidPlatform, Decode, Pow2, FrameOf, StackMapped, ExecPop, Table, CallerKept;
    FrameBounds(p, m0.cpu, t0.m.cpu);
    FrameMapped(p, m0.cpu, t0.m.cpu);
    StackAdjustments();
    BlockTransfers();
    t := Tick(p, o, m0, t0, off);
    PopArgs(p, m0.cpu, t.m.cpu);
    t := Tick(p, o, m0, t, off + 4);
  }

  lemma FrameMapped(p: Platform, s0: Cpu, s: Cpu)
    requires InFrame(p, s0, s)
    ensures StackMapped(p, s.mem) && s.r.r4 == s0.r.r4 && s.r.fp == s0.r.fp && CallerKept(p, s0, s.mem)
  {
  }

  const LINKAGE := RegList(false, false, false, false, true, true, true)

  lemma PushLinkage(p: Platform, s: Cpu)
    requires StackMapped(p, s.mem) && s.r.sp % 4 == 0
    requires 0 < p.stackLow <= s.r.sp - 16 && s.r.sp <= p.stackTop < TWO32
    ensures ExecPush(s, LINKAGE)
            == Done(Next(s).(r := s.r.(sp := s.r.sp - 12),
                             mem := s.mem[s.r.sp - 12 := s.r.r4][s.r.sp - 8 := s.r.fp][s.r.sp - 4 := s.r.lr]))
  {
  }

  /** The three overwritten prologue words, then the rest of the stock helper. */
  lemma LinkageKeeps(p: Platform, s0: Cpu, mem: Memory, sp: int, a: word, b: word, c: word)
    requires ValidPlatform(p) && Loaded(p.a, mem) && StackMapped(p, mem) && CallerKept(p, s0, mem)
    requires p.stackLow <= sp - 12 && sp <= p.stackTop && sp == s0.r.sp
    ensures
      var pushed := mem[sp - 12 := a][sp - 8 := b][sp - 4 := c];
      Loaded(p.a, pushed) && StackMapped(p, pushed) && CallerKept(p, s0, pushed)
  {
    hide Loaded, ValidPlatform, StackMapped, CallerKept;
    var m1 := mem[sp - 12 := a];
    var m2 := m1[sp - 8 := b];
    CallerKeptByStore(p, s0, mem, sp - 12, a);
    CallerKeptByStore(p, s0, m1, sp - 8, b);
    CallerKeptByStore(p, s0, m2, sp - 4, c);
    StackStoreKeeps(p, mem, sp - 12, a);
    StackStoreKeeps(p, m1, sp - 8, b);
    StackStoreKeeps(p, m2, sp - 4, c);
  }

  lemma Stock(p: Platform, o: Oracle, m0: Machine, t0: Point) returns (t: Point)
    requires Going(p, o, m0, t0) && AtOff(p, t0, 0x138) && Restored(p, m0.cpu, t0.m.cpu)
    requires p.a.burst + 16 < TWO32
    ensures Reach(p.a, o, m0, t.n, t.m) && t.n == t0.n + 4 && t.m.log == t0.m.log
    ensures StockResumed(p, m0.cpu, t.m.cpu)
  {
    hide Run, Step, Loaded, ValidPlatform, Decode, Pow2, StackMapped, ExecPush, CallerKept;
    var s := t0.m.cpu;
    LinkageKeeps(p, m0.cpu, s.mem, s.r.sp, s.r.r4, s.r.fp, s.r.lr);
    PushLinkage(p, s);
    BlockTransfers();
    SmallSteps();
    Constants();
    t := Tick(p, o, m0, t0, 0x138);
    t := Tick(p, o, m0, t, 0x13C);
    t := Tick(p, o, m0, t, 0x140);
    t := Tick(p, o, m0, t, 0x144);
  }

  lemma Busy(p: Platform, o: Oracle, m0: Machine, t0: Point) returns (t: Point)
    requires Going(p, o, m0, t0) && InFrame(p, m0.cpu, t0.m.cpu) && AtOff(p, t0, 0x148)
    requires p.stackLow + 2064 <= m0.cpu.r.sp
    ensures Reach(p.a, o, m0, t.n, t.m) && t.n == t0.n + 4 && t.m.log == t0.m.log
    ensures Refused(p, m0.cpu, t.m.cpu)
  {
    hide Run, Step, Loaded, ValidPlatform, Decode, Pow2, FrameOf, StackMapped, CallerKept;
    Constants();
    Return();
    t := CloseFrame(p, o, m0, t0, 0x148);
    t := Tick(p, o, m0, t, 0x150);
    t := Tick(p, o, m0, t, 0x154);
  }

  /** `ldr r0, [sp]; bl gp_widget_free` */
  lemma Free(p: Platform, w: World, o: Oracle, m0: Machine, t0: Point, off: int) returns (t: Point)
    requires HoldsWidget(p, w, o, m0, t0) && AtOff(p, t0, off) && 0 <= off < 0x200
    requires Table(p.a, off) == Raw(0xE59D_0000) && Table(p.a, off + 4) == Br(p.a.widgetFree, 14, true)
    ensures Going(p, o, m0, t) && InFrame(p, m0.cpu, t.m.cpu) && t.n == t0.n + 3 && AtOff(p, t, off + 8)
    ensures FreedLast(w, t.m.log)
  {
    hide Run, Step, Loaded, ValidPlatform, Decode, Pow2, Behaved, KeepsCaller, FrameOf, Table, Freed;
    FrameBounds(p, m0.cpu, t0.m.cpu);
    StackLoads();
    t := Tick(p, o, m0, t0, off);
    var log := t.m.log;
    t := Invoke(p, w, o, m0, m0.cpu, t, off + 4, WidgetFree);
    assert t.m.log[..|log|] == log;
  }

  lemma BulbExit(p: Platform, w: World, o: Oracle, m0: Machine, t0: Point) returns (t: Point)
    requires HoldsWidget(p, w, o, m0, t0) && AtOff(p, t0, 0x11C) && p.stackLow + 2064 <= m0.cpu.r.sp
    ensures Reach(p.a, o, m0, t.n, t.m) && t.n == t0.n + 6
    ensures BulbEntered(p, m0.cpu, t.m.cpu) && FreedLast(w, t.m.log)
  {
    hide Run, Step, Loaded, ValidPlatform, Decode, Behaved, FrameOf, StackMapped, FreedLast, CallerKept;
    t := Free(p, w, o, m0, t0, 0x11C);
    t := CloseFrame(p, o, m0, t, 0x124);
    t := Tick(p, o, m0, t, 0x12C);
  }

  lemma StockExit(p: Platform, o: Oracle, m0: Machine, t0: Point) returns (t: Point)
    requires Going(p, o, m0, t0) && InFrame(p, m0.cpu, t0.m.cpu) && AtOff(p, t0, 0x130)
    requires p.stackLow + 2064 <= m0.cpu.r.sp && p.a.burst + 16 < TWO32
    ensures Reach(p.a, o, m0, t.n, t.m) && t.n == t0.n + 6 && t.m.log == t0.m.log
    ensures StockResumed(p, m0.cpu, t.m.cpu)
  {
    hide Going, InFrame, Restored, StockResumed, Reach;
    t := CloseFrame(p, o, m0, t0, 0x130);
    t := Stock(p, o, m0, t);
  }

  lemma NonBulbExit(p: Platform, w: World, o: Oracle, m0: Machine, t0: Point) returns (t: Point)
    requires HoldsWidget(p, w, o, m0, t0) && AtOff(p, t0, 0x110)
    requires p.stackLow + 2064 <= m0.cpu.r.sp && p.a.burst + 16 < TWO32
    ensures Reach(p.a, o, m0, t.n, t.m) && t.n == t0.n + 10
    ensures StockResumed(p, m0.cpu, t.m.cpu) && FreedLast(w, t.m.log)
  {
    hide Run, Step, Loaded, ValidPlatform, Decode, Behaved, FrameOf, StackMapped, FreedLast, CallerKept;
    t := Free(p, w, o, m0, t0, 0x110);
    t := Tick(p, o, m0, t, 0x118);
    t := StockExit(p, o, m0, t);
  }

  lemma RefusedExit(p: Platform, w: World, o: Oracle, m0: Machine, t0: Point) returns (t: Point)
    requires HoldsWidget(p, w, o, m0, t0) && AtOff(p, t0, 0x158) && p.stackLow + 2064 <= m0.cpu.r.sp
    ensures Reach(p.a, o, m0, t.n, t.m) && t.n == t0.n + 8
    ensures Refused(p, m0.cpu, t.m.cpu) && FreedLast(w, t.m.log)
  {
    hide Run, Step, Loaded, ValidPlatform, Decode, Behaved, FrameOf, StackMapped, FreedLast, CallerKept;
    t := Free(p, w, o, m0, t0, 0x158);
    t := Tick(p, o, m0, t, 0x160);
    t := Busy(p, o, m0, t);
  }

  // ----------------------------------------------------------------- routing

  /** The library was reached and handed out a text that names mode `m`. */
  ghost predicate ModeRead(w: World, m: nat) {
    WidgetOk(w) && KindOk(w) && ValueOk(w) && HasMode(w.text, m)
  }

  ghost predicate GateOk(w: World, s0: Cpu) {
    s0.r.r0 == 0 && Signed(s0.r.r1) > 0 && VendorOk(w) && LabelOk(w)
  }

  ghost predicate Wants(w: World, bulb: bool) {
    exists m :: ModeRead(w, m) && BulbMode(m) == bulb
  }

  // The run has ended where the specification says, its caller's part of the stack as it was.
  ghost predicate Routed(p: Platform, w: World, s0: Cpu, m: Machine) {
    && (!GateOk(w, s0) ==> StockResumed(p, s0, m.cpu) && !Freed(m.log))
    && (GateOk(w, s0) && Wants(w, true) ==> BulbEntered(p, s0, m.cpu))
    && (GateOk(w, s0) && Wants(w, false) ==> StockResumed(p, s0, m.cpu))
    && (GateOk(w, s0) && !Wants(w, true) && !Wants(w, false) ==> Refused(p, s0, m.cpu))
    && (GateOk(w, s0) ==> if WidgetOk(w) then FreedLast(w, m.log) else !Freed(m.log))
  }

  lemma NoMode(w: World)
    requires !(WidgetOk(w) && KindOk(w) && ValueOk(w)) || (forall m :: !HasMode(w.text, m))
    ensures !Wants(w, true) && !Wants(w, false)
  {
  }

  /** One text names at most one mode. */
  lemma ModeUnique(text: seq<byte>, i: int, m: nat)
    requires ModeAt(text, i, m)
    ensures forall m1 :: HasMode(text, m1) ==> m1 == m
  {
    forall m1 | HasMode(text, m1)
      ensures m1 == m
    {
      ModeIff(text, m1);
      var j :| ModeAt(text, j, m1);
      assert OccursAt(text, MODE_KEY, i) && OccursAt(text, MODE_KEY, j);
    }
  }

  lemma NotAt(text: seq<byte>, i: int)
    requires FirstAt(text, MODE_KEY, i)
    requires !Delimited(text, i) || FieldValue(text, i + 18) == None
             || (i + 19 <= |text| && Repeated(text, i + 19)) || FieldValue(text, i + 18).value > 31
    ensures forall m :: !HasMode(text, m)
  {
    hide OccursAt, FieldValue, Delimited, Repeated, HasMode;
    forall m
      ensures !HasMode(text, m)
    {
      ModeIff(text, m);
      forall j
        ensures !ModeAt(text, j, m)
      {
        if FirstAt(text, MODE_KEY, j) {
          assert j == i;
        }
      }
    }
  }

  /** From the borrowed text to the end of the run. */
  lemma RouteText(p: Platform, w: World, o: Oracle, m0: Machine, t0: Point) returns (t: Point)
    requires HoldsText(p, w, o, m0, t0) && AtOff(p, t0, 0xD4) && t0.m.cpu.r.r0 == w.value.value
    requires KindOk(w) && GateOk(w, m0.cpu) && p.stackLow + 2064 <= m0.cpu.r.sp && p.a.burst + 16 < TWO32
    ensures Reach(p.a, o, m0, t.n, t.m) && t.n <= t0.n + 80 && Routed(p, w, m0.cpu, t.m)
  {
    hide Held, Reach, GateOk, StockResumed, BulbEntered, Refused, FreedLast, TextAt, OccursAt, FieldValue,
      Delimited, HasMode, VendorOk, LabelOk, Freed;
    t := KeyCall(p, w, o, m0, t0);
    var i;
    t, i := KeySearch(p, w, o, m0, t);
    if !KeyFound(w.text) {
      NoKey(w.text);
      NoMode(w);
      t := RefusedExit(p, w, o, m0, t);
      return;
    }
    NotDelimited(w.text, i);
    t := Distance(p, w, o, m0, t, i);
    if 2 <= i {
      t := Delimiter(p, w, o, m0, t, i);
    }
    if !Delimited(w.text, i) {
      NotAt(w.text, i);
      NoMode(w);
      t := RefusedExit(p, w, o, m0, t);
      return;
    }
    t := RouteField(p, w, o, m0, t, i);
  }

  lemma NotDelimited(text: seq<byte>, i: int)
    ensures i < 2 ==> !Delimited(text, i)
  {
  }

  lemma NoKey(text: seq<byte>)
    requires !KeyFound(text)
    ensures forall m :: !HasMode(text, m)
  {
    hide HasMode, OccursAt;
    forall m
      ensures !HasMode(text, m)
    {
      ModeIff(text, m);
    }
  }

  lemma RouteField(p: Platform, w: World, o: Oracle, m0: Machine, t0: Point, i: int) returns (t: Point)
    requires HoldsText(p, w, o, m0, t0) && AtOff(p, t0, 0x180)
    requires FirstAt(w.text, MODE_KEY, i) && Delimited(w.text, i) && t0.m.cpu.r.r0 == w.value.value + i
    requires KindOk(w) && GateOk(w, m0.cpu) && p.stackLow + 2064 <= m0.cpu.r.sp && p.a.burst + 16 < TWO32
    ensures Reach(p.a, o, m0, t.n, t.m) && t.n <= t0.n + 55 && Routed(p, w, m0.cpu, t.m)
  {
    hide Held, Reach, GateOk, StockResumed, BulbEntered, Refused, FreedLast, TextAt, OccursAt, FieldValue,
      Delimited, HasMode, VendorOk, LabelOk, Freed, Repeated;
    KeyFits(w.text, i);
    t := Field(p, w, o, m0, t0, i + 18);
    if FieldValue(w.text, i + 18).None? {
      NotAt(w.text, i);
      NoMode(w);
      t := RefusedExit(p, w, o, m0, t);
      return;
    }
    var mode := FieldValue(w.text, i + 18).value;
    TextByte(p, w, o, m0, t, 0);
    t := SaveMode(p, w, o, m0, t);
    t := Rewind(p, w, o, m0, t);
    t := DuplicateCall(p, w, o, m0, t, i + 19);
    t := DuplicateTest(p, w, o, m0, t, i + 19, mode);
    if Repeated(w.text, i + 19) || mode > 31 {
      NotAt(w.text, i);
      NoMode(w);
      t := RefusedExit(p, w, o, m0, t);
      return;
    }
    assert ModeAt(w.text, i, mode);
    ModeIff(w.text, mode);
    ModeUnique(w.text, i, mode);
    assert ModeRead(w, mode);
    t := Dispatch(p, w, o, m0, t, mode);
    if BulbMode(mode) {
      t := BulbExit(p, w, o, m0, t);
    } else {
      t := NonBulbExit(p, w, o, m0, t);
    }
  }

  /** From the opened frame to the end of the run. */
  lemma RouteQuery(p: Platform, w: World, o: Oracle, m0: Machine, t0: Point) returns (t: Point)
    requires Held(p, w, o, m0, t0) && AtOff(p, t0, 0x6C)
    requires GateOk(w, m0.cpu) && p.stackLow + 2064 <= m0.cpu.r.sp && p.a.burst + 16 < TWO32
    ensures Reach(p.a, o, m0, t.n, t.m) && t.n <= t0.n + 130 && Routed(p, w, m0.cpu, t.m)
  {
    hide Going, Behaved, FrameOf, Reach, GateOk, StockResumed, BulbEntered, Refused, FreedLast, TextAt, HasMode,
      VendorOk, LabelOk, Freed;
    t := QueryArguments(p, w, o, m0, t0);
    t := ClearSlots(p, w, o, m0, t);
    t := ConfigCall(p, w, o, m0, t);
    t := FetchWidget(p, w, o, m0, t);
    if !WidgetOk(w) {
      NoMode(w);
      t := Busy(p, o, m0, t);
      return;
    }
    t := KindCall(p, w, o, m0, t);
    t := Kind(p, w, o, m0, t);
    if KindOk(w) {
      t := ValueArguments(p, w, o, m0, t);
      t := ValueCall(p, w, o, m0, t);
      t := Value(p, w, o, m0, t);
      if ValueOk(w) {
        t := RouteText(p, w, o, m0, t);
        return;
      }
    }
    NoMode(w);
    t := RefusedExit(p, w, o, m0, t);
  }

  /**
   From the burst helper's entry, whatever the arguments, the library's answers and the conditions
   text, the trampoline ends within two hundred steps where `Routed` says. The widget's text may be gone from
   memory the moment it is freed.
   */
  lemma Routing(p: Platform, w: World, o: Oracle, m0: Machine) returns (n: nat, m: Machine)
    requires ValidPlatform(p) && AtEntry(p, m0) && Behaved(p, w, o)
    ensures n <= 200 && Run(p.a, o, m0, n) == Some(m) && Routed(p, w, m0.cpu, m)
  {
    hide Loaded, Run, StackMapped, StockResumed, BulbEntered, Refused, FreedLast, FrameOf, Wants, Behaved, Distinct8;
    var t := Enter(p, o, m0);
    t := EntryGate(p, o, m0, t);
    if m0.cpu.r.r0 != 0 || Signed(m0.cpu.r.r1) <= 0 {
      t := Stock(p, o, m0, t);
    } else {
      t := OpenFrame(p, o, m0, t);
      t := Vendor(p, w, o, m0, t);
      if VendorOk(w) {
        t := Label(p, w, o, m0, t);
      }
      if VendorOk(w) && LabelOk(w) {
        t := RouteQuery(p, w, o, m0, t);
      } else {
        t := StockExit(p, o, m0, t);
      }
    }
    n, m := t.n, t.m;
  }
}
