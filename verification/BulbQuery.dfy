/** The model gate and the conditions query, block by block (offsets 0x34 to 0xE0 and 0x164 to 0x17C). */
module BulbQuery {
  import opened Words
  import opened Arm
  import opened BulbTable
  import opened BulbMachine
  import opened BulbRun

  // -------------------------------------------------------------- model label

  lemma Name(p: Platform, w: World, o: Oracle, m0: Machine, t0: Point) returns (t: Point)
    requires Held(p, w, o, m0, t0) && AtOff(p, t0, 0x34)
    ensures Held(p, w, o, m0, t) && t.n <= t0.n + 5
    ensures AtOff(p, t, if w.nameStatus == 0 then 0x44 else 0x130)
    ensures w.nameStatus == 0 ==> CString(t.m.cpu.mem, t.m.cpu.r.sp, w.name)
  {
    hide Run, Step, Loaded, ValidPlatform, Decode, Pow2, Behaved, KeepsCaller, Pure, FrameOf, CString, Compare, Freed;
    FrameBounds(p, m0.cpu, t0.m.cpu);
    Shifted();
    CompareR0R3();
    t := Tick(p, o, m0, t0, 0x34);
    t := Invoke(p, w, o, m0, m0.cpu, t, 0x38, GetName);
    t := Test(p, o, m0, t, 0x3C, R0, 0, NE, 0x130);
  }

  lemma ByteKeptBySearch(p: Platform, m: Machine, post: Memory, ptr: int, end: int, at: int)
    requires Pure(p, m, post) && ptr <= at <= end && ByteAt(m.cpu.mem, at).Some?
    requires end < p.stackLow || m.cpu.r.sp + 3 <= ptr || (ptr == m.cpu.r.sp && ptr % 4 == 0)
    ensures ByteAt(post, at) == ByteAt(m.cpu.mem, at)
  {
    assert SameAt(m.cpu.mem, post, at - at % 4);
    hide Pure;
    ByteKept(m.cpu.mem, post, at);
  }

  lemma StringKeptBySearch(p: Platform, m: Machine, post: Memory, ptr: int, s: seq<byte>)
    requires CString(m.cpu.mem, ptr, s) && Pure(p, m, post)
    requires ptr + |s| < p.stackLow || m.cpu.r.sp + 3 <= ptr || (ptr == m.cpu.r.sp && ptr % 4 == 0)
    ensures CString(post, ptr, s)
  {
    hide Pure, ByteAt;
    forall i | 0 <= i < |s|
      ensures ByteAt(post, ptr + i) == Some(s[i])
    {
      assert ByteAt(m.cpu.mem, ptr + i) == Some(s[i]);
      ByteKeptBySearch(p, m, post, ptr, ptr + |s|, ptr + i);
    }
    ByteKeptBySearch(p, m, post, ptr, ptr + |s|, ptr + |s|);
  }

  lemma LabelArguments(p: Platform, w: World, o: Oracle, m0: Machine, t0: Point) returns (t: Point)
    requires Held(p, w, o, m0, t0) && AtOff(p, t0, 0x44)
    ensures Held(p, w, o, m0, t) && t.n == t0.n + 2 && AtOff(p, t, 0x4C) && t.m.cpu.mem == t0.m.cpu.mem
    ensures t.m.cpu.r.r0 == t.m.cpu.r.sp == t0.m.cpu.r.sp && t.m.cpu.r.r1 == p.a.cave + MODEL_TEXT
  {
    hide Run, Step, Loaded, ValidPlatform, Decode, Pow2, Behaved, FrameOf, CString, Freed;
    FrameBounds(p, m0.cpu, t0.m.cpu);
    Shifted();
    Literals();
    t := Tick(p, o, m0, t0, 0x44);
    t := LoadR1(p, o, m0, t, 0x48, 500);
  }

  lemma LabelCall(p: Platform, w: World, o: Oracle, m0: Machine, t0: Point) returns (t: Point)
    requires Held(p, w, o, m0, t0) && AtOff(p, t0, 0x44) && CString(t0.m.cpu.mem, t0.m.cpu.r.sp, w.name)
    ensures Held(p, w, o, m0, t) && t.n <= t0.n + 4 && AtOff(p, t, 0x50)
    ensures CString(t.m.cpu.mem, t.m.cpu.r.sp, w.name)
    ensures Found(Fold(w.name), Fold(MODEL), t.m.cpu.r.sp, t.m.cpu.r.r0)
  {
    hide Run, Step, Loaded, ValidPlatform, Decode, Pow2, Behaved, KeepsCaller, Pure, FrameOf, CString, Compare, Freed,
      OccursAt, Found;
    t := LabelArguments(p, w, o, m0, t0);
    FrameBounds(p, m0.cpu, t.m.cpu);
    MatchStrings(p.a, t.m.cpu.mem);
    var m := Called(p, t.m, 0x4C, StrCaseStr);
    t := Invoke(p, w, o, m0, m0.cpu, t, 0x4C, StrCaseStr);
    StringKeptBySearch(p, m, t.m.cpu.mem, t.m.cpu.r.sp, w.name);
  }

  /** The label search: it must match at the very start of the buffer. */
  lemma LabelStart(p: Platform, w: World, o: Oracle, m0: Machine, t0: Point) returns (t: Point)
    requires Held(p, w, o, m0, t0) && AtOff(p, t0, 0x50) && CString(t0.m.cpu.mem, t0.m.cpu.r.sp, w.name)
    requires Found(Fold(w.name), Fold(MODEL), t0.m.cpu.r.sp, t0.m.cpu.r.r0)
    ensures Held(p, w, o, m0, t) && t.n <= t0.n + 2
    ensures CString(t.m.cpu.mem, t.m.cpu.r.sp, w.name)
    ensures AtOff(p, t, if OccursAt(Fold(w.name), Fold(MODEL), 0) then 0x58 else 0x130)
  {
    hide Run, Step, Loaded, ValidPlatform, Decode, Pow2, Behaved, FrameOf, CString, Compare, Freed, OccursAt;
    FrameBounds(p, m0.cpu, t0.m.cpu);
    Shifted();
    CompareIs(t0.m.cpu.r.r0, t0.m.cpu.r.sp);
    t := Tick(p, o, m0, t0, 0x50);
    t := Tick(p, o, m0, t, 0x54);
  }

  /** The byte after thirty characters is the NUL exactly when the name has thirty. */
  lemma EndsAt(mem: Memory, ptr: int, s: seq<byte>, k: nat)
    requires CString(mem, ptr, s) && k <= |s|
    ensures ByteAt(mem, ptr + k).Some? && (ByteAt(mem, ptr + k).value == 0 <==> |s| == k)
  {
    if k < |s| {
      assert ByteAt(mem, ptr + k) == Some(s[k]);
    }
  }

  lemma LabelIsWhole(name: seq<byte>)
    requires OccursAt(Fold(name), Fold(MODEL), 0)
    ensures |name| >= 30
    ensures |name| == 30 <==> Fold(name) == Fold(MODEL)
  {
    if |name| == 30 {
      assert Fold(name)[0..30] == Fold(name);
    }
  }

  ghost predicate LabelOk(w: World) {
    w.nameStatus == 0 && Fold(w.name) == Fold(MODEL)
  }

  lemma LabelEnd(p: Platform, w: World, o: Oracle, m0: Machine, t0: Point) returns (t: Point)
    requires Held(p, w, o, m0, t0) && AtOff(p, t0, 0x58) && CString(t0.m.cpu.mem, t0.m.cpu.r.sp, w.name)
    requires OccursAt(Fold(w.name), Fold(MODEL), 0)
    ensures Held(p, w, o, m0, t) && t.n <= t0.n + 5
    ensures AtOff(p, t, if Fold(w.name) == Fold(MODEL) then 0x6C else 0x130)
  {
    hide Run, Step, Loaded, ValidPlatform, Decode, Pow2, Behaved, FrameOf, CString, Compare;
    hide Freed, OccursAt, ByteAt, Fold;
    FrameBounds(p, m0.cpu, t0.m.cpu);
    ByteLoads();
    CompareR0R3();
    Shifted();
    LabelIsWhole(w.name);
    EndsAt(t0.m.cpu.mem, t0.m.cpu.r.sp, w.name, 30);
    t := Tick(p, o, m0, t0, 0x58);
    t := Test(p, o, m0, t, 0x5C, R0, 0, NE, 0x130);
    if |w.name| == 30 {
      t := Tick(p, o, m0, t, 0x64);
      t := Tick(p, o, m0, t, 0x68);
    }
  }

  lemma Label(p: Platform, w: World, o: Oracle, m0: Machine, t0: Point) returns (t: Point)
    requires Held(p, w, o, m0, t0) && AtOff(p, t0, 0x34)
    ensures Held(p, w, o, m0, t) && t.n <= t0.n + 16
    ensures AtOff(p, t, if LabelOk(w) then 0x6C else 0x130)
  {
    hide Held, CString, OccursAt;
    t := Name(p, w, o, m0, t0);
    if w.nameStatus == 0 {
      t := LabelCall(p, w, o, m0, t);
      t := LabelStart(p, w, o, m0, t);
      if OccursAt(Fold(w.name), Fold(MODEL), 0) {
        t := LabelEnd(p, w, o, m0, t);
      } else {
        assert Fold(w.name) == Fold(MODEL) ==> OccursAt(Fold(w.name), Fold(MODEL), 0) by {
          OccursInSelf(Fold(MODEL));
        }
      }
    }
  }

  lemma OccursInSelf(s: seq<byte>)
    ensures OccursAt(s, s, 0)
  {
    assert s[0..0 + |s|] == s;
  }

  // --------------------------------------------------------- conditions query

  lemma CameraArgument(p: Platform, w: World, o: Oracle, m0: Machine, t0: Point) returns (t: Point)
    requires Held(p, w, o, m0, t0) && AtOff(p, t0, 0x6C)
    ensures Held(p, w, o, m0, t) && t.n == t0.n + 2 && AtOff(p, t, 0x74)
    ensures t.m.cpu.r == t0.m.cpu.r.(r0 := t.m.cpu.mem[p.a.cameraGlobal])
  {
    hide Run, Step, Loaded, ValidPlatform, Decode, Pow2, Behaved, FrameOf, CString, Freed;
    FrameBounds(p, m0.cpu, t0.m.cpu);
    Literals();
    StackLoads();
    LiteralAt(p.a, t0.m.cpu.mem, 0x25C);
    t := Tick(p, o, m0, t0, 0x6C);
    t := Tick(p, o, m0, t, 0x70);
  }

  lemma QueryArguments(p: Platform, w: World, o: Oracle, m0: Machine, t0: Point) returns (t: Point)
    requires Held(p, w, o, m0, t0) && AtOff(p, t0, 0x6C)
    ensures Held(p, w, o, m0, t) && t.n <= t0.n + 5 && AtOff(p, t, 0x164)
    ensures t.m.cpu.r.r0 == t.m.cpu.mem[p.a.cameraGlobal] && t.m.cpu.r.r2 == t.m.cpu.r.sp
    ensures t.m.cpu.r.r1 == p.a.cave + CONDITIONS_KEY_TEXT
  {
    hide Run, Step, Loaded, ValidPlatform, Decode, Pow2, Behaved, FrameOf, CString, Freed;
    t := CameraArgument(p, w, o, m0, t0);
    FrameBounds(p, m0.cpu, t.m.cpu);
    Literals();
    Shifted();
    t := LoadR1(p, o, m0, t, 0x74, 464);
    t := Tick(p, o, m0, t, 0x78);
    t := Tick(p, o, m0, t, 0x7C);
  }

  lemma BufferStoreKeeps(p: Platform, s0: Cpu, s: Cpu, k: int, v: word)
    requires ValidPlatform(p) && Loaded(p.a, s.mem) && InFrame(p, s0, s)
    requires s.r.sp <= k < s0.r.sp - 16 && k % 4 == 0
    ensures Loaded(p.a, s.mem[k := v]) && InFrame(p, s0, s.(mem := s.mem[k := v]))
    ensures s.mem[k := v][p.a.cameraGlobal] == s.mem[p.a.cameraGlobal]
    ensures k in s.mem
  {
    hide Loaded, Distinct8, BranchesEncodable, CallerKept;
    CallerKeptByStore(p, s0, s.mem, k, v);
    StackStoreKeeps(p, s.mem, k, v);
  }

  lemma ClearFirst(p: Platform, w: World, o: Oracle, m0: Machine, t0: Point) returns (t: Point)
    requires Held(p, w, o, m0, t0) && AtOff(p, t0, 0x164)
    ensures Held(p, w, o, m0, t) && t.n <= t0.n + 2 && AtOff(p, t, 0x16C)
    ensures t.m.cpu.r == t0.m.cpu.r.(r3 := 0) && t.m.cpu.mem == t0.m.cpu.mem[t0.m.cpu.r.sp := 0]
    ensures t.m.cpu.mem[p.a.cameraGlobal] == t0.m.cpu.mem[p.a.cameraGlobal]
  {
    hide Run, Step, Loaded, ValidPlatform, Decode, Pow2, Behaved, FrameOf, Freed;
    FrameBounds(p, m0.cpu, t0.m.cpu);
    Constants();
    Stores();
    BufferStoreKeeps(p, m0.cpu, t0.m.cpu, t0.m.cpu.r.sp, 0);
    t := Tick(p, o, m0, t0, 0x164);
    t := Tick(p, o, m0, t, 0x168);
  }

  lemma ClearSecond(p: Platform, w: World, o: Oracle, m0: Machine, t0: Point) returns (t: Point)
    requires Held(p, w, o, m0, t0) && AtOff(p, t0, 0x16C) && t0.m.cpu.r.r3 == 0
    ensures Held(p, w, o, m0, t) && t.n <= t0.n + 2 && AtOff(p, t, 0x80)
    ensures t.m.cpu.r == t0.m.cpu.r && t.m.cpu.mem == t0.m.cpu.mem[t0.m.cpu.r.sp + 4 := 0]
    ensures t.m.cpu.mem[p.a.cameraGlobal] == t0.m.cpu.mem[p.a.cameraGlobal]
  {
    hide Run, Step, Loaded, ValidPlatform, Decode, Pow2, Behaved, FrameOf, Freed;
    FrameBounds(p, m0.cpu, t0.m.cpu);
    Stores();
    BufferStoreKeeps(p, m0.cpu, t0.m.cpu, t0.m.cpu.r.sp + 4, 0);
    t := Tick(p, o, m0, t0, 0x16C);
    t := Tick(p, o, m0, t, 0x170);
  }

  /** Both output slots hold zero before the library may fill them. */
  lemma ClearSlots(p: Platform, w: World, o: Oracle, m0: Machine, t0: Point) returns (t: Point)
    requires Held(p, w, o, m0, t0) && AtOff(p, t0, 0x164)
    ensures Held(p, w, o, m0, t) && t.n <= t0.n + 4 && AtOff(p, t, 0x80)
    ensures t.m.cpu.r == t0.m.cpu.r.(r3 := 0)
    ensures t.m.cpu.mem[p.a.cameraGlobal] == t0.m.cpu.mem[p.a.cameraGlobal]
    ensures t.m.cpu.mem[t.m.cpu.r.sp] == 0 && t.m.cpu.mem[t.m.cpu.r.sp + 4] == 0
  {
    hide Run, Step, Loaded, ValidPlatform, Behaved, FrameOf, Freed;
    FrameBounds(p, m0.cpu, t0.m.cpu);
    t := ClearFirst(p, w, o, m0, t0);
    t := ClearSecond(p, w, o, m0, t);
  }

  ghost predicate WidgetOk(w: World) {
    w.configStatus == 0 && w.widget.Some? && w.widget.value != 0
  }

  // The fetched widget sits in the first stack word and is not yet freed.
  ghost predicate HoldsWidget(p: Platform, w: World, o: Oracle, m0: Machine, t: Point) {
    && Held(p, w, o, m0, t) && WidgetOk(w)
    && t.m.cpu.r.sp in t.m.cpu.mem && t.m.cpu.mem[t.m.cpu.r.sp] == w.widget.value
  }

  lemma ConfigCall(p: Platform, w: World, o: Oracle, m0: Machine, t0: Point) returns (t: Point)
    requires Held(p, w, o, m0, t0) && AtOff(p, t0, 0x80)
    requires t0.m.cpu.r.r0 == t0.m.cpu.mem[p.a.cameraGlobal] && t0.m.cpu.r.r2 == t0.m.cpu.r.sp
    requires t0.m.cpu.r.r1 == p.a.cave + CONDITIONS_KEY_TEXT && t0.m.cpu.r.r3 == 0
    requires t0.m.cpu.mem[t0.m.cpu.r.sp] == 0 && t0.m.cpu.mem[t0.m.cpu.r.sp + 4] == 0
    ensures Held(p, w, o, m0, t) && t.n <= t0.n + 2 && AtOff(p, t, 0x84)
    ensures t.m.cpu.r.r0 == w.configStatus && t.m.cpu.mem[t.m.cpu.r.sp + 4] == 0
    ensures w.configStatus == 0 ==>
              t.m.cpu.mem[t.m.cpu.r.sp] == (if w.widget.Some? then w.widget.value else 0)
  {
    hide Run, Step, Loaded, ValidPlatform, Decode, Pow2, Behaved, KeepsCaller, FrameOf, CString, Freed;
    FrameBounds(p, m0.cpu, t0.m.cpu);
    MatchStrings(p.a, t0.m.cpu.mem);
    SlotInFrame(p, m0.cpu, t0.m.cpu, t0.m.cpu.r.sp);
    SlotInFrame(p, m0.cpu, t0.m.cpu, t0.m.cpu.r.sp + 4);
    var m := Called(p, t0.m, 0x80, GetSingleConfig);
    t := Invoke(p, w, o, m0, m0.cpu, t0, 0x80, GetSingleConfig);
    SlotKept(p, m, GetSingleConfig, t.m.cpu.mem, t.m.cpu.r.sp + 4);
  }

  lemma FetchWidget(p: Platform, w: World, o: Oracle, m0: Machine, t0: Point) returns (t: Point)
    requires Held(p, w, o, m0, t0) && AtOff(p, t0, 0x84)
    requires t0.m.cpu.r.r0 == w.configStatus && t0.m.cpu.mem[t0.m.cpu.r.sp + 4] == 0
    requires w.configStatus == 0 ==>
               t0.m.cpu.mem[t0.m.cpu.r.sp] == (if w.widget.Some? then w.widget.value else 0)
    ensures Held(p, w, o, m0, t) && t.n <= t0.n + 5
    ensures AtOff(p, t, if WidgetOk(w) then 0x98 else 0x148)
    ensures WidgetOk(w) ==> HoldsWidget(p, w, o, m0, t) && t.m.cpu.r.r0 == w.widget.value
                            && t.m.cpu.mem[t.m.cpu.r.sp + 4] == 0
  {
    hide Run, Step, Loaded, ValidPlatform, Decode, Pow2, Behaved, FrameOf, Compare, Freed;
    FrameBounds(p, m0.cpu, t0.m.cpu);
    CompareR0R3();
    StackLoads();
    SlotInFrame(p, m0.cpu, t0.m.cpu, t0.m.cpu.r.sp);
    t := Test(p, o, m0, t0, 0x84, R0, 0, NE, 0x148);
    if w.configStatus == 0 {
      t := Tick(p, o, m0, t, 0x8C);
      t := Test(p, o, m0, t, 0x90, R0, 0, EQ, 0x148);
    }
  }

  lemma SlotInFrame(p: Platform, s0: Cpu, s: Cpu, k: int)
    requires InFrame(p, s0, s) && k % 4 == 0 && s.r.sp <= k < s0.r.sp
    ensures k in s.mem
  {
  }

  ghost predicate KindOk(w: World) {
    w.typeStatus == 0 && w.kind == Some(2)
  }

  lemma KindCall(p: Platform, w: World, o: Oracle, m0: Machine, t0: Point) returns (t: Point)
    requires HoldsWidget(p, w, o, m0, t0) && AtOff(p, t0, 0x98) && t0.m.cpu.r.r0 == w.widget.value
    requires t0.m.cpu.mem[t0.m.cpu.r.sp + 4] == 0
    ensures HoldsWidget(p, w, o, m0, t) && t.n <= t0.n + 3 && AtOff(p, t, 0xA0)
    ensures t.m.cpu.r.r0 == w.typeStatus && t.m.cpu.r.sp + 4 in t.m.cpu.mem
    ensures w.typeStatus == 0 ==>
              t.m.cpu.mem[t.m.cpu.r.sp + 4] == (if w.kind.Some? then w.kind.value else 0)
  {
    hide Run, Step, Loaded, ValidPlatform, Decode, Pow2, Behaved, KeepsCaller, FrameOf, CString, Freed;
    FrameBounds(p, m0.cpu, t0.m.cpu);
    Constants();
    SlotInFrame(p, m0.cpu, t0.m.cpu, t0.m.cpu.r.sp + 4);
    t := Tick(p, o, m0, t0, 0x98);
    var m := Called(p, t.m, 0x9C, GetType);
    t := Invoke(p, w, o, m0, m0.cpu, t, 0x9C, GetType);
    SlotKept(p, m, GetType, t.m.cpu.mem, t.m.cpu.r.sp);
    SlotInFrame(p, m0.cpu, t.m.cpu, t.m.cpu.r.sp + 4);
  }

  lemma Kind(p: Platform, w: World, o: Oracle, m0: Machine, t0: Point) returns (t: Point)
    requires HoldsWidget(p, w, o, m0, t0) && AtOff(p, t0, 0xA0)
    requires t0.m.cpu.r.r0 == w.typeStatus && t0.m.cpu.r.sp + 4 in t0.m.cpu.mem
    requires w.typeStatus == 0 ==>
               t0.m.cpu.mem[t0.m.cpu.r.sp + 4] == (if w.kind.Some? then w.kind.value else 0)
    ensures HoldsWidget(p, w, o, m0, t) && t.n <= t0.n + 5
    ensures AtOff(p, t, if KindOk(w) then 0xB4 else 0x158)
  {
    hide Run, Step, Loaded, ValidPlatform, Decode, Pow2, Behaved, FrameOf, Compare, Freed;
    FrameBounds(p, m0.cpu, t0.m.cpu);
    CompareR0R3();
    StackLoads();
    t := Test(p, o, m0, t0, 0xA0, R0, 0, NE, 0x158);
    if w.typeStatus == 0 {
      t := Tick(p, o, m0, t, 0xA8);
      t := Test(p, o, m0, t, 0xAC, R0, 2, NE, 0x158);
    }
  }

  ghost predicate ValueOk(w: World) {
    w.valueStatus == 0 && w.value.Some? && w.value.value != 0
  }

  // The borrowed text pointer sits in the second stack word and its string is readable.
  ghost predicate HoldsText(p: Platform, w: World, o: Oracle, m0: Machine, t: Point) {
    && HoldsWidget(p, w, o, m0, t) && ValueOk(w)
    && t.m.cpu.r.sp + 4 in t.m.cpu.mem && t.m.cpu.mem[t.m.cpu.r.sp + 4] == w.value.value
    && TextAt(p, t.m.cpu.mem, w.value.value, w.text)
  }

  /** `bl 0x174`: the value slot is cleared, then the call is made with the caller's lr. */
  lemma ValueArguments(p: Platform, w: World, o: Oracle, m0: Machine, t0: Point) returns (t: Point)
    requires HoldsWidget(p, w, o, m0, t0) && AtOff(p, t0, 0xB4)
    ensures HoldsWidget(p, w, o, m0, t) && t.n <= t0.n + 4 && AtOff(p, t, 0x178)
    ensures t.m.cpu.r.r0 == w.widget.value && t.m.cpu.r.r1 == t.m.cpu.r.sp + 4
    ensures t.m.cpu.r.r3 == 0 && t.m.cpu.r.lr == p.a.cave + 0xC0
  {
    hide Run, Step, Loaded, ValidPlatform, Decode, Pow2, Behaved, FrameOf, Freed;
    FrameBounds(p, m0.cpu, t0.m.cpu);
    StackLoads();
    Constants();
    t := Tick(p, o, m0, t0, 0xB4);
    t := Tick(p, o, m0, t, 0xB8);
    t := Tick(p, o, m0, t, 0xBC);
    t := Tick(p, o, m0, t, 0x174);
  }

  lemma ValueCall(p: Platform, w: World, o: Oracle, m0: Machine, t0: Point) returns (t: Point)
    requires HoldsWidget(p, w, o, m0, t0) && AtOff(p, t0, 0x178)
    requires t0.m.cpu.r.r0 == w.widget.value && t0.m.cpu.r.r1 == t0.m.cpu.r.sp + 4
    requires t0.m.cpu.r.r3 == 0 && t0.m.cpu.r.lr == p.a.cave + 0xC0
    ensures HoldsWidget(p, w, o, m0, t) && t.n <= t0.n + 3 && AtOff(p, t, 0xC0)
    ensures t.m.cpu.r.r0 == w.valueStatus && t.m.cpu.r.sp + 4 in t.m.cpu.mem
    ensures w.valueStatus == 0 ==>
              t.m.cpu.mem[t.m.cpu.r.sp + 4] == (if w.value.Some? then w.value.value else 0)
    ensures ValueOk(w) ==> TextAt(p, t.m.cpu.mem, w.value.value, w.text)
  {
    hide Run, Step, Loaded, ValidPlatform, Decode, Pow2, Behaved, KeepsCaller, FrameOf, CString, Freed;
    FrameBounds(p, m0.cpu, t0.m.cpu);
    Stores();
    BufferStoreKeeps(p, m0.cpu, t0.m.cpu, t0.m.cpu.r.sp + 4, 0);
    t := Tick(p, o, m0, t0, 0x178);
    t := Tick(p, o, m0, t, 0x17C);
    var m := t.m;
    t := CallAt(p, w, o, m0, m0.cpu, t, GetValue);
    SlotKept(p, m, GetValue, t.m.cpu.mem, t.m.cpu.r.sp);
    SlotInFrame(p, m0.cpu, t.m.cpu, t.m.cpu.r.sp + 4);
    StillHeld(m.log, Call(GetValue, m.cpu.r.r0, m.cpu.r.r1, m.cpu.r.r2, m.cpu.r.r3));
  }

  lemma Value(p: Platform, w: World, o: Oracle, m0: Machine, t0: Point) returns (t: Point)
    requires HoldsWidget(p, w, o, m0, t0) && AtOff(p, t0, 0xC0)
    requires t0.m.cpu.r.r0 == w.valueStatus && t0.m.cpu.r.sp + 4 in t0.m.cpu.mem
    requires w.valueStatus == 0 ==>
               t0.m.cpu.mem[t0.m.cpu.r.sp + 4] == (if w.value.Some? then w.value.value else 0)
    requires ValueOk(w) ==> TextAt(p, t0.m.cpu.mem, w.value.value, w.text)
    ensures HoldsWidget(p, w, o, m0, t) && t.n <= t0.n + 5
    ensures AtOff(p, t, if ValueOk(w) then 0xD4 else 0x158)
    ensures ValueOk(w) ==> HoldsText(p, w, o, m0, t) && t.m.cpu.r.r0 == w.value.value
  {
    hide Run, Step, Loaded, ValidPlatform, Decode, Pow2, Behaved, FrameOf, TextAt, Compare, Freed;
    FrameBounds(p, m0.cpu, t0.m.cpu);
    CompareR0R3();
    StackLoads();
    t := Test(p, o, m0, t0, 0xC0, R0, 0, NE, 0x158);
    if w.valueStatus == 0 {
      t := Tick(p, o, m0, t, 0xC8);
      t := Test(p, o, m0, t, 0xCC, R0, 0, EQ, 0x158);
    }
  }

  ghost predicate KeyFound(text: seq<byte>) {
    exists i :: FirstAt(text, MODE_KEY, i)
  }

  lemma KeyCall(p: Platform, w: World, o: Oracle, m0: Machine, t0: Point) returns (t: Point)
    requires HoldsText(p, w, o, m0, t0) && AtOff(p, t0, 0xD4) && t0.m.cpu.r.r0 == w.value.value
    ensures HoldsText(p, w, o, m0, t) && t.n <= t0.n + 3 && AtOff(p, t, 0xDC)
    ensures Found(w.text, MODE_KEY, w.value.value, t.m.cpu.r.r0)
  {
    hide Run, Step, Loaded, ValidPlatform, Decode, Pow2, Behaved, KeepsCaller, FrameOf, CString, Freed, Found;
    FrameBounds(p, m0.cpu, t0.m.cpu);
    Literals();
    MatchStrings(p.a, t0.m.cpu.mem);
    t := LoadR1(p, o, m0, t0, 0xD4, 372);
    var m := Called(p, t.m, 0xD8, StrStr);
    t := Invoke(p, w, o, m0, m0.cpu, t, 0xD8, StrStr);
    SlotKept(p, m, StrStr, t.m.cpu.mem, t.m.cpu.r.sp);
    SlotKept(p, m, StrStr, t.m.cpu.mem, t.m.cpu.r.sp + 4);
    TextKept(p, m, t.m.cpu.mem, w.value.value, w.text);
  }

  /** The first mode key; a text without one is refused. */
  lemma KeySearch(p: Platform, w: World, o: Oracle, m0: Machine, t0: Point) returns (t: Point, i: int)
    requires HoldsText(p, w, o, m0, t0) && AtOff(p, t0, 0xDC)
    requires Found(w.text, MODE_KEY, w.value.value, t0.m.cpu.r.r0)
    ensures HoldsText(p, w, o, m0, t) && t.n <= t0.n + 2
    ensures AtOff(p, t, if KeyFound(w.text) then 0xE4 else 0x158)
    ensures KeyFound(w.text) ==> FirstAt(w.text, MODE_KEY, i) && t.m.cpu.r.r0 == w.value.value + i
  {
    hide Run, Step, Loaded, ValidPlatform, Decode, Pow2, Behaved, FrameOf, TextAt, Compare, Freed, OccursAt;
    FrameBounds(p, m0.cpu, t0.m.cpu);
    CompareR0R3();
    i := 0;
    if KeyFound(w.text) {
      i :| FirstAt(w.text, MODE_KEY, i) && t0.m.cpu.r.r0 == w.value.value + i;
    }
    t := Test(p, o, m0, t0, 0xDC, R0, 0, EQ, 0x158);
  }

  lemma TextKept(p: Platform, m: Machine, post: Memory, ptr: word, text: seq<byte>)
    requires TextAt(p, m.cpu.mem, ptr, text) && Pure(p, m, post)
    requires m.cpu.r.sp + 3 <= p.stackTop
    ensures TextAt(p, post, ptr, text)
  {
    hide CString, Pure;
    StringKeptBySearch(p, m, post, ptr, text);
  }
}
