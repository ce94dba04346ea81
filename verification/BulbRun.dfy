/** Symbolic execution of the trampoline, one basic block a lemma. */
module BulbRun {
  import opened Words
  import opened Arm
  import opened BranchCodec
  import opened BulbTable
  import opened BulbMachine

  ghost predicate Reach(a: Addrs, o: Oracle, m0: Machine, n: nat, m: Machine) {
    Run(a, o, m0, n) == Some(m)
  }

  // Where a run of the trampoline has got to: `n` steps from `m0`.
  datatype Point = Point(n: nat, m: Machine)

  predicate Bounds(p: Platform) {
    && p.a.cave % 4 == 0 && p.a.cave + TRAMPOLINE_SIZE < TWO32
    && 0 < p.stackLow < p.stackTop < TWO32
  }

  ghost predicate Going(p: Platform, o: Oracle, m0: Machine, t: Point) {
    && ValidPlatform(p) && Bounds(p)
    && Loaded(p.a, t.m.cpu.mem) && Reach(p.a, o, m0, t.n, t.m)
  }

  ghost predicate AtOff(p: Platform, t: Point, off: int) {
    t.m.cpu.pc == p.a.cave + off
  }

  function Then(t: Point, s: Cpu): Point {
    Point(t.n + 1, t.m.(cpu := s))
  }

  lemma ExecBranch(s: Cpu, link: bool, source: int, target: int)
    requires s.pc == source
    ensures Exec(s, Branch(link, target - (source + 8)))
            == Done(s.(pc := Wrap(target), r := if link then s.r.(lr := Wrap(source + 4)) else s.r))
  {
  }

  lemma FetchBranch(s: Cpu, source: int, target: int, cond: nibble, link: bool)
    requires s.pc == source && s.pc in s.mem && Encodable(source, target) && CondOf(cond).Some?
    requires s.mem[s.pc] == BranchWord(source, target, cond, link)
    ensures Fetch(s) == if Holds(CondOf(cond).value, s.f)
                        then Done(s.(pc := Wrap(target), r := if link then s.r.(lr := Wrap(source + 4)) else s.r))
                        else Done(Next(s))
  {
    hide Decode, Exec, Holds, BranchWord, Encodable, CondOf, Wrap;
    DecodeEncoded(source, target, cond, link);
    ExecBranch(s, link, source, target);
  }

  /** Fetching at a table offset does what the table entry says. */
  lemma FetchAt(a: Addrs, off: int, s: Cpu)
    requires !Table(a, off).Blank? && s.pc == a.cave + off && s.pc in s.mem
    requires s.mem[s.pc] == WordOf(a, off, Table(a, off))
    requires Table(a, off).Br? ==> Encodable(a.cave + off, Table(a, off).target)
                                         && CondOf(Table(a, off).cond).Some?
    ensures Fetch(s) == Effect(a, off, Table(a, off), s)
  {
    hide Decode, Pow2, Table, Exec, Holds, BranchWord, Encodable, CondOf, Wrap;
    match Table(a, off)
    case Blank =>
    case Raw(w) =>
    case Br(target, cond, link) => FetchBranch(s, a.cave + off, target, cond, link);
  }

  /** Every table offset lies in the cave. */
  lemma TableInCave(a: Addrs, off: int)
    requires !Table(a, off).Blank?
    ensures 0 <= off < TRAMPOLINE_SIZE
    ensures Table(a, off).Br? ==> CondOf(Table(a, off).cond).Some?
  {
  }

  lemma OneMore(a: Addrs, o: Oracle, m0: Machine, n: nat, m: Machine)
    requires Reach(a, o, m0, n, m)
    ensures Run(a, o, m0, n + 1) == Step(a, o, m)
  {
    hide Step;
  }

  lemma CaveIsNotCallee(p: Platform, pc: word)
    requires ValidPlatform(p) && InCave(p.a, pc)
    ensures NotCallee(p.a, pc)
  {
    hide BranchesEncodable, Distinct8;
  }

  lemma FetchInCave(p: Platform, s: Cpu, off: int)
    requires ValidPlatform(p) && Loaded(p.a, s.mem) && s.pc == p.a.cave + off && !Table(p.a, off).Blank?
    ensures InCave(p.a, s.pc) && Fetch(s) == Effect(p.a, off, Table(p.a, off), s)
  {
    TableInCave(p.a, off);
    hide Table, Effect, CString, Distinct8, Fetch;
    FetchAt(p.a, off, s);
  }

  lemma StepAt(p: Platform, o: Oracle, m: Machine, off: int)
    requires ValidPlatform(p) && Loaded(p.a, m.cpu.mem) && m.cpu.pc == p.a.cave + off
    requires !Table(p.a, off).Blank? && Effect(p.a, off, Table(p.a, off), m.cpu).Done?
    ensures Step(p.a, o, m) == Some(m.(cpu := Effect(p.a, off, Table(p.a, off), m.cpu).cpu))
  {
    hide Table, Effect, Fetch, ValidPlatform, Loaded;
    FetchInCave(p, m.cpu, off);
    CaveIsNotCallee(p, m.cpu.pc);
  }

  lemma Tick(p: Platform, o: Oracle, m0: Machine, t: Point, off: int) returns (t1: Point)
    requires Going(p, o, m0, t) && AtOff(p, t, off)
    requires !Table(p.a, off).Blank? && Effect(p.a, off, Table(p.a, off), t.m.cpu).Done?
    ensures t1 == Then(t, Effect(p.a, off, Table(p.a, off), t.m.cpu).cpu)
    ensures Reach(p.a, o, m0, t1.n, t1.m)
  {
    hide Step, Run, Loaded, ValidPlatform, Table, Effect;
    StepAt(p, o, t.m, off);
    OneMore(p.a, o, m0, t.n, t.m);
    t1 := Then(t, Effect(p.a, off, Table(p.a, off), t.m.cpu).cpu);
  }

  // -------------------------------------------------------------- invariants

  ghost predicate StackMapped(p: Platform, mem: Memory) {
    forall k :: p.stackLow <= k < p.stackTop && k % 4 == 0 ==> k in mem
  }

  /** The state in which the dispatcher enters the burst helper, whose first word now leads to the cave. */
  ghost predicate AtEntry(p: Platform, m: Machine) {
    var s := m.cpu;
    && m.log == [] && s.pc == p.a.burst
    && p.a.burst in s.mem && s.mem[p.a.burst] == BranchWord(p.a.burst, p.a.cave, 14, false)
    && Loaded(p.a, s.mem) && StackMapped(p, s.mem) && p.a.cameraGlobal in s.mem
    && s.r.sp % 4 == 0 && p.stackLow + 2064 <= s.r.sp <= p.stackTop
  }

  /** The caller's stack, from the entry sp up, reads as it did on entry. */
  ghost predicate CallerKept(p: Platform, s0: Cpu, mem: Memory) {
    forall k :: s0.r.sp <= k < p.stackTop ==> SameAt(s0.mem, mem, k)
  }

  lemma NothingChanged(p: Platform, s0: Cpu, mem: Memory)
    requires mem == s0.mem
    ensures CallerKept(p, s0, mem)
  {
  }

  lemma CallerKeptByStore(p: Platform, s0: Cpu, mem: Memory, k: int, v: word)
    requires CallerKept(p, s0, mem) && k < s0.r.sp
    ensures CallerKept(p, s0, mem[k := v])
  {
    var post := mem[k := v];
    forall a | s0.r.sp <= a < p.stackTop
      ensures SameAt(s0.mem, post, a)
    {
      assert SameAt(s0.mem, mem, a);
    }
  }

  lemma CallerKeptByCall(p: Platform, s0: Cpu, m: Machine, c: Callee, post: Memory)
    requires CallerKept(p, s0, m.cpu.mem) && KeepsCaller(p, m, c, post)
    requires m.cpu.r.sp <= s0.r.sp && OutLow(m, c) + OutSize(c) <= s0.r.sp - 16
    ensures CallerKept(p, s0, post)
  {
    forall a | s0.r.sp <= a < p.stackTop
      ensures SameAt(s0.mem, post, a)
    {
      assert SameAt(s0.mem, m.cpu.mem, a) && SameAt(m.cpu.mem, post, a);
    }
  }

  /** The arguments and the return address are saved above the 2048-byte buffer. */
  ghost predicate FrameOf(p: Platform, s0: Cpu, sp: int, r4: word, fp: word, mem: Memory) {
    && sp == s0.r.sp - 2064 && r4 == s0.r.r4 && fp == s0.r.fp
    && p.stackLow <= sp && s0.r.sp <= p.stackTop && sp % 4 == 0
    && StackMapped(p, mem) && p.a.cameraGlobal in mem
    && mem[s0.r.sp - 16] == s0.r.r0 && mem[s0.r.sp - 12] == s0.r.r1
    && mem[s0.r.sp - 8] == s0.r.r2 && mem[s0.r.sp - 4] == s0.r.lr
    && CallerKept(p, s0, mem)
  }

  ghost predicate InFrame(p: Platform, s0: Cpu, s: Cpu) {
    FrameOf(p, s0, s.r.sp, s.r.r4, s.r.fp, s.mem)
  }

  lemma FrameBounds(p: Platform, s0: Cpu, s: Cpu)
    requires InFrame(p, s0, s)
    ensures s.r.sp == s0.r.sp - 2064 && p.stackLow <= s.r.sp && s0.r.sp <= p.stackTop && s.r.sp % 4 == 0
    ensures p.a.cameraGlobal in s.mem
  {
  }

  /** Stock arguments are back in their registers and the stack is balanced. */
  ghost predicate Restored(p: Platform, s0: Cpu, s: Cpu) {
    && s.r.r0 == s0.r.r0 && s.r.r1 == s0.r.r1 && s.r.r2 == s0.r.r2
    && s.r.sp == s0.r.sp && s.r.lr == s0.r.lr && s.r.r4 == s0.r.r4 && s.r.fp == s0.r.fp
    && p.stackLow + 2064 <= s.r.sp <= p.stackTop && s.r.sp % 4 == 0
    && StackMapped(p, s.mem) && CallerKept(p, s0, s.mem)
  }

  lemma ByteKept(mem: Memory, post: Memory, at: int)
    requires ByteAt(mem, at).Some? && SameAt(mem, post, at - at % 4)
    ensures ByteAt(post, at) == ByteAt(mem, at)
  {
  }

  lemma StringKept(mem: Memory, post: Memory, ptr: int, s: seq<byte>)
    requires CString(mem, ptr, s)
    requires forall k :: ptr - 3 <= k <= ptr + |s| ==> SameAt(mem, post, k)
    ensures CString(post, ptr, s)
  {
    forall i | 0 <= i < |s|
      ensures ByteAt(post, ptr + i) == Some(s[i])
    {
      assert ByteAt(mem, ptr + i) == Some(s[i]);
      assert SameAt(mem, post, ptr + i - (ptr + i) % 4);
      ByteKept(mem, post, ptr + i);
    }
    assert SameAt(mem, post, ptr + |s| - (ptr + |s|) % 4);
    ByteKept(mem, post, ptr + |s|);
  }

  lemma WordsKept(a: Addrs, mem: Memory, post: Memory)
    requires a.cave % 4 == 0 && Loaded(a, mem)
    requires forall k :: InCave(a, k) ==> SameAt(mem, post, k)
    ensures forall off :: !Table(a, off).Blank? ==>
              a.cave + off in post && a.cave + off in mem && post[a.cave + off] == mem[a.cave + off]
  {
    hide CString;
    forall off | !Table(a, off).Blank?
      ensures a.cave + off in mem && a.cave + off in post && post[a.cave + off] == mem[a.cave + off]
    {
      TableInCave(a, off);
      assert InCave(a, a.cave + off);
      assert SameAt(mem, post, a.cave + off);
    }
  }

  lemma LoadedKept(a: Addrs, mem: Memory, post: Memory)
    requires a.cave % 4 == 0 && Loaded(a, mem)
    requires forall k :: InCave(a, k) ==> SameAt(mem, post, k)
    ensures Loaded(a, post)
  {
    hide Table, CString;
    WordsKept(a, mem, post);
    StringKept(mem, post, a.cave + PENTAX_TEXT, PENTAX);
    StringKept(mem, post, a.cave + MODEL_TEXT, MODEL);
    StringKept(mem, post, a.cave + CONDITIONS_KEY_TEXT, CONDITIONS_KEY);
    StringKept(mem, post, a.cave + MODE_KEY_TEXT, MODE_KEY);
  }

  // ------------------------------------------------------------------- calls

  function Address(a: Addrs, c: Callee): word {
    match c
    case GetManufacturer => a.getManufacturer
    case GetName => a.getName
    case StrCaseStr => a.strcasestr
    case GetSingleConfig => a.getSingleConfig
    case GetType => a.getType
    case GetValue => a.getValue
    case WidgetFree => a.widgetFree
    case StrStr => a.strstr
  }

  lemma AddressIsCallee(a: Addrs, c: Callee)
    requires Distinct8(a)
    ensures CalleeAt(a, Address(a, c)) == Some(c)
  {
  }

  lemma FrameKept(p: Platform, s0: Cpu, m: Machine, c: Callee, y: Reply)
    requires Bounds(p) && Loaded(p.a, m.cpu.mem) && InFrame(p, s0, m.cpu)
    requires KeepsCaller(p, m, c, y.mem) && OutLow(m, c) + OutSize(c) <= s0.r.sp - 16
    ensures Loaded(p.a, y.mem) && InFrame(p, s0, Returned(m, c, y).cpu)
  {
    hide Loaded, CString, CallerKept;
    LoadedKept(p.a, m.cpu.mem, y.mem);
    CallerKeptByCall(p, s0, m, c, y.mem);
    SlotKept(p, m, c, y.mem, s0.r.sp - 16);
    SlotKept(p, m, c, y.mem, s0.r.sp - 12);
    SlotKept(p, m, c, y.mem, s0.r.sp - 8);
    SlotKept(p, m, c, y.mem, s0.r.sp - 4);
  }

  lemma StillHeld(log: seq<Call>, call: Call)
    requires !Freed(log) && !call.callee.WidgetFree?
    ensures !Freed(log + [call])
  {
  }

  /** A stack word outside the output slots survives a call. */
  lemma SlotKept(p: Platform, m: Machine, c: Callee, post: Memory, k: int)
    requires KeepsCaller(p, m, c, post) && k in m.cpu.mem && m.cpu.r.sp <= k < p.stackTop
    requires !(OutLow(m, c) <= k < OutLow(m, c) + OutSize(c))
    ensures k in post && post[k] == m.cpu.mem[k]
  {
    assert SameAt(m.cpu.mem, post, k);
  }

  /** The callee runs as one step and returns to lr. */
  lemma CallAt(p: Platform, w: World, o: Oracle, m0: Machine, s0: Cpu, t: Point, c: Callee) returns (t1: Point)
    requires Going(p, o, m0, t) && Behaved(p, w, o) && InFrame(p, s0, t.m.cpu)
    requires t.m.cpu.pc == Address(p.a, c) && Ready(p, w, t.m, c)
    requires OutLow(t.m, c) + OutSize(c) <= s0.r.sp - 16
    ensures t1 == Point(t.n + 1, Returned(t.m, c, o(t.m)))
    ensures Going(p, o, m0, t1) && InFrame(p, s0, t1.m.cpu)
    ensures KeepsCaller(p, t.m, c, o(t.m).mem) && Answers(p, w, t.m, c, o(t.m))
  {
    hide Run, Loaded, KeepsCaller, Answers, Ready, InFrame, Fetch, OutLow, OutSize, Distinct8, BranchesEncodable;
    AddressIsCallee(p.a, c);
    OneMore(p.a, o, m0, t.n, t.m);
    FrameKept(p, s0, t.m, c, o(t.m));
    t1 := Point(t.n + 1, Returned(t.m, c, o(t.m)));
  }

  /** The machine as the callee sees it after `bl` at `off`. */
  function Called(p: Platform, m: Machine, off: int, c: Callee): Machine {
    m.(cpu := m.cpu.(pc := Address(p.a, c), r := m.cpu.r.(lr := Wrap(p.a.cave + off + 4))))
  }

  /** `bl callee` at `off`, and the return to the next instruction. */
  lemma Invoke(p: Platform, w: World, o: Oracle, m0: Machine, s0: Cpu, t: Point, off: int, c: Callee)
      returns (t1: Point)
    requires Going(p, o, m0, t) && Behaved(p, w, o) && InFrame(p, s0, t.m.cpu) && AtOff(p, t, off)
    requires Table(p.a, off) == Br(Address(p.a, c), 14, true) && 0 <= off < 0x2F0
    requires Ready(p, w, Called(p, t.m, off, c), c)
    requires OutLow(t.m, c) + OutSize(c) <= s0.r.sp - 16
    ensures t1 == Point(t.n + 2, Returned(Called(p, t.m, off, c), c, o(Called(p, t.m, off, c))))
    ensures Going(p, o, m0, t1) && InFrame(p, s0, t1.m.cpu) && AtOff(p, t1, off + 4)
    ensures KeepsCaller(p, Called(p, t.m, off, c), c, t1.m.cpu.mem)
    ensures Answers(p, w, Called(p, t.m, off, c), c, o(Called(p, t.m, off, c)))
    ensures !Freed(t.m.log) && !c.WidgetFree? ==> !Freed(t1.m.log)
  {
    hide Run, Step, Loaded, ValidPlatform, Table, KeepsCaller, Answers, Behaved, Ready, FrameOf, Freed;
    FrameBounds(p, s0, t.m.cpu);
    t1 := Tick(p, o, m0, t, off);
    assert t1.m == Called(p, t.m, off, c);
    if !Freed(t.m.log) && !c.WidgetFree? {
      StillHeld(t.m.log, Call(c, t1.m.cpu.r.r0, t1.m.cpu.r.r1, t1.m.cpu.r.r2, t1.m.cpu.r.r3));
    }
    t1 := CallAt(p, w, o, m0, s0, t1, c);
  }

  lemma LiteralAt(a: Addrs, mem: Memory, off: int)
    requires Loaded(a, mem) && Table(a, off).Raw?
    ensures a.cave + off in mem && mem[a.cave + off] == Table(a, off).w
  {
    hide Table, CString;
  }

  lemma LoadsLiteral(s: Cpu, disp: nat)
    requires s.pc + 8 + disp < TWO32 && s.pc + 8 + disp in s.mem
    ensures Exec(s, Ldr(R1, PC, disp)) == Done(Next(s).(r := s.r.(r1 := s.mem[s.pc + 8 + disp])))
  {
  }

  /** `ldr r1, =literal` */
  lemma LoadR1(p: Platform, o: Oracle, m0: Machine, t0: Point, off: int, disp: nat) returns (t: Point)
    requires Going(p, o, m0, t0) && AtOff(p, t0, off) && 0 <= off && off + 8 + disp < TRAMPOLINE_SIZE
    requires Table(p.a, off).Raw? && Decode(Table(p.a, off).w) == Op32(AL, Ldr(R1, PC, disp))
    requires Table(p.a, off + 8 + disp).Raw?
    ensures Going(p, o, m0, t) && AtOff(p, t, off + 4) && t.n == t0.n + 1 && t.m.log == t0.m.log
    ensures t.m.cpu.mem == t0.m.cpu.mem && t.m.cpu.r == t0.m.cpu.r.(r1 := Table(p.a, off + 8 + disp).w)
  {
    hide Run, Step, Loaded, ValidPlatform, Table, Decode, Pow2, Exec;
    LiteralAt(p.a, t0.m.cpu.mem, off + 8 + disp);
    LoadsLiteral(t0.m.cpu, disp);
    t := Tick(p, o, m0, t0, off);
  }

  /** The match strings of the blob, as the searches receive them. */
  lemma MatchStrings(a: Addrs, mem: Memory)
    requires Loaded(a, mem)
    ensures CString(mem, a.cave + PENTAX_TEXT, PENTAX) && CString(mem, a.cave + MODEL_TEXT, MODEL)
    ensures CString(mem, a.cave + CONDITIONS_KEY_TEXT, CONDITIONS_KEY)
    ensures CString(mem, a.cave + MODE_KEY_TEXT, MODE_KEY)
  {
    hide Table, CString;
  }

  lemma CompareIs(x: word, y: word)
    ensures Holds(EQ, Compare(x, y)) <==> x == y
    ensures Holds(NE, Compare(x, y)) <==> x != y
    ensures Holds(CC, Compare(x, y)) <==> x < y
    ensures Holds(HI, Compare(x, y)) <==> x > y
  {
  }

  predicate Meets(c: Cond, x: word, y: word) {
    match c
    case EQ => x == y
    case NE => x != y
    case CC => x < y
    case HI => x > y
    case LE => Signed(x) <= Signed(y)
    case AL => true
  }

  /** `cmp reg, #imm` at `off` followed by a conditional branch. */
  lemma Test(p: Platform, o: Oracle, m0: Machine, t: Point, off: int, reg: Reg, imm: word, cond: Cond, target: int)
      returns (t1: Point)
    requires Going(p, o, m0, t) && AtOff(p, t, off) && 0 <= off < 0x2F0 && 0 <= target < 0x300
    requires Table(p.a, off).Raw? && Decode(Table(p.a, off).w) == Op32(AL, DpImm(CMP, R0, reg, imm))
    requires Table(p.a, off + 4).Br? && Table(p.a, off + 4).target == p.a.cave + target
    requires CondOf(Table(p.a, off + 4).cond) == Some(cond) && !Table(p.a, off + 4).link && cond in {EQ, NE, CC, HI}
    requires !reg.PC?
    ensures Going(p, o, m0, t1) && t1.n == t.n + 2 && t1.m.log == t.m.log
    ensures t1.m.cpu.r == t.m.cpu.r && t1.m.cpu.mem == t.m.cpu.mem
    ensures AtOff(p, t1, if Meets(cond, Read(t.m.cpu, reg), imm) then target else off + 8)
  {
    hide Run, Step, Loaded, ValidPlatform, Decode, Pow2, Compare, Table;
    CompareIs(Read(t.m.cpu, reg), imm);
    t1 := Tick(p, o, m0, t, off);
    t1 := Tick(p, o, m0, t1, off + 4);
  }

  // -------------------------------------------------------------- model gate

  lemma CompareZero(w: word)
    ensures Holds(LE, Compare(w, 0)) <==> Signed(w) <= 0
    ensures Holds(EQ, Compare(w, 0)) <==> w == 0
  {
  }

  lemma DurationGate(p: Platform, o: Oracle, m0: Machine, t0: Point) returns (t: Point)
    requires Going(p, o, m0, t0) && AtOff(p, t0, 0)
    ensures Going(p, o, m0, t) && t.n <= t0.n + 2 && t.m.log == t0.m.log
    ensures t.m.cpu.r == t0.m.cpu.r && t.m.cpu.mem == t0.m.cpu.mem
    ensures AtOff(p, t, if Signed(t.m.cpu.r.r1) <= 0 then 0x138 else 0x08)
  {
    hide Run, Step, Loaded, ValidPlatform, Decode, Pow2, Compare;
    CompareR1Range();
    CompareZero(t0.m.cpu.r.r1);
    t := Tick(p, o, m0, t0, 0x00);
    t := Tick(p, o, m0, t, 0x04);
  }

  lemma StatusGate(p: Platform, o: Oracle, m0: Machine, t0: Point) returns (t: Point)
    requires Going(p, o, m0, t0) && AtOff(p, t0, 0x08)
    ensures Going(p, o, m0, t) && t.n <= t0.n + 2 && t.m.log == t0.m.log
    ensures t.m.cpu.r == t0.m.cpu.r && t.m.cpu.mem == t0.m.cpu.mem
    ensures AtOff(p, t, if t.m.cpu.r.r0 != 0 then 0x138 else 0x10)
  {
    hide Run, Step, Loaded, ValidPlatform, Decode, Pow2, Compare;
    CompareR0R3();
    CompareZero(t0.m.cpu.r.r0);
    t := Tick(p, o, m0, t0, 0x08);
    t := Tick(p, o, m0, t, 0x0C);
  }

  /** Non-positive durations and non-zero status go straight to the stock path. */
  lemma EntryGate(p: Platform, o: Oracle, m0: Machine, t0: Point) returns (t: Point)
    requires Going(p, o, m0, t0) && AtOff(p, t0, 0)
    ensures Going(p, o, m0, t) && t.n <= t0.n + 4 && t.m.log == t0.m.log
    ensures t.m.cpu.r == t0.m.cpu.r && t.m.cpu.mem == t0.m.cpu.mem
    ensures AtOff(p, t, if Signed(t.m.cpu.r.r1) <= 0 || t.m.cpu.r.r0 != 0 then 0x138 else 0x10)
  {
    hide Run, Step, Loaded, ValidPlatform, Going;
    t := DurationGate(p, o, m0, t0);
    if Signed(t0.m.cpu.r.r1) > 0 {
      t := StatusGate(p, o, m0, t);
    }
  }

  lemma Enter(p: Platform, o: Oracle, m0: Machine) returns (t: Point)
    requires ValidPlatform(p) && AtEntry(p, m0)
    ensures Going(p, o, m0, t) && t.n == 1 && AtOff(p, t, 0) && t.m == m0.(cpu := m0.cpu.(pc := p.a.cave))
  {
    hide Loaded, StackMapped, Decode, Pow2, Distinct8;
    DecodeEncoded(p.a.burst, p.a.cave, 14, false);
    OneMore(p.a, o, m0, 0, m0);
    t := Point(1, m0.(cpu := m0.cpu.(pc := p.a.cave)));
  }

  const ARGS := RegList(true, true, true, false, false, false, true)

  lemma PushArgs(p: Platform, s: Cpu)
    requires StackMapped(p, s.mem) && s.r.sp % 4 == 0
    requires 0 < p.stackLow <= s.r.sp - 16 && s.r.sp <= p.stackTop < TWO32
    ensures ExecPush(s, ARGS)
            == Done(Next(s).(r := s.r.(sp := s.r.sp - 16),
                             mem := s.mem[s.r.sp - 16 := s.r.r0][s.r.sp - 12 := s.r.r1]
                                         [s.r.sp - 8 := s.r.r2][s.r.sp - 4 := s.r.lr]))
  {
  }

  lemma StackStoreKeeps(p: Platform, mem: Memory, k: int, v: word)
    requires ValidPlatform(p) && Loaded(p.a, mem) && p.stackLow <= k < p.stackTop
    requires StackMapped(p, mem)
    ensures Loaded(p.a, mem[k := v]) && StackMapped(p, mem[k := v])
  {
    hide Loaded, Distinct8;
    LoadedKept(p.a, mem, mem[k := v]);
  }

  /** Pushing the arguments and the return address leaves trampoline, stack and caller as they were. */
  lemma PushKeeps(p: Platform, s0: Cpu, mem: Memory, sp: int, a: word, b: word, c: word, d: word)
    requires ValidPlatform(p) && Loaded(p.a, mem) && StackMapped(p, mem) && CallerKept(p, s0, mem)
    requires p.stackLow <= sp - 16 && sp <= p.stackTop && sp == s0.r.sp
    ensures
      var pushed := mem[sp - 16 := a][sp - 12 := b][sp - 8 := c][sp - 4 := d];
      Loaded(p.a, pushed) && StackMapped(p, pushed) && CallerKept(p, s0, pushed)
  {
    hide Loaded, ValidPlatform, StackMapped, CallerKept;
    var m1 := mem[sp - 16 := a];
    var m2 := m1[sp - 12 := b];
    var m3 := m2[sp - 8 := c];
    CallerKeptByStore(p, s0, mem, sp - 16, a);
    CallerKeptByStore(p, s0, m1, sp - 12, b);
    CallerKeptByStore(p, s0, m2, sp - 8, c);
    CallerKeptByStore(p, s0, m3, sp - 4, d);
    StackStoreKeeps(p, mem, sp - 16, a);
    StackStoreKeeps(p, m1, sp - 12, b);
    StackStoreKeeps(p, m2, sp - 8, c);
    StackStoreKeeps(p, m3, sp - 4, d);
  }

  lemma OpenFrame(p: Platform, o: Oracle, m0: Machine, t0: Point) returns (t: Point)
    requires Going(p, o, m0, t0) && AtOff(p, t0, 0x10)
    requires AtEntry(p, m0) && t0.m.cpu.r == m0.cpu.r && t0.m.cpu.mem == m0.cpu.mem
    ensures Going(p, o, m0, t) && t.n == t0.n + 2 && t.m.log == t0.m.log
    ensures AtOff(p, t, 0x18) && InFrame(p, m0.cpu, t.m.cpu)
  {
    hide Run, Step, Loaded, ValidPlatform, Decode, Pow2, ExecPush, StackMapped, CallerKept;
    var s := t0.m.cpu;
    var sp := s.r.sp;
    NothingChanged(p, m0.cpu, s.mem);
    PushKeeps(p, m0.cpu, s.mem, sp, s.r.r0, s.r.r1, s.r.r2, s.r.lr);
    PushArgs(p, s);
    BlockTransfers();
    StackAdjustments();
    t := Tick(p, o, m0, t0, 0x10);
    t := Tick(p, o, m0, t, 0x14);
  }

  // Every block carries: the run so far, the environment's promise and the stack frame.
  ghost predicate Held(p: Platform, w: World, o: Oracle, m0: Machine, t: Point) {
    Going(p, o, m0, t) && Behaved(p, w, o) && InFrame(p, m0.cpu, t.m.cpu) && !Freed(t.m.log)
  }

  ghost predicate VendorOk(w: World) {
    w.manufacturer != 0 && exists i :: OccursAt(Fold(w.manufacturerText), Fold(PENTAX), i)
  }

  lemma Vendor(p: Platform, w: World, o: Oracle, m0: Machine, t0: Point) returns (t: Point)
    requires Held(p, w, o, m0, t0) && AtOff(p, t0, 0x18)
    ensures Held(p, w, o, m0, t) && t.n <= t0.n + 9
    ensures AtOff(p, t, if VendorOk(w) then 0x34 else 0x130)
  {
    hide Run, Step, Loaded, ValidPlatform, Decode, Pow2, Behaved, KeepsCaller, Pure, FrameOf, CString, Compare, Freed;
    FrameBounds(p, m0.cpu, t0.m.cpu);
    CompareR0R3();
    t := Invoke(p, w, o, m0, m0.cpu, t0, 0x18, GetManufacturer);
    t := Test(p, o, m0, t, 0x1C, R0, 0, EQ, 0x130);
    if w.manufacturer != 0 {
      t := VendorSearch(p, w, o, m0, t);
    }
  }

  lemma VendorSearch(p: Platform, w: World, o: Oracle, m0: Machine, t0: Point) returns (t: Point)
    requires Held(p, w, o, m0, t0) && AtOff(p, t0, 0x24)
    requires t0.m.cpu.r.r0 == w.manufacturer != 0 && CString(t0.m.cpu.mem, w.manufacturer, w.manufacturerText)
    ensures Held(p, w, o, m0, t) && t.n <= t0.n + 5
    ensures AtOff(p, t, if VendorOk(w) then 0x34 else 0x130)
  {
    hide Run, Step, Loaded, ValidPlatform, Decode, Pow2, Behaved, KeepsCaller, Pure, FrameOf, CString, Compare, Freed,
      OccursAt;
    FrameBounds(p, m0.cpu, t0.m.cpu);
    CompareR0R3();
    Literals();
    MatchStrings(p.a, t0.m.cpu.mem);
    t := LoadR1(p, o, m0, t0, 0x24, 532);
    t := Invoke(p, w, o, m0, m0.cpu, t, 0x28, StrCaseStr);
    assert Found(Fold(w.manufacturerText), Fold(PENTAX), w.manufacturer, t.m.cpu.r.r0);
    t := Test(p, o, m0, t, 0x2C, R0, 0, EQ, 0x130);
  }
}
