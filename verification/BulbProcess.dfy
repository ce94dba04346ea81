/** From the patched file to the end of a run: the image theorems and the routing theorem put together. */
module BulbProcess {
  import opened Words
  import opened Arm
  import opened BranchCodec
  import opened BulbTable
  import opened BulbMachine
  import opened BulbRun
  import opened BulbRouting
  import opened BulbPatch
  import opened BulbImage
  import opened BulbOracle

  /** What the process, not the patch, decides: where the library, the stack and the camera pointer are. */
  ghost predicate Layout(p: Platform) {
    var a := p.a;
    && a.cave % 4 == 0 && a.cave + TRAMPOLINE_SIZE < TWO32
    && Distinct8(a)
    && (forall k: word :: InCave(a, k) ==> NotCallee(a, k))
    && NotCallee(a, a.burst) && a.burst + 16 < TWO32
    && p.stackLow % 4 == 0 && p.stackTop % 4 == 0 && 0 < p.stackLow < p.stackTop < TWO32
    && (p.stackTop <= a.cave || a.cave + TRAMPOLINE_SIZE <= p.stackLow)
    && a.cameraGlobal % 4 == 0 && !(p.stackLow <= a.cameraGlobal < p.stackTop)
    && !(a.burst <= a.cave < a.burst + 4) && !InCave(a, a.burst)
  }

  /** A call of the burst helper, with the stack and the camera pointer mapped. */
  ghost predicate Calls(p: Platform, m: Machine) {
    var s := m.cpu;
    && m.log == [] && s.pc == p.a.burst && StackMapped(p, s.mem) && p.a.cameraGlobal in s.mem
    && s.r.sp % 4 == 0 && p.stackLow + 2064 <= s.r.sp <= p.stackTop
  }

  /** The patched file's cave and burst entry, as the process maps them. */
  ghost predicate Maps(mem: Memory, d: seq<byte>, off: Offsets, a: Addrs, s: Segment)
    requires off.burst + 4 <= |d| && s.offset + s.filesz + TRAMPOLINE_SIZE <= |d|
  {
    var caveOff := s.offset + s.filesz;
    && MappedAt(mem, s.vaddr + s.filesz, d[caveOff..caveOff + TRAMPOLINE_SIZE])
    && a.burst in mem && mem[a.burst] == Load(d, off.burst)
  }

  lemma LayoutIsValid(p: Platform)
    requires Layout(p) && BranchesEncodable(p.a) && Encodable(p.a.burst, p.a.cave)
    ensures ValidPlatform(p)
  {
  }

  lemma CallsAtEntry(p: Platform, m: Machine)
    requires Calls(p, m) && Loaded(p.a, m.cpu.mem)
    requires p.a.burst in m.cpu.mem && m.cpu.mem[p.a.burst] == BranchWord(p.a.burst, p.a.cave, 14, false)
    ensures AtEntry(p, m)
  {
  }

  /**
   End to end: patch a file, map it, call the burst helper. Whatever the arguments, the library's answers and
   the conditions text, the run ends within two hundred steps where `Routed` says.
   */
  lemma PatchedFileRoutes(data: seq<byte>, off: Offsets, s: Segment, p: Platform, a: Addrs, w: World, o: Oracle,
                          m0: Machine) returns (n: nat, m: Machine)
    requires Resolved(data, off, a, s) && SitesApart(off, s)
    requires Patch(data, off, a, s).Ok? && Patch(data, off, a, s).value.1
    requires p.a == a.(cave := s.vaddr + s.filesz) && Layout(p) && Calls(p, m0) && Behaved(p, w, o)
    requires |Patch(data, off, a, s).value.0| == |data| && s.offset + s.filesz + TRAMPOLINE_SIZE <= |data|
    requires Maps(m0.cpu.mem, Patch(data, off, a, s).value.0, off, a, s)
    ensures n <= 200 && Run(p.a, o, m0, n) == Some(m) && Routed(p, w, m0.cpu, m)
  {
    hide Patch, MappedAt, Loaded, Layout, Calls, Behaved, Routed, BranchesEncodable, Encodable, BranchWord, Load;
    LayoutAligned(p);
    PatchedFileEnters(data, off, a, s, m0.cpu.mem);
    LayoutIsValid(p);
    CallsAtEntry(p, m0);
    n, m := Routing(p, w, o, m0);
  }

  lemma LayoutAligned(p: Platform)
    requires Layout(p)
    ensures p.a.cave % 4 == 0
  {
  }

  // --------------------------------------------------------------- a process

  /** Within sixteen megabytes of each other and word-aligned. */
  predicate Close(a: Addrs, lo: int) {
    && InReach(lo, a.cave) && InReach(lo, a.burst) && InReach(lo, a.bulb) && InReach(lo, a.getManufacturer)
    && InReach(lo, a.getName) && InReach(lo, a.strcasestr) && InReach(lo, a.getSingleConfig) && InReach(lo, a.getType)
    && InReach(lo, a.getValue) && InReach(lo, a.widgetFree) && InReach(lo, a.strstr)
  }

  predicate InReach(lo: int, x: int) {
    x % 4 == 0 && lo <= x < lo + 0x100_0000
  }

  predicate NearBy(lo: int, x: int) {
    x % 4 == 0 && lo <= x < lo + 0x100_1000
  }

  lemma Shifted(lo: int, x: int, k: int)
    requires InReach(lo, x) && 0 <= k < 0x1000 && k % 4 == 0
    ensures NearBy(lo, x + k)
  {
  }

  /** Every place a branch of the table leads to. */
  ghost predicate Places(a: Addrs, lo: int) {
    && NearBy(lo, a.getManufacturer) && NearBy(lo, a.getName) && NearBy(lo, a.strcasestr) && NearBy(lo, a.strstr)
    && NearBy(lo, a.getSingleConfig) && NearBy(lo, a.getType) && NearBy(lo, a.getValue) && NearBy(lo, a.widgetFree)
    && NearBy(lo, a.bulb) && NearBy(lo, a.bulb + 0x43C) && NearBy(lo, a.bulb + 0x6E0) && NearBy(lo, a.burst + 0xC)
    && NearBy(lo, a.cave + 0x80) && NearBy(lo, a.cave + 0x110) && NearBy(lo, a.cave + 0x11C)
    && NearBy(lo, a.cave + 0x130) && NearBy(lo, a.cave + 0x138) && NearBy(lo, a.cave + 0x148)
    && NearBy(lo, a.cave + 0x158) && NearBy(lo, a.cave + 0x164) && NearBy(lo, a.cave + 0x174)
    && NearBy(lo, a.cave + 0x180) && NearBy(lo, a.cave + 0x1D8) && NearBy(lo, a.cave + 0x1E0)
    && NearBy(lo, a.cave + 0x200)
  }

  lemma CloseToAll(a: Addrs, lo: int)
    requires Close(a, lo)
    ensures Places(a, lo)
  {
    assert NearBy(lo, a.getManufacturer) && NearBy(lo, a.getName) && NearBy(lo, a.strcasestr);
    assert NearBy(lo, a.strstr) && NearBy(lo, a.getSingleConfig) && NearBy(lo, a.getType) && NearBy(lo, a.getValue);
    assert NearBy(lo, a.widgetFree) && NearBy(lo, a.bulb);
    hide NearBy, InReach;
    Shifted(lo, a.bulb, 0x43C);
    Shifted(lo, a.bulb, 0x6E0);
    Shifted(lo, a.burst, 0xC);
    Shifted(lo, a.cave, 0x80);
    Shifted(lo, a.cave, 0x110);
    Shifted(lo, a.cave, 0x11C);
    Shifted(lo, a.cave, 0x130);
    Shifted(lo, a.cave, 0x138);
    Shifted(lo, a.cave, 0x148);
    Shifted(lo, a.cave, 0x158);
    Shifted(lo, a.cave, 0x164);
    Shifted(lo, a.cave, 0x174);
    Shifted(lo, a.cave, 0x180);
    Shifted(lo, a.cave, 0x1D8);
    Shifted(lo, a.cave, 0x1E0);
    Shifted(lo, a.cave, 0x200);
  }

  lemma LowTargets(a: Addrs, lo: int, off: int)
    requires Places(a, lo) && off < 0x110 && Table(a, off).Br?
    ensures NearBy(lo, Table(a, off).target)
  {
    hide NearBy, ExitWords, SlotWords, DigitWords, ModeWords, KeepCancelWords, LiteralWords, KeepPublishWords;
  }

  lemma ExitTargets(a: Addrs, lo: int, off: int)
    requires Places(a, lo) && 0x110 <= off < 0x180 && Table(a, off).Br?
    ensures NearBy(lo, Table(a, off).target)
  {
    hide NearBy, GateWords, NameWords, ConfigWords, TextWords, DigitWords, ModeWords, KeepCancelWords, LiteralWords,
      KeepPublishWords;
  }

  lemma HighTargets(a: Addrs, lo: int, off: int)
    requires Places(a, lo) && 0x180 <= off && Table(a, off).Br?
    ensures NearBy(lo, Table(a, off).target)
  {
    hide NearBy, GateWords, NameWords, ConfigWords, TextWords, ExitWords, SlotWords;
  }

  lemma TargetsNearBy(a: Addrs, lo: int, off: int)
    requires Close(a, lo) && Table(a, off).Br?
    ensures NearBy(lo, Table(a, off).target)
  {
    hide Table, Close, Places, NearBy;
    CloseToAll(a, lo);
    if off < 0x110 {
      LowTargets(a, lo, off);
    } else if off < 0x180 {
      ExitTargets(a, lo, off);
    } else {
      HighTargets(a, lo, off);
    }
  }

  /** The builder refuses no process whose symbols are aligned and close to each other. */
  lemma CloseIsEncodable(a: Addrs, lo: int)
    requires Close(a, lo)
    ensures BranchesEncodable(a) && Encodable(a.burst, a.cave)
  {
    hide Table;
    forall off | 0 <= off < TRAMPOLINE_SIZE && Table(a, off).Br?
      ensures Encodable(a.cave + off, Table(a, off).target)
    {
      TargetsNearBy(a, lo, off);
      OffsetsAreAligned(a, off);
    }
  }

  const PLACE := Addrs(0x10_0000, 0x11_0000, 0x12_0000, 0x13_0000, 0x13_1000, 0x13_2000, 0x20_0000, 0x13_3000,
                       0x13_4000, 0x13_5000, 0x13_6000, 0x13_7000)

  const PROCESS := Platform(PLACE, 0x40_0000, 0x41_0000)

  function CaveMemory(): Memory {
    map k | 0 <= k < TRAMPOLINE_SIZE && k % 4 == 0 :: PLACE.cave + k := Load(Blob(PLACE), k)
  }

  function StackMemory(): Memory {
    map k | PROCESS.stackLow <= k < PROCESS.stackTop && k % 4 == 0 :: 0
  }

  function ProcessMemory(): Memory {
    StackMemory() + CaveMemory()
    + map[PLACE.burst := BranchWord(PLACE.burst, PLACE.cave, 14, false), PLACE.cameraGlobal := 0]
  }

  /** A call with any status, duration and file count. */
  function Caller(r0: word, r1: word, r2: word): Machine {
    Machine(Cpu(PLACE.burst, Regs(r0, r1, r2, 0, 0, 0, PROCESS.stackTop, 0), Flags(false, false, false, false),
                ProcessMemory()), [])
  }

  lemma CaveWord(k: nat)
    requires 4 * k < TRAMPOLINE_SIZE
    ensures PLACE.cave + 4 * k in ProcessMemory()
    ensures ProcessMemory()[PLACE.cave + 4 * k] == Load(Blob(PLACE), 4 * k)
  {
    hide Blob, Load, BranchWord, StackMemory;
    assert (4 * k) % 4 == 0;
    assert PLACE.cave + 4 * k in CaveMemory() && CaveMemory()[PLACE.cave + 4 * k] == Load(Blob(PLACE), 4 * k);
  }

  lemma CaveMapped()
    ensures MappedAt(ProcessMemory(), PLACE.cave, Blob(PLACE))
  {
    hide Blob, Load, ProcessMemory;
    forall k: nat | 4 * k < TRAMPOLINE_SIZE
      ensures PLACE.cave + 4 * k in ProcessMemory()
      ensures ProcessMemory()[PLACE.cave + 4 * k] == Load(Blob(PLACE), 4 * k)
    {
      CaveWord(k);
    }
  }

  /** A process the theorems speak of exists. */
  lemma ProcessExists(r0: word, r1: word, r2: word)
    ensures ValidPlatform(PROCESS) && AtEntry(PROCESS, Caller(r0, r1, r2))
  {
    hide Blob, Load, BranchesEncodable, Loaded, Encodable, MappedAt, CaveMemory;
    CloseIsEncodable(PLACE, 0x10_0000);
    LayoutIsValid(PROCESS);
    CaveMapped();
    InstalledIsLoaded(PLACE, ProcessMemory());
  }

  /**
   In that process, for any world whose strings have a place, there is a library that at the free takes away
   all memory but the stack, the camera pointer and the trampoline; and the run still ends where `Routed` says.
   */
  lemma RunsWithoutText(w: World, r0: word, r1: word, r2: word)
      returns (o: Oracle, n: nat, m: Machine)
    requires Possible(PROCESS, w)
    ensures Behaved(PROCESS, w, o) && (forall q :: Honours(PROCESS, w, q, o(q)))
    ensures n <= 200 && Run(PLACE, o, Caller(r0, r1, r2), n) == Some(m) && Routed(PROCESS, w, Caller(r0, r1, r2).cpu, m)
  {
    hide ValidPlatform, AtEntry, Caller, Possible, Behaved, Honours, Routed;
    ProcessExists(r0, r1, r2);
    OracleExists(PROCESS, w);
    o :| Behaved(PROCESS, w, o) && forall q :: Honours(PROCESS, w, q, o(q));
    n, m := Routing(PROCESS, w, o, Caller(r0, r1, r2));
  }
}
