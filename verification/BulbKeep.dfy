/**
 The two stubs that keep a saved outcome: the stop result replaces it only when stopping failed,
 the publication result only when nothing was saved. [fp, #-16] is the helper's return value.
 */
module BulbKeep {
  import opened Words
  import opened Arm
  import opened BranchCodec
  import opened BulbTable
  import opened BulbMachine
  import opened BulbRun

  /** About to execute the redirected store at `store`, with the return slot on the stack. */
  ghost predicate AtStore(p: Platform, m: Machine, store: int, stub: int) {
    var s := m.cpu;
    && ValidPlatform(p) && Loaded(p.a, s.mem)
    && 0 <= store < TWO32 && 0 <= stub < 0x300 && s.pc == store && !InCave(p.a, store) && NotCallee(p.a, s.pc)
    && Encodable(store, p.a.cave + stub)
    && store in s.mem && s.mem[store] == BranchWord(store, p.a.cave + stub, 14, false)
    && p.stackLow <= s.r.fp - 16 < p.stackTop && s.r.fp % 4 == 0 && s.r.fp - 16 in s.mem
    && p.a.bulb + 0x800 < TWO32
  }

  /** The helper's return value as saved. */
  function Saved(s: Cpu): word {
    if s.r.fp - 16 in s.mem then s.mem[s.r.fp - 16] else 0
  }

  /** What either stub leaves: the resume address, the outcome, and nothing else but r1 and flags. */
  predicate Kept(s0: Cpu, s: Cpu, resume: int, outcome: word) {
    && s.pc == resume && s.r.(r1 := 0) == s0.r.(r1 := 0)
    && s.r.fp - 16 in s0.mem
    && s.mem == s0.mem[s.r.fp - 16 := outcome]
  }

  lemma Redirected(p: Platform, o: Oracle, m0: Machine, store: int, stub: int) returns (t: Point)
    requires AtStore(p, m0, store, stub)
    ensures Going(p, o, m0, t) && t == Point(1, m0.(cpu := m0.cpu.(pc := (p.a.cave + stub) as word)))
  {
    hide Loaded, Decode, Distinct8;
    DecodeEncoded(store, p.a.cave + stub, 14, false);
    OneMore(p.a, o, m0, 0, m0);
    t := Point(1, m0.(cpu := m0.cpu.(pc := (p.a.cave + stub) as word)));
  }

  lemma ReturnSlot(p: Platform, s: Cpu, v: word)
    requires ValidPlatform(p) && Loaded(p.a, s.mem)
    requires p.stackLow <= s.r.fp - 16 < p.stackTop && s.r.fp - 16 in s.mem
    ensures Loaded(p.a, s.mem[s.r.fp - 16 := v])
  {
    hide Loaded, Distinct8;
    LoadedKept(p.a, s.mem, s.mem[s.r.fp - 16 := v]);
  }

  /** A point of the stub with nothing changed but the program counter, r1 and the flags. */
  ghost predicate Tested(p: Platform, o: Oracle, m0: Machine, t: Point, pc: int, r1: word) {
    && Going(p, o, m0, t) && t.m.cpu.pc == pc && t.m.cpu.r == m0.cpu.r.(r1 := r1)
    && t.m.cpu.mem == m0.cpu.mem && t.m.log == m0.log
  }

  lemma CancelTest(p: Platform, o: Oracle, m0: Machine) returns (t: Point)
    requires AtStore(p, m0, p.a.bulb + 0x438, 0x228)
    ensures t.n <= 3 && Tested(p, o, m0, t, if m0.cpu.r.r3 != 0 then p.a.cave + 0x230 else p.a.bulb + 0x43C,
                               m0.cpu.r.r1)
  {
    hide Run, Step, Loaded, ValidPlatform, Decode, Pow2, Compare, NotCallee;
    t := Redirected(p, o, m0, p.a.bulb + 0x438, 0x228);
    CompareR0R3();
    CompareIs(t.m.cpu.r.r3, 0);
    t := Tick(p, o, m0, t, 0x228);
    t := Tick(p, o, m0, t, 0x22C);
  }

  /** After the stop callback: r3 holds its result. */
  lemma KeepCancel(p: Platform, o: Oracle, m0: Machine) returns (n: nat, m: Machine)
    requires AtStore(p, m0, p.a.bulb + 0x438, 0x228)
    ensures n <= 5 && Run(p.a, o, m0, n) == Some(m) && m.log == m0.log
    ensures Kept(m0.cpu, m.cpu, p.a.bulb + 0x43C, if m0.cpu.r.r3 != 0 then m0.cpu.r.r3 else Saved(m0.cpu))
    ensures m.cpu.r.r1 == m0.cpu.r.r1
  {
    hide Run, Step, Loaded, ValidPlatform, Decode, Pow2, Compare, NotCallee;
    var t := CancelTest(p, o, m0);
    if m0.cpu.r.r3 != 0 {
      Stores();
      ReturnSlot(p, t.m.cpu, t.m.cpu.r.r3);
      t := Tick(p, o, m0, t, 0x230);
      t := Tick(p, o, m0, t, 0x234);
    }
    n, m := t.n, t.m;
  }

  lemma PublishTest(p: Platform, o: Oracle, m0: Machine) returns (t: Point)
    requires AtStore(p, m0, p.a.bulb + 0x6DC, 0x2B8)
    ensures t.n <= 4 && Tested(p, o, m0, t, if Saved(m0.cpu) == 0 then p.a.cave + 0x2C4 else p.a.bulb + 0x6E0,
                               Saved(m0.cpu))
  {
    hide Run, Step, Loaded, ValidPlatform, Decode, Pow2, Compare, NotCallee;
    t := Redirected(p, o, m0, p.a.bulb + 0x6DC, 0x2B8);
    StackLoads();
    CompareR1Range();
    t := Tick(p, o, m0, t, 0x2B8);
    CompareIs(t.m.cpu.r.r1, 0);
    t := Tick(p, o, m0, t, 0x2BC);
    t := Tick(p, o, m0, t, 0x2C0);
  }

  /** After publication: r0 holds its result. */
  lemma KeepPublish(p: Platform, o: Oracle, m0: Machine) returns (n: nat, m: Machine)
    requires AtStore(p, m0, p.a.bulb + 0x6DC, 0x2B8)
    ensures n <= 6 && Run(p.a, o, m0, n) == Some(m) && m.log == m0.log
    ensures Kept(m0.cpu, m.cpu, p.a.bulb + 0x6E0, if Saved(m0.cpu) != 0 then Saved(m0.cpu) else m0.cpu.r.r0)
  {
    hide Run, Step, Loaded, ValidPlatform, Decode, Pow2, Compare, NotCallee;
    var t := PublishTest(p, o, m0);
    if Saved(m0.cpu) == 0 {
      Stores();
      ReturnSlot(p, t.m.cpu, t.m.cpu.r.r0);
      t := Tick(p, o, m0, t, 0x2C4);
      t := Tick(p, o, m0, t, 0x2C8);
    }
    n, m := t.n, t.m;
  }

  /**
   A capture that reaches publication reports: a failed stop first, then whatever was saved
   (a cancellation), and the publication result only if both were zero.
   */
  lemma ReportedOutcome(p: Platform, o: Oracle, m0: Machine, m1: Machine)
      returns (n0: nat, stopped: Machine, n1: nat, published: Machine)
    requires AtStore(p, m0, p.a.bulb + 0x438, 0x228) && AtStore(p, m1, p.a.bulb + 0x6DC, 0x2B8)
    requires m1.cpu.r.fp == m0.cpu.r.fp
    requires Saved(m1.cpu) == if m0.cpu.r.r3 != 0 then m0.cpu.r.r3 else Saved(m0.cpu)
    ensures Run(p.a, o, m0, n0) == Some(stopped) && Run(p.a, o, m1, n1) == Some(published)
    ensures stopped.cpu.r.fp - 16 in stopped.cpu.mem && Saved(stopped.cpu) == Saved(m1.cpu)
    ensures published.cpu.r.fp - 16 in published.cpu.mem
    ensures Saved(published.cpu)
            == if m0.cpu.r.r3 != 0 then m0.cpu.r.r3
               else if Saved(m0.cpu) != 0 then Saved(m0.cpu)
               else m1.cpu.r.r0
  {
    hide Run, ValidPlatform, Loaded;
    n0, stopped := KeepCancel(p, o, m0);
    n1, published := KeepPublish(p, o, m1);
  }
}
