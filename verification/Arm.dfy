/**
 The ARM (A32) subset the patches emit: conditional branches, BL, BX, immediate and
 shifted-register data processing, LDR/LDRB/STR with immediate offset or literal, PUSH and POP.
 Encodings are those of the ARM Architecture Reference Manual ARMv7-A/R (DDI 0406C), sections
 A5.2.1, A5.2.3, A5.2.4, A5.3, A5.4 and A8.8.18.
 */
module Arm {
  import opened Words

  // Registers the modelled code names; any other register number is refused by Decode.
  datatype Reg = R0 | R1 | R2 | R3 | R4 | FP | SP | LR | PC

  datatype Cond = EQ | NE | CC | HI | LE | AL

  datatype Op = SUB | ADD | CMP | MOV | MVN

  // The registers a PUSH or POP names, lowest number first.
  datatype RegList = RegList(r0: bool, r1: bool, r2: bool, r3: bool, r4: bool, fp: bool, lr: bool)

  datatype Instr =
    | DpImm(op: Op, rd: Reg, rn: Reg, imm: word)
    | DpReg(op: Op, rd: Reg, rn: Reg, rm: Reg, lsl: nat)
    | Ldr(rt: Reg, rn: Reg, disp: int)
    | Ldrb(rt: Reg, rn: Reg, disp: int, postIndexed: bool)
    | Str(rt: Reg, rn: Reg, disp: int)
    | Push(list: RegList)
    | Pop(list: RegList)
    | Branch(link: bool, disp: int)
    | Bx(rm: Reg)

  datatype Op32 = Op32(cond: Cond, instr: Instr) | Undefined

  // ---------------------------------------------------------------- decoding

  function RegOf(n: int): Option<Reg> {
    if n == 0 then Some(R0) else if n == 1 then Some(R1) else if n == 2 then Some(R2)
    else if n == 3 then Some(R3) else if n == 4 then Some(R4) else if n == 11 then Some(FP)
    else if n == 13 then Some(SP) else if n == 14 then Some(LR) else if n == 15 then Some(PC)
    else None
  }

  function CondOf(n: int): Option<Cond> {
    if n == 0 then Some(EQ) else if n == 1 then Some(NE) else if n == 3 then Some(CC)
    else if n == 8 then Some(HI) else if n == 13 then Some(LE) else if n == 14 then Some(AL)
    else None
  }

  function OpOf(n: int): Option<Op> {
    if n == 2 then Some(SUB) else if n == 4 then Some(ADD) else if n == 10 then Some(CMP)
    else if n == 13 then Some(MOV) else if n == 15 then Some(MVN) else None
  }

  /** 2^n for the shift counts a word allows. */
  function Pow2(n: nat): (p: int)
    ensures p >= 1
  {
    match n
    case 0 => 0x1
    case 1 => 0x2
    case 2 => 0x4
    case 3 => 0x8
    case 4 => 0x10
    case 5 => 0x20
    case 6 => 0x40
    case 7 => 0x80
    case 8 => 0x100
    case 9 => 0x200
    case 10 => 0x400
    case 11 => 0x800
    case 12 => 0x1000
    case 13 => 0x2000
    case 14 => 0x4000
    case 15 => 0x8000
    case 16 => 0x10000
    case 17 => 0x20000
    case 18 => 0x40000
    case 19 => 0x80000
    case 20 => 0x100000
    case 21 => 0x200000
    case 22 => 0x400000
    case 23 => 0x800000
    case 24 => 0x1000000
    case 25 => 0x2000000
    case 26 => 0x4000000
    case 27 => 0x8000000
    case 28 => 0x10000000
    case 29 => 0x20000000
    case 30 => 0x40000000
    case 31 => 0x80000000
    case 32 => 0x100000000
    case _ => 0x2_0000_0000
  }

  lemma Pow2Split(n: nat)
    requires n <= 32
    ensures Pow2(n) * Pow2(32 - n) == 0x1_0000_0000
  {
  }

  lemma MulMonotone(p: int, a: int, b: int)
    requires p >= 1
    ensures a >= b ==> p * a >= p * b
  {
    assert p * a - p * b == p * (a - b);
  }

  /** The two halves a rotation exchanges fit back into a word. */
  lemma HalvesFit(x: int, p: int, q: int)
    requires p >= 1 && q >= 1 && 0 <= x < p * q
    ensures 0 <= x / p + x % p * q < p * q
  {
    assert x == p * (x / p) + x % p;
    MulMonotone(p, x / p, q);
    MulMonotone(q, p - 1, x % p);
    MulMonotone(q, x % p, 0);
    assert q * (p - 1) == p * q - q;
  }

  /** ROR of a 32-bit word. */
  function RotateRight(x: word, n: nat): word
    requires n <= 32
  {
    hide Pow2;
    Pow2Split(n);
    HalvesFit(x, Pow2(n), Pow2(32 - n));
    x / Pow2(n) + x % Pow2(n) * Pow2(32 - n)
  }

  /** An 8-bit value rotated right by twice a 4-bit count (section A5.2.4). */
  function RotatedImm(imm8: byte, rot: nat): word
    requires rot < 16
  {
    if rot == 0 then imm8 else RotateRight(imm8, 2 * rot)
  }

  function DecodeBranch(w: word): Instr {
    var imm24 := w % 0x100_0000;
    Branch(w / 0x100_0000 % 2 == 1, 4 * (if imm24 >= 0x80_0000 then imm24 - 0x100_0000 else imm24))
  }

  function Decode(w: word): Op32 {
    match (CondOf(w / 0x1000_0000), DecodeInstr(w, w / 0x200_0000 % 8))
    case (Some(c), Some(i)) => Op32(c, i)
    case _ => Undefined
  }

  function DecodeInstr(w: word, kind: int): Option<Instr> {
    if kind == 1 then DecodeImmediate(w)
    else if kind == 2 then DecodeTransfer(w)
    else if kind == 5 then Some(DecodeBranch(w))
    else if kind == 4 then DecodeBlock(w)
    else if kind != 0 then None
    else if w / 16 % 0x100_0000 == 0x12FFF1 then
      (match RegOf(w % 16) case None => None case Some(rm) => Some(Bx(rm)))
    else DecodeShifted(w)
  }

  function DecodeImmediate(w: word): Option<Instr> {
    match (OpOf(w / 0x20_0000 % 16), RegOf(w / 0x1000 % 16), RegOf(w / 0x1_0000 % 16))
    case (Some(op), Some(rd), Some(rn)) =>
      if w / 0x10_0000 % 2 == 1 <==> op.CMP?
      then Some(DpImm(op, rd, rn, RotatedImm(w % 256, w / 0x100 % 16)))
      else None
    case _ => None
  }

  /** A register operand shifted left by an immediate. */
  function DecodeShifted(w: word): Option<Instr> {
    match (OpOf(w / 0x20_0000 % 16), RegOf(w / 0x1000 % 16), RegOf(w / 0x1_0000 % 16), RegOf(w % 16))
    case (Some(op), Some(rd), Some(rn), Some(rm)) =>
      if w / 16 % 8 == 0 && (w / 0x10_0000 % 2 == 1 <==> op.CMP?)
      then Some(DpReg(op, rd, rn, rm, w / 0x80 % 32))
      else None
    case _ => None
  }

  // The fields of a load or store with immediate offset, register numbers as they stand.
  datatype Transfer = Transfer(indexed: bool, disp: int, isByte: bool, writeBack: bool, load: bool, rt: nat, rn: nat)

  function TransferOf(w: word): Transfer {
    Transfer(w / 0x100_0000 % 2 == 1,
             if w / 0x80_0000 % 2 == 1 then w % 0x1000 else -(w % 0x1000),
             w / 0x40_0000 % 2 == 1, w / 0x20_0000 % 2 == 1, w / 0x10_0000 % 2 == 1,
             w / 0x1000 % 16, w / 0x1_0000 % 16)
  }

  function DecodeTransfer(w: word): Option<Instr> {
    var t := TransferOf(w);
    match (RegOf(t.rt), RegOf(t.rn))
    case (Some(rt), Some(rn)) =>
      if t.writeBack then None
      else if t.isByte then (if t.load then Some(Ldrb(rt, rn, t.disp, !t.indexed)) else None)
      else if !t.indexed then None
      else if t.load then Some(Ldr(rt, rn, t.disp))
      else Some(Str(rt, rn, t.disp))
    case _ => None
  }

  /** PUSH is STMDB sp! and POP is LDMIA sp!; only lists over the modelled registers. */
  function DecodeBlock(w: word): Option<Instr> {
    var list := RegList(w % 2 == 1, w / 2 % 2 == 1, w / 4 % 2 == 1, w / 8 % 2 == 1,
                        w / 0x10 % 2 == 1, w / 0x800 % 2 == 1, w / 0x4000 % 2 == 1);
    var others := w / 0x20 % 0x40 != 0 || w / 0x1000 % 4 != 0 || w / 0x8000 % 2 != 0;
    var form := w / 0x1_0000 % 0x200;
    if others then None
    else if form == 0x12D then Some(Push(list))
    else if form == 0x0BD then Some(Pop(list))
    else None
  }

  // ----------------------------------------------------------------- machine

  datatype Regs = Regs(r0: word, r1: word, r2: word, r3: word, r4: word,
                       fp: word, sp: word, lr: word)

  datatype Flags = Flags(n: bool, z: bool, c: bool, v: bool)

  // Memory is word-addressed: keys are multiples of four, an absent key is unmapped.
  type Memory = map<int, word>

  datatype Cpu = Cpu(pc: word, r: Regs, f: Flags, mem: Memory)

  function Holds(c: Cond, f: Flags): bool {
    match c
    case EQ => f.z
    case NE => !f.z
    case CC => !f.c
    case HI => f.c && !f.z
    case LE => f.z || f.n != f.v
    case AL => true
  }

  /** Reading the program counter yields the instruction's address plus eight. */
  function Read(s: Cpu, reg: Reg): word {
    match reg
    case R0 => s.r.r0
    case R1 => s.r.r1
    case R2 => s.r.r2
    case R3 => s.r.r3
    case R4 => s.r.r4
    case FP => s.r.fp
    case SP => s.r.sp
    case LR => s.r.lr
    case PC => Wrap(s.pc + 8)
  }

  function Write(r: Regs, reg: Reg, v: word): Regs {
    match reg
    case R0 => r.(r0 := v)
    case R1 => r.(r1 := v)
    case R2 => r.(r2 := v)
    case R3 => r.(r3 := v)
    case R4 => r.(r4 := v)
    case FP => r.(fp := v)
    case SP => r.(sp := v)
    case LR => r.(lr := v)
    case PC => r
  }

  function Compare(a: word, b: word): Flags {
    var d := Wrap(a - b);
    Flags(d >= 0x8000_0000, d == 0, a >= b,
          !(-0x8000_0000 <= Signed(a) - Signed(b) < 0x8000_0000))
  }

  datatype Outcome = Fault | Done(cpu: Cpu)

  function Next(s: Cpu): Cpu {
    s.(pc := Wrap(s.pc + 4))
  }

  function DataProcessing(s: Cpu, op: Op, rd: Reg, a: word, b: word): Outcome {
    match op
    case CMP => Done(Next(s).(f := Compare(a, b)))
    case _ =>
      if rd.PC? then Fault
      else
        var v := match op
                 case SUB => Wrap(a - b)
                 case ADD => Wrap(a + b)
                 case MVN => 0xFFFF_FFFF - b
                 case _ => b;
        Done(Next(s).(r := Write(s.r, rd, v)))
  }

  function ByteAt(mem: Memory, a: int): Option<byte> {
    if a - a % 4 in mem then Some(ByteOf(mem[a - a % 4], a % 4)) else None
  }

  function Exec(s: Cpu, i: Instr): Outcome {
    match i
    case DpImm(op, rd, rn, imm) => DataProcessing(s, op, rd, Read(s, rn), imm)
    case DpReg(op, rd, rn, rm, lsl) =>
      DataProcessing(s, op, rd, Read(s, rn), Wrap(Read(s, rm) * Pow2(lsl)))
    case Ldr(rt, rn, disp) =>
      var a := Wrap(Read(s, rn) + disp);
      if a in s.mem && !rt.PC? then Done(Next(s).(r := Write(s.r, rt, s.mem[a]))) else Fault
    case Ldrb(rt, rn, disp, postIndexed) =>
      var base := Read(s, rn);
      var b := ByteAt(s.mem, if postIndexed then base else Wrap(base + disp));
      if b.None? || rt.PC? || rn.PC? || (postIndexed && rn == rt) then Fault
      else
        var r1 := Write(s.r, rt, b.value);
        Done(Next(s).(r := if postIndexed then Write(r1, rn, Wrap(base + disp)) else r1))
    case Str(rt, rn, disp) =>
      var a := Wrap(Read(s, rn) + disp);
      if a in s.mem && !rt.PC? then Done(Next(s).(mem := s.mem[a := Read(s, rt)])) else Fault
    case Push(list) => ExecPush(s, list)
    case Pop(list) => ExecPop(s, list)
    case Branch(link, disp) =>
      Done(s.(pc := Wrap(s.pc + 8 + disp),
              r := if link then s.r.(lr := Wrap(s.pc + 4)) else s.r))
    case Bx(rm) => Done(s.(pc := Read(s, rm)))
  }

  function Size(present: bool): int {
    if present then 4 else 0
  }

  /** Bytes a register list occupies. */
  function ListBytes(l: RegList): int {
    Size(l.r0) + Size(l.r1) + Size(l.r2) + Size(l.r3) + Size(l.r4) + Size(l.fp) + Size(l.lr)
  }

  predicate Mapped(mem: Memory, base: int, present: bool) {
    present ==> base in mem
  }

  function Put(mem: Memory, base: int, present: bool, v: word): Memory {
    if present then mem[base := v] else mem
  }

  function Take(mem: Memory, base: int, present: bool, v: word): word {
    if present && base in mem then mem[base] else v
  }

  /** Whether every slot of the list, laid out upwards from `base`, is mapped. */
  predicate ListMapped(mem: Memory, l: RegList, base: int) {
    var a1 := base + Size(l.r0);
    var a2 := a1 + Size(l.r1);
    var a3 := a2 + Size(l.r2);
    var a4 := a3 + Size(l.r3);
    var a5 := a4 + Size(l.r4);
    var a6 := a5 + Size(l.fp);
    && Mapped(mem, base, l.r0) && Mapped(mem, a1, l.r1) && Mapped(mem, a2, l.r2)
    && Mapped(mem, a3, l.r3) && Mapped(mem, a4, l.r4) && Mapped(mem, a5, l.fp)
    && Mapped(mem, a6, l.lr)
  }

  /** STMDB sp!: the lowest numbered register lands at the lowest address. */
  function ExecPush(s: Cpu, l: RegList): Outcome {
    var base := Wrap(s.r.sp - ListBytes(l));
    if !ListMapped(s.mem, l, base) then Fault
    else
      var a1 := base + Size(l.r0);
      var a2 := a1 + Size(l.r1);
      var a3 := a2 + Size(l.r2);
      var a4 := a3 + Size(l.r3);
      var a5 := a4 + Size(l.r4);
      var a6 := a5 + Size(l.fp);
      var low := Put(Put(Put(s.mem, base, l.r0, s.r.r0), a1, l.r1, s.r.r1), a2, l.r2, s.r.r2);
      var mid := Put(Put(low, a3, l.r3, s.r.r3), a4, l.r4, s.r.r4);
      Done(Next(s).(r := s.r.(sp := base),
                    mem := Put(Put(mid, a5, l.fp, s.r.fp), a6, l.lr, s.r.lr)))
  }

  /** LDMIA sp!: the mirror image of ExecPush. */
  function ExecPop(s: Cpu, l: RegList): Outcome {
    var base := s.r.sp;
    if !ListMapped(s.mem, l, base) then Fault
    else
      var a1 := base + Size(l.r0);
      var a2 := a1 + Size(l.r1);
      var a3 := a2 + Size(l.r2);
      var a4 := a3 + Size(l.r3);
      var a5 := a4 + Size(l.r4);
      var a6 := a5 + Size(l.fp);
      Done(Next(s).(r := Regs(Take(s.mem, base, l.r0, s.r.r0), Take(s.mem, a1, l.r1, s.r.r1),
                              Take(s.mem, a2, l.r2, s.r.r2), Take(s.mem, a3, l.r3, s.r.r3),
                              Take(s.mem, a4, l.r4, s.r.r4), Take(s.mem, a5, l.fp, s.r.fp),
                              Wrap(base + ListBytes(l)), Take(s.mem, a6, l.lr, s.r.lr))))
  }

  /** Fetch, decode and execute one instruction. */
  function Fetch(s: Cpu): Outcome {
    if s.pc !in s.mem then Fault
    else
      match Decode(s.mem[s.pc])
      case Undefined => Fault
      case Op32(c, i) => if Holds(c, s.f) then Exec(s, i) else Done(Next(s))
  }
}
