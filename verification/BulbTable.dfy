/**
 The timed-Bulb trampoline: the word table of `build_trampoline`, symbolic in the address of the
 cave and of every function it calls.
 */
module BulbTable {
  import opened Words
  import opened Arm

  const TRAMPOLINE_SIZE := 0x300
  const PENTAX_TEXT := 0x260
  const MODEL_TEXT := 0x270
  const CONDITIONS_KEY_TEXT := 0x290
  const MODE_KEY_TEXT := 0x2A4

  // Virtual addresses the trampoline is built for.
  datatype Addrs = Addrs(cave: word, burst: word, bulb: word, getManufacturer: word, getName: word,
                         strcasestr: word, cameraGlobal: word, getSingleConfig: word,
                         getType: word, getValue: word, widgetFree: word, strstr: word)

  type nibble = n: nat | n < 16

  datatype Entry = Raw(w: word) | Br(target: int, cond: nibble, link: bool) | Blank

  /** The `words` dictionary: blob offset to instruction or literal. */
  function Table(a: Addrs, off: int): Entry {
    if off < 0x40 then GateWords(a, off)
    else if off < 0x6C then NameWords(a, off)
    else if off < 0xB4 then ConfigWords(a, off)
    else if off < 0x110 then TextWords(a, off)
    else if off < 0x164 then ExitWords(a, off)
    else if off < 0x180 then SlotWords(a, off)
    else if off < 0x1D8 then DigitWords(a, off)
    else if off < 0x228 then ModeWords(a, off)
    else if off < 0x240 then KeepCancelWords(a, off)
    else if off < 0x260 then LiteralWords(a, off)
    else KeepPublishWords(a, off)
  }

  // Model gate.
  function GateWords(a: Addrs, off: int): Entry {
    match off
    case 0x000 => Raw(0xE351_0000)                // cmp r1, #0
    case 0x004 => Br(a.cave + 0x138, 13, false)   // ble 0x138
    case 0x008 => Raw(0xE350_0000)                // cmp r0, #0
    case 0x00C => Br(a.cave + 0x138, 1, false)    // bne 0x138
    case 0x010 => Raw(0xE92D_4007)                // push {r0, r1, r2, lr}
    case 0x014 => Raw(0xE24D_DB02)                // sub sp, sp, #2048
    case 0x018 => Br(a.getManufacturer, 14, true) // bl getManufacturer
    case 0x01C => Raw(0xE350_0000)                // cmp r0, #0
    case 0x020 => Br(a.cave + 0x130, 0, false)    // beq 0x130
    case 0x024 => Raw(0xE59F_1214)                // ldr r1, ="pentax"
    case 0x028 => Br(a.strcasestr, 14, true)      // bl strcasestr
    case 0x02C => Raw(0xE350_0000)                // cmp r0, #0
    case 0x030 => Br(a.cave + 0x130, 0, false)    // beq 0x130
    case 0x034 => Raw(0xE1A0_000D)                // mov r0, sp
    case 0x038 => Br(a.getName, 14, true)         // bl getName
    case 0x03C => Raw(0xE350_0000)                // cmp r0, #0
    case _ => Blank
  }

  // Registered model label.
  function NameWords(a: Addrs, off: int): Entry {
    match off
    case 0x040 => Br(a.cave + 0x130, 1, false)    // bne 0x130
    case 0x044 => Raw(0xE1A0_000D)                // mov r0, sp
    case 0x048 => Raw(0xE59F_11F4)                // ldr r1, =model label
    case 0x04C => Br(a.strcasestr, 14, true)      // bl strcasestr
    case 0x050 => Raw(0xE150_000D)                // cmp r0, sp
    case 0x054 => Br(a.cave + 0x130, 1, false)    // bne 0x130
    case 0x058 => Raw(0xE5DD_001E)                // ldrb r0, [sp, #30]
    case 0x05C => Raw(0xE350_0000)                // cmp r0, #0
    case 0x060 => Br(a.cave + 0x130, 1, false)    // bne 0x130
    case 0x064 => Raw(0xE1A0_0000)                // nop
    case 0x068 => Raw(0xE1A0_0000)                // nop
    case _ => Blank
  }

  // Fetch the conditions widget.
  function ConfigWords(a: Addrs, off: int): Entry {
    match off
    case 0x06C => Raw(0xE59F_01E8)                // ldr r0, =&camera
    case 0x070 => Raw(0xE590_0000)                // ldr r0, [r0]
    case 0x074 => Raw(0xE59F_11D0)                // ldr r1, ="pentaxconditions"
    case 0x078 => Raw(0xE1A0_200D)                // mov r2, sp
    case 0x07C => Br(a.cave + 0x164, 14, false)   // b 0x164
    case 0x080 => Br(a.getSingleConfig, 14, true) // bl getSingleConfig
    case 0x084 => Raw(0xE350_0000)                // cmp r0, #0
    case 0x088 => Br(a.cave + 0x148, 1, false)    // bne 0x148
    case 0x08C => Raw(0xE59D_0000)                // ldr r0, [sp]
    case 0x090 => Raw(0xE350_0000)                // cmp r0, #0
    case 0x094 => Br(a.cave + 0x148, 0, false)    // beq 0x148
    case 0x098 => Raw(0xE28D_1004)                // add r1, sp, #4
    case 0x09C => Br(a.getType, 14, true)         // bl getType
    case 0x0A0 => Raw(0xE350_0000)                // cmp r0, #0
    case 0x0A4 => Br(a.cave + 0x158, 1, false)    // bne 0x158
    case 0x0A8 => Raw(0xE59D_0004)                // ldr r0, [sp, #4]
    case 0x0AC => Raw(0xE350_0002)                // cmp r0, #2 (GP_WIDGET_TEXT)
    case 0x0B0 => Br(a.cave + 0x158, 1, false)    // bne 0x158
    case _ => Blank
  }

  // Borrow its text and find the mode key.
  function TextWords(a: Addrs, off: int): Entry {
    match off
    case 0x0B4 => Raw(0xE59D_0000)                // ldr r0, [sp]
    case 0x0B8 => Raw(0xE28D_1004)                // add r1, sp, #4
    case 0x0BC => Br(a.cave + 0x174, 14, true)    // bl 0x174
    case 0x0C0 => Raw(0xE350_0000)                // cmp r0, #0
    case 0x0C4 => Br(a.cave + 0x158, 1, false)    // bne 0x158
    case 0x0C8 => Raw(0xE59D_0004)                // ldr r0, [sp, #4]
    case 0x0CC => Raw(0xE350_0000)                // cmp r0, #0
    case 0x0D0 => Br(a.cave + 0x158, 0, false)    // beq 0x158
    case 0x0D4 => Raw(0xE59F_1174)                // ldr r1, ="exposure-mode-raw="
    case 0x0D8 => Br(a.strstr, 14, true)          // bl strstr
    case 0x0DC => Raw(0xE350_0000)                // cmp r0, #0
    case 0x0E0 => Br(a.cave + 0x158, 0, false)    // beq 0x158
    case 0x0E4 => Raw(0xE59D_1004)                // ldr r1, [sp, #4]
    case 0x0E8 => Raw(0xE040_2001)                // sub r2, r0, r1
    case 0x0EC => Raw(0xE352_0002)                // cmp r2, #2
    case 0x0F0 => Br(a.cave + 0x158, 3, false)    // bcc 0x158
    case 0x0F4 => Raw(0xE550_1002)                // ldrb r1, [r0, #-2]
    case 0x0F8 => Raw(0xE351_003B)                // cmp r1, #';'
    case 0x0FC => Br(a.cave + 0x158, 1, false)    // bne 0x158
    case 0x100 => Raw(0xE550_1001)                // ldrb r1, [r0, #-1]
    case 0x104 => Raw(0xE351_0020)                // cmp r1, #' '
    case 0x108 => Br(a.cave + 0x158, 1, false)    // bne 0x158
    case 0x10C => Br(a.cave + 0x180, 14, false)   // b 0x180
    case _ => Blank
  }

  // The ways out.
  function ExitWords(a: Addrs, off: int): Entry {
    match off
    case 0x110 => Raw(0xE59D_0000)                // ldr r0, [sp]
    case 0x114 => Br(a.widgetFree, 14, true)      // bl widgetFree
    case 0x118 => Br(a.cave + 0x130, 14, false)   // b 0x130
    case 0x11C => Raw(0xE59D_0000)                // ldr r0, [sp]
    case 0x120 => Br(a.widgetFree, 14, true)      // bl widgetFree
    case 0x124 => Raw(0xE28D_DB02)                // add sp, sp, #2048
    case 0x128 => Raw(0xE8BD_4007)                // pop {r0, r1, r2, lr}
    case 0x12C => Br(a.bulb, 14, false)           // b bulb
    case 0x130 => Raw(0xE28D_DB02)                // add sp, sp, #2048
    case 0x134 => Raw(0xE8BD_4007)                // pop {r0, r1, r2, lr}
    case 0x138 => Raw(0xE92D_4810)                // push {r4, fp, lr}
    case 0x13C => Raw(0xE28D_B008)                // add fp, sp, #8
    case 0x140 => Raw(0xE24D_D0AC)                // sub sp, sp, #172
    case 0x144 => Br(a.burst + 0xC, 14, false)    // b burst + 0xC
    case 0x148 => Raw(0xE28D_DB02)                // add sp, sp, #2048
    case 0x14C => Raw(0xE8BD_4007)                // pop {r0, r1, r2, lr}
    case 0x150 => Raw(0xE3E0_006D)                // mvn r0, #109
    case 0x154 => Raw(0xE12F_FF1E)                // bx lr
    case 0x158 => Raw(0xE59D_0000)                // ldr r0, [sp]
    case 0x15C => Br(a.widgetFree, 14, true)      // bl widgetFree
    case 0x160 => Br(a.cave + 0x148, 14, false)   // b 0x148
    case _ => Blank
  }

  // Output slots are cleared before a callee may fill them.
  function SlotWords(a: Addrs, off: int): Entry {
    match off
    case 0x164 => Raw(0xE3A0_3000)                // mov r3, #0
    case 0x168 => Raw(0xE58D_3000)                // str r3, [sp]
    case 0x16C => Raw(0xE58D_3004)                // str r3, [sp, #4]
    case 0x170 => Br(a.cave + 0x80, 14, false)    // b 0x80
    case 0x174 => Raw(0xE3A0_3000)                // mov r3, #0
    case 0x178 => Raw(0xE58D_3004)                // str r3, [sp, #4]
    case 0x17C => Br(a.getValue, 14, false)       // b getValue
    case _ => Blank
  }

  // The bounded decimal field.
  function DigitWords(a: Addrs, off: int): Entry {
    match off
    case 0x180 => Raw(0xE280_0012)                // add r0, r0, #18
    case 0x184 => Raw(0xE4D0_1001)                // ldrb r1, [r0], #1
    case 0x188 => Raw(0xE351_0030)                // cmp r1, #'0'
    case 0x18C => Br(a.cave + 0x158, 3, false)    // bcc 0x158
    case 0x190 => Raw(0xE351_0039)                // cmp r1, #'9'
    case 0x194 => Br(a.cave + 0x158, 8, false)    // bhi 0x158
    case 0x198 => Raw(0xE241_1030)                // sub r1, r1, #'0'
    case 0x19C => Raw(0xE4D0_2001)                // ldrb r2, [r0], #1
    case 0x1A0 => Raw(0xE352_003B)                // cmp r2, #';'
    case 0x1A4 => Br(a.cave + 0x1D8, 0, false)    // beq 0x1D8
    case 0x1A8 => Raw(0xE351_0000)                // cmp r1, #0
    case 0x1AC => Br(a.cave + 0x158, 0, false)    // beq 0x158
    case 0x1B0 => Raw(0xE352_0030)                // cmp r2, #'0'
    case 0x1B4 => Br(a.cave + 0x158, 3, false)    // bcc 0x158
    case 0x1B8 => Raw(0xE352_0039)                // cmp r2, #'9'
    case 0x1BC => Br(a.cave + 0x158, 8, false)    // bhi 0x158
    case 0x1C0 => Raw(0xE242_2030)                // sub r2, r2, #'0'
    case 0x1C4 => Raw(0xE081_1101)                // add r1, r1, r1, lsl #2
    case 0x1C8 => Raw(0xE082_1081)                // add r1, r2, r1, lsl #1
    case 0x1CC => Raw(0xE5D0_2000)                // ldrb r2, [r0]
    case 0x1D0 => Raw(0xE352_003B)                // cmp r2, #';'
    case 0x1D4 => Br(a.cave + 0x158, 1, false)    // bne 0x158
    case _ => Blank
  }

  // Duplicate-key search and dispatch on the mode.
  function ModeWords(a: Addrs, off: int): Entry {
    match off
    case 0x1D8 => Br(a.cave + 0x200, 14, false)   // b 0x200
    case 0x1E0 => Raw(0xE351_0009)                // cmp r1, #9
    case 0x1E4 => Br(a.cave + 0x11C, 0, false)    // beq 0x11C
    case 0x1E8 => Raw(0xE351_000C)                // cmp r1, #12
    case 0x1EC => Br(a.cave + 0x11C, 0, false)    // beq 0x11C
    case 0x1F0 => Raw(0xE351_0014)                // cmp r1, #20
    case 0x1F4 => Br(a.cave + 0x11C, 0, false)    // beq 0x11C
    case 0x1F8 => Br(a.cave + 0x110, 14, false)   // b 0x110
    case 0x200 => Raw(0xE58D_1008)                // str r1, [sp, #8]
    case 0x204 => Raw(0xE240_0001)                // sub r0, r0, #1
    case 0x208 => Raw(0xE59F_1040)                // ldr r1, ="exposure-mode-raw="
    case 0x20C => Br(a.strstr, 14, true)          // bl strstr
    case 0x210 => Raw(0xE350_0000)                // cmp r0, #0
    case 0x214 => Br(a.cave + 0x158, 1, false)    // bne 0x158
    case 0x218 => Raw(0xE59D_1008)                // ldr r1, [sp, #8]
    case 0x21C => Raw(0xE351_001F)                // cmp r1, #31
    case 0x220 => Br(a.cave + 0x158, 8, false)    // bhi 0x158
    case 0x224 => Br(a.cave + 0x1E0, 14, false)   // b 0x1E0
    case _ => Blank
  }

  // Keep a cancellation over a successful stop.
  function KeepCancelWords(a: Addrs, off: int): Entry {
    match off
    case 0x228 => Raw(0xE353_0000)                // cmp r3, #0
    case 0x22C => Br(a.bulb + 0x43C, 0, false)    // beq bulb + 0x43C
    case 0x230 => Raw(0xE50B_3010)                // str r3, [fp, #-16]
    case 0x234 => Br(a.bulb + 0x43C, 14, false)   // b bulb + 0x43C
    case _ => Blank
  }

  // Literal pool.
  function LiteralWords(a: Addrs, off: int): Entry {
    match off
    case 0x240 => Raw(Wrap(a.cave + 0x260))       // .word cave + 0x260
    case 0x244 => Raw(Wrap(a.cave + 0x270))       // .word cave + 0x270
    case 0x24C => Raw(Wrap(a.cave + 0x290))       // .word cave + 0x290
    case 0x250 => Raw(Wrap(a.cave + 0x2A4))       // .word cave + 0x2A4
    case 0x25C => Raw(Wrap(a.cameraGlobal))       // .word cameraGlobal
    case _ => Blank
  }

  // Keep an outcome over publication.
  function KeepPublishWords(a: Addrs, off: int): Entry {
    match off
    case 0x2B8 => Raw(0xE51B_1010)                // ldr r1, [fp, #-16]
    case 0x2BC => Raw(0xE351_0000)                // cmp r1, #0
    case 0x2C0 => Br(a.bulb + 0x6E0, 1, false)    // bne bulb + 0x6E0
    case 0x2C4 => Raw(0xE50B_0010)                // str r0, [fp, #-16]
    case 0x2C8 => Br(a.bulb + 0x6E0, 14, false)   // b bulb + 0x6E0
    case _ => Blank
  }

  // What the processor makes of each fixed word.

  /** An unconditional data-processing word with an immediate operand, by its fields. */
  lemma ImmediateWord(w: word, opcode: int, s: int, rn: int, rd: int, rot: nat, imm8: byte)
    requires 0 <= opcode < 16 && 0 <= s < 2 && 0 <= rn < 16 && 0 <= rd < 16 && rot < 16
    requires w == 0xE200_0000 + opcode * 0x20_0000 + s * 0x10_0000 + rn * 0x1_0000 + rd * 0x1000 + rot * 0x100 + imm8
    requires OpOf(opcode).Some? && RegOf(rn).Some? && RegOf(rd).Some? && (s == 1 <==> OpOf(opcode).value.CMP?)
    ensures Decode(w) == Op32(AL, DpImm(OpOf(opcode).value, RegOf(rd).value, RegOf(rn).value, RotatedImm(imm8, rot)))
  {
    hide RotatedImm, DecodeBranch, DecodeTransfer, DecodeBlock, DecodeShifted;
    ImmediateFields(w, opcode, s, rn, rd, rot, imm8);
  }

  lemma ImmediateFields(w: int, opcode: int, s: int, rn: int, rd: int, rot: int, imm8: int)
    requires 0 <= opcode < 16 && 0 <= s < 2 && 0 <= rn < 16 && 0 <= rd < 16 && 0 <= rot < 16 && 0 <= imm8 < 256
    requires w == 0xE200_0000 + opcode * 0x20_0000 + s * 0x10_0000 + rn * 0x1_0000 + rd * 0x1000 + rot * 0x100 + imm8
    ensures w / 0x200_0000 % 8 == 1 && w / 0x1000_0000 == 0xE && w / 0x20_0000 % 16 == opcode && w / 0x10_0000 % 2 == s
    ensures w % 256 == imm8 && w / 0x100 % 16 == rot && w / 0x1000 % 16 == rd && w / 0x1_0000 % 16 == rn
  {
    assert w / 0x100 == 0xE2_0000 + opcode * 0x2000 + s * 0x1000 + rn * 0x100 + rd * 0x10 + rot;
    assert w / 0x1000 == 0xE_2000 + opcode * 0x200 + s * 0x100 + rn * 0x10 + rd;
    assert w / 0x1_0000 == 0xE200 + opcode * 0x20 + s * 0x10 + rn;
    assert w / 0x10_0000 == 0xE20 + opcode * 2 + s;
    assert w / 0x20_0000 == 0x710 + opcode;
    assert w / 0x200_0000 == 0x71;
  }

  /** An unconditional data-processing word with a register operand shifted left, by its fields. */
  lemma RegisterWord(w: word, opcode: int, s: int, rn: int, rd: int, lsl: nat, rm: int)
    requires 0 <= opcode < 16 && 0 <= s < 2 && 0 <= rn < 16 && 0 <= rd < 16 && lsl < 32 && 0 <= rm < 16
    requires w == 0xE000_0000 + opcode * 0x20_0000 + s * 0x10_0000 + rn * 0x1_0000 + rd * 0x1000 + lsl * 0x80 + rm
    requires OpOf(opcode).Some? && RegOf(rn).Some? && RegOf(rd).Some? && RegOf(rm).Some?
    requires s == 1 <==> OpOf(opcode).value.CMP?
    ensures Decode(w) == Op32(AL, DpReg(OpOf(opcode).value, RegOf(rd).value, RegOf(rn).value, RegOf(rm).value, lsl))
  {
    hide RotatedImm, DecodeBranch, DecodeTransfer, DecodeBlock, DecodeImmediate;
    RegisterFields(w, opcode, s, rn, rd, lsl, rm);
  }

  lemma RegisterFields(w: int, opcode: int, s: int, rn: int, rd: int, lsl: int, rm: int)
    requires 0 <= opcode < 16 && 0 <= s < 2 && 0 <= rn < 16 && 0 <= rd < 16 && 0 <= lsl < 32 && 0 <= rm < 16
    requires w == 0xE000_0000 + opcode * 0x20_0000 + s * 0x10_0000 + rn * 0x1_0000 + rd * 0x1000 + lsl * 0x80 + rm
    ensures w / 0x200_0000 % 8 == 0 && w / 0x1000_0000 == 0xE
    ensures w % 16 == rm && w / 16 % 8 == 0 && w / 0x80 % 32 == lsl && w / 16 % 0x100_0000 != 0x12FFF1
    ensures w / 0x1000 % 16 == rd && w / 0x1_0000 % 16 == rn && w / 0x20_0000 % 16 == opcode && w / 0x10_0000 % 2 == s
  {
    assert w / 16 == 0xE00_0000 + opcode * 0x2_0000 + s * 0x1_0000 + rn * 0x1000 + rd * 0x100 + lsl * 8;
    assert w / 0x80 == 0x1C0_0000 + opcode * 0x4000 + s * 0x2000 + rn * 0x200 + rd * 0x20 + lsl;
    assert w / 0x1000 == 0xE_0000 + opcode * 0x200 + s * 0x100 + rn * 0x10 + rd;
    assert w / 0x1_0000 == 0xE000 + opcode * 0x20 + s * 0x10 + rn;
    assert w / 0x10_0000 == 0xE00 + opcode * 2 + s;
    assert w / 0x20_0000 == 0x700 + opcode;
    assert w / 0x200_0000 == 0x70;
  }

  /** An unconditional load or store word with an immediate offset and no write-back bit, by its fields. */
  lemma TransferWord(w: word, p: int, u: int, b: int, l: int, rn: int, rt: int, imm12: int)
    requires 0 <= p < 2 && 0 <= u < 2 && 0 <= b < 2 && 0 <= l < 2 && 0 <= rn < 16 && 0 <= rt < 16 && 0 <= imm12 < 0x1000
    requires w == 0xE400_0000 + p * 0x100_0000 + u * 0x80_0000 + b * 0x40_0000 + l * 0x10_0000
                  + rn * 0x1_0000 + rt * 0x1000 + imm12
    requires RegOf(rn).Some? && RegOf(rt).Some? && (if b == 1 then l == 1 else p == 1)
    ensures var disp := if u == 1 then imm12 else -imm12;
            var n, t := RegOf(rn).value, RegOf(rt).value;
            Decode(w) == Op32(AL, if b == 1 then Ldrb(t, n, disp, p == 0) else if l == 1 then Ldr(t, n, disp)
                                  else Str(t, n, disp))
  {
    hide RotatedImm, DecodeBranch, DecodeImmediate, DecodeBlock, DecodeShifted;
    TransferFields(w, p, u, b, l, rn, rt, imm12);
  }

  lemma TransferFields(w: int, p: int, u: int, b: int, l: int, rn: int, rt: int, imm12: int)
    requires 0 <= p < 2 && 0 <= u < 2 && 0 <= b < 2 && 0 <= l < 2 && 0 <= rn < 16 && 0 <= rt < 16 && 0 <= imm12 < 0x1000
    requires w == 0xE400_0000 + p * 0x100_0000 + u * 0x80_0000 + b * 0x40_0000 + l * 0x10_0000
                  + rn * 0x1_0000 + rt * 0x1000 + imm12
    ensures w / 0x200_0000 % 8 == 2 && w / 0x1000_0000 == 0xE
    ensures w % 0x1000 == imm12 && w / 0x1000 % 16 == rt && w / 0x1_0000 % 16 == rn && w / 0x10_0000 % 2 == l
    ensures w / 0x20_0000 % 2 == 0 && w / 0x40_0000 % 2 == b && w / 0x80_0000 % 2 == u && w / 0x100_0000 % 2 == p
  {
    assert w / 0x1000 == 0xE_4000 + p * 0x1000 + u * 0x800 + b * 0x400 + l * 0x100 + rn * 0x10 + rt;
    assert w / 0x1_0000 == 0xE400 + p * 0x100 + u * 0x80 + b * 0x40 + l * 0x10 + rn;
    assert w / 0x10_0000 == 0xE40 + p * 0x10 + u * 8 + b * 4 + l;
    assert w / 0x20_0000 == 0x720 + p * 8 + u * 4 + b * 2;
    assert w / 0x40_0000 == 0x390 + p * 4 + u * 2 + b;
    assert w / 0x80_0000 == 0x1C8 + p * 2 + u;
    assert w / 0x100_0000 == 0xE4 + p;
    assert w / 0x200_0000 == 0x72;
  }

  lemma CompareR0R3()
    ensures Decode(0xE350_0000) == Op32(AL, DpImm(CMP, R0, R0, 0))
    ensures Decode(0xE350_0002) == Op32(AL, DpImm(CMP, R0, R0, 2))
    ensures Decode(0xE353_0000) == Op32(AL, DpImm(CMP, R0, R3, 0))
  {
    hide Decode, RotateRight;
    ImmediateWord(0xE350_0000, 10, 1, 0, 0, 0, 0);
    ImmediateWord(0xE350_0002, 10, 1, 0, 0, 0, 2);
    ImmediateWord(0xE353_0000, 10, 1, 3, 0, 0, 0);
  }

  lemma CompareR1Range()
    ensures Decode(0xE351_0000) == Op32(AL, DpImm(CMP, R0, R1, 0))
    ensures Decode(0xE351_001F) == Op32(AL, DpImm(CMP, R0, R1, 31))
    ensures Decode(0xE351_0030) == Op32(AL, DpImm(CMP, R0, R1, 48))
    ensures Decode(0xE351_0039) == Op32(AL, DpImm(CMP, R0, R1, 57))
  {
    hide Decode, RotateRight;
    ImmediateWord(0xE351_0000, 10, 1, 1, 0, 0, 0);
    ImmediateWord(0xE351_001F, 10, 1, 1, 0, 0, 31);
    ImmediateWord(0xE351_0030, 10, 1, 1, 0, 0, 48);
    ImmediateWord(0xE351_0039, 10, 1, 1, 0, 0, 57);
  }

  lemma CompareR1Letter()
    ensures Decode(0xE351_0009) == Op32(AL, DpImm(CMP, R0, R1, 9))
    ensures Decode(0xE351_000C) == Op32(AL, DpImm(CMP, R0, R1, 12))
    ensures Decode(0xE351_0014) == Op32(AL, DpImm(CMP, R0, R1, 20))
    ensures Decode(0xE351_0020) == Op32(AL, DpImm(CMP, R0, R1, 32))
    ensures Decode(0xE351_003B) == Op32(AL, DpImm(CMP, R0, R1, 59))
  {
    hide Decode, RotateRight;
    ImmediateWord(0xE351_0009, 10, 1, 1, 0, 0, 9);
    ImmediateWord(0xE351_000C, 10, 1, 1, 0, 0, 12);
    ImmediateWord(0xE351_0014, 10, 1, 1, 0, 0, 20);
    ImmediateWord(0xE351_0020, 10, 1, 1, 0, 0, 32);
    ImmediateWord(0xE351_003B, 10, 1, 1, 0, 0, 59);
  }

  lemma CompareR2()
    ensures Decode(0xE352_0002) == Op32(AL, DpImm(CMP, R0, R2, 2))
    ensures Decode(0xE352_0030) == Op32(AL, DpImm(CMP, R0, R2, 48))
    ensures Decode(0xE352_0039) == Op32(AL, DpImm(CMP, R0, R2, 57))
    ensures Decode(0xE352_003B) == Op32(AL, DpImm(CMP, R0, R2, 59))
  {
    hide Decode, RotateRight;
    ImmediateWord(0xE352_0002, 10, 1, 2, 0, 0, 2);
    ImmediateWord(0xE352_0030, 10, 1, 2, 0, 0, 48);
    ImmediateWord(0xE352_0039, 10, 1, 2, 0, 0, 57);
    ImmediateWord(0xE352_003B, 10, 1, 2, 0, 0, 59);
  }

  lemma Rotated2048()
    ensures RotatedImm(2, 11) == 2048
  {
  }

  lemma StackAdjustments()
    ensures Decode(0xE24D_DB02) == Op32(AL, DpImm(SUB, SP, SP, 2048))
    ensures Decode(0xE28D_DB02) == Op32(AL, DpImm(ADD, SP, SP, 2048))
  {
    hide Decode, RotateRight;
    Rotated2048();
    ImmediateWord(0xE24D_DB02, 2, 0, 13, 13, 11, 2);
    ImmediateWord(0xE28D_DB02, 4, 0, 13, 13, 11, 2);
  }

  lemma SmallSteps()
    ensures Decode(0xE240_0001) == Op32(AL, DpImm(SUB, R0, R0, 1))
    ensures Decode(0xE241_1030) == Op32(AL, DpImm(SUB, R1, R1, 48))
    ensures Decode(0xE242_2030) == Op32(AL, DpImm(SUB, R2, R2, 48))
    ensures Decode(0xE24D_D0AC) == Op32(AL, DpImm(SUB, SP, SP, 172))
  {
    hide Decode, RotateRight;
    ImmediateWord(0xE240_0001, 2, 0, 0, 0, 0, 1);
    ImmediateWord(0xE241_1030, 2, 0, 1, 1, 0, 48);
    ImmediateWord(0xE242_2030, 2, 0, 2, 2, 0, 48);
    ImmediateWord(0xE24D_D0AC, 2, 0, 13, 13, 0, 172);
  }

  lemma Constants()
    ensures Decode(0xE280_0012) == Op32(AL, DpImm(ADD, R0, R0, 18))
    ensures Decode(0xE28D_1004) == Op32(AL, DpImm(ADD, R1, SP, 4))
    ensures Decode(0xE28D_B008) == Op32(AL, DpImm(ADD, FP, SP, 8))
    ensures Decode(0xE3A0_3000) == Op32(AL, DpImm(MOV, R3, R0, 0))
    ensures Decode(0xE3E0_006D) == Op32(AL, DpImm(MVN, R0, R0, 109))
  {
    hide Decode, RotateRight;
    ImmediateWord(0xE280_0012, 4, 0, 0, 0, 0, 18);
    ImmediateWord(0xE28D_1004, 4, 0, 13, 1, 0, 4);
    ImmediateWord(0xE28D_B008, 4, 0, 13, 11, 0, 8);
    ImmediateWord(0xE3A0_3000, 13, 0, 0, 3, 0, 0);
    ImmediateWord(0xE3E0_006D, 15, 0, 0, 0, 0, 109);
  }

  lemma SmallPowers()
    ensures Pow2(0) == 1 && Pow2(1) == 2 && Pow2(2) == 4
  {
  }

  lemma Shifted()
    ensures Pow2(0) == 1 && Pow2(1) == 2 && Pow2(2) == 4
    ensures Decode(0xE040_2001) == Op32(AL, DpReg(SUB, R2, R0, R1, 0))
    ensures Decode(0xE081_1101) == Op32(AL, DpReg(ADD, R1, R1, R1, 2))
    ensures Decode(0xE082_1081) == Op32(AL, DpReg(ADD, R1, R2, R1, 1))
    ensures Decode(0xE150_000D) == Op32(AL, DpReg(CMP, R0, R0, SP, 0))
    ensures Decode(0xE1A0_0000) == Op32(AL, DpReg(MOV, R0, R0, R0, 0))
    ensures Decode(0xE1A0_000D) == Op32(AL, DpReg(MOV, R0, R0, SP, 0))
    ensures Decode(0xE1A0_200D) == Op32(AL, DpReg(MOV, R2, R0, SP, 0))
  {
    hide Decode, RotateRight, Pow2;
    SmallPowers();
    RegisterWord(0xE040_2001, 2, 0, 0, 2, 0, 1);
    RegisterWord(0xE081_1101, 4, 0, 1, 1, 2, 1);
    RegisterWord(0xE082_1081, 4, 0, 2, 1, 1, 1);
    RegisterWord(0xE150_000D, 10, 1, 0, 0, 0, 13);
    RegisterWord(0xE1A0_0000, 13, 0, 0, 0, 0, 0);
    RegisterWord(0xE1A0_000D, 13, 0, 0, 0, 0, 13);
    RegisterWord(0xE1A0_200D, 13, 0, 0, 2, 0, 13);
  }

  lemma Literals()
    ensures Decode(0xE59F_01E8) == Op32(AL, Ldr(R0, PC, 488))
    ensures Decode(0xE59F_1040) == Op32(AL, Ldr(R1, PC, 64))
    ensures Decode(0xE59F_1174) == Op32(AL, Ldr(R1, PC, 372))
    ensures Decode(0xE59F_11D0) == Op32(AL, Ldr(R1, PC, 464))
    ensures Decode(0xE59F_11F4) == Op32(AL, Ldr(R1, PC, 500))
    ensures Decode(0xE59F_1214) == Op32(AL, Ldr(R1, PC, 532))
  {
    hide Decode, RotateRight, Pow2;
    TransferWord(0xE59F_01E8, 1, 1, 0, 1, 15, 0, 488);
    TransferWord(0xE59F_1040, 1, 1, 0, 1, 15, 1, 64);
    TransferWord(0xE59F_1174, 1, 1, 0, 1, 15, 1, 372);
    TransferWord(0xE59F_11D0, 1, 1, 0, 1, 15, 1, 464);
    TransferWord(0xE59F_11F4, 1, 1, 0, 1, 15, 1, 500);
    TransferWord(0xE59F_1214, 1, 1, 0, 1, 15, 1, 532);
  }

  lemma StackLoads()
    ensures Decode(0xE51B_1010) == Op32(AL, Ldr(R1, FP, -16))
    ensures Decode(0xE590_0000) == Op32(AL, Ldr(R0, R0, 0))
    ensures Decode(0xE59D_0000) == Op32(AL, Ldr(R0, SP, 0))
    ensures Decode(0xE59D_0004) == Op32(AL, Ldr(R0, SP, 4))
    ensures Decode(0xE59D_1004) == Op32(AL, Ldr(R1, SP, 4))
    ensures Decode(0xE59D_1008) == Op32(AL, Ldr(R1, SP, 8))
  {
    hide Decode, RotateRight, Pow2;
    TransferWord(0xE51B_1010, 1, 0, 0, 1, 11, 1, 16);
    TransferWord(0xE590_0000, 1, 1, 0, 1, 0, 0, 0);
    TransferWord(0xE59D_0000, 1, 1, 0, 1, 13, 0, 0);
    TransferWord(0xE59D_0004, 1, 1, 0, 1, 13, 0, 4);
    TransferWord(0xE59D_1004, 1, 1, 0, 1, 13, 1, 4);
    TransferWord(0xE59D_1008, 1, 1, 0, 1, 13, 1, 8);
  }

  lemma Stores()
    ensures Decode(0xE50B_0010) == Op32(AL, Str(R0, FP, -16))
    ensures Decode(0xE50B_3010) == Op32(AL, Str(R3, FP, -16))
    ensures Decode(0xE58D_1008) == Op32(AL, Str(R1, SP, 8))
    ensures Decode(0xE58D_3000) == Op32(AL, Str(R3, SP, 0))
    ensures Decode(0xE58D_3004) == Op32(AL, Str(R3, SP, 4))
  {
    hide Decode, RotateRight, Pow2;
    TransferWord(0xE50B_0010, 1, 0, 0, 0, 11, 0, 16);
    TransferWord(0xE50B_3010, 1, 0, 0, 0, 11, 3, 16);
    TransferWord(0xE58D_1008, 1, 1, 0, 0, 13, 1, 8);
    TransferWord(0xE58D_3000, 1, 1, 0, 0, 13, 3, 0);
    TransferWord(0xE58D_3004, 1, 1, 0, 0, 13, 3, 4);
  }

  lemma ByteLoads()
    ensures Decode(0xE4D0_1001) == Op32(AL, Ldrb(R1, R0, 1, true))
    ensures Decode(0xE4D0_2001) == Op32(AL, Ldrb(R2, R0, 1, true))
    ensures Decode(0xE550_1001) == Op32(AL, Ldrb(R1, R0, -1, false))
    ensures Decode(0xE550_1002) == Op32(AL, Ldrb(R1, R0, -2, false))
    ensures Decode(0xE5D0_2000) == Op32(AL, Ldrb(R2, R0, 0, false))
    ensures Decode(0xE5DD_001E) == Op32(AL, Ldrb(R0, SP, 30, false))
  {
    hide Decode, RotateRight, Pow2;
    TransferWord(0xE4D0_1001, 0, 1, 1, 1, 0, 1, 1);
    TransferWord(0xE4D0_2001, 0, 1, 1, 1, 0, 2, 1);
    TransferWord(0xE550_1001, 1, 0, 1, 1, 0, 1, 1);
    TransferWord(0xE550_1002, 1, 0, 1, 1, 0, 1, 2);
    TransferWord(0xE5D0_2000, 1, 1, 1, 1, 0, 2, 0);
    TransferWord(0xE5DD_001E, 1, 1, 1, 1, 13, 0, 30);
  }

  lemma BlockTransfers()
    ensures Decode(0xE8BD_4007) == Op32(AL, Pop(RegList(true, true, true, false, false, false, true)))
    ensures Decode(0xE92D_4007) == Op32(AL, Push(RegList(true, true, true, false, false, false, true)))
    ensures Decode(0xE92D_4810) == Op32(AL, Push(RegList(false, false, false, false, true, true, true)))
  {
    hide RotateRight, DecodeBranch, DecodeImmediate, DecodeTransfer, DecodeShifted;
  }

  lemma Return()
    ensures Decode(0xE12F_FF1E) == Op32(AL, Bx(LR))
  {
    hide RotateRight, DecodeBranch, DecodeImmediate, DecodeTransfer, DecodeShifted;
  }
}
