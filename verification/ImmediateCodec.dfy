/**
 MOV and MOVW immediates as the patchers encode and decode them (DDI 0406C sections A5.2.4 and A8.8.102).
 */
module ImmediateCodec {
  import opened Words
  import opened Arm

  // -------------------------------------------------------------------- MOVW

  function MovwWord(register: nat, immediate: nat): word
    requires register < 16 && immediate < 0x1_0000
  {
    0xE300_0000 + immediate / 0x1000 * 0x1_0000 + register * 0x1000 + immediate % 0x1000
  }

  /** None is the ValueError for operands out of range. */
  function EncodeMovw(register: int, immediate: int): Option<word> {
    if 0 <= register < 16 && 0 <= immediate < 0x1_0000 then Some(MovwWord(register, immediate)) else None
  }

  function DecodeMovw(w: word): Option<(int, int)> {
    if w / 0x1000_0000 != 0xE || w / 0x100_0000 % 16 != 0x3 || w / 0x10_0000 % 16 != 0 then None
    else Some((w / 0x1000 % 16, w / 0x1_0000 % 16 * 0x1000 + w % 0x1000))
  }

  lemma MovwFields(high: int, register: int, low: int, w: int)
    requires 0 <= high < 16 && 0 <= register < 16 && 0 <= low < 0x1000
    requires w == 0xE300_0000 + high * 0x1_0000 + register * 0x1000 + low
    ensures w / 0x1000_0000 == 0xE && w / 0x100_0000 % 16 == 3 && w / 0x10_0000 % 16 == 0
    ensures w / 0x1_0000 % 16 == high && w / 0x1000 % 16 == register && w % 0x1000 == low
  {
    assert w / 0x1000 == 0xE_3000 + high * 16 + register;
    assert w / 0x1_0000 == 0xE300 + high;
    assert w / 0x10_0000 == 0xE30;
    assert w / 0x100_0000 == 0xE3;
  }

  /** Decoding gives back the operands of every word the encoder makes. */
  lemma DecodeEncodedMovw(register: int, immediate: int)
    requires EncodeMovw(register, immediate).Some?
    ensures DecodeMovw(EncodeMovw(register, immediate).value) == Some((register, immediate))
  {
    MovwFields(immediate / 0x1000, register, immediate % 0x1000, MovwWord(register, immediate));
  }

  /** And every word that decodes is the encoding of what it decodes to: no two words share a meaning. */
  lemma EncodeDecodedMovw(w: word)
    requires DecodeMovw(w).Some?
    ensures EncodeMovw(DecodeMovw(w).value.0, DecodeMovw(w).value.1) == Some(w)
  {
    var register, low := w / 0x1000 % 16, w % 0x1000;
    var high := w / 0x1_0000 % 16;
    assert w == w / 0x1000 * 0x1000 + low;
    assert w / 0x1000 / 16 == w / 0x1_0000 && w / 0x1_0000 / 16 == w / 0x10_0000;
    assert w / 0x10_0000 / 16 == w / 0x100_0000 && w / 0x100_0000 / 16 == w / 0x1000_0000;
    assert (high * 0x1000 + low) / 0x1000 == high && (high * 0x1000 + low) % 0x1000 == low;
  }

  // ----------------------------------------------------------- MOV immediate

  /** ROL of a 32-bit word. */
  function RotateLeft(x: word, n: nat): word
    requires n <= 32
  {
    RotateRight(x, 32 - n)
  }

  /** The candidate operand byte for rotation count `rot`. */
  function Unrotated(imm: word, rot: nat): word
    requires rot < 16
  {
    if rot == 0 then imm else RotateLeft(imm, 2 * rot)
  }

  /** The search from rotation `rot` on: the first whose operand fits a byte. */
  function Search(imm: word, rot: nat): (r: Option<nat>)
    requires rot <= 16
    ensures r.Some? ==> rot <= r.value < 16 && Unrotated(imm, r.value) <= 0xFF
    ensures forall k :: rot <= k < (if r.Some? then r.value else 16) ==> Unrotated(imm, k) > 0xFF
    decreases 16 - rot
  {
    if rot == 16 then None else if Unrotated(imm, rot) <= 0xFF then Some(rot) else Search(imm, rot + 1)
  }

  function MovWord(rd: nat, rot: nat, imm8: byte): word
    requires rd < 16 && rot < 16
  {
    0xE3A0_0000 + rd * 0x1000 + rot * 0x100 + imm8
  }

  function EncMovImm(rd: nat, imm: word): Option<word>
    requires rd < 16
  {
    match Search(imm, 0)
    case None => None
    case Some(rot) => Some(MovWord(rd, rot, Unrotated(imm, rot)))
  }

  /** `decode_mov_immediate`; it looks at the condition, the class bits and S, not at the opcode. */
  function DecodeMovImmediate(w: word): Option<(int, word)> {
    if w / 0x1000_0000 != 0xE || w / 0x200_0000 % 8 != 1 || w / 0x10_0000 % 2 != 0 then None
    else Some((w / 0x1000 % 16, RotatedImm(w % 256, w / 0x100 % 16)))
  }

  lemma SwapHalves(x: int, p: int, q: int)
    requires p >= 1 && q >= 1 && 0 <= x < p * q
    ensures 0 <= x / q < p && 0 <= x % q < q
    ensures (x / q + x % q * p) / p == x % q && (x / q + x % q * p) % p == x / q
  {
    assert x == q * (x / q) + x % q;
    if x / q >= p {
      MulMonotone(q, x / q, p);
      assert false;
    }
    var y := x / q + x % q * p;
    assert y == p * (x % q) + x / q;
    QuotientUnique(y, p, x % q, x / q);
  }

  lemma QuotientUnique(y: int, p: int, a: int, b: int)
    requires p >= 1 && y == p * a + b && 0 <= b < p
    ensures y / p == a && y % p == b
  {
    assert y == p * (y / p) + y % p;
    if y / p < a {
      MulMonotone(p, a, y / p + 1);
      assert false;
    } else if y / p > a {
      MulMonotone(p, y / p, a + 1);
      assert false;
    }
  }

  /** Rotating one way and then the other is the identity. */
  lemma RotateBack(x: word, n: nat)
    requires 0 < n < 32
    ensures RotateRight(RotateLeft(x, n), n) == x
  {
    hide Pow2;
    Pow2Split(n);
    var p, q := Pow2(n), Pow2(32 - n);
    SwapHalves(x, p, q);
    assert RotateLeft(x, n) == x / q + x % q * p;
    assert x == q * (x / q) + x % q;
  }

  lemma RotateForth(x: word, n: nat)
    requires 0 < n < 32
    ensures RotateLeft(RotateRight(x, n), n) == x
  {
    RotateBack(x, 32 - n);
  }

  /** A rotation count and operand byte stand for `imm` exactly when un-rotating `imm` gives the byte. */
  lemma UnrotatedIff(imm: word, rot: nat, imm8: byte)
    requires rot < 16
    ensures RotatedImm(imm8, rot) == imm <==> Unrotated(imm, rot) == imm8
  {
    hide RotateRight;
    if rot > 0 {
      RotateBack(imm, 2 * rot);
      RotateForth(imm8, 2 * rot);
    }
  }

  lemma MovFields(rd: int, rot: int, imm8: int, w: int)
    requires 0 <= rd < 16 && 0 <= rot < 16 && 0 <= imm8 < 256
    requires w == 0xE3A0_0000 + rd * 0x1000 + rot * 0x100 + imm8
    ensures w / 0x1000_0000 == 0xE && w / 0x200_0000 % 8 == 1 && w / 0x10_0000 % 2 == 0
    ensures w / 0x1000 % 16 == rd && w / 0x100 % 16 == rot && w % 256 == imm8
  {
    assert w / 0x100 == 0xE3_A000 + rd * 16 + rot;
    assert w / 0x1000 == 0xE_3A00 + rd;
    assert w / 0x10_0000 == 0xE3A;
    assert w / 0x200_0000 == 0x71;
  }

  /** The decoder undoes the encoder, and the encoder gives up only when no rotation of a byte is the immediate. */
  lemma MovImmediateRoundTrip(rd: nat, imm: word)
    requires rd < 16
    ensures EncMovImm(rd, imm).Some? ==> DecodeMovImmediate(EncMovImm(rd, imm).value) == Some((rd, imm))
    ensures EncMovImm(rd, imm).None? <==> forall rot: nat, imm8: byte :: rot < 16 ==> RotatedImm(imm8, rot) != imm
  {
    hide RotatedImm, Unrotated;
    forall rot: nat, imm8: byte | rot < 16
      ensures RotatedImm(imm8, rot) == imm <==> Unrotated(imm, rot) == imm8
    {
      UnrotatedIff(imm, rot, imm8);
    }
    if Search(imm, 0).Some? {
      var rot := Search(imm, 0).value;
      var imm8: byte := Unrotated(imm, rot);
      MovFields(rd, rot, imm8, MovWord(rd, rot, imm8));
      assert RotatedImm(imm8, rot) == imm;
    }
  }

  /** Contrary to its description the decoder takes other opcodes too: an ADD reads as a MOV. */
  lemma DecoderTakesAdd()
    ensures DecodeMovImmediate(0xE283_3001) == Some((3, 1))
    ensures Decode(0xE283_3001) == Op32(AL, DpImm(ADD, R3, R3, 1))
  {
    hide RotateRight, DecodeTransfer, DecodeBlock, DecodeShifted, DecodeBranch;
    var w: word := 0xE283_3001;
    assert w / 0x1000_0000 == 14 && w / 0x200_0000 % 8 == 1;
    assert DecodeImmediate(w) == Some(DpImm(ADD, R3, R3, 1));
  }

  lemma MovwAsMovFields(high: int, rd: int, rot: int, imm8: int, w: int)
    requires 0 <= high < 16 && 0 <= rd < 16 && 0 <= rot < 16 && 0 <= imm8 < 256
    requires w == 0xE300_0000 + high * 0x1_0000 + rd * 0x1000 + rot * 0x100 + imm8
    ensures w / 0x1000_0000 == 0xE && w / 0x200_0000 % 8 == 1 && w / 0x10_0000 % 2 == 0
    ensures w / 0x1000 % 16 == rd && w / 0x100 % 16 == rot && w % 256 == imm8
  {
    assert w / 0x100 == 0xE3_0000 + high * 0x100 + rd * 16 + rot;
    assert w / 0x1000 == 0xE_3000 + high * 16 + rd;
    assert w / 0x10_0000 == 0xE30;
    assert w / 0x200_0000 == 0x71;
  }

  /** And every MOVW reads as a MOV: of the right register, with two of its immediate's four digits as a rotation. */
  lemma MovwTakenForMov(rd: nat, high: nat, rot: nat, imm8: byte)
    requires rd < 16 && high < 16 && rot < 16
    ensures
      var w := EncodeMovw(rd, high * 0x1000 + rot * 0x100 + imm8);
      w.Some? && DecodeMovImmediate(w.value) == Some((rd, RotatedImm(imm8, rot)))
  {
    hide RotatedImm;
    var immediate := high * 0x1000 + rot * 0x100 + imm8;
    assert immediate / 0x1000 == high && immediate % 0x1000 == rot * 0x100 + imm8;
    MovwAsMovFields(high, rd, rot, imm8, MovwWord(rd, immediate));
  }

  /** The very word the poll patcher writes, `movw r3, #10000`, reads as `mov r3, #0x40_0000`. */
  lemma DecoderTakesRaised()
    ensures EncodeMovw(3, 10000) == Some(0xE302_3710)
    ensures DecodeMovImmediate(0xE302_3710) == Some((3, 0x40_0000))
  {
    hide RotatedImm;
    MovwTakenForMov(3, 2, 7, 0x10);
    SevenTwice();
  }

  lemma SevenTwice()
    ensures RotatedImm(0x10, 7) == 0x40_0000
  {
    assert Pow2(14) == 0x4000 && Pow2(18) == 0x4_0000;
  }

  /** MOV (immediate), encoding A1, unconditional and leaving the flags alone (DDI 0406C section A8.8.102). */
  ghost predicate IsMovImmediate(w: word) {
    exists rd: nat, rot: nat, imm8: byte :: rd < 16 && rot < 16 && w == MovWord(rd, rot, imm8)
  }

  /**
   For every word there is: it is a MOV (immediate) exactly when the decoder takes it, its opcode field is
   1101 and the bits between opcode and register are zero; and the operands of every MOV are read right.
   */
  lemma DecodedIsMovIff(w: word)
    ensures IsMovImmediate(w)
            <==> DecodeMovImmediate(w).Some? && w / 0x20_0000 % 16 == 13 && w / 0x1_0000 % 16 == 0
    ensures forall rd: nat, rot: nat, imm8: byte :: rd < 16 && rot < 16 && w == MovWord(rd, rot, imm8)
              ==> DecodeMovImmediate(w) == Some((rd, RotatedImm(imm8, rot)))
  {
    hide RotatedImm, MovWord;
    forall rd: nat, rot: nat, imm8: byte | rd < 16 && rot < 16 && w == MovWord(rd, rot, imm8)
      ensures DecodeMovImmediate(w) == Some((rd, RotatedImm(imm8, rot)))
      ensures w / 0x20_0000 % 16 == 13 && w / 0x1_0000 % 16 == 0
    {
      MovWordFields(rd, rot, imm8);
    }
    if DecodeMovImmediate(w).Some? && w / 0x20_0000 % 16 == 13 && w / 0x1_0000 % 16 == 0 {
      FieldsMov(w);
    }
  }

  lemma MovWordFields(rd: nat, rot: nat, imm8: byte)
    requires rd < 16 && rot < 16
    ensures
      var w := MovWord(rd, rot, imm8);
      && w / 0x1000_0000 == 0xE && w / 0x200_0000 % 8 == 1 && w / 0x10_0000 % 2 == 0
      && w / 0x1000 % 16 == rd && w / 0x100 % 16 == rot && w % 256 == imm8
      && w / 0x20_0000 % 16 == 13 && w / 0x1_0000 % 16 == 0
  {
    var w := MovWord(rd, rot, imm8);
    MovFields(rd, rot, imm8, w);
    assert w / 0x1_0000 == 0xE3A0;
    assert w / 0x20_0000 == 0x71D;
  }

  lemma FieldsMov(w: word)
    requires w / 0x1000_0000 == 0xE && w / 0x200_0000 % 8 == 1 && w / 0x10_0000 % 2 == 0
    requires w / 0x20_0000 % 16 == 13 && w / 0x1_0000 % 16 == 0
    ensures w == MovWord(w / 0x1000 % 16, w / 0x100 % 16, w % 256)
  {
    assert w / 0x100 / 16 == w / 0x1000 && w / 0x1000 / 16 == w / 0x1_0000 && w / 0x1_0000 / 16 == w / 0x10_0000;
    assert w / 0x10_0000 / 2 == w / 0x20_0000 && w / 0x20_0000 / 16 == w / 0x200_0000;
    assert w / 0x200_0000 / 8 == w / 0x1000_0000;
  }

  /** Where the modelled processor also decodes the word, condition, register and immediate agree. */
  lemma ProcessorAgrees(w: word)
    requires DecodeMovImmediate(w).Some? && Decode(w).Op32?
    ensures Decode(w).cond == AL && Decode(w).instr.DpImm?
    ensures Decode(w).instr.imm == DecodeMovImmediate(w).value.1
    ensures Some(Decode(w).instr.rd) == RegOf(DecodeMovImmediate(w).value.0)
    ensures Decode(w).instr.op == MOV <==> w / 0x20_0000 % 16 == 13
  {
    hide RotatedImm;
  }

  /** The encoder's search loop. */
  method EncodeMovImmediate(rd: nat, imm: word) returns (r: Option<word>)
    requires rd < 16
    ensures r == EncMovImm(rd, imm)
  {
    hide RotateRight;
    for rot := 0 to 16
      invariant Search(imm, rot) == Search(imm, 0)
    {
      var x := if rot == 0 then imm else RotateLeft(imm, 2 * rot);
      if x <= 0xFF {
        return Some(0xE3A0_0000 + rot * 0x100 + rd * 0x1000 + x);
      }
    }
    r := None;
  }
}
