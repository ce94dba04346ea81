/** `encode_branch` and its decoder `branch_target` (DDI 0406C section A8.8.18, encoding A1). */
module BranchCodec {
  import opened Words
  import opened Arm

  predicate Encodable(source: int, target: int) {
    var displacement := target - (source + 8);
    displacement % 4 == 0 && -0x200_0000 <= displacement < 0x200_0000
  }

  function BranchWord(source: int, target: int, cond: nat, link: bool): word
    requires cond < 16
  {
    var immediate := (target - (source + 8)) / 4 % 0x100_0000;
    cond * 0x1000_0000 + 0x0A00_0000 + (if link then 0x0100_0000 else 0) + immediate
  }

  /** None is the ValueError for a misaligned or distant target. */
  function EncodeBranch(source: int, target: int, cond: nat, link: bool): Option<word>
    requires cond < 16
  {
    if Encodable(source, target) then Some(BranchWord(source, target, cond, link)) else None
  }

  function BranchTarget(va: word, instruction: word): Option<word> {
    if instruction / 0x200_0000 % 8 != 5 then None
    else
      var low := instruction % 0x100_0000;
      var immediate := if low >= 0x80_0000 then low - 0x100_0000 else low;
      Some(Wrap(va + 8 + 4 * immediate))
  }

  /** The fields of a word built from condition, link bit and 24-bit immediate. */
  lemma FieldsOf(cond: int, link: int, imm: int, w: int)
    requires 0 <= cond < 16 && 0 <= link < 2 && 0 <= imm < 0x100_0000
    requires w == cond * 0x1000_0000 + 0x0A00_0000 + link * 0x100_0000 + imm
    ensures w / 0x1000_0000 == cond && w % 0x100_0000 == imm
    ensures w / 0x200_0000 % 8 == 5 && w / 0x100_0000 % 2 == link
  {
    assert w / 0x100_0000 == 16 * cond + 10 + link;
    assert w / 0x200_0000 == 8 * cond + 5;
  }

  lemma BranchFields(source: int, target: int, cond: nat, link: bool)
    requires cond < 16 && Encodable(source, target)
    ensures
      var w := BranchWord(source, target, cond, link);
      var d := (target - (source + 8)) / 4;
      && w / 0x1000_0000 == cond
      && w / 0x200_0000 % 8 == 5
      && w / 0x100_0000 % 2 == (if link then 1 else 0)
      && w % 0x100_0000 == (if d < 0 then d + 0x100_0000 else d)
      && -0x80_0000 <= d < 0x80_0000
      && 4 * d == target - (source + 8)
  {
    var d := (target - (source + 8)) / 4;
    assert 4 * d == target - (source + 8);
    assert d % 0x100_0000 == (if d < 0 then d + 0x100_0000 else d);
    FieldsOf(cond, if link then 1 else 0, d % 0x100_0000, BranchWord(source, target, cond, link));
  }

  /** `branch_target` undoes `encode_branch` whatever the condition and link bit. */
  lemma TargetOfEncoded(source: word, target: word, cond: nat, link: bool)
    requires cond < 16 && EncodeBranch(source, target, cond, link).Some?
    ensures BranchTarget(source, EncodeBranch(source, target, cond, link).value) == Some(target)
  {
    BranchFields(source, target, cond, link);
  }

  lemma WordOfFields(w: word)
    ensures w == w / 0x1000_0000 * 0x1000_0000 + w / 0x200_0000 % 8 * 0x200_0000
                 + w / 0x100_0000 % 2 * 0x100_0000 + w % 0x100_0000
  {
    assert w / 0x100_0000 / 2 == w / 0x200_0000;
    assert w / 0x200_0000 / 8 == w / 0x1000_0000;
  }

  function SignedImmediate(w: word): int {
    var low := w % 0x100_0000;
    if low >= 0x80_0000 then low - 0x100_0000 else low
  }

  /** What an address just outside the address space wraps to. */
  lemma WrapsTo(x: int)
    requires -0x1_0000_0000 <= x < 0x2_0000_0000
    ensures Wrap(x) == if x < 0 then x + 0x1_0000_0000 else if x < 0x1_0000_0000 then x else x - 0x1_0000_0000
  {
  }

  lemma FourTimes(x: int)
    ensures 4 * x % 4 == 0 && 4 * x / 4 == x
  {
  }

  /**
   Conversely, a B/BL word is the encoding of the branch it decodes to, unless the target wraps
   round the address space: then the encoder refuses.
   */
  lemma EncodedOfTarget(va: word, w: word)
    requires BranchTarget(va, w).Some?
    ensures EncodeBranch(va, BranchTarget(va, w).value, w / 0x1000_0000, w / 0x100_0000 % 2 == 1)
            == if 0 <= va + 8 + 4 * SignedImmediate(w) < 0x1_0000_0000 then Some(w) else None
  {
    var immediate := SignedImmediate(w);
    WordOfFields(w);
    WrapsTo(va + 8 + 4 * immediate);
    FourTimes(immediate);
    assert immediate % 0x100_0000 == w % 0x100_0000;
    hide Wrap, SignedImmediate;
    assert BranchTarget(va, w) == Some(Wrap(va + 8 + 4 * immediate));
  }

  /** Such a word: at address 0 a branch back by four bytes decodes to the top of the address space, and is refused. */
  lemma WrappedBranch()
    ensures BranchTarget(0, 0xEAFF_FFFD) == Some(0xFFFF_FFFC)
    ensures EncodeBranch(0, 0xFFFF_FFFC, 14, false) == None
  {
    assert 0xEAFF_FFFD / 0x200_0000 % 8 == 5;
  }

  /** The processor and `branch_target` agree on what a branch word means. */
  lemma DecodeEncoded(source: int, target: int, cond: nat, link: bool)
    requires cond < 16 && CondOf(cond).Some? && Encodable(source, target)
    ensures Decode(BranchWord(source, target, cond, link))
            == Op32(CondOf(cond).value, Branch(link, target - (source + 8)))
  {
    BranchFields(source, target, cond, link);
  }
}
