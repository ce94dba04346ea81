/**
 Installing the trampoline: `build_trampoline`'s byte image, `patch_bulb_cancel`,
 `patch_bulb_cancel_result` and `patch_data` on a file image.
 */
module BulbPatch {
  import opened Words
  import opened BranchCodec
  import opened Buffers
  import opened BulbTable
  import opened BulbMachine

  datatype Error = BranchRange | NotStockPrologue | NonFileBackedTail | CaveNotZero | SectionOverlap
                 | NotBulbPrologue | BadAlignment | NoGap | NotCancelEdge | NotStockStore

  datatype Result<+T> = Ok(value: T) | Err(error: Error)

  // File offsets of the patched functions.
  datatype Offsets = Offsets(burst: nat, bulb: nat, bulbFunction: nat)

  datatype Segment = Segment(vaddr: nat, offset: nat, filesz: nat, memsz: nat, align: nat, phdr: nat,
                             nextVaddr: nat, nextOffset: nat, sections: seq<(nat, nat)>)

  type Patched = (seq<byte>, bool)

  // ------------------------------------------------------------------- blob

  /** Byte `i` of the string `s` and its NUL, laid out at `at`. */
  predicate InText(at: int, s: seq<byte>, i: int) {
    at <= i <= at + |s|
  }

  function TextByteAt(at: int, s: seq<byte>, i: int): byte
    requires InText(at, s, i)
  {
    if i < at + |s| then s[i - at] else 0
  }

  function BlobByte(a: Addrs, i: nat): byte {
    if InText(PENTAX_TEXT, PENTAX, i) then TextByteAt(PENTAX_TEXT, PENTAX, i)
    else if InText(MODEL_TEXT, MODEL, i) then TextByteAt(MODEL_TEXT, MODEL, i)
    else if InText(CONDITIONS_KEY_TEXT, CONDITIONS_KEY, i) then TextByteAt(CONDITIONS_KEY_TEXT, CONDITIONS_KEY, i)
    else if InText(MODE_KEY_TEXT, MODE_KEY, i) then TextByteAt(MODE_KEY_TEXT, MODE_KEY, i)
    else CodeByte(a, i)
  }

  /** Byte `i` of the table words; zero where the table has none. */
  function CodeByte(a: Addrs, i: nat): byte {
    ByteOf(WordOf(a, i - i % 4, Table(a, i - i % 4)), i % 4)
  }

  lemma CodeBytes(a: Addrs, off: nat)
    requires off % 4 == 0
    ensures
      var w := WordOf(a, off, Table(a, off));
      && CodeByte(a, off) == ByteOf(w, 0) && CodeByte(a, off + 1) == ByteOf(w, 1)
      && CodeByte(a, off + 2) == ByteOf(w, 2) && CodeByte(a, off + 3) == ByteOf(w, 3)
  {
    hide Table;
    assert (off + 1) % 4 == 1 && (off + 2) % 4 == 2 && (off + 3) % 4 == 3;
  }

  /** The trampoline's bytes: table words, match strings, zero elsewhere. */
  function Blob(a: Addrs): (b: seq<byte>)
    ensures |b| == TRAMPOLINE_SIZE
  {
    seq(TRAMPOLINE_SIZE, i requires 0 <= i < TRAMPOLINE_SIZE => BlobByte(a, i))
  }

  method PutText(buf: array<byte>, at: nat, s: seq<byte>)
    requires at + |s| < buf.Length
    modifies buf
    ensures forall i :: 0 <= i < buf.Length ==>
              buf[i] == if InText(at, s, i) then TextByteAt(at, s, i) else old(buf[i])
  {
    for i := 0 to |s|
      invariant forall k :: 0 <= k < buf.Length ==>
                  buf[k] == if at <= k < at + i then s[k - at] else old(buf[k])
    {
      buf[at + i] := s[i];
    }
    buf[at + |s|] := 0;
  }

  lemma LowOffsets(a: Addrs, off: int)
    requires off < 0x110 && !Table(a, off).Blank?
    ensures off % 4 == 0
  {
    hide ExitWords, SlotWords, DigitWords, ModeWords, KeepCancelWords, LiteralWords, KeepPublishWords;
  }

  lemma HighOffsets(a: Addrs, off: int)
    requires 0x110 <= off && !Table(a, off).Blank?
    ensures off % 4 == 0
  {
    hide GateWords, NameWords, ConfigWords, TextWords;
  }

  lemma OffsetsAreAligned(a: Addrs, off: int)
    requires !Table(a, off).Blank?
    ensures off % 4 == 0
  {
    hide Table;
    if off < 0x110 {
      LowOffsets(a, off);
    } else {
      HighOffsets(a, off);
    }
  }

  /** Table words never reach into the match strings. */
  lemma TextsAreBlank(a: Addrs, off: int)
    requires !Table(a, off).Blank?
    ensures 0 <= off < PENTAX_TEXT || 0x2B8 <= off < TRAMPOLINE_SIZE
  {
  }

  /** The word loop: every branch must be encodable. */
  method PackTable(a: Addrs, blob: array<byte>) returns (ok: bool)
    requires blob.Length == TRAMPOLINE_SIZE && forall i :: 0 <= i < TRAMPOLINE_SIZE ==> blob[i] == 0
    modifies blob
    ensures ok == BranchesEncodable(a)
    ensures ok ==> forall i :: 0 <= i < TRAMPOLINE_SIZE ==> blob[i] == CodeByte(a, i)
  {
    hide Table, Encodable, CodeByte;
    var off := 0;
    while off < TRAMPOLINE_SIZE
      invariant 0 <= off <= TRAMPOLINE_SIZE && off % 4 == 0
      invariant forall k :: 0 <= k < off && Table(a, k).Br? ==> Encodable(a.cave + k, Table(a, k).target)
      invariant forall i :: 0 <= i < off ==> blob[i] == CodeByte(a, i)
      invariant forall i :: off <= i < TRAMPOLINE_SIZE ==> blob[i] == 0
    {
      var e := Table(a, off);
      if e.Br? && !Encodable(a.cave + off, e.target) {
        return false;
      }
      forall k | off < k < off + 4
        ensures Table(a, k).Blank?
      {
        if !Table(a, k).Blank? {
          OffsetsAreAligned(a, k);
        }
      }
      CodeBytes(a, off);
      if !e.Blank? {
        var w := WordOf(a, off, e);
        ghost var was := blob[..];
        PackInto(blob, off, w);
        assert forall i :: 0 <= i < TRAMPOLINE_SIZE && !(off <= i < off + 4) ==> blob[..][i] == was[i];
        assert blob[..][off] == ByteOf(w, 0) && blob[..][off + 1] == ByteOf(w, 1)
               && blob[..][off + 2] == ByteOf(w, 2) && blob[..][off + 3] == ByteOf(w, 3);
      }
      assert CodeByte(a, off + 0) == blob[off + 0] && CodeByte(a, off + 1) == blob[off + 1]
             && CodeByte(a, off + 2) == blob[off + 2] && CodeByte(a, off + 3) == blob[off + 3];
      off := off + 4;
    }
    ok := true;
  }

  method BuildTrampoline(a: Addrs) returns (r: Result<seq<byte>>)
    ensures r == if BranchesEncodable(a) then Ok(Blob(a)) else Err(BranchRange)
  {
    hide CodeByte, BranchesEncodable;
    var blob := new byte[TRAMPOLINE_SIZE](_ => 0);
    var ok := PackTable(a, blob);
    if !ok {
      return Err(BranchRange);
    }
    PutText(blob, PENTAX_TEXT, PENTAX);
    PutText(blob, MODEL_TEXT, MODEL);
    PutText(blob, CONDITIONS_KEY_TEXT, CONDITIONS_KEY);
    PutText(blob, MODE_KEY_TEXT, MODE_KEY);
    assert blob[..] == Blob(a);
    r := Ok(blob[..]);
  }

  // ---------------------------------------------------------- small patchers

  /** What `patch_bulb_cancel` returns: the cancel edge is retargeted to the stop path. */
  function PatchCancel(data: seq<byte>, off: Offsets, a: Addrs): Result<Patched>
    requires off.bulb + 0x334 <= |data|
    ensures PatchCancel(data, off, a).Ok? ==> |PatchCancel(data, off, a).value.0| == |data|
  {
    var site := off.bulb + 0x330;
    var patch := BranchWord(a.bulb + 0x330, a.bulb + 0x3A4, 0, false);
    var current := Load(data, site);
    if current == patch then Ok((data, false))
    else if current != BranchWord(a.bulb + 0x330, a.bulb + 0x748, 0, false) then Err(NotCancelEdge)
    else Ok((Store(data, site, patch), true))
  }

  /** One redirected store: already done, refused, or written to `patched`. */
  function Redirect(data: seq<byte>, patched: Patched, site: nat, stock: word, redirect: word, contextOk: bool)
      : Result<Patched>
    requires site + 4 <= |data| == |patched.0|
    ensures Redirect(data, patched, site, stock, redirect, contextOk).Ok? ==>
              |Redirect(data, patched, site, stock, redirect, contextOk).value.0| == |data|
  {
    var current := Load(data, site);
    if current != redirect && current != stock then Err(NotStockStore)
    else if !contextOk then Err(NotStockStore)
    else if current == redirect then Ok(patched)
    else Ok((Store(patched.0, site, redirect), true))
  }

  /** What `patch_bulb_cancel_result` returns: both outcome stores lead to their keep stubs. */
  function PatchCancelResult(data: seq<byte>, off: Offsets, a: Addrs, cave: int): Result<Patched>
    requires off.bulb + 0x6E4 <= |data|
    ensures PatchCancelResult(data, off, a, cave).Ok? ==> |PatchCancelResult(data, off, a, cave).value.0| == |data|
  {
    var b := off.bulb;
    if !Encodable(a.bulb + 0x438, cave + 0x228) then Err(BranchRange)
    else
      match Redirect(data, (data, false), b + 0x438, 0xE50B_3010, BranchWord(a.bulb + 0x438, cave + 0x228, 14, false),
                     Load(data, b + 0x43C) == 0xE51B_3058 && Load(data, b + 0x440) == 0xE353_0000)
      case Err(e) => Err(e)
      case Ok(p1) =>
        if !Encodable(a.bulb + 0x6DC, cave + 0x2B8) then Err(BranchRange)
        else Redirect(data, p1, b + 0x6DC, 0xE50B_0010, BranchWord(a.bulb + 0x6DC, cave + 0x2B8, 14, false),
                      Load(data, b + 0x6E0) == 0xE24B_3064)
  }

  // -------------------------------------------------------------- patch_data

  /** Every symbol and segment field was resolved inside the file and the 32-bit address space. */
  predicate Resolved(data: seq<byte>, off: Offsets, a: Addrs, s: Segment) {
    && off.burst + 12 <= |data| && off.bulb + 0x800 <= |data| && off.bulbFunction + 16 <= |data|
    && s.phdr + 24 <= |data| && s.nextOffset <= |data|
    && s.vaddr + s.filesz + TRAMPOLINE_SIZE < TWO32 && s.memsz + TRAMPOLINE_SIZE < TWO32
  }

  predicate PowerOfTwo(n: nat) {
    n == 1 || (n > 1 && n % 2 == 0 && PowerOfTwo(n / 2))
  }

  predicate KeepEncodable(a: Addrs, cave: int) {
    Encodable(a.bulb + 0x438, cave + 0x228) && Encodable(a.bulb + 0x6DC, cave + 0x2B8)
  }

  /** The image already carries the dispatcher that ends at the segment's end. */
  predicate Installed(data: seq<byte>, off: Offsets, a: Addrs, s: Segment, cave: word)
    requires Resolved(data, off, a, s) && s.filesz >= TRAMPOLINE_SIZE
  {
    var caveOff := s.offset + s.filesz - TRAMPOLINE_SIZE;
    && Load(data, off.burst) == BranchWord(a.burst, cave, 14, false)
    && caveOff + TRAMPOLINE_SIZE <= |data|
    && data[caveOff..caveOff + TRAMPOLINE_SIZE] == Blob(a.(cave := cave))
    && Load(data, off.bulb + 0x330) == BranchWord(a.bulb + 0x330, a.bulb + 0x3A4, 0, false)
    && Load(data, off.bulb + 0x438) == BranchWord(a.bulb + 0x438, cave + 0x228, 14, false)
    && Load(data, off.bulb + 0x6DC) == BranchWord(a.bulb + 0x6DC, cave + 0x2B8, 14, false)
  }

  predicate StockPrologue(data: seq<byte>, at: nat)
    requires at + 12 <= |data|
  {
    Load(data, at) == 0xE92D_4810 && Load(data, at + 4) == 0xE28D_B008 && Load(data, at + 8) == 0xE24D_D0AC
  }

  predicate BulbPrologue(data: seq<byte>, at: nat)
    requires at + 16 <= |data|
  {
    && Load(data, at) == 0xE92D_4810 && Load(data, at + 4) == 0xE28D_B008
    && Load(data, at + 8) == 0xE24D_DD2F && Load(data, at + 12) == 0xE24D_D004
  }

  /** The slice `data[lo..lo + TRAMPOLINE_SIZE]`, cut at the end of the file as Python does. */
  function CaveSlice(data: seq<byte>, lo: nat): seq<byte> {
    if lo >= |data| then [] else data[lo..if lo + TRAMPOLINE_SIZE <= |data| then lo + TRAMPOLINE_SIZE else |data|]
  }

  function Max(x: nat, y: nat): nat {
    if x > y then x else y
  }

  predicate Overlapped(sections: seq<(nat, nat)>, caveOff: nat) {
    exists i :: 0 <= i < |sections| && sections[i].0 < caveOff + TRAMPOLINE_SIZE
                && caveOff < sections[i].0 + sections[i].1
  }

  /**
   The longer segment would reach into the next one, in the file or, by whole pages, in memory. Rounding to a
   power-of-two page is what the source's bit masks do.
   */
  predicate Crowded(s: Segment) {
    var page := Max(s.align, 0x1000);
    || s.offset + s.filesz + TRAMPOLINE_SIZE > s.nextOffset
    || (s.vaddr + s.filesz + TRAMPOLINE_SIZE + page - 1) / page * page > s.nextVaddr / page * page
  }

  /** The reasons `patch_data` refuses a stock image, in order. */
  function Objection(data: seq<byte>, off: Offsets, a: Addrs, s: Segment): Option<Error>
    requires Resolved(data, off, a, s)
  {
    var cave := s.vaddr + s.filesz;
    var caveOff := s.offset + s.filesz;
    var page := Max(s.align, 0x1000);
    if !StockPrologue(data, off.burst) then Some(NotStockPrologue)
    else if s.filesz != s.memsz then Some(NonFileBackedTail)
    else if exists i :: 0 <= i < |CaveSlice(data, caveOff)| && CaveSlice(data, caveOff)[i] != 0 then Some(CaveNotZero)
    else if Overlapped(s.sections, caveOff) then Some(SectionOverlap)
    else if !Encodable(a.burst, cave) || !BranchesEncodable(a.(cave := cave)) then Some(BranchRange)
    else if !BulbPrologue(data, off.bulbFunction) then Some(NotBulbPrologue)
    else if !PowerOfTwo(page) then Some(BadAlignment)
    else if Crowded(s) then Some(NoGap)
    else None
  }

  function Splice(data: seq<byte>, at: nat, part: seq<byte>): (r: seq<byte>)
    requires at + |part| <= |data|
    ensures |r| == |data|
  {
    data[..at] + part + data[at + |part|..]
  }

  /** `patch_data` as a function of the file image. */
  function Patch(data: seq<byte>, off: Offsets, a: Addrs, s: Segment): Result<Patched>
    requires Resolved(data, off, a, s)
  {
    var marker := s.vaddr + s.filesz - TRAMPOLINE_SIZE;
    var mayBeInstalled := s.filesz >= TRAMPOLINE_SIZE && s.filesz == s.memsz;
    if mayBeInstalled
       && !(Encodable(a.burst, marker) && BranchesEncodable(a.(cave := marker)) && KeepEncodable(a, marker))
    then Err(BranchRange)
    else if mayBeInstalled && Installed(data, off, a, s, marker) then Ok((data, false))
    else if Objection(data, off, a, s).Some? then Err(Objection(data, off, a, s).value)
    else
      var cave := s.vaddr + s.filesz;
      var d1 := Store(data, off.burst, BranchWord(a.burst, cave, 14, false));
      var d2 := Splice(d1, s.offset + s.filesz, Blob(a.(cave := cave)));
      match PatchCancel(d2, off, a)
      case Err(e) => Err(e)
      case Ok(p3) =>
        match PatchCancelResult(p3.0, off, a, cave)
        case Err(e) => Err(e)
        case Ok(p4) =>
          var sized := Store(p4.0, s.phdr + 16, s.filesz + TRAMPOLINE_SIZE);
          Ok((Store(sized, s.phdr + 20, s.memsz + TRAMPOLINE_SIZE), true))
  }

  method Overwrite(buf: array<byte>, at: nat, part: seq<byte>)
    requires at + |part| <= buf.Length
    modifies buf
    ensures buf[..] == Splice(old(buf[..]), at, part)
  {
    for i := 0 to |part|
      invariant forall k :: 0 <= k < buf.Length ==> buf[k] == if at <= k < at + i then part[k - at] else old(buf[k])
    {
      buf[at + i] := part[i];
    }
    assert buf[..] == Splice(old(buf[..]), at, part);
  }

  /** `patch_data`: check, copy, overwrite. */
  method PatchData(data: seq<byte>, off: Offsets, a: Addrs, s: Segment) returns (r: Result<Patched>)
    requires Resolved(data, off, a, s)
    ensures r == Patch(data, off, a, s)
  {
    hide Load, BranchWord, Encodable, BranchesEncodable, Blob, PatchCancel, PatchCancelResult, Store, Splice,
      StockPrologue, BulbPrologue, Installed, CaveSlice, PowerOfTwo, KeepEncodable;
    if s.filesz >= TRAMPOLINE_SIZE && s.filesz == s.memsz {
      var marker := s.vaddr + s.filesz - TRAMPOLINE_SIZE;
      if !Encodable(a.burst, marker) || !KeepEncodable(a, marker) {
        return Err(BranchRange);
      }
      var marked := BuildTrampoline(a.(cave := marker));
      if marked.Err? {
        return Err(BranchRange);
      }
      if Installed(data, off, a, s, marker) {
        return Ok((data, false));
      }
    }
    var objection := Objection(data, off, a, s);
    if objection.Some? {
      return Err(objection.value);
    }
    var cave := s.vaddr + s.filesz;
    var trampoline := BuildTrampoline(a.(cave := cave));
    if trampoline.Err? {
      return Err(BranchRange);
    }
    var patched := CopyOf(data);
    PackInto(patched, off.burst, BranchWord(a.burst, cave, 14, false));
    Overwrite(patched, s.offset + s.filesz, trampoline.value);
    var cancelled := PatchCancel(patched[..], off, a);
    if cancelled.Err? {
      return Err(cancelled.error);
    }
    var kept := PatchCancelResult(cancelled.value.0, off, a, cave);
    if kept.Err? {
      return Err(kept.error);
    }
    patched := CopyOf(kept.value.0);
    PackInto(patched, s.phdr + 16, s.filesz + TRAMPOLINE_SIZE);
    PackInto(patched, s.phdr + 20, s.memsz + TRAMPOLINE_SIZE);
    r := Ok((patched[..], true));
  }
}
