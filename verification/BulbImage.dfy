/** What `patch_data` does to a file: which bytes change, that it is idempotent, and that the result runs. */
module BulbImage {
  import opened Words
  import opened Arm
  import opened BranchCodec
  import opened BulbTable
  import opened BulbMachine
  import opened BulbPatch

  // ------------------------------------------------------------- byte lemmas

  lemma StoreAt(d: seq<byte>, off: nat, w: word, i: nat)
    requires off + 4 <= |d| && i < |d|
    ensures Store(d, off, w)[i] == if off <= i < off + 4 then ByteOf(w, i - off) else d[i]
  {
  }

  lemma StoreSame(d: seq<byte>, off: nat)
    requires off + 4 <= |d|
    ensures Store(d, off, Load(d, off)) == d
  {
    BytesPack(d[off], d[off + 1], d[off + 2], d[off + 3]);
    hide ByteOf, Pack;
    assert Store(d, off, Load(d, off)) == d;
  }

  lemma LoadIs(d: seq<byte>, off: nat, w: word)
    requires off + 4 <= |d| && forall j :: 0 <= j < 4 ==> d[off + j] == ByteOf(w, j)
    ensures Load(d, off) == w
  {
    assert d[off + 0] == ByteOf(w, 0) && d[off + 1] == ByteOf(w, 1);
    assert d[off + 2] == ByteOf(w, 2) && d[off + 3] == ByteOf(w, 3);
    PackBytes(w);
    hide ByteOf, Pack;
  }

  lemma LoadSame(d1: seq<byte>, d2: seq<byte>, off: nat)
    requires off + 4 <= |d1| && |d1| == |d2| && forall j :: off <= j < off + 4 ==> d1[j] == d2[j]
    ensures Load(d1, off) == Load(d2, off)
  {
  }

  lemma StoreElsewhere(d: seq<byte>, at: nat, w: word, k: nat)
    requires at + 4 <= |d| && k + 4 <= |d| && (k + 4 <= at || at + 4 <= k)
    ensures Load(Store(d, at, w), k) == Load(d, k)
  {
    hide Load, Store;
    LoadStore(d, at, w, k);
  }

  lemma SpliceElsewhere(d: seq<byte>, at: nat, part: seq<byte>, k: nat)
    requires at + |part| <= |d| && k + 4 <= |d| && (k + 4 <= at || at + |part| <= k)
    ensures Load(Splice(d, at, part), k) == Load(d, k)
  {
    LoadSame(Splice(d, at, part), d, k);
  }

  // ------------------------------------------------------------------- sites

  predicate Apart(lo1: nat, hi1: nat, lo2: nat, hi2: nat) {
    hi1 <= lo2 || hi2 <= lo1
  }

  /** Storing the entry branch and the trampoline leaves the Bulb helper's words. */
  lemma SiteWordsKept(data: seq<byte>, at: nat, w: word, cave: nat, part: seq<byte>, off: Offsets)
    requires off.bulb + 0x6E4 <= |data| && at + 4 <= |data| && cave + |part| <= |data|
    requires Apart(at, at + 4, off.bulb + 0x330, off.bulb + 0x6E4)
    requires Apart(cave, cave + |part|, off.bulb + 0x330, off.bulb + 0x6E4)
    ensures forall k: nat | off.bulb + 0x330 <= k <= off.bulb + 0x6E0 ::
              Load(Splice(Store(data, at, w), cave, part), k) == Load(data, k)
  {
    hide Load, Store, Splice;
    var d := Store(data, at, w);
    forall k: nat | off.bulb + 0x330 <= k <= off.bulb + 0x6E0
      ensures Load(Splice(d, cave, part), k) == Load(data, k)
    {
      StoreElsewhere(data, at, w, k);
      SpliceElsewhere(d, cave, part, k);
    }
  }

  /** The burst entry, the cave, the patched stretch of the Bulb helper and the program header do not overlap. */
  predicate SitesApart(off: Offsets, s: Segment) {
    var cave := s.offset + s.filesz;
    && Apart(off.burst, off.burst + 12, cave, cave + TRAMPOLINE_SIZE)
    && Apart(off.burst, off.burst + 12, off.bulb + 0x330, off.bulb + 0x6E4)
    && Apart(off.burst, off.burst + 12, s.phdr, s.phdr + 24)
    && Apart(cave, cave + TRAMPOLINE_SIZE, off.bulb + 0x330, off.bulb + 0x6E4)
    && Apart(cave, cave + TRAMPOLINE_SIZE, s.phdr, s.phdr + 24)
    && Apart(off.bulb + 0x330, off.bulb + 0x6E4, s.phdr, s.phdr + 24)
  }

  /** The bytes the patch is meant to write. */
  predicate InSite(off: Offsets, s: Segment, i: nat) {
    var cave := s.offset + s.filesz;
    || off.burst <= i < off.burst + 4
    || cave <= i < cave + TRAMPOLINE_SIZE
    || off.bulb + 0x330 <= i < off.bulb + 0x334
    || off.bulb + 0x438 <= i < off.bulb + 0x43C
    || off.bulb + 0x6DC <= i < off.bulb + 0x6E0
    || s.phdr + 16 <= i < s.phdr + 24
  }

  function Extended(s: Segment): Segment {
    s.(filesz := s.filesz + TRAMPOLINE_SIZE, memsz := s.memsz + TRAMPOLINE_SIZE)
  }

  /** The seven writes, in order. */
  function Image(data: seq<byte>, off: Offsets, a: Addrs, s: Segment): (r: seq<byte>)
    requires Resolved(data, off, a, s) && s.offset + s.filesz + TRAMPOLINE_SIZE <= |data|
    ensures |r| == |data|
  {
    var cave := s.vaddr + s.filesz;
    var d1 := Store(data, off.burst, BranchWord(a.burst, cave, 14, false));
    var d2 := Splice(d1, s.offset + s.filesz, Blob(a.(cave := cave)));
    var d3 := Store(d2, off.bulb + 0x330, BranchWord(a.bulb + 0x330, a.bulb + 0x3A4, 0, false));
    var d4 := Store(d3, off.bulb + 0x438, BranchWord(a.bulb + 0x438, cave + 0x228, 14, false));
    var d5 := Store(d4, off.bulb + 0x6DC, BranchWord(a.bulb + 0x6DC, cave + 0x2B8, 14, false));
    Store(Store(d5, s.phdr + 16, s.filesz + TRAMPOLINE_SIZE), s.phdr + 20, s.memsz + TRAMPOLINE_SIZE)
  }

  lemma CancelShape(data: seq<byte>, off: Offsets, a: Addrs)
    requires off.bulb + 0x334 <= |data| && PatchCancel(data, off, a).Ok?
    ensures PatchCancel(data, off, a).value.0
            == Store(data, off.bulb + 0x330, BranchWord(a.bulb + 0x330, a.bulb + 0x3A4, 0, false))
  {
    StoreSame(data, off.bulb + 0x330);
  }

  lemma RedirectShape(data: seq<byte>, patched: Patched, site: nat, stock: word, redirect: word, contextOk: bool)
    requires site + 4 <= |data| == |patched.0| && Redirect(data, patched, site, stock, redirect, contextOk).Ok?
    requires forall j :: site <= j < site + 4 ==> data[j] == patched.0[j]
    ensures Redirect(data, patched, site, stock, redirect, contextOk).value.0 == Store(patched.0, site, redirect)
  {
    LoadSame(data, patched.0, site);
    StoreSame(patched.0, site);
  }

  lemma ResultShape(data: seq<byte>, off: Offsets, a: Addrs, cave: int)
    requires off.bulb + 0x6E4 <= |data| && PatchCancelResult(data, off, a, cave).Ok?
    ensures KeepEncodable(a, cave)
    ensures PatchCancelResult(data, off, a, cave).value.0
            == Store(Store(data, off.bulb + 0x438, BranchWord(a.bulb + 0x438, cave + 0x228, 14, false)),
                     off.bulb + 0x6DC, BranchWord(a.bulb + 0x6DC, cave + 0x2B8, 14, false))
  {
    hide Load, BranchWord, Encodable;
    var b := off.bulb;
    var w := BranchWord(a.bulb + 0x438, cave + 0x228, 14, false);
    var first := Redirect(data, (data, false), b + 0x438, 0xE50B_3010, w,
                          Load(data, b + 0x43C) == 0xE51B_3058 && Load(data, b + 0x440) == 0xE353_0000);
    RedirectShape(data, (data, false), b + 0x438, 0xE50B_3010, w,
                  Load(data, b + 0x43C) == 0xE51B_3058 && Load(data, b + 0x440) == 0xE353_0000);
    RedirectShape(data, first.value, b + 0x6DC, 0xE50B_0010, BranchWord(a.bulb + 0x6DC, cave + 0x2B8, 14, false),
                  Load(data, b + 0x6E0) == 0xE24B_3064);
  }

  lemma PatchShape(data: seq<byte>, off: Offsets, a: Addrs, s: Segment)
    requires Resolved(data, off, a, s) && Patch(data, off, a, s).Ok? && Patch(data, off, a, s).value.1
    ensures s.offset + s.filesz + TRAMPOLINE_SIZE <= |data| && s.filesz == s.memsz
    ensures Encodable(a.burst, s.vaddr + s.filesz) && KeepEncodable(a, s.vaddr + s.filesz)
    ensures BranchesEncodable(a.(cave := s.vaddr + s.filesz))
    ensures Patch(data, off, a, s).value.0 == Image(data, off, a, s)
  {
    hide Load, Store, BranchWord, Encodable, BranchesEncodable, Installed, StockPrologue, BulbPrologue, PowerOfTwo,
      CaveSlice, PatchCancel, PatchCancelResult, KeepEncodable, Blob, Splice;
    var cave := s.vaddr + s.filesz;
    var d1 := Store(data, off.burst, BranchWord(a.burst, cave, 14, false));
    var d2 := Splice(d1, s.offset + s.filesz, Blob(a.(cave := cave)));
    CancelShape(d2, off, a);
    ResultShape(PatchCancel(d2, off, a).value.0, off, a, cave);
  }

  // ---------------------------------------------------------------- theorems

  lemma ImageAt(data: seq<byte>, off: Offsets, a: Addrs, s: Segment, i: nat)
    requires Resolved(data, off, a, s) && s.offset + s.filesz + TRAMPOLINE_SIZE <= |data| && SitesApart(off, s)
    requires i < |data|
    ensures
      var cave := s.vaddr + s.filesz;
      var caveOff := s.offset + s.filesz;
      Image(data, off, a, s)[i]
      == if off.burst <= i < off.burst + 4 then ByteOf(BranchWord(a.burst, cave, 14, false), i - off.burst)
         else if caveOff <= i < caveOff + TRAMPOLINE_SIZE then Blob(a.(cave := cave))[i - caveOff]
         else if off.bulb + 0x330 <= i < off.bulb + 0x334 then
           ByteOf(BranchWord(a.bulb + 0x330, a.bulb + 0x3A4, 0, false), i - off.bulb - 0x330)
         else if off.bulb + 0x438 <= i < off.bulb + 0x43C then
           ByteOf(BranchWord(a.bulb + 0x438, cave + 0x228, 14, false), i - off.bulb - 0x438)
         else if off.bulb + 0x6DC <= i < off.bulb + 0x6E0 then
           ByteOf(BranchWord(a.bulb + 0x6DC, cave + 0x2B8, 14, false), i - off.bulb - 0x6DC)
         else if s.phdr + 16 <= i < s.phdr + 20 then ByteOf(s.filesz + TRAMPOLINE_SIZE, i - s.phdr - 16)
         else if s.phdr + 20 <= i < s.phdr + 24 then ByteOf(s.memsz + TRAMPOLINE_SIZE, i - s.phdr - 20)
         else data[i]
  {
    hide Load, BranchWord, ByteOf, Blob, Store;
    var cave := s.vaddr + s.filesz;
    var d1 := Store(data, off.burst, BranchWord(a.burst, cave, 14, false));
    var d2 := Splice(d1, s.offset + s.filesz, Blob(a.(cave := cave)));
    var d3 := Store(d2, off.bulb + 0x330, BranchWord(a.bulb + 0x330, a.bulb + 0x3A4, 0, false));
    var d4 := Store(d3, off.bulb + 0x438, BranchWord(a.bulb + 0x438, cave + 0x228, 14, false));
    var d5 := Store(d4, off.bulb + 0x6DC, BranchWord(a.bulb + 0x6DC, cave + 0x2B8, 14, false));
    var d6 := Store(d5, s.phdr + 16, s.filesz + TRAMPOLINE_SIZE);
    StoreAt(data, off.burst, BranchWord(a.burst, cave, 14, false), i);
    StoreAt(d2, off.bulb + 0x330, BranchWord(a.bulb + 0x330, a.bulb + 0x3A4, 0, false), i);
    StoreAt(d3, off.bulb + 0x438, BranchWord(a.bulb + 0x438, cave + 0x228, 14, false), i);
    StoreAt(d4, off.bulb + 0x6DC, BranchWord(a.bulb + 0x6DC, cave + 0x2B8, 14, false), i);
    StoreAt(d5, s.phdr + 16, s.filesz + TRAMPOLINE_SIZE, i);
    StoreAt(d6, s.phdr + 20, s.memsz + TRAMPOLINE_SIZE, i);
  }

  /** A patched image differs from its input only at the intended sites. */
  lemma PatchFrame(data: seq<byte>, off: Offsets, a: Addrs, s: Segment)
    requires Resolved(data, off, a, s) && SitesApart(off, s) && Patch(data, off, a, s).Ok?
    ensures |Patch(data, off, a, s).value.0| == |data|
    ensures forall i :: 0 <= i < |data| && !InSite(off, s, i) ==> Patch(data, off, a, s).value.0[i] == data[i]
  {
    hide Patch, Image;
    if Patch(data, off, a, s).value.1 {
      PatchShape(data, off, a, s);
      forall i | 0 <= i < |data| && !InSite(off, s, i)
        ensures Patch(data, off, a, s).value.0[i] == data[i]
      {
        ImageAt(data, off, a, s, i);
      }
    } else {
      UnchangedShape(data, off, a, s);
    }
  }

  lemma UnchangedShape(data: seq<byte>, off: Offsets, a: Addrs, s: Segment)
    requires Resolved(data, off, a, s) && Patch(data, off, a, s).Ok? && !Patch(data, off, a, s).value.1
    ensures Patch(data, off, a, s).value.0 == data
  {
  }

  lemma ImageWords(data: seq<byte>, off: Offsets, a: Addrs, s: Segment)
    requires Resolved(data, off, a, s) && s.offset + s.filesz + TRAMPOLINE_SIZE <= |data| && SitesApart(off, s)
    ensures
      var d := Image(data, off, a, s);
      var cave := s.vaddr + s.filesz;
      var caveOff := s.offset + s.filesz;
      && Load(d, off.burst) == BranchWord(a.burst, cave, 14, false)
      && d[caveOff..caveOff + TRAMPOLINE_SIZE] == Blob(a.(cave := cave))
      && Load(d, off.bulb + 0x330) == BranchWord(a.bulb + 0x330, a.bulb + 0x3A4, 0, false)
      && Load(d, off.bulb + 0x438) == BranchWord(a.bulb + 0x438, cave + 0x228, 14, false)
      && Load(d, off.bulb + 0x6DC) == BranchWord(a.bulb + 0x6DC, cave + 0x2B8, 14, false)
      && Load(d, s.phdr + 16) == s.filesz + TRAMPOLINE_SIZE && Load(d, s.phdr + 20) == s.memsz + TRAMPOLINE_SIZE
  {
    hide Load, BranchWord, ByteOf, Blob, Image;
    var d := Image(data, off, a, s);
    var cave := s.vaddr + s.filesz;
    var caveOff := s.offset + s.filesz;
    forall i | 0 <= i < |data|
      ensures off.burst <= i < off.burst + 4 ==> d[i] == ByteOf(BranchWord(a.burst, cave, 14, false), i - off.burst)
      ensures caveOff <= i < caveOff + TRAMPOLINE_SIZE ==> d[i] == Blob(a.(cave := cave))[i - caveOff]
      ensures off.bulb + 0x330 <= i < off.bulb + 0x334 ==>
                d[i] == ByteOf(BranchWord(a.bulb + 0x330, a.bulb + 0x3A4, 0, false), i - off.bulb - 0x330)
      ensures off.bulb + 0x438 <= i < off.bulb + 0x43C ==>
                d[i] == ByteOf(BranchWord(a.bulb + 0x438, cave + 0x228, 14, false), i - off.bulb - 0x438)
      ensures off.bulb + 0x6DC <= i < off.bulb + 0x6E0 ==>
                d[i] == ByteOf(BranchWord(a.bulb + 0x6DC, cave + 0x2B8, 14, false), i - off.bulb - 0x6DC)
      ensures s.phdr + 16 <= i < s.phdr + 20 ==> d[i] == ByteOf(s.filesz + TRAMPOLINE_SIZE, i - s.phdr - 16)
      ensures s.phdr + 20 <= i < s.phdr + 24 ==> d[i] == ByteOf(s.memsz + TRAMPOLINE_SIZE, i - s.phdr - 20)
    {
      ImageAt(data, off, a, s, i);
    }
    LoadIs(d, off.burst, BranchWord(a.burst, cave, 14, false));
    LoadIs(d, off.bulb + 0x330, BranchWord(a.bulb + 0x330, a.bulb + 0x3A4, 0, false));
    LoadIs(d, off.bulb + 0x438, BranchWord(a.bulb + 0x438, cave + 0x228, 14, false));
    LoadIs(d, off.bulb + 0x6DC, BranchWord(a.bulb + 0x6DC, cave + 0x2B8, 14, false));
    LoadIs(d, s.phdr + 16, s.filesz + TRAMPOLINE_SIZE);
    LoadIs(d, s.phdr + 20, s.memsz + TRAMPOLINE_SIZE);
  }

  /** Patching a patched file, with the segment its new header describes, changes nothing and says so. */
  lemma PatchTwice(data: seq<byte>, off: Offsets, a: Addrs, s: Segment)
    requires Resolved(data, off, a, s) && SitesApart(off, s)
    requires Patch(data, off, a, s).Ok? && Patch(data, off, a, s).value.1
    requires Resolved(Patch(data, off, a, s).value.0, off, a, Extended(s))
    ensures Load(Patch(data, off, a, s).value.0, s.phdr + 16) == Extended(s).filesz
    ensures Load(Patch(data, off, a, s).value.0, s.phdr + 20) == Extended(s).memsz
    ensures Patch(Patch(data, off, a, s).value.0, off, a, Extended(s)) == Ok((Patch(data, off, a, s).value.0, false))
  {
    hide Load, BranchWord, Encodable, BranchesEncodable, Blob, Image, Objection, PatchCancel, PatchCancelResult, Store,
      KeepEncodable, Splice;
    PatchShape(data, off, a, s);
    ImageWords(data, off, a, s);
  }

  // ----------------------------------------------------- from file to process

  /** The words of the blob are mapped at the cave. */
  ghost predicate MappedAt(mem: Memory, cave: int, blob: seq<byte>)
    requires |blob| == TRAMPOLINE_SIZE
  {
    forall k: nat :: 4 * k < TRAMPOLINE_SIZE ==> cave + 4 * k in mem && mem[cave + 4 * k] == Load(blob, 4 * k)
  }

  lemma BlobWord(a: Addrs, off: int)
    requires !Table(a, off).Blank?
    ensures 0 <= off && off % 4 == 0 && off + 4 <= TRAMPOLINE_SIZE
    ensures Load(Blob(a), off) == WordOf(a, off, Table(a, off))
  {
    OffsetsAreAligned(a, off);
    TextsAreBlank(a, off);
    hide Table, CodeByte;
    CodeBytes(a, off);
    var w := WordOf(a, off, Table(a, off));
    assert Blob(a)[off] == ByteOf(w, 0) && Blob(a)[off + 1] == ByteOf(w, 1)
           && Blob(a)[off + 2] == ByteOf(w, 2) && Blob(a)[off + 3] == ByteOf(w, 3);
    PackBytes(w);
    hide ByteOf, Pack;
  }

  lemma MappedByte(mem: Memory, cave: int, blob: seq<byte>, i: nat)
    requires |blob| == TRAMPOLINE_SIZE && MappedAt(mem, cave, blob) && cave % 4 == 0 && i < TRAMPOLINE_SIZE
    ensures ByteAt(mem, cave + i) == Some(blob[i])
  {
    var k := i / 4;
    assert cave + 4 * k in mem && mem[cave + 4 * k] == Load(blob, 4 * k);
    BytesPack(blob[4 * k], blob[4 * k + 1], blob[4 * k + 2], blob[4 * k + 3]);
    hide ByteOf, Pack;
    assert (cave + i) % 4 == i - 4 * k;
  }

  lemma MappedText(mem: Memory, a: Addrs, at: nat, s: seq<byte>)
    requires MappedAt(mem, a.cave, Blob(a)) && a.cave % 4 == 0 && a.cave + TRAMPOLINE_SIZE < TWO32
    requires at + |s| < TRAMPOLINE_SIZE && forall i :: 0 <= i < |s| ==> s[i] != 0
    requires CarriesText(a, at, s)
    ensures CString(mem, a.cave + at, s)
  {
    hide MappedAt, Blob;
    forall i | 0 <= i < |s|
      ensures ByteAt(mem, a.cave + at + i) == Some(s[i])
    {
      MappedByte(mem, a.cave, Blob(a), at + i);
    }
    MappedByte(mem, a.cave, Blob(a), at + |s|);
  }

  predicate CarriesText(a: Addrs, at: nat, s: seq<byte>)
    requires at + |s| < TRAMPOLINE_SIZE
  {
    forall i :: at <= i <= at + |s| ==> Blob(a)[i] == TextByteAt(at, s, i)
  }

  lemma BlobTexts(a: Addrs)
    ensures CarriesText(a, PENTAX_TEXT, PENTAX) && CarriesText(a, MODEL_TEXT, MODEL)
    ensures CarriesText(a, CONDITIONS_KEY_TEXT, CONDITIONS_KEY) && CarriesText(a, MODE_KEY_TEXT, MODE_KEY)
  {
    hide CodeByte, TextByteAt;
  }

  lemma MappedWord(mem: Memory, a: Addrs, off: int)
    requires MappedAt(mem, a.cave, Blob(a)) && !Table(a, off).Blank?
    ensures a.cave + off in mem && mem[a.cave + off] == WordOf(a, off, Table(a, off))
  {
    hide Table, Blob;
    BlobWord(a, off);
    var k := off / 4;
    assert a.cave + 4 * k in mem;
  }

  /** A process that maps the patched segment finds the trampoline loaded. */
  lemma InstalledIsLoaded(a: Addrs, mem: Memory)
    requires MappedAt(mem, a.cave, Blob(a)) && a.cave % 4 == 0 && a.cave + TRAMPOLINE_SIZE < TWO32
    ensures Loaded(a, mem)
  {
    hide Table, Blob, MappedAt, CString, TextByteAt;
    forall off | !Table(a, off).Blank?
      ensures a.cave + off in mem && mem[a.cave + off] == WordOf(a, off, Table(a, off))
    {
      MappedWord(mem, a, off);
    }
    BlobTexts(a);
    MappedText(mem, a, PENTAX_TEXT, PENTAX);
    MappedText(mem, a, MODEL_TEXT, MODEL);
    MappedText(mem, a, CONDITIONS_KEY_TEXT, CONDITIONS_KEY);
    MappedText(mem, a, MODE_KEY_TEXT, MODE_KEY);
  }

  lemma LoadSlice(d: seq<byte>, lo: nat, hi: nat, at: nat)
    requires lo <= hi <= |d| && at + 4 <= hi - lo
    ensures Load(d[lo..hi], at) == Load(d, lo + at)
  {
  }

  /** A branch of the table, where the blob has it, decodes to its target. */
  lemma BlobBranchLeads(a: Addrs, k: int)
    requires Table(a, k).Br? && BranchesEncodable(a) && a.cave + TRAMPOLINE_SIZE <= TWO32
    ensures 0 <= k && k + 4 <= TRAMPOLINE_SIZE
    ensures 0 <= Table(a, k).target < TWO32 ==> BranchTarget(a.cave + k, Load(Blob(a), k)) == Some(Table(a, k).target)
  {
    hide Table, Blob, Load, BranchWord, Encodable, BranchTarget;
    BlobWord(a, k);
    var e := Table(a, k);
    assert Encodable(a.cave + k, e.target);
    if 0 <= e.target < TWO32 {
      TargetOfEncoded(a.cave + k, e.target, e.cond, e.link);
    }
  }

  /** Every branch the patch writes, in the stock code and in the cave, decodes to the place it is meant to lead to. */
  lemma BranchesLead(data: seq<byte>, off: Offsets, a: Addrs, s: Segment)
    requires Resolved(data, off, a, s) && SitesApart(off, s) && a.bulb + 0x800 < TWO32
    requires Patch(data, off, a, s).Ok? && Patch(data, off, a, s).value.1
    ensures
      var d := Patch(data, off, a, s).value.0;
      var cave := s.vaddr + s.filesz;
      && BranchTarget(a.burst, Load(d, off.burst)) == Some(cave)
      && BranchTarget(a.bulb + 0x330, Load(d, off.bulb + 0x330)) == Some(a.bulb + 0x3A4)
      && BranchTarget(a.bulb + 0x438, Load(d, off.bulb + 0x438)) == Some(cave + 0x228)
      && BranchTarget(a.bulb + 0x6DC, Load(d, off.bulb + 0x6DC)) == Some(cave + 0x2B8)
    ensures
      var d := Patch(data, off, a, s).value.0;
      var cave := s.vaddr + s.filesz;
      var caveOff := s.offset + s.filesz;
      forall k: nat :: Table(a.(cave := cave), k).Br? && 0 <= Table(a.(cave := cave), k).target < TWO32 ==>
        && caveOff + k + 4 <= |d| && cave + k < TWO32
        && BranchTarget(cave + k, Load(d, caveOff + k)) == Some(Table(a.(cave := cave), k).target)
  {
    hide Load, BranchWord, BranchTarget, Patch, Image, Table, Blob, BranchesEncodable;
    var cave := s.vaddr + s.filesz;
    var caveOff := s.offset + s.filesz;
    PatchShape(data, off, a, s);
    ImageWords(data, off, a, s);
    TargetOfEncoded(a.burst, cave, 14, false);
    TargetOfEncoded(a.bulb + 0x330, a.bulb + 0x3A4, 0, false);
    TargetOfEncoded(a.bulb + 0x438, cave + 0x228, 14, false);
    TargetOfEncoded(a.bulb + 0x6DC, cave + 0x2B8, 14, false);
    var d := Patch(data, off, a, s).value.0;
    forall k: nat | Table(a.(cave := cave), k).Br? && 0 <= Table(a.(cave := cave), k).target < TWO32
      ensures caveOff + k + 4 <= |d| && cave + k < TWO32
      ensures BranchTarget(cave + k, Load(d, caveOff + k)) == Some(Table(a.(cave := cave), k).target)
    {
      BlobBranchLeads(a.(cave := cave), k);
      LoadSlice(d, caveOff, caveOff + TRAMPOLINE_SIZE, k);
    }
  }

  /**
   End to end: run the patched file. If its executable segment is mapped at its address, with the
   burst entry among the mapped words, the machine that enters the burst helper is in the state
   from which the routing theorem speaks.
   */
  lemma PatchedFileEnters(data: seq<byte>, off: Offsets, a: Addrs, s: Segment, mem: Memory)
    requires Resolved(data, off, a, s) && SitesApart(off, s)
    requires Patch(data, off, a, s).Ok? && Patch(data, off, a, s).value.1
    requires (s.vaddr + s.filesz) % 4 == 0
    requires
      var d := Patch(data, off, a, s).value.0;
      var caveOff := s.offset + s.filesz;
      && caveOff + TRAMPOLINE_SIZE <= |d|
      && MappedAt(mem, s.vaddr + s.filesz, d[caveOff..caveOff + TRAMPOLINE_SIZE])
      && a.burst in mem && mem[a.burst] == Load(d, off.burst)
    ensures Loaded(a.(cave := s.vaddr + s.filesz), mem)
    ensures mem[a.burst] == BranchWord(a.burst, s.vaddr + s.filesz, 14, false)
    ensures Encodable(a.burst, s.vaddr + s.filesz) && BranchesEncodable(a.(cave := s.vaddr + s.filesz))
  {
    hide Load, BranchWord, Encodable, BranchesEncodable, Blob, Image, MappedAt, Loaded, Patch;
    PatchShape(data, off, a, s);
    ImageWords(data, off, a, s);
    InstalledIsLoaded(a.(cave := s.vaddr + s.filesz), mem);
  }
}
