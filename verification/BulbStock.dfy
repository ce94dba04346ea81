/** A stock file small enough to write down: it is patched, mapped and run. */
module BulbStock {
  import opened Words
  import opened BranchCodec
  import opened BulbTable
  import opened BulbMachine
  import opened BulbRouting
  import opened BulbPatch
  import opened BulbImage
  import opened BulbOracle
  import opened BulbProcess

  /** The words of the Bulb helper that the patch replaces or looks at, as the stock image has them. */
  predicate StockSites(data: seq<byte>, off: Offsets, a: Addrs)
    requires off.bulb + 0x6E4 <= |data|
  {
    && Load(data, off.bulb + 0x330) == BranchWord(a.bulb + 0x330, a.bulb + 0x748, 0, false)
    && Load(data, off.bulb + 0x438) == 0xE50B_3010 && Load(data, off.bulb + 0x43C) == 0xE51B_3058
    && Load(data, off.bulb + 0x440) == 0xE353_0000
    && Load(data, off.bulb + 0x6DC) == 0xE50B_0010 && Load(data, off.bulb + 0x6E0) == 0xE24B_3064
  }

  lemma CancelTakes(d: seq<byte>, off: Offsets, a: Addrs)
    requires off.bulb + 0x6E4 <= |d| && StockSites(d, off, a)
    ensures PatchCancel(d, off, a).Ok?
    ensures
      var e := PatchCancel(d, off, a).value.0;
      && Load(e, off.bulb + 0x438) == 0xE50B_3010 && Load(e, off.bulb + 0x43C) == 0xE51B_3058
      && Load(e, off.bulb + 0x440) == 0xE353_0000
      && Load(e, off.bulb + 0x6DC) == 0xE50B_0010 && Load(e, off.bulb + 0x6E0) == 0xE24B_3064
  {
    hide Load, Store, BranchWord;
    var w := BranchWord(a.bulb + 0x330, a.bulb + 0x3A4, 0, false);
    StoreElsewhere(d, off.bulb + 0x330, w, off.bulb + 0x438);
    StoreElsewhere(d, off.bulb + 0x330, w, off.bulb + 0x43C);
    StoreElsewhere(d, off.bulb + 0x330, w, off.bulb + 0x440);
    StoreElsewhere(d, off.bulb + 0x330, w, off.bulb + 0x6DC);
    StoreElsewhere(d, off.bulb + 0x330, w, off.bulb + 0x6E0);
  }

  lemma ResultTakes(d: seq<byte>, off: Offsets, a: Addrs, cave: int)
    requires off.bulb + 0x6E4 <= |d| && KeepEncodable(a, cave)
    requires Load(d, off.bulb + 0x438) == 0xE50B_3010 && Load(d, off.bulb + 0x43C) == 0xE51B_3058
    requires Load(d, off.bulb + 0x440) == 0xE353_0000
    requires Load(d, off.bulb + 0x6DC) == 0xE50B_0010 && Load(d, off.bulb + 0x6E0) == 0xE24B_3064
    ensures PatchCancelResult(d, off, a, cave).Ok?
  {
    hide Load, Store, BranchWord, Encodable;
  }

  /** A stock file that meets no objection is patched, and the patch reports the change. */
  lemma StockPatches(data: seq<byte>, off: Offsets, a: Addrs, s: Segment)
    requires Resolved(data, off, a, s) && SitesApart(off, s) && StockSites(data, off, a)
    requires Objection(data, off, a, s).None? && KeepEncodable(a, s.vaddr + s.filesz)
    requires s.filesz >= TRAMPOLINE_SIZE ==>
               var marker := s.vaddr + s.filesz - TRAMPOLINE_SIZE;
               && Encodable(a.burst, marker) && BranchesEncodable(a.(cave := marker)) && KeepEncodable(a, marker)
               && !Installed(data, off, a, s, marker)
    ensures Patch(data, off, a, s).Ok? && Patch(data, off, a, s).value.1
  {
    hide Load, Store, BranchWord, Encodable, BranchesEncodable, Installed, StockPrologue, BulbPrologue, PowerOfTwo,
      CaveSlice, PatchCancel, PatchCancelResult, KeepEncodable, Blob, Splice;
    var cave := s.vaddr + s.filesz;
    var w, blob := BranchWord(a.burst, cave, 14, false), Blob(a.(cave := cave));
    SiteWordsKept(data, off.burst, w, s.offset + s.filesz, blob, off);
    var d2 := Splice(Store(data, off.burst, w), s.offset + s.filesz, blob);
    CancelTakes(d2, off, a);
    ResultTakes(PatchCancel(d2, off, a).value.0, off, a, cave);
  }

  // ---------------------------------------------------------------- one file

  const OFFSETS := Offsets(0, 0x100, 0x10)

  const SEGMENT := Segment(0xF_F000, 0, 0x1000, 0x1000, 0x1000, 0x20, 0x11_0000, 0x2000, [])

  /** The file's words: the two prologues, the sites of the Bulb helper, and zero. */
  function StockWord(off: int): word {
    match off
    case 0x000 => 0xE92D_4810
    case 0x004 => 0xE28D_B008
    case 0x008 => 0xE24D_D0AC
    case 0x010 => 0xE92D_4810
    case 0x014 => 0xE28D_B008
    case 0x018 => 0xE24D_DD2F
    case 0x01C => 0xE24D_D004
    case 0x430 => BranchWord(PLACE.bulb + 0x330, PLACE.bulb + 0x748, 0, false)
    case 0x538 => 0xE50B_3010
    case 0x53C => 0xE51B_3058
    case 0x540 => 0xE353_0000
    case 0x7DC => 0xE50B_0010
    case 0x7E0 => 0xE24B_3064
    case _ => 0
  }

  function StockByte(i: nat): byte {
    ByteOf(StockWord(i - i % 4), i % 4)
  }

  function StockFile(): (d: seq<byte>)
    ensures |d| == 0x2000
  {
    seq(0x2000, i requires 0 <= i < 0x2000 => StockByte(i))
  }

  lemma StockLoad(off: nat)
    requires off % 4 == 0 && off + 4 <= 0x2000
    ensures Load(StockFile(), off) == StockWord(off)
  {
    hide StockWord;
    assert (off + 1) % 4 == 1 && (off + 2) % 4 == 2 && (off + 3) % 4 == 3;
    LoadIs(StockFile(), off, StockWord(off));
  }

  lemma StockSitesThere()
    ensures StockSites(StockFile(), OFFSETS, PLACE)
  {
    hide Load, BranchWord;
    StockLoad(0x430);
    StockLoad(0x538);
    StockLoad(0x53C);
    StockLoad(0x540);
    StockLoad(0x7DC);
    StockLoad(0x7E0);
  }

  lemma StockPrologues()
    ensures StockPrologue(StockFile(), 0) && BulbPrologue(StockFile(), 0x10)
  {
    hide Load, BranchWord;
    StockLoad(0);
    StockLoad(4);
    StockLoad(8);
    StockLoad(0x10);
    StockLoad(0x14);
    StockLoad(0x18);
    StockLoad(0x1C);
  }

  lemma CaveIsZero(i: nat)
    requires 0x1000 <= i < 0x2000
    ensures StockFile()[i] == 0
  {
    assert i - i % 4 >= 0x1000;
    assert StockWord(i - i % 4) == 0;
  }

  lemma PageIsPower()
    ensures PowerOfTwo(0x1000)
  {
    assert PowerOfTwo(1) && PowerOfTwo(2) && PowerOfTwo(4) && PowerOfTwo(8) && PowerOfTwo(0x10) && PowerOfTwo(0x20);
    assert PowerOfTwo(0x40) && PowerOfTwo(0x80) && PowerOfTwo(0x100) && PowerOfTwo(0x200) && PowerOfTwo(0x400);
    assert PowerOfTwo(0x800);
  }

  lemma NoObjection()
    ensures Resolved(StockFile(), OFFSETS, PLACE, SEGMENT) && Objection(StockFile(), OFFSETS, PLACE, SEGMENT).None?
  {
    hide Load, StockPrologue, BulbPrologue, StockFile, BranchesEncodable, Encodable, PowerOfTwo;
    StockPrologues();
    PageIsPower();
    CloseIsEncodable(PLACE, 0x10_0000);
    forall i | 0 <= i < |CaveSlice(StockFile(), 0x1000)|
      ensures CaveSlice(StockFile(), 0x1000)[i] == 0
    {
      CaveIsZero(0x1000 + i);
    }
  }

  lemma MarkerEncodable()
    ensures
      var marker := SEGMENT.vaddr + SEGMENT.filesz - TRAMPOLINE_SIZE;
      && Encodable(PLACE.burst, marker) && BranchesEncodable(PLACE.(cave := marker)) && KeepEncodable(PLACE, marker)
      && KeepEncodable(PLACE, PLACE.cave)
  {
    hide BranchesEncodable;
    CloseIsEncodable(PLACE.(cave := 0xF_FD00), 0xF_FD00);
  }

  lemma NotYetInstalled(marker: word)
    requires Resolved(StockFile(), OFFSETS, PLACE, SEGMENT) && Encodable(PLACE.burst, marker)
    ensures !Installed(StockFile(), OFFSETS, PLACE, SEGMENT, marker)
  {
    hide Load, StockFile, Blob, BranchWord;
    StockLoad(0);
    BranchFields(PLACE.burst, marker, 14, false);
  }

  /** The hypotheses of the image theorems can be met: this file is patched. */
  lemma StockFilePatches()
    ensures Resolved(StockFile(), OFFSETS, PLACE, SEGMENT) && SitesApart(OFFSETS, SEGMENT)
    ensures
      var r := Patch(StockFile(), OFFSETS, PLACE, SEGMENT);
      r.Ok? && r.value.1 && |r.value.0| == 0x2000
  {
    hide StockFile, Objection, Patch, Installed, StockSites, BranchesEncodable, Encodable, KeepEncodable;
    NoObjection();
    StockSitesThere();
    MarkerEncodable();
    NotYetInstalled(SEGMENT.vaddr + SEGMENT.filesz - TRAMPOLINE_SIZE);
    StockPatches(StockFile(), OFFSETS, PLACE, SEGMENT);
    PatchFrame(StockFile(), OFFSETS, PLACE, SEGMENT);
  }

  /** The patched file's cave and entry are what the process of `ProcessExists` has mapped. */
  lemma StockFileMaps()
    requires Resolved(StockFile(), OFFSETS, PLACE, SEGMENT) && SitesApart(OFFSETS, SEGMENT)
    requires Patch(StockFile(), OFFSETS, PLACE, SEGMENT).Ok? && Patch(StockFile(), OFFSETS, PLACE, SEGMENT).value.1
    requires |Patch(StockFile(), OFFSETS, PLACE, SEGMENT).value.0| == 0x2000
    ensures Maps(ProcessMemory(), Patch(StockFile(), OFFSETS, PLACE, SEGMENT).value.0, OFFSETS, PLACE, SEGMENT)
  {
    hide StockFile, Patch, Image, Blob, Load, BranchWord, MappedAt, ProcessMemory, Resolved;
    PatchShape(StockFile(), OFFSETS, PLACE, SEGMENT);
    ImageWords(StockFile(), OFFSETS, PLACE, SEGMENT);
    CaveMapped();
    EntryMapped();
    assert PLACE.(cave := SEGMENT.vaddr + SEGMENT.filesz) == PLACE;
  }

  lemma EntryMapped()
    ensures PLACE.burst in ProcessMemory()
    ensures ProcessMemory()[PLACE.burst] == BranchWord(PLACE.burst, PLACE.cave, 14, false)
  {
    hide BranchWord, CaveMemory, StackMemory;
  }

  lemma PlaceLaidOut(r0: word, r1: word, r2: word)
    ensures Layout(PROCESS) && Calls(PROCESS, Caller(r0, r1, r2))
  {
    hide Blob, Load, CaveMemory;
  }

  /** And mapped and called, the patched file's run ends as specified, whatever the library answers. */
  lemma StockFileRoutes(w: World, o: Oracle, r0: word, r1: word, r2: word) returns (n: nat, m: Machine)
    requires Behaved(PROCESS, w, o)
    ensures n <= 200 && Run(PLACE, o, Caller(r0, r1, r2), n) == Some(m) && Routed(PROCESS, w, Caller(r0, r1, r2).cpu, m)
  {
    hide StockFile, Patch, Layout, Calls, Maps, Behaved, Routed, Resolved, SitesApart;
    StockFilePatches();
    StockFileMaps();
    PlaceLaidOut(r0, r1, r2);
    n, m := PatchedFileRoutes(StockFile(), OFFSETS, SEGMENT, PROCESS, PLACE, w, o, Caller(r0, r1, r2));
  }
}
