/** Exactly which files `patch_data` goes ahead with, in terms of the file's own bytes and addresses. */
module BulbGate {
  import opened Words
  import opened BranchCodec
  import opened BulbTable
  import opened BulbMachine
  import opened BulbPatch
  import opened BulbImage

  // ------------------------------------------------------------- the conditions

  /** A branch at `from` can be made to reach `to`: a whole number of words away, and within 32 MiB. */
  predicate Reaches(from: int, to: int) {
    (to - from) % 4 == 0 && -0x1FF_FFF8 <= to - from <= 0x200_0004
  }

  /** The trampoline is near enough to the burst entry that leads to it and to everything it branches to. */
  ghost predicate AllReach(a: Addrs) {
    Reaches(a.burst, a.cave) && forall k: nat :: Table(a, k).Br? ==> Reaches(a.cave + k, Table(a, k).target)
  }

  predicate KeepsReach(a: Addrs, cave: int) {
    Reaches(a.bulb + 0x438, cave + 0x228) && Reaches(a.bulb + 0x6DC, cave + 0x2B8)
  }

  function TwoTo(k: nat): nat {
    if k == 0 then 1 else 2 * TwoTo(k - 1)
  }

  function PageSize(s: Segment): nat {
    if s.align < 0x1000 then 0x1000 else s.align
  }

  function PageStart(page: nat, m: nat): nat {
    m * page
  }

  predicate BurstEntryStock(data: seq<byte>, off: Offsets)
    requires off.burst + 12 <= |data|
  {
    && Load(data, off.burst) == 0xE92D_4810
    && Load(data, off.burst + 4) == 0xE28D_B008
    && Load(data, off.burst + 8) == 0xE24D_D0AC
  }

  predicate BulbEntryStock(data: seq<byte>, off: Offsets)
    requires off.bulbFunction + 16 <= |data|
  {
    && Load(data, off.bulbFunction) == 0xE92D_4810
    && Load(data, off.bulbFunction + 4) == 0xE28D_B008
    && Load(data, off.bulbFunction + 8) == 0xE24D_DD2F
    && Load(data, off.bulbFunction + 12) == 0xE24D_D004
  }

  /** Every byte of the file that the trampoline would cover is zero. */
  predicate CaveZero(data: seq<byte>, s: Segment) {
    forall i :: s.offset + s.filesz <= i < s.offset + s.filesz + 0x300 && i < |data| ==> data[i] == 0
  }

  /** No allocated section has a byte where the trampoline goes. */
  predicate CaveUnclaimed(s: Segment) {
    forall x :: x in s.sections ==>
                  x.0 + x.1 <= s.offset + s.filesz || s.offset + s.filesz + 0x300 <= x.0
  }

  ghost predicate IsTwoTo(n: nat) {
    exists k: nat :: n == TwoTo(k)
  }

  /**
   The trampoline ends before the next segment starts, in the file and, with a page boundary between the two, in
   memory.
   */
  ghost predicate RoomAhead(s: Segment) {
    && s.offset + s.filesz + 0x300 <= s.nextOffset
    && exists m: nat :: s.vaddr + s.filesz + 0x300 <= PageStart(PageSize(s), m) <= s.nextVaddr
  }

  /** What the patch asks of a file before it writes anything. */
  ghost predicate Ready(data: seq<byte>, off: Offsets, a: Addrs, s: Segment)
    requires Resolved(data, off, a, s)
  {
    && BurstEntryStock(data, off) && s.filesz == s.memsz && CaveZero(data, s) && CaveUnclaimed(s)
    && AllReach(a.(cave := s.vaddr + s.filesz)) && BulbEntryStock(data, off) && IsTwoTo(PageSize(s)) && RoomAhead(s)
  }

  /** The Bulb helper's three sites hold the stock words or already the redirected ones, in stock surroundings. */
  predicate SitesKnown(data: seq<byte>, off: Offsets, a: Addrs, cave: int)
    requires off.bulb + 0x6E4 <= |data|
  {
    && Load(data, off.bulb + 0x330) in {BranchWord(a.bulb + 0x330, a.bulb + 0x748, 0, false),
                                        BranchWord(a.bulb + 0x330, a.bulb + 0x3A4, 0, false)}
    && Load(data, off.bulb + 0x438) in {0xE50B_3010, BranchWord(a.bulb + 0x438, cave + 0x228, 14, false)}
    && Load(data, off.bulb + 0x43C) == 0xE51B_3058 && Load(data, off.bulb + 0x440) == 0xE353_0000
    && Load(data, off.bulb + 0x6DC) in {0xE50B_0010, BranchWord(a.bulb + 0x6DC, cave + 0x2B8, 14, false)}
    && Load(data, off.bulb + 0x6E0) == 0xE24B_3064
  }

  /** A segment long enough to hold a trampoline could be one that does: then that one's branches are built too. */
  ghost predicate MarkerReaches(a: Addrs, s: Segment)
    requires s.vaddr + s.filesz < TWO32
  {
    s.filesz >= 0x300 && s.filesz == s.memsz ==>
      AllReach(a.(cave := s.vaddr + s.filesz - 0x300)) && KeepsReach(a, s.vaddr + s.filesz - 0x300)
  }

  // --------------------------------------------------------- each test's meaning

  lemma ReachesIff(from: int, to: int)
    ensures Encodable(from, to) <==> Reaches(from, to)
  {
  }

  lemma {:induction false} AllReachIff(a: Addrs)
    ensures Encodable(a.burst, a.cave) && BranchesEncodable(a) <==> AllReach(a)
  {
    hide Table;
    forall k: nat | Table(a, k).Br?
      ensures k < TRAMPOLINE_SIZE
    {
      TextsAreBlank(a, k);
    }
  }

  lemma {:induction false} PowerIff(n: nat)
    ensures PowerOfTwo(n) <==> IsTwoTo(n)
  {
    if n == 0 {
      forall k: nat
        ensures TwoTo(k) > 0
      {
        TwoToPositive(k);
      }
    } else if n == 1 {
      assert n == TwoTo(0);
    } else {
      PowerIff(n / 2);
      if k: nat :| n / 2 == TwoTo(k) && n % 2 == 0 {
        assert n == TwoTo(k + 1);
      }
      if k: nat :| n == TwoTo(k) {
        var j: nat := k - 1;
        assert n == 2 * TwoTo(j) && n / 2 == TwoTo(j);
      }
    }
  }

  lemma {:induction false} TwoToPositive(k: nat)
    ensures TwoTo(k) > 0
  {
    if k > 0 {
      TwoToPositive(k - 1);
    }
  }

  lemma Scaled(page: int, x: int, y: int)
    requires page > 0
    ensures x <= y ==> x * page <= y * page
    ensures x < y ==> x * page + page <= y * page
  {
    if x < y {
      assert (y - x - 1) * page >= 0;
      assert y * page == x * page + page + (y - x - 1) * page;
    }
  }

  lemma Quotient(page: int, n: int, m: int)
    requires page > 0
    ensures n / page * page <= n < n / page * page + page
    ensures m * page <= n ==> m <= n / page
  {
    Scaled(page, n / page, m);
  }

  /** Rounding the one up and the other down leaves them in order exactly if a page starts between them. */
  lemma {:induction false} PageBetween(page: nat, end: nat, next: nat)
    requires page > 0
    ensures (end + page - 1) / page * page <= next / page * page
            <==> exists m: nat :: end <= PageStart(page, m) <= next
  {
    Quotient(page, end + page - 1, 0);
    Quotient(page, next, 0);
    if (end + page - 1) / page * page <= next / page * page {
      assert end <= PageStart(page, next / page) <= next;
    }
    if m: nat :| end <= PageStart(page, m) <= next {
      assert m * page + page == (m + 1) * page;
      RoundedBelow(page, end, m);
      Quotient(page, next, m);
      Scaled(page, (end + page - 1) / page, next / page);
    }
  }

  lemma RoundedBelow(page: int, end: int, m: int)
    requires page > 0 && end <= m * page
    ensures (end + page - 1) / page <= m
  {
    Quotient(page, end + page - 1, 0);
    Scaled(page, m, (end + page - 1) / page);
  }

  lemma {:induction false} CaveZeroIff(data: seq<byte>, s: Segment, lo: nat)
    requires lo == s.offset + s.filesz
    ensures (exists i :: 0 <= i < |CaveSlice(data, lo)| && CaveSlice(data, lo)[i] != 0) <==> !CaveZero(data, s)
  {
    var c := CaveSlice(data, lo);
    forall i | lo <= i < lo + 0x300 && i < |data|
      ensures 0 <= i - lo < |c| && c[i - lo] == data[i]
    {
    }
    forall i | 0 <= i < |c|
      ensures lo <= lo + i < lo + 0x300 && lo + i < |data| && c[i] == data[lo + i]
    {
    }
  }

  lemma {:induction false} RoomIff(s: Segment)
    ensures Crowded(s) <==> !RoomAhead(s)
  {
    hide PageStart;
    PageBetween(PageSize(s), s.vaddr + s.filesz + 0x300, s.nextVaddr);
  }

  lemma {:induction false} MarkerIff(a: Addrs, s: Segment)
    requires s.vaddr + s.filesz < TWO32
    ensures
      s.filesz >= 0x300 && s.filesz == s.memsz ==>
        var marker := s.vaddr + s.filesz - 0x300;
        MarkerReaches(a, s)
        <==> Encodable(a.burst, marker) && BranchesEncodable(a.(cave := marker)) && KeepEncodable(a, marker)
  {
    hide Table, Encodable, BranchesEncodable, AllReach;
    var marker := s.vaddr + s.filesz - 0x300;
    if s.filesz >= 0x300 {
      AllReachIff(a.(cave := marker));
      ReachesIff(a.bulb + 0x438, marker + 0x228);
      ReachesIff(a.bulb + 0x6DC, marker + 0x2B8);
    }
  }

  lemma {:induction false} UnclaimedIff(s: Segment)
    ensures Overlapped(s.sections, s.offset + s.filesz) <==> !CaveUnclaimed(s)
  {
    if !CaveUnclaimed(s) {
      var x :| x in s.sections && !(x.0 + x.1 <= s.offset + s.filesz || s.offset + s.filesz + 0x300 <= x.0);
      var i :| 0 <= i < |s.sections| && s.sections[i] == x;
    }
  }

  // ---------------------------------------------------------------- theorems

  lemma {:induction false} NoObjectionIff(data: seq<byte>, off: Offsets, a: Addrs, s: Segment)
    requires Resolved(data, off, a, s)
    ensures Objection(data, off, a, s).None? <==> Ready(data, off, a, s)
  {
    hide Load, CaveSlice, PowerOfTwo, Encodable, BranchesEncodable, AllReach, CaveZero, RoomAhead, IsTwoTo, Crowded,
      CaveUnclaimed, Overlapped;
    CaveZeroIff(data, s, s.offset + s.filesz);
    AllReachIff(a.(cave := s.vaddr + s.filesz));
    PowerIff(PageSize(s));
    RoomIff(s);
    UnclaimedIff(s);
  }

  /** The refusals come in the order of the tests, each naming the first condition that fails. */
  lemma {:induction false} RefusalsNamed(data: seq<byte>, off: Offsets, a: Addrs, s: Segment)
    requires Resolved(data, off, a, s) && Patch(data, off, a, s) != Ok((data, false)) && MarkerReaches(a, s)
    ensures
      var r := Patch(data, off, a, s);
      if !BurstEntryStock(data, off) then r == Err(NotStockPrologue)
      else if s.filesz != s.memsz then r == Err(NonFileBackedTail)
      else if !CaveZero(data, s) then r == Err(CaveNotZero)
      else if !CaveUnclaimed(s) then r == Err(SectionOverlap)
      else if !AllReach(a.(cave := s.vaddr + s.filesz)) then r == Err(BranchRange)
      else if !BulbEntryStock(data, off) then r == Err(NotBulbPrologue)
      else if !IsTwoTo(PageSize(s)) then r == Err(BadAlignment)
      else if !RoomAhead(s) then r == Err(NoGap)
      else r.Ok? ==> r.value.1
  {
    hide Load, CaveSlice, PowerOfTwo, Encodable, BranchesEncodable, AllReach, CaveZero, RoomAhead, IsTwoTo, Crowded,
      CaveUnclaimed, Overlapped, Installed,
      Store, Splice, BranchWord, Blob, PatchCancel, PatchCancelResult, TwoTo, KeepEncodable;
    CaveZeroIff(data, s, s.offset + s.filesz);
    AllReachIff(a.(cave := s.vaddr + s.filesz));
    PowerIff(PageSize(s));
    RoomIff(s);
    UnclaimedIff(s);
    MarkerIff(a, s);
  }

  lemma {:induction false} CancelIff(d: seq<byte>, off: Offsets, a: Addrs)
    requires off.bulb + 0x6E4 <= |d|
    ensures PatchCancel(d, off, a).Ok?
            <==> Load(d, off.bulb + 0x330) in {BranchWord(a.bulb + 0x330, a.bulb + 0x748, 0, false),
                                               BranchWord(a.bulb + 0x330, a.bulb + 0x3A4, 0, false)}
    ensures PatchCancel(d, off, a).Ok? ==>
              forall k: nat | off.bulb + 0x438 <= k <= off.bulb + 0x6E0 ::
                Load(PatchCancel(d, off, a).value.0, k) == Load(d, k)
  {
    hide Load, Store, BranchWord;
    forall k: nat | off.bulb + 0x438 <= k <= off.bulb + 0x6E0
      ensures Load(Store(d, off.bulb + 0x330, BranchWord(a.bulb + 0x330, a.bulb + 0x3A4, 0, false)), k) == Load(d, k)
    {
      StoreElsewhere(d, off.bulb + 0x330, BranchWord(a.bulb + 0x330, a.bulb + 0x3A4, 0, false), k);
    }
  }

  lemma {:induction false} ResultIff(d: seq<byte>, off: Offsets, a: Addrs, cave: int)
    requires off.bulb + 0x6E4 <= |d|
    ensures PatchCancelResult(d, off, a, cave).Ok?
            <==>
            && KeepsReach(a, cave)
            && Load(d, off.bulb + 0x438) in {0xE50B_3010, BranchWord(a.bulb + 0x438, cave + 0x228, 14, false)}
            && Load(d, off.bulb + 0x43C) == 0xE51B_3058 && Load(d, off.bulb + 0x440) == 0xE353_0000
            && Load(d, off.bulb + 0x6DC) in {0xE50B_0010, BranchWord(a.bulb + 0x6DC, cave + 0x2B8, 14, false)}
            && Load(d, off.bulb + 0x6E0) == 0xE24B_3064
  {
    hide Load, Store, BranchWord, Encodable, Reaches;
    ReachesIff(a.bulb + 0x438, cave + 0x228);
    ReachesIff(a.bulb + 0x6DC, cave + 0x2B8);
  }

  lemma {:induction false} StoreShows(d: seq<byte>, at: nat, w: word)
    requires at + 4 <= |d|
    ensures Load(Store(d, at, w), at) == w && (Load(d, at) != w ==> Store(d, at, w) != d)
  {
    LoadStore(d, at, w, at);
  }

  /** Both small patchers report a change exactly if they changed something. */
  lemma {:induction false} ChangesReported(d: seq<byte>, off: Offsets, a: Addrs, cave: int)
    requires off.bulb + 0x6E4 <= |d|
    ensures
      var c, r := PatchCancel(d, off, a), PatchCancelResult(d, off, a, cave);
      && (c.Ok? ==> (c.value.1 <==> c.value.0 != d))
      && (r.Ok? ==> (r.value.1 <==> r.value.0 != d))
  {
    hide Load, Store, BranchWord, Encodable;
    StoreShows(d, off.bulb + 0x330, BranchWord(a.bulb + 0x330, a.bulb + 0x3A4, 0, false));
    var w1 := BranchWord(a.bulb + 0x438, cave + 0x228, 14, false);
    var w2 := BranchWord(a.bulb + 0x6DC, cave + 0x2B8, 14, false);
    var one := Store(d, off.bulb + 0x438, w1);
    StoreShows(d, off.bulb + 0x438, w1);
    StoreShows(d, off.bulb + 0x6DC, w2);
    StoreShows(one, off.bulb + 0x6DC, w2);
    StoreElsewhere(one, off.bulb + 0x6DC, w2, off.bulb + 0x438);
  }

  lemma {:induction false} StockIsNotInstalled(data: seq<byte>, off: Offsets, a: Addrs, s: Segment, marker: word)
    requires Resolved(data, off, a, s) && s.filesz >= TRAMPOLINE_SIZE && BurstEntryStock(data, off)
    requires Encodable(a.burst, marker)
    ensures !Installed(data, off, a, s, marker)
  {
    hide Load, Blob, BranchWord, Encodable;
    BranchFields(a.burst, marker, 14, false);
  }

  /** With nothing to object to, the patch goes ahead exactly if both of the small patchers do. */
  lemma {:induction false} Steps(data: seq<byte>, off: Offsets, a: Addrs, s: Segment)
    requires Resolved(data, off, a, s) && MarkerReaches(a, s) && Ready(data, off, a, s)
    requires s.offset + s.filesz + TRAMPOLINE_SIZE <= |data|
    ensures
      var cave := s.vaddr + s.filesz;
      var d := Splice(Store(data, off.burst, BranchWord(a.burst, cave, 14, false)), s.offset + s.filesz,
                      Blob(a.(cave := cave)));
      var c := PatchCancel(d, off, a);
      Patch(data, off, a, s).Ok? <==> c.Ok? && PatchCancelResult(c.value.0, off, a, cave).Ok?
  {
    hide Load, Encodable, BranchesEncodable, AllReach, CaveZero, RoomAhead, IsTwoTo, Installed, Objection,
      Store, Splice, BranchWord, Blob, PatchCancel, PatchCancelResult, KeepEncodable, MarkerReaches,
      BurstEntryStock, BulbEntryStock, CaveUnclaimed;
    NoObjectionIff(data, off, a, s);
    MarkerIff(a, s);
    if s.filesz >= TRAMPOLINE_SIZE {
      StockIsNotInstalled(data, off, a, s, s.vaddr + s.filesz - TRAMPOLINE_SIZE);
    }
  }

  /** No file is patched unless it is ready, wherever its functions, its cave and its header lie. */
  lemma {:induction false} PatchedIsReady(data: seq<byte>, off: Offsets, a: Addrs, s: Segment)
    requires Resolved(data, off, a, s) && Patch(data, off, a, s).Ok? && Patch(data, off, a, s).value.1
    ensures MarkerReaches(a, s) && Ready(data, off, a, s) && KeepsReach(a, s.vaddr + s.filesz)
  {
    hide Load, Encodable, BranchesEncodable, AllReach, CaveZero, RoomAhead, IsTwoTo, Installed, Objection, Reaches,
      Patch, Image, MarkerReaches, BurstEntryStock, BulbEntryStock, CaveUnclaimed;
    PatchIsMarked(data, off, a, s);
    RefusalsNamed(data, off, a, s);
    PatchShape(data, off, a, s);
    ReachesIff(a.bulb + 0x438, s.vaddr + s.filesz + 0x228);
    ReachesIff(a.bulb + 0x6DC, s.vaddr + s.filesz + 0x2B8);
  }

  lemma {:induction false} PatchIsMarked(data: seq<byte>, off: Offsets, a: Addrs, s: Segment)
    requires Resolved(data, off, a, s) && Patch(data, off, a, s).Ok?
    ensures MarkerReaches(a, s)
  {
    hide Load, Encodable, BranchesEncodable, AllReach, Installed, Objection,
      Store, Splice, BranchWord, Blob, PatchCancel, PatchCancelResult, KeepEncodable, KeepsReach;
    MarkerIff(a, s);
  }

  /** Exactly the ready files whose three Bulb sites are known are patched: each unmet condition alone is refused. */
  lemma {:induction false} PatchedIff(data: seq<byte>, off: Offsets, a: Addrs, s: Segment)
    requires Resolved(data, off, a, s) && SitesApart(off, s)
    ensures Patch(data, off, a, s).Ok? && Patch(data, off, a, s).value.1
            <==>
            && MarkerReaches(a, s) && Ready(data, off, a, s) && KeepsReach(a, s.vaddr + s.filesz)
            && SitesKnown(data, off, a, s.vaddr + s.filesz)
  {
    hide Load, Encodable, BranchesEncodable, AllReach, CaveZero, IsTwoTo, Installed, Objection, KeepsReach,
      Patch, Image, MarkerReaches, BurstEntryStock, BulbEntryStock, CaveUnclaimed, Store, Splice, BranchWord, Blob,
      PatchCancel, PatchCancelResult;
    if Patch(data, off, a, s).Ok? && Patch(data, off, a, s).value.1 {
      PatchedIsReady(data, off, a, s);
    }
    if MarkerReaches(a, s) && Ready(data, off, a, s) {
      var cave := s.vaddr + s.filesz;
      var w, blob := BranchWord(a.burst, cave, 14, false), Blob(a.(cave := cave));
      var d := Splice(Store(data, off.burst, w), s.offset + s.filesz, blob);
      Steps(data, off, a, s);
      SiteWordsKept(data, off.burst, w, s.offset + s.filesz, blob, off);
      CancelIff(d, off, a);
      if PatchCancel(d, off, a).Ok? {
        ResultIff(PatchCancel(d, off, a).value.0, off, a, cave);
      }
      ReadyIsNew(data, off, a, s);
    }
  }

  lemma {:induction false} ReadyIsNew(data: seq<byte>, off: Offsets, a: Addrs, s: Segment)
    requires Resolved(data, off, a, s) && MarkerReaches(a, s) && Ready(data, off, a, s)
    ensures Patch(data, off, a, s).Ok? ==> Patch(data, off, a, s).value.1
  {
    hide Load, Encodable, BranchesEncodable, AllReach, CaveZero, RoomAhead, IsTwoTo, Installed, Objection,
      Store, Splice, BranchWord, Blob, PatchCancel, PatchCancelResult, KeepEncodable, MarkerReaches,
      BurstEntryStock, BulbEntryStock, CaveUnclaimed;
    MarkerIff(a, s);
    if s.filesz >= TRAMPOLINE_SIZE {
      StockIsNotInstalled(data, off, a, s, s.vaddr + s.filesz - TRAMPOLINE_SIZE);
    }
  }

  // ------------------------------------------------------------ already patched

  function Shortened(s: Segment): Segment
    requires s.filesz >= 0x300 && s.memsz >= 0x300
  {
    s.(filesz := s.filesz - 0x300, memsz := s.memsz - 0x300)
  }

  /** Writing the patch over the end of the file's segment would change nothing. */
  predicate Carries(data: seq<byte>, off: Offsets, a: Addrs, s: Segment)
    requires Resolved(data, off, a, s)
  {
    && s.filesz >= 0x300 && s.filesz == s.memsz && s.offset + s.filesz <= |data|
    && data == Image(data, off, a, Shortened(s))
  }

  /** A file is reported as patched already exactly if every byte the patch would write is there. */
  lemma {:induction false} CarriesIff(data: seq<byte>, off: Offsets, a: Addrs, s: Segment)
    requires Resolved(data, off, a, s)
    requires Load(data, s.phdr + 16) == s.filesz && Load(data, s.phdr + 20) == s.memsz
    requires s.filesz >= 0x300 && s.memsz >= 0x300 ==> SitesApart(off, Shortened(s))
    ensures Patch(data, off, a, s) == Ok((data, false)) <==> MarkerReaches(a, s) && Carries(data, off, a, s)
  {
    hide Load, Encodable, BranchesEncodable, AllReach, Installed, Objection, Store, Splice, BranchWord, Blob,
      PatchCancel, PatchCancelResult, KeepEncodable, KeepsReach, Image, SitesApart;
    MarkerIff(a, s);
    if s.filesz >= 0x300 && s.filesz == s.memsz {
      InstalledIff(data, off, a, s);
    }
  }

  lemma {:induction false} InstalledIff(data: seq<byte>, off: Offsets, a: Addrs, s: Segment)
    requires Resolved(data, off, a, s) && s.filesz >= 0x300 && s.filesz == s.memsz
    requires Load(data, s.phdr + 16) == s.filesz && Load(data, s.phdr + 20) == s.memsz
    requires SitesApart(off, Shortened(s))
    ensures Installed(data, off, a, s, s.vaddr + s.filesz - 0x300) <==> Carries(data, off, a, s)
  {
    hide Load, BranchWord, Blob, Image, SitesApart;
    if s.offset + s.filesz <= |data| {
      if data == Image(data, off, a, Shortened(s)) {
        ImageWords(data, off, a, Shortened(s));
      }
      if Installed(data, off, a, s, s.vaddr + s.filesz - 0x300) {
        ImageThere(data, off, a, s);
      }
    }
  }

  lemma {:induction false} ImageThere(data: seq<byte>, off: Offsets, a: Addrs, s: Segment)
    requires Resolved(data, off, a, s) && s.filesz >= 0x300 && s.filesz == s.memsz && s.offset + s.filesz <= |data|
    requires Load(data, s.phdr + 16) == s.filesz && Load(data, s.phdr + 20) == s.memsz
    requires SitesApart(off, Shortened(s)) && Installed(data, off, a, s, s.vaddr + s.filesz - 0x300)
    ensures data == Image(data, off, a, Shortened(s))
  {
    hide Load, BranchWord, Blob, Image, SitesApart, ByteOf;
    LoadedBytes(data, off.burst);
    LoadedBytes(data, off.bulb + 0x330);
    LoadedBytes(data, off.bulb + 0x438);
    LoadedBytes(data, off.bulb + 0x6DC);
    LoadedBytes(data, s.phdr + 16);
    LoadedBytes(data, s.phdr + 20);
    var lo := s.offset + s.filesz - 0x300;
    forall i | 0 <= i < |data|
      ensures data[i] == Image(data, off, a, Shortened(s))[i]
    {
      ImageAt(data, off, a, Shortened(s), i);
      if lo <= i < lo + 0x300 {
        assert data[i] == data[lo..lo + 0x300][i - lo];
      }
    }
  }

  lemma LoadedBytes(d: seq<byte>, at: nat)
    requires at + 4 <= |d|
    ensures forall i :: at <= i < at + 4 ==> d[i] == ByteOf(Load(d, at), i - at)
  {
    BytesPack(d[at], d[at + 1], d[at + 2], d[at + 3]);
    hide ByteOf, Pack;
  }
}
