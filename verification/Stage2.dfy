/**
 stage2_patch.py: the byte runs a base image protects, the collision guard, the indirect-jump
 trampolines written over the boundary entries, and what the processor does with one.
 */
module Stage2 {
  import opened Words
  import opened Arm
  import opened Buffers

  const TRAMP_BYTES := 12
  const LDR_R12_PC0: word := 0xE59F_C000
  const LDR_PC_R12: word := 0xE59C_F000
  const SLOT_SZ := 4
  const SLOT_BASE := 0x3000_0000

  // ---------------------------------------------------------- protected runs

  // A run of bytes: file offset and length.
  datatype Run = Run(off: nat, len: nat)

  predicate Differs(stock: seq<byte>, base: seq<byte>, i: int)
    requires |stock| == |base|
  {
    0 <= i < |stock| && stock[i] != base[i]
  }

  predicate Covers(r: Run, i: int) {
    r.off <= i < r.off + r.len
  }

  /** A non-empty stretch of differing bytes that cannot be extended either way. */
  ghost predicate Maximal(stock: seq<byte>, base: seq<byte>, r: Run)
    requires |stock| == |base|
  {
    && r.len > 0 && (forall i :: Covers(r, i) ==> Differs(stock, base, i))
    && !Differs(stock, base, r.off - 1) && !Differs(stock, base, r.off + r.len)
  }

  /** All the maximal runs that start below n, in ascending order. */
  ghost predicate RunsBelow(stock: seq<byte>, base: seq<byte>, n: nat, runs: seq<Run>)
    requires |stock| == |base|
  {
    && (forall k :: 0 <= k < |runs| ==> Maximal(stock, base, runs[k]) && runs[k].off < n)
    && (forall k :: 0 < k < |runs| ==> runs[k - 1].off + runs[k - 1].len < runs[k].off)
    && (forall i :: 0 <= i < n && Differs(stock, base, i) ==> exists k :: 0 <= k < |runs| && Covers(runs[k], i))
  }

  ghost predicate ExactRuns(stock: seq<byte>, base: seq<byte>, runs: seq<Run>)
    requires |stock| == |base|
  {
    RunsBelow(stock, base, |stock|, runs)
  }

  lemma {:induction false} RunsAdd(stock: seq<byte>, base: seq<byte>, i: nat, j: nat, runs: seq<Run>)
    requires |stock| == |base| && RunsBelow(stock, base, i, runs) && i < j <= |stock|
    requires forall k :: i <= k < j ==> Differs(stock, base, k)
    requires !Differs(stock, base, i - 1) && !Differs(stock, base, j)
    ensures RunsBelow(stock, base, j, runs + [Run(i, j - i)])
  {
    var more := runs + [Run(i, j - i)];
    assert Maximal(stock, base, Run(i, j - i));
    if runs != [] {
      LastEndsBefore(stock, base, i, runs[|runs| - 1]);
    }
    forall q | 0 <= q < j && Differs(stock, base, q)
      ensures exists k :: 0 <= k < |more| && Covers(more[k], q)
    {
      if q < i {
        var k :| 0 <= k < |runs| && Covers(runs[k], q);
        assert Covers(more[k], q);
      } else {
        assert Covers(more[|runs|], q);
      }
    }
  }

  /** A run that starts before an equal byte ends before it. */
  lemma LastEndsBefore(stock: seq<byte>, base: seq<byte>, i: nat, r: Run)
    requires |stock| == |base| && Maximal(stock, base, r) && r.off < i && !Differs(stock, base, i - 1)
    ensures r.off + r.len < i
  {
    if r.off + r.len >= i {
      assert Covers(r, i - 1);
      assert false;
    }
  }

  /** `reliability_ranges`; None is the refusal of images of different size. */
  method ReliabilityRanges(base: seq<byte>, stock: seq<byte>) returns (runs: Option<seq<Run>>)
    ensures runs.Some? <==> |stock| == |base|
    ensures runs.Some? ==> ExactRuns(stock, base, runs.value)
  {
    if |stock| != |base| {
      return None;
    }
    hide RunsBelow;
    var out: seq<Run> := [];
    var i, n := 0, |stock|;
    RunsNone(stock, base);
    while i < n
      invariant 0 <= i <= n && RunsBelow(stock, base, i, out)
      invariant Differs(stock, base, i) ==> !Differs(stock, base, i - 1)
    {
      if stock[i] != base[i] {
        var j := i;
        while j < n && stock[j] != base[j]
          invariant i <= j <= n && (j == i ==> Differs(stock, base, i))
          invariant forall k :: i <= k < j ==> Differs(stock, base, k)
        {
          j := j + 1;
        }
        RunsAdd(stock, base, i, j, out);
        out := out + [Run(i, j - i)];
        i := j;
      } else {
        RunsSkip(stock, base, i, out);
        i := i + 1;
      }
    }
    runs := Some(out);
  }

  lemma RunsNone(stock: seq<byte>, base: seq<byte>)
    requires |stock| == |base|
    ensures RunsBelow(stock, base, 0, [])
  {
  }

  lemma RunsSkip(stock: seq<byte>, base: seq<byte>, i: nat, runs: seq<Run>)
    requires |stock| == |base| && RunsBelow(stock, base, i, runs) && !Differs(stock, base, i)
    ensures RunsBelow(stock, base, i + 1, runs)
  {
  }

  lemma {:induction false} OverlapEqual(stock: seq<byte>, base: seq<byte>, r: Run, q: Run)
    requires |stock| == |base| && Maximal(stock, base, r) && Maximal(stock, base, q) && Covers(q, r.off)
    ensures r == q
  {
    if q.off < r.off {
      assert Covers(q, r.off - 1);
      assert false;
    }
    if q.len < r.len {
      assert Covers(r, q.off + q.len);
      assert false;
    }
    if r.len < q.len {
      assert Covers(q, r.off + r.len);
      assert false;
    }
  }

  lemma {:induction false} RunsShared(stock: seq<byte>, base: seq<byte>, a: seq<Run>, b: seq<Run>)
    requires |stock| == |base| && ExactRuns(stock, base, a) && ExactRuns(stock, base, b)
    ensures forall r <- a :: r in b
  {
    forall r <- a
      ensures r in b
    {
      assert Covers(r, r.off);
      var k :| 0 <= k < |b| && Covers(b[k], r.off);
      OverlapEqual(stock, base, r, b[k]);
    }
  }

  predicate Ascending(a: seq<Run>) {
    forall i, j :: 0 <= i < j < |a| ==> a[i].off < a[j].off
  }

  lemma {:induction false} AscendingSame(a: seq<Run>, b: seq<Run>)
    requires Ascending(a) && Ascending(b) && (forall r :: r in a <==> r in b) && (a == [] <==> b == [])
    ensures a == b
    decreases |a|
  {
    if a != [] {
      assert a[0] in b && b[0] in a;
      assert a[0] == b[0];
      forall r
        ensures r in a[1..] <==> r in b[1..]
      {
        assert r in a[1..] <==> r in a && r != a[0];
        assert r in b[1..] <==> r in b && r != b[0];
      }
      if |a| > 1 {
        assert a[1] in a[1..];
      }
      if |b| > 1 {
        assert b[1] in b[1..];
      }
      AscendingSame(a[1..], b[1..]);
    }
  }

  lemma {:induction false} NoneMissed(stock: seq<byte>, base: seq<byte>, a: seq<Run>, b: seq<Run>)
    requires |stock| == |base| && ExactRuns(stock, base, a) && ExactRuns(stock, base, b) && b != []
    ensures a != []
  {
    assert Covers(b[0], b[0].off);
  }

  lemma {:induction false} RunsAscend(stock: seq<byte>, base: seq<byte>, a: seq<Run>, i: nat, j: nat)
    requires |stock| == |base| && ExactRuns(stock, base, a) && i < j < |a|
    ensures a[i].off < a[j].off
    decreases j
  {
    if i < j - 1 {
      RunsAscend(stock, base, a, i, j - 1);
    }
  }

  /** There is only one such list: the answer is determined by the two images. */
  lemma {:induction false} RunsUnique(stock: seq<byte>, base: seq<byte>, a: seq<Run>, b: seq<Run>)
    requires |stock| == |base| && ExactRuns(stock, base, a) && ExactRuns(stock, base, b)
    ensures a == b
  {
    RunsShared(stock, base, a, b);
    RunsShared(stock, base, b, a);
    if a != [] {
      NoneMissed(stock, base, b, a);
    }
    if b != [] {
      NoneMissed(stock, base, a, b);
    }
    forall i: nat, j: nat | i < j < |a| {
      RunsAscend(stock, base, a, i, j);
    }
    forall i: nat, j: nat | i < j < |b| {
      RunsAscend(stock, base, b, i, j);
    }
    AscendingSame(a, b);
  }

  /** The runs cover exactly the bytes at which the two images differ. */
  lemma {:induction false} ProtectedAre(stock: seq<byte>, base: seq<byte>, runs: seq<Run>, i: nat)
    requires |stock| == |base| && ExactRuns(stock, base, runs) && i < |stock|
    ensures stock[i] != base[i] <==> exists r <- runs :: r.off <= i < r.off + r.len
  {
    if stock[i] != base[i] {
      assert Differs(stock, base, i);
      var k :| 0 <= k < |runs| && Covers(runs[k], i);
      assert runs[k] in runs;
    }
    if r :| r in runs && r.off <= i < r.off + r.len {
      var k :| 0 <= k < |runs| && runs[k] == r;
      assert Maximal(stock, base, runs[k]) && Covers(runs[k], i);
      assert Differs(stock, base, i);
    }
  }

  // ----------------------------------------------------------------- writing

  function SlotOf(i: nat): nat {
    SLOT_BASE + SLOT_SZ * i
  }

  /** The slots of n entries are addressable. */
  predicate Slotted(n: nat) {
    SlotOf(n) <= 0x1_0000_0000
  }

  // A LOAD segment's span of addresses.
  datatype Span = Span(lo: nat, hi: nat)

  /** The slot region must not meet any LOAD segment of the image. */
  predicate SlotsClear(n: nat, loads: seq<Span>) {
    forall s <- loads :: !(SLOT_BASE < s.hi && SlotOf(n) > s.lo)
  }

  predicate Spans(s: Span, a: nat) {
    s.lo <= a < s.hi
  }

  /** With slots to place and no empty segment, that is: no slot has an address inside one. */
  lemma {:induction false} SlotsClearIff(n: nat, loads: seq<Span>)
    requires n > 0 && forall s <- loads :: s.lo < s.hi
    ensures SlotsClear(n, loads)
            <==> forall s <- loads, a: nat :: Spans(s, a) ==> !(0x3000_0000 <= a < 0x3000_0000 + 4 * n)
  {
    if forall s <- loads, a: nat :: Spans(s, a) ==> !(0x3000_0000 <= a < 0x3000_0000 + 4 * n) {
      forall s <- loads
        ensures !(SLOT_BASE < s.hi && SlotOf(n) > s.lo)
      {
        var a := if s.lo > SLOT_BASE then s.lo else SLOT_BASE;
        assert Spans(s, a) <==> a < s.hi;
      }
    }
  }

  function Trampoline(data: seq<byte>, off: nat, slot: word): (r: seq<byte>)
    requires off + TRAMP_BYTES <= |data|
    ensures |r| == |data|
  {
    Store(Store(Store(data, off, LDR_R12_PC0), off + 4, LDR_PC_R12), off + 8, slot)
  }

  /** Every trampoline fits in the image. */
  predicate Fit(data: seq<byte>, entries: seq<nat>) {
    forall i :: 0 <= i < |entries| ==> entries[i] + TRAMP_BYTES <= |data|
  }

  /** The image after the first n trampolines, in boundary order. */
  function Applied(data: seq<byte>, entries: seq<nat>, n: nat): (r: seq<byte>)
    requires Fit(data, entries) && n <= |entries| && Slotted(|entries|)
    ensures |r| == |data|
  {
    if n == 0 then data else Trampoline(Applied(data, entries, n - 1), entries[n - 1], SlotOf(n - 1))
  }

  /** Some trampoline would touch the run. */
  predicate Collides(entries: seq<nat>, r: Run) {
    exists i :: 0 <= i < |entries| && entries[i] < r.off + r.len && entries[i] + TRAMP_BYTES > r.off
  }

  predicate Guarded(entries: seq<nat>, runs: seq<Run>) {
    forall r <- runs :: !Collides(entries, r)
  }

  predicate Inside(entries: seq<nat>, k: int) {
    exists i :: 0 <= i < |entries| && entries[i] <= k < entries[i] + TRAMP_BYTES
  }

  /** Only the twelve bytes at each entry change. */
  lemma {:induction false} OnlyEntriesChange(data: seq<byte>, entries: seq<nat>, n: nat, k: nat)
    requires Fit(data, entries) && n <= |entries| && Slotted(|entries|) && k < |data| && !Inside(entries, k)
    ensures Applied(data, entries, n)[k] == data[k]
    decreases n
  {
    if n > 0 {
      OnlyEntriesChange(data, entries, n - 1, k);
      assert !(entries[n - 1] <= k < entries[n - 1] + TRAMP_BYTES);
    }
  }

  /** Once the guard has passed no protected byte is ever written, so the re-check afterwards cannot fire. */
  lemma {:induction false} GuardProtects(data: seq<byte>, entries: seq<nat>, runs: seq<Run>, r: Run)
    requires Fit(data, entries) && Slotted(|entries|) && Guarded(entries, runs) && r in runs && r.off + r.len <= |data|
    ensures Applied(data, entries, |entries|)[r.off..r.off + r.len] == data[r.off..r.off + r.len]
  {
    forall k: nat | r.off <= k < r.off + r.len
      ensures Applied(data, entries, |entries|)[k] == data[k]
    {
      OnlyEntriesChange(data, entries, |entries|, k);
    }
  }

  method WriteTrampoline(buf: array<byte>, off: nat, slot: word)
    requires off + TRAMP_BYTES <= buf.Length
    modifies buf
    ensures buf[..] == Trampoline(old(buf[..]), off, slot)
  {
    PackInto(buf, off, LDR_R12_PC0);
    PackInto(buf, off + 4, LDR_PC_R12);
    PackInto(buf, off + 8, slot);
  }

  datatype Verdict = Refused | Collision | Clobbered | Written(image: seq<byte>)

  /** The part of `main` between resolving the entries and writing the file; `stock` is the reliability base, if any. */
  method Patch(base: seq<byte>, stock: Option<seq<byte>>, entries: seq<nat>, loads: seq<Span>) returns (v: Verdict)
    requires Fit(base, entries) && Slotted(|entries|)
    ensures
      if !SlotsClear(|entries|, loads) || (stock.Some? && |stock.value| != |base|) then v == Refused
      else if stock.Some? && exists k :: 0 <= k < |base| && Differs(stock.value, base, k) && Inside(entries, k)
           then v == Collision
      else v == Written(Applied(base, entries, |entries|))
  {
    hide Applied, Trampoline;
    if exists s <- loads :: SLOT_BASE < s.hi && SlotOf(|entries|) > s.lo {
      return Refused;
    }
    var runs: seq<Run> := [];
    if stock.Some? {
      var found := ReliabilityRanges(base, stock.value);
      if found.None? {
        return Refused;
      }
      runs := found.value;
      GuardIff(stock.value, base, entries, runs);
    }
    var clear := Guard(entries, runs);
    if !clear {
      return Collision;
    }
    var image := Write(base, entries);
    ghost var done := image;
    for i := 0 to |runs|
      invariant image == done
    {
      var r := runs[i];
      RunFits(stock.value, base, runs, i);
      GuardProtects(base, entries, runs, r);
      if image[r.off..r.off + r.len] != base[r.off..r.off + r.len] {
        return Clobbered;
      }
    }
    v := Written(image);
  }

  method Guard(entries: seq<nat>, runs: seq<Run>) returns (clear: bool)
    ensures clear == Guarded(entries, runs)
  {
    for i := 0 to |entries|
      invariant forall k, j :: 0 <= k < i && 0 <= j < |runs| ==>
                  !(entries[k] < runs[j].off + runs[j].len && entries[k] + TRAMP_BYTES > runs[j].off)
    {
      for j := 0 to |runs|
        invariant forall m :: 0 <= m < j ==>
                    !(entries[i] < runs[m].off + runs[m].len && entries[i] + TRAMP_BYTES > runs[m].off)
      {
        if entries[i] < runs[j].off + runs[j].len && entries[i] + TRAMP_BYTES > runs[j].off {
          assert runs[j] in runs && Collides(entries, runs[j]);
          return false;
        }
      }
    }
    clear := true;
  }

  method Write(base: seq<byte>, entries: seq<nat>) returns (image: seq<byte>)
    requires Fit(base, entries) && Slotted(|entries|)
    ensures image == Applied(base, entries, |entries|)
  {
    hide Trampoline;
    var buf := CopyOf(base);
    for i := 0 to |entries|
      invariant buf[..] == Applied(base, entries, i)
    {
      WriteTrampoline(buf, entries[i], SLOT_BASE + i * SLOT_SZ);
    }
    image := buf[..];
  }

  lemma RunFits(stock: seq<byte>, base: seq<byte>, runs: seq<Run>, i: nat)
    requires |stock| == |base| && ExactRuns(stock, base, runs) && i < |runs|
    ensures runs[i].off + runs[i].len <= |base|
  {
    assert Covers(runs[i], runs[i].off + runs[i].len - 1);
  }

  /** The guard on runs refuses exactly when a trampoline would overwrite a byte that differs from stock. */
  lemma {:induction false} GuardIff(stock: seq<byte>, base: seq<byte>, entries: seq<nat>, runs: seq<Run>)
    requires |stock| == |base| && ExactRuns(stock, base, runs)
    ensures Guarded(entries, runs) <==> !exists k :: 0 <= k < |base| && Differs(stock, base, k) && Inside(entries, k)
  {
    if k :| 0 <= k < |base| && Differs(stock, base, k) && Inside(entries, k) {
      var j :| 0 <= j < |runs| && Covers(runs[j], k);
      assert runs[j] in runs && Collides(entries, runs[j]);
    }
    if r :| r in runs && Collides(entries, r) {
      var i :| 0 <= i < |entries| && entries[i] < r.off + r.len && entries[i] + TRAMP_BYTES > r.off;
      var k := if entries[i] > r.off then entries[i] else r.off;
      assert Covers(r, k) && Inside(entries, k);
    }
  }

  // --------------------------------------------------------------- execution

  /** The word is an unconditional LDR with immediate offset (DDI 0406C section A8.8.63). */
  predicate IsLdr(w: word) {
    var t := TransferOf(w);
    w / 0x1000_0000 == 0xE && w / 0x200_0000 % 8 == 2 && t.load && t.indexed && !t.isByte && !t.writeBack
  }

  datatype Core = Core(pc: word, r12: word)

  // Addresses to words; an absent address faults.
  type Memory = map<int, word>

  /** One load: the program counter reads as the instruction's address plus eight, and loading it jumps. */
  function StepLdr(m: Memory, s: Core): Option<Core> {
    if s.pc !in m || !IsLdr(m[s.pc]) then None
    else
      var i := TransferOf(m[s.pc]);
      if i.rn != 15 && i.rn != 12 then None
      else
        var at := Wrap((if i.rn == 15 then s.pc + 8 else s.r12) + i.disp);
        if at !in m || at % 4 != 0 then None
        else if i.rt == 15 then Some(Core(m[at], s.r12))
        else if i.rt == 12 then Some(Core(Wrap(s.pc + 4), m[at]))
        else None
  }

  lemma TrampolineWords()
    ensures IsLdr(LDR_R12_PC0) && TransferOf(LDR_R12_PC0) == Transfer(true, 0, false, false, true, 12, 15)
    ensures IsLdr(LDR_PC_R12) && TransferOf(LDR_PC_R12) == Transfer(true, 0, false, false, true, 15, 12)
  {
  }

  /** No trampoline written after the i-th overlaps it. */
  predicate Undisturbed(entries: seq<nat>, i: nat)
    requires i < |entries|
  {
    forall j :: i < j < |entries| ==> entries[j] + TRAMP_BYTES <= entries[i] || entries[i] + TRAMP_BYTES <= entries[j]
  }

  lemma {:induction false} TrampolineStands(data: seq<byte>, entries: seq<nat>, i: nat, n: nat)
    requires Fit(data, entries) && Slotted(|entries|) && i < n <= |entries| && Undisturbed(entries, i)
    ensures
      var image := Applied(data, entries, n);
      Load(image, entries[i]) == LDR_R12_PC0 && Load(image, entries[i] + 4) == LDR_PC_R12
      && Load(image, entries[i] + 8) == SlotOf(i)
    decreases n
  {
    hide Load, Store;
    var d := Applied(data, entries, n - 1);
    var off, slot := entries[n - 1], SlotOf(n - 1);
    var d1 := Store(d, off, LDR_R12_PC0);
    var d2 := Store(d1, off + 4, LDR_PC_R12);
    if i < n - 1 {
      TrampolineStands(data, entries, i, n - 1);
    }
    WordKept(d, d1, d2, off, slot, entries[i]);
    WordKept(d, d1, d2, off, slot, entries[i] + 4);
    WordKept(d, d1, d2, off, slot, entries[i] + 8);
  }

  lemma WordKept(d: seq<byte>, d1: seq<byte>, d2: seq<byte>, off: nat, slot: word, at: nat)
    requires off + TRAMP_BYTES <= |d| && at + 4 <= |d|
    requires d1 == Store(d, off, LDR_R12_PC0) && d2 == Store(d1, off + 4, LDR_PC_R12)
    ensures at + 4 <= off || off + TRAMP_BYTES <= at ==> Load(Store(d2, off + 8, slot), at) == Load(d, at)
    ensures at == off ==> Load(Store(d2, off + 8, slot), at) == LDR_R12_PC0
    ensures at == off + 4 ==> Load(Store(d2, off + 8, slot), at) == LDR_PC_R12
    ensures at == off + 8 ==> Load(Store(d2, off + 8, slot), at) == slot
  {
    hide Load, Store;
    LoadStore(d, off, LDR_R12_PC0, at);
    LoadStore(d1, off + 4, LDR_PC_R12, at);
    LoadStore(d2, off + 8, slot, at);
  }

  /** The image's words as a segment maps them: file offset plus `delta` is the address. */
  ghost predicate Maps(m: Memory, image: seq<byte>, delta: int) {
    forall off: nat :: off + 4 <= |image| && (off + delta) % 4 == 0 && 0 <= off + delta < TWO32 ==>
      off + delta in m && m[off + delta] == Load(image, off)
  }

  /**
   Calling boundary entry i of the patched image jumps, in two instructions and through r12 alone,
   to whatever the loader has put in slot i.
   */
  lemma {:induction false} EntryJumps(data: seq<byte>, entries: seq<nat>, i: nat, m: Memory, delta: int, r12: word)
    requires Fit(data, entries) && Slotted(|entries|) && i < |entries| && Undisturbed(entries, i)
    requires Maps(m, Applied(data, entries, |entries|), delta) && SlotOf(i) in m
    requires (entries[i] + delta) % 4 == 0 && 0 <= entries[i] + delta && entries[i] + delta + TRAMP_BYTES <= TWO32
    ensures
      var one := StepLdr(m, Core(entries[i] + delta, r12));
      one == Some(Core(entries[i] + delta + 4, SlotOf(i)))
      && StepLdr(m, one.value) == Some(Core(m[SlotOf(i)], SlotOf(i)))
  {
    hide Load, Applied;
    TrampolineStands(data, entries, i, |entries|);
    TrampolineWords();
    var pc := entries[i] + delta;
    assert (entries[i] + 4 + delta) % 4 == 0 && (entries[i] + 8 + delta) % 4 == 0;
    assert m[pc] == LDR_R12_PC0 && m[pc + 4] == LDR_PC_R12 && m[pc + 8] == SlotOf(i);
  }
}
