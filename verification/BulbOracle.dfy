/** The library contracts are consistent: whatever it would answer, some oracle answers every call as they ask. */
module BulbOracle {
  import opened Words
  import opened Arm
  import opened BulbTable
  import opened BulbMachine
  import opened BulbText

  predicate NoNul(s: seq<byte>) {
    forall i :: 0 <= i < |s| ==> s[i] != 0
  }

  /** A string of the library's own, clear of the stack and of the trampoline. */
  predicate Placed(p: Platform, ptr: int, s: seq<byte>) {
    && NoNul(s) && 0 <= ptr && ptr + |s| < TWO32
    && (ptr + |s| < p.stackLow || p.stackTop <= ptr)
    && (ptr + |s| < p.a.cave || p.a.cave + TRAMPOLINE_SIZE <= ptr)
  }

  /** A world whose strings have a place to be. */
  predicate Possible(p: Platform, w: World) {
    && (w.manufacturer != 0 ==> Placed(p, w.manufacturer, w.manufacturerText))
    && NoNul(w.name) && |w.name| < 2048
    && (w.value.Some? && w.value.value != 0 ==> Placed(p, w.value.value, w.text))
  }

  /** The byte at `at` once the string and its NUL are written at `ptr`. */
  function ByteOver(mem: Memory, ptr: int, s: seq<byte>, at: int): byte {
    if ptr <= at < ptr + |s| then s[at - ptr]
    else if at == ptr + |s| || ByteAt(mem, at).None? then 0
    else ByteAt(mem, at).value
  }

  function WordOver(mem: Memory, ptr: int, s: seq<byte>, a: int): word {
    Pack(ByteOver(mem, ptr, s, a), ByteOver(mem, ptr, s, a + 1),
         ByteOver(mem, ptr, s, a + 2), ByteOver(mem, ptr, s, a + 3))
  }

  predicate Aligned(a: int) {
    a % 4 == 0
  }

  /** Memory with the string and its NUL written at any address. */
  function Written(mem: Memory, ptr: int, s: seq<byte>): Memory {
    mem + map a | ptr - 3 <= a <= ptr + |s| && Aligned(a) :: WordOver(mem, ptr, s, a)
  }

  lemma BytesOver(mem: Memory, ptr: int, s: seq<byte>, a: int, j: nat)
    requires j < 4
    ensures ByteOf(WordOver(mem, ptr, s, a), j) == ByteOver(mem, ptr, s, a + j)
  {
    hide Pack, ByteOf, ByteOver;
    BytesPack(ByteOver(mem, ptr, s, a), ByteOver(mem, ptr, s, a + 1), ByteOver(mem, ptr, s, a + 2),
              ByteOver(mem, ptr, s, a + 3));
  }

  lemma WrittenByte(mem: Memory, ptr: int, s: seq<byte>, i: nat)
    requires i <= |s|
    ensures ByteAt(Written(mem, ptr, s), ptr + i) == Some(if i < |s| then s[i] else 0)
  {
    hide WordOver, ByteOf;
    var a := ptr + i - (ptr + i) % 4;
    assert Aligned(a);
    assert Written(mem, ptr, s)[a] == WordOver(mem, ptr, s, a);
    BytesOver(mem, ptr, s, a, (ptr + i) % 4);
  }

  /** Whole words of stack or trampoline lie apart from a placed string. */
  lemma WrittenString(mem: Memory, ptr: int, s: seq<byte>)
    requires NoNul(s) && ptr + |s| < TWO32
    ensures CString(Written(mem, ptr, s), ptr, s)
    ensures forall k :: !(ptr - 3 <= k <= ptr + |s| && Aligned(k)) ==> SameAt(mem, Written(mem, ptr, s), k)
    ensures forall k :: k in mem ==> k in Written(mem, ptr, s)
  {
    hide WordOver, ByteAt;
    forall i | 0 <= i < |s|
      ensures ByteAt(Written(mem, ptr, s), ptr + i) == Some(s[i])
    {
      WrittenByte(mem, ptr, s, i);
    }
    WrittenByte(mem, ptr, s, |s|);
  }

  // ----------------------------------------------------------------- searches

  lemma NoNulBefore(mem: Memory, ptr: int, t: seq<byte>, i: nat)
    requires CString(mem, ptr, t) && i < |t|
    ensures ByteAt(mem, ptr + i) != Some(0)
  {
    hide ByteAt;
    assert t[i] != 0;
  }

  lemma NulEnds(mem: Memory, ptr: int, s: seq<byte>, t: seq<byte>)
    requires CString(mem, ptr, s) && CString(mem, ptr, t)
    ensures |t| <= |s|
  {
    hide ByteAt;
    if |s| < |t| {
      NoNulBefore(mem, ptr, t, |s|);
      assert false;
    }
  }

  lemma {:induction false} StringUnique(mem: Memory, ptr: int, s: seq<byte>, t: seq<byte>)
    requires CString(mem, ptr, s) && CString(mem, ptr, t)
    ensures s == t
  {
    hide ByteAt;
    NulEnds(mem, ptr, s, t);
    NulEnds(mem, ptr, t, s);
    assert forall i :: 0 <= i < |s| ==> ByteAt(mem, ptr + i) == Some(s[i]) && ByteAt(mem, ptr + i) == Some(t[i]);
  }

  lemma SearchResult(hay: seq<byte>, needle: seq<byte>, start: word) returns (r: word)
    requires start + |hay| < TWO32
    ensures Found(hay, needle, start, r)
  {
    if i :| OccursAt(hay, needle, i) {
      var first := FirstExists(hay, needle, i);
      r := start + first;
    } else {
      r := 0;
    }
  }

  lemma FoldedLength(s: seq<byte>)
    ensures |Fold(s)| == |s|
  {
  }

  /** What a search must answer about the strings its arguments point to. */
  ghost predicate AnswersSearch(mem: Memory, r0: word, r1: word, fold: bool, r: word) {
    forall hay, needle :: CString(mem, r0, hay) && CString(mem, r1, needle) ==>
      if fold then Found(Fold(hay), Fold(needle), r0, r) else Found(hay, needle, r0, r)
  }

  lemma SearchAnswer(mem: Memory, r0: word, r1: word, fold: bool) returns (r: word)
    ensures AnswersSearch(mem, r0, r1, fold, r)
  {
    hide CString, Found, Fold;
    r := 0;
    if hay, needle :| CString(mem, r0, hay) && CString(mem, r1, needle) {
      StringEnds(mem, r0, hay);
      FoldedLength(hay);
      if fold {
        r := SearchResult(Fold(hay), Fold(needle), r0);
      } else {
        r := SearchResult(hay, needle, r0);
      }
      forall h, n | CString(mem, r0, h) && CString(mem, r1, n)
        ensures h == hay && n == needle
      {
        StringUnique(mem, r0, h, hay);
        StringUnique(mem, r1, n, needle);
      }
    }
  }

  lemma StringEnds(mem: Memory, ptr: int, s: seq<byte>)
    requires CString(mem, ptr, s)
    ensures ptr + |s| < TWO32
  {
  }

  // ------------------------------------------------------------------ replies

  function Answering(m: Machine, r0: word, mem: Memory): Reply {
    Reply(r0, m.cpu.r.r1, m.cpu.r.r2, m.cpu.r.r3, m.cpu.r.lr, m.cpu.f, mem)
  }

  /** The word a callback leaves in its output slot. */
  function Slotted(m: Machine, slot: word, written: Option<word>): Memory {
    m.cpu.mem[slot := if written.Some? then written.value
                      else if slot in m.cpu.mem then m.cpu.mem[slot] else 0]
  }

  lemma SearchReply(p: Platform, w: World, m: Machine, c: Callee) returns (y: Reply)
    requires c == StrCaseStr || c == StrStr
    ensures Permitted(p, w, m, c, y)
  {
    hide CString, Found, Fold;
    var r := SearchAnswer(m.cpu.mem, m.cpu.r.r0, m.cpu.r.r1, c == StrCaseStr);
    y := Answering(m, r, m.cpu.mem);
  }

  lemma MakerReply(p: Platform, w: World, m: Machine) returns (y: Reply)
    requires ValidPlatform(p) && Possible(p, w) && Ready(p, w, m, GetManufacturer)
    ensures Permitted(p, w, m, GetManufacturer, y)
  {
    hide CString, Distinct8, BranchesEncodable, Written, Live;
    if w.manufacturer == 0 {
      y := Answering(m, 0, m.cpu.mem);
    } else {
      WrittenString(m.cpu.mem, w.manufacturer, w.manufacturerText);
      y := Answering(m, w.manufacturer, Written(m.cpu.mem, w.manufacturer, w.manufacturerText));
    }
  }

  lemma NameReply(p: Platform, w: World, m: Machine) returns (y: Reply)
    requires ValidPlatform(p) && Possible(p, w) && Ready(p, w, m, GetName)
    ensures Permitted(p, w, m, GetName, y)
  {
    hide CString, Distinct8, BranchesEncodable, Written, Live;
    var post := Written(m.cpu.mem, m.cpu.r.r0, w.name);
    WrittenString(m.cpu.mem, m.cpu.r.r0, w.name);
    forall k | !(m.cpu.r.r0 <= k < m.cpu.r.r0 + 2048)
      ensures SameAt(m.cpu.mem, post, k)
    {
    }
    hide SameAt;
    y := Answering(m, w.nameStatus, post);
  }

  lemma SlotReply(p: Platform, w: World, m: Machine, c: Callee) returns (y: Reply)
    requires ValidPlatform(p) && Ready(p, w, m, c) && (c == GetSingleConfig || c == GetType)
    ensures Permitted(p, w, m, c, y)
  {
    hide CString, Distinct8, BranchesEncodable, Live;
    if c == GetSingleConfig {
      y := Answering(m, w.configStatus, Slotted(m, m.cpu.r.r2, w.widget));
    } else {
      y := Answering(m, w.typeStatus, Slotted(m, m.cpu.r.r1, w.kind));
    }
  }

  /** Only the output slot changes. */
  lemma SlottedKeeps(m: Machine, slot: word, written: Option<word>)
    ensures
      var mem := Slotted(m, slot, written);
      && Outputs(m, mem, slot, written) && (forall k :: k in m.cpu.mem ==> k in mem)
      && forall k :: k != slot ==> SameAt(m.cpu.mem, mem, k)
  {
  }

  lemma AlignedPlaces(p: Platform)
    requires ValidPlatform(p)
    ensures p.stackLow % 4 == 0 && p.stackTop % 4 == 0 && p.a.cave % 4 == 0
    ensures p.stackTop <= p.a.cave || p.a.cave + TRAMPOLINE_SIZE <= p.stackLow
  {
    hide Distinct8, BranchesEncodable;
  }

  /** Writing a placed string leaves the stack and the trampoline as they were. */
  lemma PlacedApart(p: Platform, mem: Memory, ptr: int, s: seq<byte>, k: int)
    requires p.stackLow % 4 == 0 && p.stackTop % 4 == 0 && p.a.cave % 4 == 0 && Placed(p, ptr, s)
    requires p.stackLow <= k < p.stackTop || InCave(p.a, k)
    ensures SameAt(mem, Written(mem, ptr, s), k)
  {
    hide CString, Written;
    WrittenString(mem, ptr, s);
    if Aligned(k) {
      BelowAligned(p.stackTop, k);
      BelowAligned(p.a.cave + TRAMPOLINE_SIZE, k);
    }
  }

  lemma BelowAligned(x: int, k: int)
    requires x % 4 == 0 && k % 4 == 0
    ensures k < x ==> k <= x - 4
  {
  }

  lemma TextReply(p: Platform, w: World, m: Machine, mem: Memory)
    requires p.stackLow % 4 == 0 && p.stackTop % 4 == 0 && p.a.cave % 4 == 0
    requires p.stackTop <= p.a.cave || p.a.cave + TRAMPOLINE_SIZE <= p.stackLow
    requires w.value.Some? && Placed(p, w.value.value, w.text) && OwnSlot(p, m.cpu, m.cpu.r.r1, 4)
    requires p.stackLow <= m.cpu.r.sp
    requires Outputs(m, mem, m.cpu.r.r1, w.value) && (forall k :: k in m.cpu.mem ==> k in mem)
    requires forall k :: k != m.cpu.r.r1 ==> SameAt(m.cpu.mem, mem, k)
    ensures
      var post := Written(mem, w.value.value, w.text);
      && KeepsCaller(p, m, GetValue, post) && Outputs(m, post, m.cpu.r.r1, w.value)
      && TextAt(p, post, w.value.value, w.text)
  {
    hide CString, Written;
    WrittenString(mem, w.value.value, w.text);
    var post := Written(mem, w.value.value, w.text);
    PlacedApart(p, mem, w.value.value, w.text, m.cpu.r.r1);
    forall k | (p.stackLow <= k < p.stackTop || InCave(p.a, k)) && k != m.cpu.r.r1
      ensures SameAt(m.cpu.mem, post, k)
    {
      PlacedApart(p, mem, w.value.value, w.text, k);
      assert SameAt(m.cpu.mem, mem, k);
    }
  }

  lemma ValueReply(p: Platform, w: World, m: Machine) returns (y: Reply)
    requires ValidPlatform(p) && Possible(p, w) && Ready(p, w, m, GetValue)
    ensures Permitted(p, w, m, GetValue, y)
  {
    hide CString, ValidPlatform, Written, Live, Placed, Slotted;
    var mem := Slotted(m, m.cpu.r.r1, w.value);
    SlottedKeeps(m, m.cpu.r.r1, w.value);
    AlignedPlaces(p);
    if w.value.Some? && w.value.value != 0 {
      TextReply(p, w, m, mem);
      y := Answering(m, w.valueStatus, Written(mem, w.value.value, w.text));
    } else {
      y := Answering(m, w.valueStatus, mem);
    }
  }

  lemma ReadyStack(p: Platform, w: World, m: Machine, c: Callee)
    requires Ready(p, w, m, c)
    ensures p.stackLow <= m.cpu.r.sp
  {
  }

  lemma ReplyExists(p: Platform, w: World, m: Machine, c: Callee)
    requires ValidPlatform(p) && Possible(p, w) && Ready(p, w, m, c)
    ensures exists y :: Permitted(p, w, m, c, y)
  {
    hide ValidPlatform, Possible, Ready, Permitted;
    var y: Reply;
    match c
    case GetManufacturer => y := MakerReply(p, w, m);
    case GetName => y := NameReply(p, w, m);
    case StrCaseStr => y := SearchReply(p, w, m, c);
    case StrStr => y := SearchReply(p, w, m, c);
    case GetSingleConfig => y := SlotReply(p, w, m, c);
    case GetType => y := SlotReply(p, w, m, c);
    case GetValue => y := ValueReply(p, w, m);
    case WidgetFree =>
      ReadyStack(p, w, m, c);
      y := FreeReply(p, w, m);
  }

  /** Memory once everything the trampoline may not touch again is gone. */
  function Bare(p: Platform, mem: Memory): Memory {
    map k | k in mem && (Outlives(p, k) || InCave(p.a, k)) :: mem[k]
  }

  /** Freeing may unmap all but the stack, the camera pointer and the trampoline. */
  lemma FreeReply(p: Platform, w: World, m: Machine) returns (y: Reply)
    requires p.stackLow <= m.cpu.r.sp
    ensures Permitted(p, w, m, WidgetFree, y) && y.mem == Bare(p, m.cpu.mem)
  {
    y := Answering(m, 0, Bare(p, m.cpu.mem));
  }

  /** A call within the contracts, and the reply the oracle gives it: a free leaves nothing else mapped. */
  ghost predicate Honours(p: Platform, w: World, m: Machine, y: Reply) {
    CalleeAt(p.a, m.cpu.pc).Some? && Ready(p, w, m, CalleeAt(p.a, m.cpu.pc).value) ==>
      && Permitted(p, w, m, CalleeAt(p.a, m.cpu.pc).value, y)
      && (CalleeAt(p.a, m.cpu.pc) == Some(WidgetFree) ==> y.mem == Bare(p, m.cpu.mem))
  }

  lemma MeetingExists(p: Platform, w: World, m: Machine)
    requires ValidPlatform(p) && Possible(p, w)
    ensures exists y :: Honours(p, w, m, y)
  {
    hide ValidPlatform, Possible, Ready, Permitted;
    var y := Answering(m, 0, m.cpu.mem);
    if CalleeAt(p.a, m.cpu.pc).Some? && Ready(p, w, m, CalleeAt(p.a, m.cpu.pc).value) {
      var c := CalleeAt(p.a, m.cpu.pc).value;
      if c == WidgetFree {
        ReadyStack(p, w, m, c);
        y := FreeReply(p, w, m);
      } else {
        ReplyExists(p, w, m, c);
        y :| Permitted(p, w, m, c, y);
      }
    }
    assert Honours(p, w, m, y);
  }

  ghost function Answer(p: Platform, w: World, m: Machine): (y: Reply)
    requires ValidPlatform(p) && Possible(p, w)
    ensures Honours(p, w, m, y)
  {
    MeetingExists(p, w, m);
    var y :| Honours(p, w, m, y);
    y
  }

  /**
   Whatever statuses, pointers and strings the library would answer with, an oracle behaves so, and may at
   every free take away all memory but the stack, the camera pointer and the trampoline.
   */
  lemma OracleExists(p: Platform, w: World)
    requires ValidPlatform(p) && Possible(p, w)
    ensures exists o :: Behaved(p, w, o) && forall m :: Honours(p, w, m, o(m))
  {
    hide ValidPlatform, Possible, Ready, Permitted;
    var o: Oracle := m => Answer(p, w, m);
    assert forall m :: Honours(p, w, m, o(m));
    assert Behaved(p, w, o);
  }
}
