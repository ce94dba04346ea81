/**
 The patched process around the trampoline: strings in memory, what the called functions may do,
 and the step relation of the machine. A call is one step whose result an oracle picks among the
 replies the callee's contract permits.
 */
module BulbMachine {
  import opened Words
  import opened Arm
  import opened BranchCodec
  import opened BulbTable

  // ----------------------------------------------------------------- strings

  /** The bytes at `p` up to a NUL are exactly `s`, below the top of the address space. */
  predicate CString(mem: Memory, p: int, s: seq<byte>) {
    && p + |s| < TWO32
    && (forall i :: 0 <= i < |s| ==> s[i] != 0)
    && (forall i :: 0 <= i < |s| ==> ByteAt(mem, p + i) == Some(s[i]))
    && ByteAt(mem, p + |s|) == Some(0)
  }

  predicate OccursAt(hay: seq<byte>, needle: seq<byte>, i: int) {
    0 <= i && i + |needle| <= |hay| && hay[i..i + |needle|] == needle
  }

  predicate FirstAt(hay: seq<byte>, needle: seq<byte>, i: int) {
    0 <= i && OccursAt(hay, needle, i) && forall j :: 0 <= j < i ==> !OccursAt(hay, needle, j)
  }

  function Lower(b: byte): byte {
    if 65 <= b <= 90 then b + 32 else b
  }

  /** ASCII case folding, as strcasestr compares. */
  function Fold(s: seq<byte>): (r: seq<byte>)
    ensures |r| == |s| && forall i :: 0 <= i < |s| ==> r[i] == Lower(s[i])
  {
    seq(|s|, i requires 0 <= i < |s| => Lower(s[i]))
  }

  const PENTAX: seq<byte> := Ascii("pentax")
  const MODEL: seq<byte> := Ascii("Pentax:K-3 Mark III (MTP mode)")
  const CONDITIONS_KEY: seq<byte> := Ascii("pentaxconditions")
  const MODE_KEY: seq<byte> := Ascii("exposure-mode-raw=")

  // ------------------------------------------------------------ environment

  datatype Callee = GetManufacturer | GetName | StrCaseStr | GetSingleConfig | GetType | GetValue
                  | WidgetFree | StrStr

  datatype Call = Call(callee: Callee, r0: word, r1: word, r2: word, r3: word)

  datatype Machine = Machine(cpu: Cpu, log: seq<Call>)

  // What the camera library would answer, and the text it hands out. A None output slot means
  // the callback left its output parameter alone.
  datatype World = World(manufacturer: word, manufacturerText: seq<byte>,
                         nameStatus: word, name: seq<byte>,
                         configStatus: word, widget: Option<word>,
                         typeStatus: word, kind: Option<word>,
                         valueStatus: word, value: Option<word>, text: seq<byte>)

  // stackLow..sp is scratch for callees; sp..stackTop belongs to their callers.
  datatype Platform = Platform(a: Addrs, stackLow: int, stackTop: int)

  // A callee returns to lr with sp, r4 and fp restored (AAPCS); everything else is its choice.
  datatype Reply = Reply(r0: word, r1: word, r2: word, r3: word, lr: word, f: Flags, mem: Memory)

  type Oracle = Machine -> Reply

  function CalleeAt(a: Addrs, pc: word): Option<Callee> {
    if pc == a.getManufacturer then Some(GetManufacturer)
    else if pc == a.getName then Some(GetName)
    else if pc == a.strcasestr then Some(StrCaseStr)
    else if pc == a.getSingleConfig then Some(GetSingleConfig)
    else if pc == a.getType then Some(GetType)
    else if pc == a.getValue then Some(GetValue)
    else if pc == a.widgetFree then Some(WidgetFree)
    else if pc == a.strstr then Some(StrStr)
    else None
  }

  predicate InCave(a: Addrs, k: int) {
    a.cave <= k < a.cave + TRAMPOLINE_SIZE
  }

  predicate Distinct8(a: Addrs) {
    && a.getManufacturer !in {a.getName, a.strcasestr, a.getSingleConfig, a.getType, a.getValue, a.widgetFree, a.strstr}
    && a.getName !in {a.strcasestr, a.getSingleConfig, a.getType, a.getValue, a.widgetFree, a.strstr}
    && a.strcasestr !in {a.getSingleConfig, a.getType, a.getValue, a.widgetFree, a.strstr}
    && a.getSingleConfig !in {a.getType, a.getValue, a.widgetFree, a.strstr}
    && a.getType !in {a.getValue, a.widgetFree, a.strstr}
    && a.getValue !in {a.widgetFree, a.strstr}
    && a.widgetFree != a.strstr
  }

  predicate NotCallee(a: Addrs, pc: word) {
    CalleeAt(a, pc) == None
  }

  /** Every branch the builder emits was accepted by `encode_branch`. */
  predicate BranchesEncodable(a: Addrs) {
    forall off :: 0 <= off < TRAMPOLINE_SIZE && Table(a, off).Br? ==> Encodable(a.cave + off, Table(a, off).target)
  }

  ghost predicate ValidPlatform(p: Platform) {
    var a := p.a;
    && a.cave % 4 == 0 && a.cave + TRAMPOLINE_SIZE < TWO32
    && Distinct8(a)
    && (forall k: word :: InCave(a, k) ==> NotCallee(a, k))
    && NotCallee(a, a.burst) && a.burst + 16 < TWO32
    && BranchesEncodable(a)
    && Encodable(a.burst, a.cave)
    // The stack is word-addressed memory apart from the text segment and the camera pointer.
    && p.stackLow % 4 == 0 && p.stackTop % 4 == 0 && 0 < p.stackLow < p.stackTop < TWO32
    && (p.stackTop <= a.cave || a.cave + TRAMPOLINE_SIZE <= p.stackLow)
    && a.cameraGlobal % 4 == 0 && !(p.stackLow <= a.cameraGlobal < p.stackTop)
    && !(a.burst <= a.cave < a.burst + 4) && !InCave(a, a.burst)
  }

  function WordOf(a: Addrs, off: int, e: Entry): word {
    match e
    case Raw(w) => w
    case Br(target, cond, link) => BranchWord(a.cave + off, target, cond, link)
    case Blank => 0
  }

  /** The blob sits at the cave: code and literal words, then the four match strings. */
  ghost predicate Loaded(a: Addrs, mem: Memory) {
    && (forall off :: !Table(a, off).Blank? ==>
          a.cave + off in mem && mem[a.cave + off] == WordOf(a, off, Table(a, off)))
    && CString(mem, a.cave + PENTAX_TEXT, PENTAX)
    && CString(mem, a.cave + MODEL_TEXT, MODEL)
    && CString(mem, a.cave + CONDITIONS_KEY_TEXT, CONDITIONS_KEY)
    && CString(mem, a.cave + MODE_KEY_TEXT, MODE_KEY)
  }

  // -------------------------------------------------------- callee contracts

  predicate SameAt(m1: Memory, m2: Memory, k: int) {
    k in m1 ==> k in m2 && m2[k] == m1[k]
  }

  /** Where a callee's output parameters live. */
  function OutLow(m: Machine, c: Callee): int {
    match c
    case GetName => m.cpu.r.r0
    case GetSingleConfig => m.cpu.r.r2
    case GetType => m.cpu.r.r1
    case GetValue => m.cpu.r.r1
    case _ => 0
  }

  function OutSize(c: Callee): int {
    match c
    case GetName => 2048
    case GetSingleConfig => 4
    case GetType => 4
    case GetValue => 4
    case _ => 0
  }

  /** What the trampoline may still touch once the widget is gone: its frame and the camera pointer, but no text. */
  predicate Outlives(p: Platform, k: int) {
    p.stackLow <= k < p.stackTop || k == p.a.cameraGlobal
  }

  /**
   A callee may write scratch below sp, its output slots, and memory the trampoline never reads. The free
   may besides unmap whatever the widget owned, so that a later load from its text would fault.
   */
  ghost predicate KeepsCaller(p: Platform, m: Machine, c: Callee, post: Memory) {
    && (forall k :: k in m.cpu.mem && (!c.WidgetFree? || Outlives(p, k)) ==> k in post)
    && (forall k :: InCave(p.a, k) ==> SameAt(m.cpu.mem, post, k))
    && (forall k :: m.cpu.r.sp <= k < p.stackTop && !(OutLow(m, c) <= k < OutLow(m, c) + OutSize(c)) ==>
          SameAt(m.cpu.mem, post, k))
  }

  /** The string searches write nothing but their own frame. */
  ghost predicate Pure(p: Platform, m: Machine, post: Memory) {
    forall k :: !(p.stackLow <= k < m.cpu.r.sp) ==> SameAt(m.cpu.mem, post, k)
  }

  ghost predicate Found(hay: seq<byte>, needle: seq<byte>, start: word, result: word) {
    || (result == 0 && forall i :: !OccursAt(hay, needle, i))
    || (exists i :: FirstAt(hay, needle, i) && result == start + i)
  }

  ghost predicate Searches(m: Machine, y: Reply, fold: bool) {
    forall hay, needle ::
      CString(m.cpu.mem, m.cpu.r.r0, hay) && CString(m.cpu.mem, m.cpu.r.r1, needle) ==>
        if fold then Found(Fold(hay), Fold(needle), m.cpu.r.r0, y.r0)
        else Found(hay, needle, m.cpu.r.r0, y.r0)
  }

  ghost predicate Outputs(m: Machine, post: Memory, slot: word, written: Option<word>) {
    slot in post && post[slot] == (if written.Some? then written.value
                                   else if slot in m.cpu.mem then m.cpu.mem[slot] else 0)
  }

  /** The text is live: readable, and away from the stack. */
  ghost predicate TextAt(p: Platform, mem: Memory, ptr: word, text: seq<byte>) {
    CString(mem, ptr, text) && (ptr + |text| < p.stackLow || p.stackTop <= ptr)
  }

  /** What the callee hands back. */
  ghost predicate Answers(p: Platform, w: World, m: Machine, c: Callee, y: Reply) {
    var s := m.cpu;
    match c
    case GetManufacturer =>
      y.r0 == w.manufacturer && (y.r0 != 0 ==> CString(y.mem, y.r0, w.manufacturerText))
    case GetName =>
      y.r0 == w.nameStatus && (y.r0 == 0 ==> |w.name| < 2048 && CString(y.mem, s.r.r0, w.name))
    case GetSingleConfig =>
      y.r0 == w.configStatus && (y.r0 == 0 ==> Outputs(m, y.mem, s.r.r2, w.widget))
    case GetType =>
      y.r0 == w.typeStatus && (y.r0 == 0 ==> Outputs(m, y.mem, s.r.r1, w.kind))
    case GetValue =>
      && y.r0 == w.valueStatus
      && (y.r0 == 0 ==> Outputs(m, y.mem, s.r.r1, w.value))
      && (y.r0 == 0 && w.value.Some? && w.value.value != 0 ==> TextAt(p, y.mem, w.value.value, w.text))
    case StrCaseStr => Pure(p, m, y.mem) && Searches(m, y, true)
    case StrStr => Pure(p, m, y.mem) && Searches(m, y, false)
    case WidgetFree => true
  }

  ghost predicate Permitted(p: Platform, w: World, m: Machine, c: Callee, y: Reply) {
    KeepsCaller(p, m, c, y.mem) && Answers(p, w, m, c, y)
  }

  ghost predicate IsString(mem: Memory, ptr: int) {
    exists s :: CString(mem, ptr, s)
  }

  predicate OwnSlot(p: Platform, s: Cpu, slot: int, size: int) {
    slot % 4 == 0 && s.r.sp <= slot && slot + size <= p.stackTop
  }

  predicate Freed(log: seq<Call>) {
    exists i :: 0 <= i < |log| && log[i].callee == WidgetFree
  }

  /** What a callee demands of the trampoline; a call that does not meet it promises nothing. */
  ghost predicate Ready(p: Platform, w: World, m: Machine, c: Callee) {
    var s := m.cpu;
    && p.stackLow <= s.r.sp && s.r.sp % 4 == 0
    && match c
       case GetManufacturer => true
       case GetName => OwnSlot(p, s, s.r.r0, 2048)
       case GetSingleConfig =>
         && p.a.cameraGlobal in s.mem && s.r.r0 == s.mem[p.a.cameraGlobal]
         && CString(s.mem, s.r.r1, CONDITIONS_KEY)
         && OwnSlot(p, s, s.r.r2, 4) && s.r.r3 == 0
       case GetType => Live(w, m) && OwnSlot(p, s, s.r.r1, 4)
       case GetValue => Live(w, m) && OwnSlot(p, s, s.r.r1, 4)
       case WidgetFree => Live(w, m)
       case StrCaseStr => IsString(s.mem, s.r.r0) && IsString(s.mem, s.r.r1)
       case StrStr => IsString(s.mem, s.r.r0) && IsString(s.mem, s.r.r1) && !Freed(m.log)
  }

  /** r0 is the widget that was fetched, and it has not been freed. */
  ghost predicate Live(w: World, m: Machine) {
    && w.configStatus == 0 && w.widget.Some? && w.widget.value != 0
    && m.cpu.r.r0 == w.widget.value && !Freed(m.log)
  }

  /** Some choice of permitted replies for every properly made call. */
  ghost predicate Behaved(p: Platform, w: World, o: Oracle) {
    forall m: Machine :: CalleeAt(p.a, m.cpu.pc).Some? && Ready(p, w, m, CalleeAt(p.a, m.cpu.pc).value) ==>
      Permitted(p, w, m, CalleeAt(p.a, m.cpu.pc).value, o(m))
  }

  // ------------------------------------------------------------------- steps

  function Returned(m: Machine, c: Callee, y: Reply): Machine {
    var r := m.cpu.r;
    Machine(Cpu(r.lr, Regs(y.r0, y.r1, y.r2, y.r3, r.r4, r.fp, r.sp, y.lr), y.f, y.mem),
            m.log + [Call(c, r.r0, r.r1, r.r2, r.r3)])
  }

  /** One instruction, or one whole call; None is a fault. */
  function Step(a: Addrs, o: Oracle, m: Machine): Option<Machine> {
    match CalleeAt(a, m.cpu.pc)
    case Some(c) => Some(Returned(m, c, o(m)))
    case None =>
      match Fetch(m.cpu)
      case Fault => None
      case Done(s) => Some(m.(cpu := s))
  }

  function Run(a: Addrs, o: Oracle, m: Machine, n: nat): Option<Machine> {
    if n == 0 then Some(m)
    else
      match Run(a, o, m, n - 1)
      case None => None
      case Some(m1) => Step(a, o, m1)
  }

  /** What a table entry does to the processor. */
  function Effect(a: Addrs, off: int, e: Entry, s: Cpu): Outcome {
    match e
    case Blank => Fault
    case Raw(w) =>
      (match Decode(w)
       case Undefined => Fault
       case Op32(c, i) => if Holds(c, s.f) then Exec(s, i) else Done(Next(s)))
    case Br(target, cond, link) =>
      match CondOf(cond)
      case None => Fault
      case Some(c) =>
        if Holds(c, s.f)
        then Done(s.(pc := Wrap(target), r := if link then s.r.(lr := Wrap(a.cave + off + 4)) else s.r))
        else Done(Next(s))
  }
}
