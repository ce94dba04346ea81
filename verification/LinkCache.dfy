/** The opcode cache as a function of the messages received, and the payload key lookup. */
module LinkCache {
  import opened Words
  import opened LinkSpec
  import Sets

  datatype Slot = Slot(cmd: int, args: seq<byte>, when: real, count: nat)

  function Truncated(args: seq<byte>): seq<byte> {
    if |args| >= ARGS_MAX then args[..ARGS_MAX - 1] else args
  }

  /** A slot keeps the payload's first 511 bytes, so that its NUL fits. */
  lemma TruncatedIs(args: seq<byte>)
    ensures Truncated(args) <= args && |Truncated(args)| == if |args| < 511 then |args| else 511
  {
  }

  function SlotIndex(slots: seq<Slot>, cmd: int): (i: nat)
    ensures i <= |slots| && (i < |slots| ==> slots[i].cmd == cmd) && forall j :: 0 <= j < i ==> slots[j].cmd != cmd
  {
    if slots == [] || slots[0].cmd == cmd then 0 else 1 + SlotIndex(slots[1..], cmd)
  }

  /** The first of the least recently stamped among the first `n` slots. */
  function Oldest(slots: seq<Slot>, n: nat): (o: nat)
    requires 0 < n <= |slots|
    ensures o < n && forall j :: 0 <= j < n ==> slots[o].when <= slots[j].when
    ensures forall j :: 0 <= j < o ==> slots[o].when < slots[j].when
  {
    if n == 1 then 0
    else
      var o := Oldest(slots, n - 1);
      if slots[n - 1].when < slots[o].when then n - 1 else o
  }

  /** Recording one message: update its slot, take a fresh one, or evict the oldest. */
  function Record(slots: seq<Slot>, m: Msg, now: real): seq<Slot> {
    var i := SlotIndex(slots, m.cmd);
    if i < |slots| then slots[i := Slot(m.cmd, Truncated(m.args), now, slots[i].count + 1)]
    else if |slots| < SLOTS then slots + [Slot(m.cmd, Truncated(m.args), now, 1)]
    else slots[Oldest(slots, |slots|) := Slot(m.cmd, Truncated(m.args), now, 1)]
  }

  /** The cache after the whole history; message `k` is stamped `clock(k)`. */
  function Cache(history: seq<Msg>, clock: nat -> real): seq<Slot> {
    if history == [] then []
    else
      var n := |history| - 1;
      Record(Cache(history[..n], clock), history[n], clock(n))
  }

  function Commands(history: seq<Msg>): set<int> {
    set i | 0 <= i < |history| :: history[i].cmd
  }

  /** The payload of the last message with this opcode. */
  function LastArgs(history: seq<Msg>, cmd: int): Option<seq<byte>> {
    if history == [] then None
    else
      var n := |history| - 1;
      if history[n].cmd == cmd then Some(history[n].args) else LastArgs(history[..n], cmd)
  }

  function Occurrences(history: seq<Msg>, cmd: int): nat {
    if history == [] then 0
    else Occurrences(history[..|history| - 1], cmd) + (if history[|history| - 1].cmd == cmd then 1 else 0)
  }

  predicate OneSlotEach(slots: seq<Slot>) {
    forall i, j :: 0 <= i < j < |slots| ==> slots[i].cmd != slots[j].cmd
  }

  function SlotCommands(slots: seq<Slot>): set<int> {
    set i | 0 <= i < |slots| :: slots[i].cmd
  }

  lemma {:induction false} AsManyCommands(slots: seq<Slot>)
    requires OneSlotEach(slots)
    ensures |SlotCommands(slots)| == |slots|
  {
    if slots != [] {
      var n := |slots| - 1;
      AsManyCommands(slots[..n]);
      SlotCommandsGrow(slots[..n], slots, n, slots[n].cmd);
      assert slots[n].cmd !in SlotCommands(slots[..n]) by {
        hide SlotCommands;
        NotAmong(slots[..n], slots[n].cmd);
      }
      hide SlotCommands;
    } else {
      assert SlotCommands(slots) == {};
    }
  }

  lemma {:induction false} NotAmong(slots: seq<Slot>, cmd: int)
    requires forall i :: 0 <= i < |slots| ==> slots[i].cmd != cmd
    ensures cmd !in SlotCommands(slots)
  {
  }

  /** Whether a slot holds what the history last said about its opcode. */
  ghost predicate Current(history: seq<Msg>, s: Slot) {
    && LastArgs(history, s.cmd).Some? && s.args == Truncated(LastArgs(history, s.cmd).value)
    && s.count == Occurrences(history, s.cmd)
  }

  lemma {:induction false} CommandsGrow(history: seq<Msg>)
    requires history != []
    ensures Commands(history) == Commands(history[..|history| - 1]) + {history[|history| - 1].cmd}
  {
    var n := |history| - 1;
    forall c | c in Commands(history[..n])
      ensures c in Commands(history)
    {
      var i :| 0 <= i < n && history[..n][i].cmd == c;
      assert history[i].cmd == c;
    }
    assert history[n].cmd in Commands(history);
  }

  lemma {:induction false} NeverSeen(history: seq<Msg>, cmd: int)
    requires cmd !in Commands(history)
    ensures Occurrences(history, cmd) == 0
  {
    if history != [] {
      CommandsGrow(history);
      NeverSeen(history[..|history| - 1], cmd);
    }
  }

  lemma {:induction false} StaysCurrent(history: seq<Msg>, s: Slot)
    requires history != [] && Current(history[..|history| - 1], s) && history[|history| - 1].cmd != s.cmd
    ensures Current(history, s)
  {
    CommandsGrow(history);
  }

  /** Eviction, when it happens, drops the first of the least recently stamped opcodes and keeps the rest. */
  lemma {:induction false} EvictionIsLru(slots: seq<Slot>, m: Msg, now: real)
    requires |slots| == SLOTS && m.cmd !in SlotCommands(slots) && OneSlotEach(slots)
    ensures exists o :: 0 <= o < |slots| && Record(slots, m, now) == slots[o := Slot(m.cmd, Truncated(m.args), now, 1)]
                        && (forall j :: 0 <= j < |slots| ==> slots[o].when <= slots[j].when)
                        && forall j :: 0 <= j < o ==> slots[o].when < slots[j].when
    ensures OneSlotEach(Record(slots, m, now))
  {
    var o := Oldest(slots, |slots|);
    var i := SlotIndex(slots, m.cmd);
    assert i == |slots|;
    assert Record(slots, m, now) == slots[o := Slot(m.cmd, Truncated(m.args), now, 1)];
  }

  // The cache says of each opcode of the history what the history says, in one slot each.
  ghost predicate Reflects(slots: seq<Slot>, history: seq<Msg>) {
    && OneSlotEach(slots) && |slots| <= SLOTS
    && SlotCommands(slots) == Commands(history)
    && forall i :: 0 <= i < |slots| ==> Current(history, slots[i])
  }

  lemma {:induction false} RecordKnown(slots: seq<Slot>, history: seq<Msg>, now: real)
    requires history != [] && Reflects(slots, history[..|history| - 1])
    requires SlotIndex(slots, history[|history| - 1].cmd) < |slots|
    ensures Reflects(Record(slots, history[|history| - 1], now), history)
  {
    hide SlotCommands, Commands, SlotIndex, Truncated;
    var m := history[|history| - 1];
    var i := SlotIndex(slots, m.cmd);
    var after := slots[i := Slot(m.cmd, Truncated(m.args), now, slots[i].count + 1)];
    CommandsGrow(history);
    SlotCommandsGrow(slots, after, i, m.cmd);
    forall k | 0 <= k < |after|
      ensures Current(history, after[k])
    {
      if k != i {
        StaysCurrent(history, after[k]);
      }
    }
  }

  lemma {:induction false} RecordNew(slots: seq<Slot>, history: seq<Msg>, now: real)
    requires history != [] && Reflects(slots, history[..|history| - 1])
    requires SlotIndex(slots, history[|history| - 1].cmd) == |slots| < SLOTS
    ensures Reflects(Record(slots, history[|history| - 1], now), history)
  {
    var m := history[|history| - 1];
    NotAmong(slots, m.cmd);
    hide SlotCommands, Commands, SlotIndex, Truncated;
    NeverSeen(history[..|history| - 1], m.cmd);
    var after := slots + [Slot(m.cmd, Truncated(m.args), now, 1)];
    CommandsGrow(history);
    SlotCommandsGrow(slots, after, |slots|, m.cmd);
    forall k | 0 <= k < |after|
      ensures Current(history, after[k])
    {
      if k != |slots| {
        StaysCurrent(history, after[k]);
      }
    }
  }

  /** With at most 128 opcodes ever seen, each has one slot, holding its last payload and its count. */
  lemma {:induction false} CacheIsLast(history: seq<Msg>, clock: nat -> real)
    requires |Commands(history)| <= SLOTS
    ensures Reflects(Cache(history, clock), history)
    decreases |history|
  {
    if history != [] {
      var n := |history| - 1;
      var cmd, before := history[n].cmd, Cache(history[..n], clock);
      CommandsGrow(history);
      Sets.SubsetSize(Commands(history[..n]), Commands(history));
      CacheIsLast(history[..n], clock);
      AsManyCommands(before);
      if SlotIndex(before, cmd) < |before| {
        RecordKnown(before, history, clock(n));
      } else {
        NotAmong(before, cmd);
        Sets.ProperSubsetSize(Commands(history[..n]), Commands(history));
        RecordNew(before, history, clock(n));
      }
    }
  }

  lemma {:induction false} SlotCommandsGrow(before: seq<Slot>, after: seq<Slot>, i: nat, cmd: int)
    requires i < |after| && after[i].cmd == cmd
    requires |before| <= |after| <= |before| + 1 && (|after| > |before| ==> i == |before|)
    requires forall k :: 0 <= k < |before| ==> after[k].cmd == before[k].cmd
    ensures SlotCommands(after) == SlotCommands(before) + {cmd}
  {
    forall c | c in SlotCommands(before)
      ensures c in SlotCommands(after)
    {
      var k :| 0 <= k < |before| && before[k].cmd == c;
      assert after[k].cmd == c;
    }
    assert after[i].cmd in SlotCommands(after);
  }

  // ------------------------------------------------------------- most recent

  /** Where the opcode was last received; -1 if it never was. */
  function LastAt(history: seq<Msg>, cmd: int): (k: int)
    ensures -1 <= k < |history| && (k >= 0 ==> history[k].cmd == cmd)
    ensures forall j :: k < j < |history| ==> history[j].cmd != cmd
  {
    if history == [] then -1
    else if history[|history| - 1].cmd == cmd then |history| - 1
    else LastAt(history[..|history| - 1], cmd)
  }

  predicate Holds(slots: seq<Slot>, cmd: int) {
    exists i :: 0 <= i < |slots| && slots[i].cmd == cmd
  }

  /** The slot has the payload and the stamp of its opcode's last message. */
  predicate Remembers(s: Slot, history: seq<Msg>, clock: nat -> real) {
    var k := LastAt(history, s.cmd);
    k >= 0 && s.args == Truncated(history[k].args) && s.when == clock(k)
  }

  /** Message k's opcode is held, or the cache is full of opcodes received after k. */
  ghost predicate Accounted(slots: seq<Slot>, history: seq<Msg>, k: nat)
    requires k < |history|
  {
    || Holds(slots, history[k].cmd)
    || (|slots| == SLOTS && forall i :: 0 <= i < |slots| ==> LastAt(history, slots[i].cmd) > k)
  }

  ghost predicate Recent(slots: seq<Slot>, history: seq<Msg>, clock: nat -> real) {
    && OneSlotEach(slots) && |slots| <= SLOTS
    && (forall i :: 0 <= i < |slots| ==> Remembers(slots[i], history, clock))
    && (forall k :: 0 <= k < |history| ==> Accounted(slots, history, k))
  }

  ghost predicate Increasing(clock: nat -> real) {
    forall i: nat, j: nat :: i < j ==> clock(i) < clock(j)
  }

  lemma {:induction false} LastAtStep(history: seq<Msg>, cmd: int)
    requires history != []
    ensures
      var n := |history| - 1;
      LastAt(history, cmd) == if history[n].cmd == cmd then n else LastAt(history[..n], cmd)
  {
  }

  /** A slot whose opcode was not the one received remembers as before; the one filled remembers the message. */
  lemma {:induction false} StillRemembers(s: Slot, history: seq<Msg>, clock: nat -> real)
    requires history != [] && history[|history| - 1].cmd != s.cmd
    requires Remembers(s, history[..|history| - 1], clock)
    ensures Remembers(s, history, clock)
  {
    hide LastAt, Truncated;
    LastAtStep(history, s.cmd);
  }

  lemma {:induction false} NowRemembers(history: seq<Msg>, clock: nat -> real, count: nat)
    requires history != []
    ensures
      var m := history[|history| - 1];
      Remembers(Slot(m.cmd, Truncated(m.args), clock(|history| - 1), count), history, clock)
  {
    hide LastAt, Truncated;
    LastAtStep(history, history[|history| - 1].cmd);
  }

  lemma {:induction false} HoldsAt(slots: seq<Slot>, i: nat)
    requires i < |slots|
    ensures Holds(slots, slots[i].cmd)
  {
  }

  /** Filling slot i with the message received keeps every earlier one accounted for, if what was there is. */
  lemma {:induction false} StillAccounted(slots: seq<Slot>, after: seq<Slot>, history: seq<Msg>, i: nat, k: nat)
    requires history != [] && k < |history| - 1 && i < |after| && |slots| <= |after| <= SLOTS
    requires Accounted(slots, history[..|history| - 1], k) && after[i].cmd == history[|history| - 1].cmd
    requires forall j :: 0 <= j < |slots| && j != i ==> after[j].cmd == slots[j].cmd
    requires i < |slots| && slots[i].cmd == history[k].cmd ==> Accounted(after, history, k)
    ensures Accounted(after, history, k)
  {
    hide LastAt;
    var before := history[..|history| - 1];
    assert before[k] == history[k];
    if Holds(slots, history[k].cmd) {
      var j :| 0 <= j < |slots| && slots[j].cmd == history[k].cmd;
      if j != i {
        HoldsAt(after, j);
      }
    } else {
      forall j | 0 <= j < |after|
        ensures LastAt(history, after[j].cmd) > k
      {
        LastAtStep(history, after[j].cmd);
      }
    }
  }

  lemma {:induction false} RefreshRecent(slots: seq<Slot>, history: seq<Msg>, clock: nat -> real, i: nat)
    requires history != [] && Recent(slots, history[..|history| - 1], clock)
    requires i < |slots| && slots[i].cmd == history[|history| - 1].cmd
    ensures
      var m := history[|history| - 1];
      Recent(slots[i := Slot(m.cmd, Truncated(m.args), clock(|history| - 1), slots[i].count + 1)], history, clock)
  {
    hide Truncated, LastAt, Accounted, Remembers;
    var n := |history| - 1;
    var m := history[n];
    var after := slots[i := Slot(m.cmd, Truncated(m.args), clock(n), slots[i].count + 1)];
    NowRemembers(history, clock, slots[i].count + 1);
    forall j | 0 <= j < |after| && j != i
      ensures Remembers(after[j], history, clock)
    {
      StillRemembers(slots[j], history, clock);
    }
    HoldsAt(after, i);
    forall k: nat | k < |history|
      ensures Accounted(after, history, k)
    {
      HeldAccounted(after, history, k);
      if k < n {
        StillAccounted(slots, after, history, i, k);
      }
    }
  }

  lemma {:induction false} HeldAccounted(slots: seq<Slot>, history: seq<Msg>, k: nat)
    requires k < |history|
    ensures Holds(slots, history[k].cmd) ==> Accounted(slots, history, k)
  {
  }

  lemma {:induction false} FreshRecent(slots: seq<Slot>, history: seq<Msg>, clock: nat -> real)
    requires history != [] && Recent(slots, history[..|history| - 1], clock) && |slots| < SLOTS
    requires forall j :: 0 <= j < |slots| ==> slots[j].cmd != history[|history| - 1].cmd
    ensures
      var m := history[|history| - 1];
      Recent(slots + [Slot(m.cmd, Truncated(m.args), clock(|history| - 1), 1)], history, clock)
  {
    hide Truncated, LastAt, Accounted, Remembers;
    var n := |history| - 1;
    var m := history[n];
    var after := slots + [Slot(m.cmd, Truncated(m.args), clock(n), 1)];
    NowRemembers(history, clock, 1);
    forall j | 0 <= j < |slots|
      ensures Remembers(after[j], history, clock)
    {
      StillRemembers(slots[j], history, clock);
    }
    HoldsAt(after, |slots|);
    HeldAccounted(after, history, n);
    forall k: nat | k < n
      ensures Accounted(after, history, k)
    {
      StillAccounted(slots, after, history, |slots|, k);
    }
  }

  lemma {:induction false} EvictRecent(slots: seq<Slot>, history: seq<Msg>, clock: nat -> real, o: nat)
    requires history != [] && Recent(slots, history[..|history| - 1], clock) && Increasing(clock)
    requires forall j :: 0 <= j < |slots| ==> slots[j].cmd != history[|history| - 1].cmd
    requires o < |slots| == SLOTS && forall j :: 0 <= j < |slots| ==> slots[o].when <= slots[j].when
    ensures
      var m := history[|history| - 1];
      Recent(slots[o := Slot(m.cmd, Truncated(m.args), clock(|history| - 1), 1)], history, clock)
  {
    hide Truncated, LastAt, Accounted, Remembers, Increasing;
    var n := |history| - 1;
    var m := history[n];
    var after := slots[o := Slot(m.cmd, Truncated(m.args), clock(n), 1)];
    NowRemembers(history, clock, 1);
    forall j | 0 <= j < |slots| && j != o
      ensures Remembers(after[j], history, clock)
    {
      StillRemembers(slots[j], history, clock);
    }
    HoldsAt(after, o);
    HeldAccounted(after, history, n);
    forall k: nat | k < n
      ensures Accounted(after, history, k)
    {
      if slots[o].cmd == history[k].cmd {
        EvictedAccounted(slots, after, history, clock, o, k);
      }
      StillAccounted(slots, after, history, o, k);
    }
  }

  /** The evicted opcode was received before every other held. */
  lemma {:induction false} EvictedAccounted(slots: seq<Slot>, after: seq<Slot>, history: seq<Msg>, clock: nat -> real,
                                            o: nat, k: nat)
    requires history != [] && k < |history| - 1 && o < |slots| == |after| == SLOTS && Increasing(clock)
    requires Recent(slots, history[..|history| - 1], clock)
    requires forall j :: 0 <= j < |slots| ==> slots[o].when <= slots[j].when
    requires slots[o].cmd == history[k].cmd && after[o].cmd == history[|history| - 1].cmd
    requires forall j :: 0 <= j < |slots| && j != o ==> after[j].cmd == slots[j].cmd
    ensures Accounted(after, history, k)
  {
    hide Truncated, LastAt, Increasing, Remembers;
    var before := history[..|history| - 1];
    assert before[k] == history[k];
    forall j | 0 <= j < |after|
      ensures LastAt(history, after[j].cmd) > k
    {
      LastAtStep(history, after[j].cmd);
      if j != o {
        OldestIsEarliest(slots, before, clock, o, j);
      }
    }
  }

  /** The slot with the earliest stamp is that of the opcode received longest ago. */
  lemma {:induction false} OldestIsEarliest(slots: seq<Slot>, history: seq<Msg>, clock: nat -> real, o: nat, j: nat)
    requires Increasing(clock) && o < |slots| && j < |slots| && slots[o].cmd != slots[j].cmd
    requires Remembers(slots[o], history, clock) && Remembers(slots[j], history, clock)
    requires slots[o].when <= slots[j].when
    ensures LastAt(history, slots[o].cmd) < LastAt(history, slots[j].cmd)
  {
    hide LastAt, Truncated, Increasing;
    StampOrder(clock, LastAt(history, slots[o].cmd), LastAt(history, slots[j].cmd));
  }

  lemma StampOrder(clock: nat -> real, k: nat, l: nat)
    requires Increasing(clock)
    ensures clock(k) <= clock(l) ==> k <= l
  {
    if l < k {
      assert clock(l) < clock(k);
    }
  }

  lemma {:induction false} CacheRecent(history: seq<Msg>, clock: nat -> real)
    requires Increasing(clock)
    ensures Recent(Cache(history, clock), history, clock)
    decreases |history|
  {
    hide Increasing, Truncated, Accounted, Remembers;
    if history != [] {
      var n := |history| - 1;
      var before := Cache(history[..n], clock);
      CacheRecent(history[..n], clock);
      var i := SlotIndex(before, history[n].cmd);
      if i < |before| {
        RefreshRecent(before, history, clock, i);
      } else if |before| < SLOTS {
        FreshRecent(before, history, clock);
      } else {
        EvictRecent(before, history, clock, Oldest(before, |before|));
      }
    }
  }

  /**
   Least recently used over every history, on a clock whose readings rise: the cache holds an opcode exactly
   when it was received and fewer than 128 others have been since, in one slot, with the last payload.
   */
  lemma {:induction false} MostRecentCached(history: seq<Msg>, clock: nat -> real, cmd: int)
    requires Increasing(clock)
    ensures
      var slots, k := Cache(history, clock), LastAt(history, cmd);
      && OneSlotEach(slots)
      && (Holds(slots, cmd) <==> k >= 0 && |Commands(history[k + 1..])| < SLOTS)
      && forall i :: 0 <= i < |slots| && slots[i].cmd == cmd ==>
           k >= 0 && slots[i].args == Truncated(history[k].args) && slots[i].when == clock(k)
  {
    hide Truncated, Cache, Increasing, LastAt, Accounted, SlotCommands, Commands;
    var slots, k := Cache(history, clock), LastAt(history, cmd);
    CacheRecent(history, clock);
    if Holds(slots, cmd) {
      var i :| 0 <= i < |slots| && slots[i].cmd == cmd;
      SinceHeld(slots, history, clock, i);
    } else if k >= 0 {
      HeldSince(slots, history, clock, k);
    }
  }

  lemma {:induction false} NoneSince(history: seq<Msg>, cmd: int)
    ensures cmd !in Commands(history[LastAt(history, cmd) + 1..])
  {
    hide LastAt;
  }

  lemma {:induction false} HeldLater(slots: seq<Slot>, history: seq<Msg>, i: nat, c: int)
    requires i < |slots| && c in Commands(history[LastAt(history, slots[i].cmd) + 1..])
    requires forall k :: 0 <= k < |history| ==> Accounted(slots, history, k)
    ensures c in SlotCommands(slots)
  {
    hide LastAt;
    var rest := history[LastAt(history, slots[i].cmd) + 1..];
    var j :| 0 <= j < |rest| && rest[j].cmd == c;
    var k := LastAt(history, slots[i].cmd) + 1 + j;
    assert Accounted(slots, history, k) && history[k].cmd == c;
    var p :| 0 <= p < |slots| && slots[p].cmd == c;
  }

  /** Everything received since a held opcode is held, so it is fewer than the cache takes. */
  lemma {:induction false} SinceHeld(slots: seq<Slot>, history: seq<Msg>, clock: nat -> real, i: nat)
    requires Recent(slots, history, clock) && i < |slots|
    ensures |Commands(history[LastAt(history, slots[i].cmd) + 1..])| < SLOTS
  {
    AsManyCommands(slots);
    assert slots[i].cmd in SlotCommands(slots);
    hide Truncated, LastAt, Remembers, Accounted, Commands, SlotCommands;
    var since := Commands(history[LastAt(history, slots[i].cmd) + 1..]);
    forall c | c in since
      ensures c in SlotCommands(slots)
    {
      HeldLater(slots, history, i, c);
    }
    NoneSince(history, slots[i].cmd);
    Sets.ProperSubsetSize(since, SlotCommands(slots));
  }

  /** A dropped opcode was last received before everything held, and the cache is full. */
  lemma {:induction false} HeldSince(slots: seq<Slot>, history: seq<Msg>, clock: nat -> real, k: nat)
    requires Recent(slots, history, clock) && k < |history| && !Holds(slots, history[k].cmd)
    ensures |Commands(history[k + 1..])| >= SLOTS
  {
    hide Truncated, LastAt, Remembers, Holds;
    assert Accounted(slots, history, k);
    forall c | c in SlotCommands(slots)
      ensures c in Commands(history[k + 1..])
    {
      var i :| 0 <= i < |slots| && slots[i].cmd == c;
      var l := LastAt(history, c);
      assert history[k + 1..][l - k - 1] == history[l];
    }
    AsManyCommands(slots);
    Sets.SubsetSize(SlotCommands(slots), Commands(history[k + 1..]));
  }

  /**
   From the head to the cache: whatever frames and pulses it printed, however the bytes were cut, nothing is
   left unparsed. With at most 128 opcodes every slot holds its opcode's last payload; with any number, on a
   clock whose readings rise, the cache accounts for every message as least recently used asks.
   */
  lemma {:induction false} StreamToCache(items: seq<Item>, chunks: seq<seq<byte>>, clock: nat -> real)
    requires forall i :: i in items ==> ValidItem(i)
    requires Concat(chunks) == Print(items) && NeverFull([], chunks)
    ensures FeedAll([], chunks) == (Messages(items), [])
    ensures |Commands(Messages(items))| <= SLOTS ==> Reflects(Cache(FeedAll([], chunks).0, clock), Messages(items))
    ensures Increasing(clock) ==> Recent(Cache(FeedAll([], chunks).0, clock), Messages(items), clock)
  {
    hide Reflects, Recent, Increasing;
    ChunkIndependence(chunks);
    RoundTrip(items);
    if |Commands(Messages(items))| <= SLOTS {
      CacheIsLast(Messages(items), clock);
    }
    if Increasing(clock) {
      CacheRecent(Messages(items), clock);
    }
  }

  // ------------------------------------------------------------- key lookup

  const COLON: byte := 58
  const SEMI: byte := 59

  function Cut(v: seq<byte>, cap: nat): seq<byte>
    requires cap > 0
  {
    if |v| >= cap then v[..cap - 1] else v
  }

  /** The caller's buffer gets the value's first cap - 1 bytes, so that its NUL fits. */
  lemma CutIs(v: seq<byte>, cap: nat)
    requires cap > 0
    ensures Cut(v, cap) <= v && |Cut(v, cap)| == if |v| < cap - 1 then |v| else cap - 1
  {
  }

  /** `plink_arg`: the value of the first `key:value;` entry, cut to the caller's buffer. */
  function Arg(args: seq<byte>, key: seq<byte>, cap: nat): Option<seq<byte>>
    requires cap > 0
    decreases |args|
  {
    if args == [] then None
    else
      var colon := First(args, COLON, 0);
      if colon == |args| then None
      else
        var semi := First(args, SEMI, colon);
        if args[..colon] == key then
          Some(Cut(args[colon + 1..semi], cap))
        else if semi < |args| then Arg(args[semi + 1..], key, cap)
        else None
  }

  lemma {:induction false} ArgUnfold(args: seq<byte>, key: seq<byte>, cap: nat)
    requires cap > 0
    ensures args == [] ==> Arg(args, key, cap) == None
    ensures
      var colon := First(args, COLON, 0);
      var semi := First(args, SEMI, colon);
      args != [] ==>
        Arg(args, key, cap) == if colon == |args| then None
                               else if args[..colon] == key then Some(Cut(args[colon + 1..semi], cap))
                               else if semi < |args| then Arg(args[semi + 1..], key, cap)
                               else None
  {
    hide First, Cut;
  }

  /** The entry-by-entry walk of `plink_arg`; None is -1. */
  method FindArg(args: seq<byte>, key: seq<byte>, cap: nat) returns (value: Option<seq<byte>>)
    ensures cap == 0 ==> value == None
    ensures cap > 0 ==> value == Arg(args, key, cap)
  {
    if cap == 0 {
      return None;
    }
    hide Cut, First, Arg;
    var rest := args;
    while rest != []
      invariant Arg(rest, key, cap) == Arg(args, key, cap)
      decreases |rest|
    {
      ArgUnfold(rest, key, cap);
      var colon := First(rest, COLON, 0);
      if colon == |rest| {
        return None;
      }
      var semi := First(rest, SEMI, colon);
      if rest[..colon] == key {
        return Some(Cut(rest[colon + 1..semi], cap));
      }
      if semi == |rest| {
        return None;
      }
      rest := rest[semi + 1..];
    }
    ArgUnfold(rest, key, cap);
    value := None;
  }

  datatype Pair = Pair(key: seq<byte>, value: seq<byte>)

  predicate ValidPair(p: Pair) {
    COLON !in p.key && SEMI !in p.value
  }

  function PrintPairs(ps: seq<Pair>): seq<byte> {
    if ps == [] then [] else ps[0].key + [COLON] + ps[0].value + [SEMI] + PrintPairs(ps[1..])
  }

  function Lookup(ps: seq<Pair>, key: seq<byte>): Option<seq<byte>> {
    if ps == [] then None else if ps[0].key == key then Some(ps[0].value) else Lookup(ps[1..], key)
  }

  lemma {:induction false} FirstPair(p: Pair, rest: seq<byte>)
    requires ValidPair(p)
    ensures
      var s := p.key + [COLON] + p.value + [SEMI] + rest;
      var colon := |p.key|;
      var semi := colon + 1 + |p.value|;
      && First(s, COLON, 0) == colon && First(s, SEMI, colon) == semi < |s|
      && s[..colon] == p.key && s[colon + 1..semi] == p.value && s[semi + 1..] == rest
  {
    var s := p.key + [COLON] + p.value + [SEMI] + rest;
    var colon := |p.key|;
    var semi := colon + 1 + |p.value|;
    forall j | 0 <= j < colon
      ensures s[j] != COLON
    {
      assert s[j] == p.key[j] && p.key[j] in p.key;
    }
    forall j | colon <= j < semi
      ensures s[j] != SEMI
    {
      if colon < j {
        assert s[j] == p.value[j - colon - 1] && p.value[j - colon - 1] in p.value;
      }
    }
    FirstIs(s, COLON, 0, colon);
    FirstIs(s, SEMI, colon, semi);
  }

  lemma {:induction false} ArgStep(p: Pair, rest: seq<byte>, key: seq<byte>, cap: nat)
    requires ValidPair(p) && cap > 0
    ensures Arg(p.key + [COLON] + p.value + [SEMI] + rest, key, cap)
            == if p.key == key then Some(Cut(p.value, cap)) else Arg(rest, key, cap)
  {
    hide First, Cut;
    FirstPair(p, rest);
  }

  /** A printed payload answers every key with its first value, cut to the caller's buffer. */
  lemma {:induction false} ArgRoundTrip(ps: seq<Pair>, key: seq<byte>, cap: nat)
    requires cap > 0 && forall p :: p in ps ==> ValidPair(p)
    ensures Arg(PrintPairs(ps), key, cap)
            == match Lookup(ps, key)
               case None => None
               case Some(v) => Some(Cut(v, cap))
  {
    if ps != [] {
      hide Arg, Cut;
      ArgStep(ps[0], PrintPairs(ps[1..]), key, cap);
      ArgRoundTrip(ps[1..], key, cap);
    } else {
      assert PrintPairs(ps) == [];
    }
  }
}
