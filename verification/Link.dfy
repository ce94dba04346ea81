/** The control link's buffers and cache, updated in place as polaris-link.c does. */
module Link {
  import opened Words
  import opened LinkSpec
  import opened LinkCache

  // What one write() on the non-blocking socket did.
  datatype WriteResult = Wrote(n: nat) | WouldBlock | Failed

  function Flatten(frames: seq<seq<byte>>): seq<byte> {
    if frames == [] then [] else Flatten(frames[..|frames| - 1]) + frames[|frames| - 1]
  }

  /** `1&<cmd>&<type>&<args>#` */
  function PrintFrame(cmd: int, kind: int, args: seq<byte>): seq<byte> {
    [49, 38] + Decimal(cmd) + [38] + Decimal(kind) + [38] + args + [HASH]
  }

  const REGISTER_ARGS: seq<byte> := Ascii("type:0;")

  /** How many of `n` queued bytes the first `k` writes took, each offered what the ones before it left. */
  function TakenBy(writes: nat -> WriteResult, k: nat, n: nat): (t: nat)
    ensures t <= n
  {
    if k == 0 then 0 else
      var t := TakenBy(writes, k - 1, n);
      match writes(k - 1)
      case Wrote(m) => if m < n - t then t + m else n
      case _ => t
  }

  /**
   `k` writes drained `queue`: none was made once the queue was empty, all but the last took something, and the
   last one decided the end. The peer was given exactly what the writes took.
   */
  ghost predicate Drained(queue: seq<byte>, writes: nat -> WriteResult, k: nat,
                          given: seq<byte>, givenAfter: seq<byte>, left: seq<byte>, up: bool) {
    && (k == 0 <==> queue == [])
    && (forall i :: 0 <= i < k - 1 ==> writes(i).Wrote? && writes(i).n > 0)
    && (k > 0 ==> TakenBy(writes, k - 1, |queue|) < |queue|)
    && givenAfter == given + queue[..TakenBy(writes, k, |queue|)]
    && (!up <==> k > 0 && (writes(k - 1).Failed? || writes(k - 1) == Wrote(0)))
    && left == (if up then queue[TakenBy(writes, k, |queue|)..] else [])
    && (up && left != [] ==> k > 0 && writes(k - 1).WouldBlock?)
  }

  /** A drain still going: all `k` writes so far took something, and there was something to take each time. */
  ghost predicate Draining(queue: seq<byte>, writes: nat -> WriteResult, k: nat,
                           given: seq<byte>, now: seq<byte>, left: seq<byte>) {
    && (forall i :: 0 <= i < k ==> writes(i).Wrote? && writes(i).n > 0)
    && (k > 0 ==> TakenBy(writes, k - 1, |queue|) < |queue|)
    && now == given + queue[..TakenBy(writes, k, |queue|)]
    && left == queue[TakenBy(writes, k, |queue|)..]
  }

  lemma {:induction false} TakesMore(writes: nat -> WriteResult, k: nat, n: nat)
    requires writes(k).Wrote?
    ensures var t := TakenBy(writes, k, n);
            TakenBy(writes, k + 1, n) == t + if writes(k).n > n - t then n - t else writes(k).n
  {
  }

  lemma {:induction false} CutTwice(given: seq<byte>, queue: seq<byte>, t: nat, n: nat)
    requires t + n <= |queue|
    ensures given + queue[..t + n] == given + queue[..t] + queue[t..][..n]
    ensures queue[t + n..] == queue[t..][n..]
  {
    assert queue[..t + n] == queue[..t] + queue[t..][..n];
  }

  lemma {:induction false} DrainOnce(queue: seq<byte>, writes: nat -> WriteResult, k: nat,
                                     given: seq<byte>, now: seq<byte>, left: seq<byte>, n: nat)
    requires Draining(queue, writes, k, given, now, left) && left != []
    requires writes(k).Wrote? && writes(k).n > 0
    requires n == if writes(k).n > |left| then |left| else writes(k).n
    ensures Draining(queue, writes, k + 1, given, now + left[..n], left[n..])
  {
    hide TakenBy;
    var t := TakenBy(writes, k, |queue|);
    TakesMore(writes, k, |queue|);
    CutTwice(given, queue, t, n);
  }

  lemma {:induction false} DrainStarts(queue: seq<byte>, writes: nat -> WriteResult, given: seq<byte>)
    ensures Draining(queue, writes, 0, given, given, queue) && Prefix(given, given)
  {
    assert given + [] == given;
  }

  lemma {:induction false} SumCancels(given: seq<byte>, left: seq<byte>, n: nat, rest: seq<byte>)
    requires n <= |left| && given + left[..n] + rest == given + left
    ensures rest == left[n..]
  {
    assert given + left == given + left[..n] + left[n..];
    assert rest == (given + left[..n] + rest)[|given + left[..n]|..];
  }

  /** The three ends of a drain: the queue is empty, the socket would block, the socket failed. */
  lemma {:induction false} DrainEnds(queue: seq<byte>, writes: nat -> WriteResult, k: nat,
                                     given: seq<byte>, now: seq<byte>, left: seq<byte>)
    requires Draining(queue, writes, k, given, now, left)
    ensures left == [] ==> Drained(queue, writes, k, given, now, [], true)
    ensures left != [] && writes(k).WouldBlock? ==> Drained(queue, writes, k + 1, given, now, left, true)
    ensures left != [] && (writes(k).Failed? || writes(k) == Wrote(0)) ==>
              Drained(queue, writes, k + 1, given, now, [], false)
  {
    var t := TakenBy(writes, k, |queue|);
    assert |left| == |queue| - t;
    assert writes(k).WouldBlock? || writes(k).Failed? || writes(k) == Wrote(0) ==>
        TakenBy(writes, k + 1, |queue|) == t;
  }

  lemma {:induction false} TakenGrows(writes: nat -> WriteResult, j: nat, k: nat, n: nat)
    requires j <= k
    ensures TakenBy(writes, j, n) <= TakenBy(writes, k, n)
    decreases k
  {
    if j < k {
      TakenGrows(writes, j, k - 1, n);
    }
  }

  /** The socket's answers leave a drain no choice: how many writes it makes, what it hands over, how it ends. */
  lemma {:induction false} DrainDetermined(queue: seq<byte>, writes: nat -> WriteResult, given: seq<byte>,
                                           k: nat, after: seq<byte>, left: seq<byte>, up: bool,
                                           k': nat, after': seq<byte>, left': seq<byte>, up': bool)
    requires Drained(queue, writes, k, given, after, left, up)
    requires Drained(queue, writes, k', given, after', left', up')
    ensures k == k' && after == after' && left == left' && up == up'
  {
    if k < k' {
      StopsAtFirst(queue, writes, given, k, after, left, up, k', after', left', up');
    } else if k' < k {
      StopsAtFirst(queue, writes, given, k', after', left', up', k, after, left, up);
    }
  }

  lemma {:induction false} StopsAtFirst(queue: seq<byte>, writes: nat -> WriteResult, given: seq<byte>,
                                        k: nat, after: seq<byte>, left: seq<byte>, up: bool,
                                        k': nat, after': seq<byte>, left': seq<byte>, up': bool)
    requires Drained(queue, writes, k, given, after, left, up)
    requires Drained(queue, writes, k', given, after', left', up')
    ensures !(k < k')
  {
    if k < k' {
      TakenGrows(writes, k, k' - 1, |queue|);
    }
  }

  /** memmove(buf, buf + from, n) */
  method MoveDown(buf: array<byte>, from: nat, n: nat)
    requires from + n <= buf.Length
    modifies buf
    ensures buf[..n] == old(buf[from..from + n])
  {
    for i := 0 to n
      invariant forall k :: 0 <= k < i ==> buf[k] == old(buf[from + k])
      invariant forall k :: i <= k < buf.Length ==> buf[k] == old(buf[k])
    {
      buf[i] := buf[from + i];
    }
  }

  /** memcpy(buf + at, s, |s|) */
  method CopyIn(buf: array<byte>, at: nat, s: seq<byte>)
    requires at + |s| <= buf.Length
    modifies buf
    ensures buf[..at] == old(buf[..at]) && buf[..at + |s|] == old(buf[..at]) + s
  {
    for i := 0 to |s|
      invariant forall k :: 0 <= k < at ==> buf[k] == old(buf[k])
      invariant forall k :: 0 <= k < i ==> buf[at + k] == s[k]
    {
      buf[at + i] := s[i];
    }
  }

  lemma {:induction false} FirstNone(s: seq<byte>, c: byte, from: nat)
    requires from <= |s| && forall j :: from <= j < |s| ==> s[j] != c
    ensures First(s, c, from) == |s|
  {
  }

  lemma SliceOfPrefix(buf: array<byte>, n: nat, i: nat, j: nat)
    requires i <= j <= n <= buf.Length
    ensures buf[i..j] == buf[..n][i..j]
  {
  }

  /** memchr from `from`, or `n`. */
  method Find(buf: array<byte>, n: nat, c: byte, from: nat) returns (i: nat)
    requires from <= n <= buf.Length
    ensures i == First(buf[..n], c, from)
  {
    i := from;
    while i < n && buf[i] != c
      invariant from <= i <= n
      invariant forall j :: from <= j < i ==> buf[j] != c
    {
      i := i + 1;
    }
    if i < n {
      FirstIs(buf[..n], c, from, i);
    } else {
      FirstNone(buf[..n], c, from);
    }
  }

  /** Filling the slot `SlotFor` made room in is what recording the message means. */
  lemma {:induction false} SlotFilled(was: seq<Slot>, room: seq<Slot>, i: nat, m: Msg, now: real)
    requires |was| <= SLOTS && i < |room|
    requires
      var k := SlotIndex(was, m.cmd);
      && room == (if k < |was| then was
                  else if |was| < SLOTS then was + [Slot(m.cmd, [], 0.0, 0)]
                  else was[Oldest(was, |was|) := Slot(m.cmd, [], 0.0, 0)])
      && i == if k < |was| then k else if |was| < SLOTS then |was| else Oldest(was, |was|)
    ensures room[i := Slot(m.cmd, Truncated(m.args), now, room[i].count + 1)] == Record(was, m, now)
  {
    hide SlotIndex, Oldest, Truncated;
  }

  lemma {:induction false} CacheNext(history: seq<Msg>, m: Msg, clock: nat -> real)
    ensures Cache(history + [m], clock) == Record(Cache(history, clock), m, clock(|history|))
  {
    hide Record;
    assert (history + [m])[..|history|] == history;
  }

  class Connection {
    const rx: array<byte>
    var rxLen: nat
    const tx: array<byte>
    var txLen: nat
    const slots: array<Slot>
    var nslots: nat
    var up: bool
    var rxMsgs: nat
    var txMsgs: nat
    var parseErrors: nat
    var slotEvictions: nat
    // Monotonic time at which message k was recorded.
    const clock: nat -> real
    ghost var history: seq<Msg>
    // Since the connection came up: frames the queue took, bytes the socket took.
    ghost var accepted: seq<seq<byte>>
    ghost var sent: seq<byte>

    ghost predicate Valid()
      reads this, rx, tx, slots
    {
      rx != tx && RxValid() && TxValid() && (up || EmptyBuffers())
    }

    ghost predicate EmptyBuffers()
      reads this`rxLen, this`txLen
    {
      rxLen == 0 && txLen == 0
    }

    /** The cache is that of the messages received so far. */
    ghost predicate RxValid()
      reads this`rxLen, this`nslots, this`rxMsgs, this`history, slots
    {
      && rx.Length == RX_BUF && rxLen <= RX_BUF
      && slots.Length == SLOTS && nslots <= SLOTS
      && rxMsgs == |history| && slots[..nslots] == Cache(history, clock)
    }

    ghost predicate TxValid()
      reads this`txLen, this`up, this`accepted, this`sent, tx
    {
      && tx.Length == TX_BUF && txLen <= TX_BUF
      && (up ==> Conserved())
      && Prefix(sent, Flatten(accepted))
    }

    /** Bytes on the wire followed by bytes still queued are the accepted frames, in order and whole. */
    ghost predicate Conserved()
      requires txLen <= tx.Length
      reads this`txLen, this`sent, this`accepted, tx
    {
      sent + tx[..txLen] == Flatten(accepted)
    }

    ghost function Residue(): seq<byte>
      requires rxLen <= rx.Length
      reads this, rx
    {
      rx[..rxLen]
    }

    constructor (clock: nat -> real)
      ensures Valid() && fresh(rx) && fresh(tx) && fresh(slots)
      ensures history == [] && accepted == [] && sent == [] && !up && rxLen == 0 && this.clock == clock
    {
      rx := new byte[RX_BUF](_ => 0);
      tx := new byte[TX_BUF](_ => 0);
      slots := new Slot[SLOTS](_ => Slot(0, [], 0.0, 0));
      this.clock := clock;
      rxLen, txLen, nslots, rxMsgs, txMsgs, parseErrors, slotEvictions := 0, 0, 0, 0, 0, 0, 0;
      up := false;
      history, accepted, sent := [], [], [];
    }

    // ---------------------------------------------------------------- slots

    /** The slot to fill for `cmd`: its own, a fresh one, or the evicted oldest. */
    method SlotFor(cmd: int) returns (i: nat)
      requires slots.Length == SLOTS && nslots <= SLOTS
      modifies this`nslots, this`slotEvictions, slots
      ensures i < nslots <= SLOTS
      ensures var was := old(slots[..nslots]);
              var k := SlotIndex(was, cmd);
              slots[..nslots] == if k < |was| then was
                                 else if |was| < SLOTS then was + [Slot(cmd, [], 0.0, 0)]
                                 else was[Oldest(was, |was|) := Slot(cmd, [], 0.0, 0)]
      ensures i == (var was := old(slots[..nslots]);
                    if SlotIndex(was, cmd) < |was| then SlotIndex(was, cmd)
                    else if |was| < SLOTS then |was| else Oldest(was, |was|))
      ensures slotEvictions == old(slotEvictions)
                               + (if SlotIndex(old(slots[..nslots]), cmd) == old(nslots) == SLOTS then 1 else 0)
    {
      ghost var was := slots[..nslots];
      i := 0;
      while i < nslots
        invariant 0 <= i <= nslots && slots[..nslots] == was
        invariant forall j :: 0 <= j < i ==> was[j].cmd != cmd
      {
        if slots[i].cmd == cmd {
          IndexIs(was, cmd, i);
          return;
        }
        i := i + 1;
      }
      IndexIs(was, cmd, i);
      if nslots < SLOTS {
        slots[nslots] := Slot(cmd, [], 0.0, 0);
        nslots := nslots + 1;
        return;
      }
      var oldest := 0;
      i := 1;
      while i < nslots
        invariant 1 <= i <= nslots && oldest == Oldest(was, i) && slots[..nslots] == was
      {
        if slots[i].when < slots[oldest].when {
          oldest := i;
        }
        i := i + 1;
      }
      slotEvictions := slotEvictions + 1;
      slots[oldest] := Slot(cmd, [], 0.0, 0);
      i := oldest;
    }

    /** One parsed message: copy its payload into the slot and stamp it. */
    method RecordMessage(m: Msg)
      requires Valid()
      modifies this`nslots, this`slotEvictions, this`rxMsgs, this`history, slots
      ensures Valid() && history == old(history) + [m] && rxMsgs == old(rxMsgs) + 1
      ensures slots[..nslots] == Record(old(slots[..nslots]), m, clock(old(rxMsgs)))
    {
      hide Flatten, SlotIndex, Oldest, Truncated, Record, Cache;
      ghost var was := slots[..nslots];
      var i := SlotFor(m.cmd);
      ghost var room := slots[..nslots];
      slots[i] := Slot(m.cmd, Truncated(m.args), clock(rxMsgs), slots[i].count + 1);
      assert slots[..nslots] == room[i := Slot(m.cmd, Truncated(m.args), clock(rxMsgs), room[i].count + 1)];
      SlotFilled(was, room, i, m, clock(rxMsgs));
      CacheNext(history, m, clock);
      rxMsgs := rxMsgs + 1;
      history := history + [m];
    }

    /** `plink_get`: the stamped slot of an opcode. */
    method Get(cmd: int) returns (r: Option<Slot>)
      requires Valid()
      ensures r.Some? ==> r.value in slots[..nslots] && r.value.cmd == cmd && r.value.when != 0.0
      ensures r.None? ==> forall i :: 0 <= i < nslots ==> slots[i].cmd != cmd || slots[i].when == 0.0
    {
      for i := 0 to nslots
        invariant forall j :: 0 <= j < i ==> slots[j].cmd != cmd || slots[j].when == 0.0
      {
        if slots[i].cmd == cmd && slots[i].when != 0.0 {
          assert slots[..nslots][i] == slots[i];
          return Some(slots[i]);
        }
      }
      r := None;
    }

    // ----------------------------------------------------------------- read

    /** memmove the tail of the buffer down over its first `n` bytes. */
    method DropPrefix(n: nat)
      requires Valid() && n <= rxLen
      modifies this`rxLen, rx
      ensures Valid() && rxLen == old(rxLen) - n && Residue() == old(Residue())[n..]
    {
      hide Cache, Flatten, Prefix;
      ghost var tail := rx[n..rxLen];
      assert tail == Residue()[n..];
      MoveDown(rx, n, rxLen - n);
      rxLen := rxLen - n;
      assert Residue() == tail;
    }

    method EatPulsesInPlace()
      requires Valid()
      modifies this`rxLen, rx
      ensures Valid() && Residue() == EatPulses(old(Residue()))
    {
      while rxLen >= 2 && rx[0] == PULSE && rx[1] == HASH
        invariant Valid() && rxLen <= old(rxLen) && EatPulses(Residue()) == EatPulses(old(Residue()))
        decreases rxLen
      {
        DropPrefix(2);
      }
    }

    /** The frame with its `@` and `#` at these places is recorded, and all up to it leaves the buffer. */
    method TakeAt(at: nat, hash: nat) returns (ghost m: Msg)
      requires Valid() && 3 <= at < hash < rxLen
      modifies this`rxLen, this`nslots, this`slotEvictions, this`rxMsgs, this`history, rx, slots
      ensures Valid() && rxLen < old(rxLen) && history == old(history) + [m]
      ensures m == Msg(Atoi(old(Residue())[at - 3..at]), old(Residue())[at + 1..hash])
      ensures Residue() == old(Residue())[hash + 1..]
    {
      hide Atoi, Cache, Flatten, Record, Prefix, Conserved;
      SliceOfPrefix(rx, rxLen, at - 3, at);
      SliceOfPrefix(rx, rxLen, at + 1, hash);
      var frame := Msg(Atoi(rx[at - 3..at]), rx[at + 1..hash]);
      RecordMessage(frame);
      m := frame;
      DropPrefix(hash + 1);
    }

    /** One turn of the parser: the first frame of a buffer that does not start with a pulse, if complete. */
    method TakeFrame() returns (found: bool, ghost m: Msg)
      requires Valid()
      modifies this`rxLen, this`nslots, this`slotEvictions, this`rxMsgs, this`history, this`parseErrors, rx, slots
      ensures Valid()
      ensures !found ==> ParseFrames(old(Residue())) == ([], old(Residue())) && history == old(history)
      ensures !found ==> Residue() == if AtIndex(old(Residue())) == old(rxLen) == RX_BUF then [] else old(Residue())
      ensures found ==> rxLen < old(rxLen) && history == old(history) + [m]
      ensures found ==> ParseFrames(old(Residue())) == ([m] + Parse(Residue()).0, Parse(Residue()).1)
    {
      hide Atoi, Cache, First, Flatten, Parse, Record, ParseFrames, Prefix, Conserved;
      ghost var t := Residue();
      m := Msg(0, []);
      var at := rxLen;
      if rxLen >= 3 {
        at := Find(rx, rxLen, AT, 3);
      }
      assert at == AtIndex(t);
      FrameSplit(t);
      if at == rxLen {
        if rxLen == rx.Length {
          rxLen := 0;
          parseErrors := parseErrors + 1;
        }
        found := false;
        return;
      }
      var hash := Find(rx, rxLen, HASH, at);
      if hash == rxLen {
        found := false;
        return;
      }
      m := TakeAt(at, hash);
      found := true;
    }

    /** `rx_parse`: pull every complete frame out of the buffer. */
    method RxParse()
      requires Valid()
      modifies this`rxLen, this`nslots, this`slotEvictions, this`rxMsgs, this`history, this`parseErrors, rx, slots
      ensures Valid()
      ensures history == old(history) + Parse(old(Residue())).0
      ensures var left := Parse(old(Residue())).1;
              Residue() == if AtIndex(left) == |left| == RX_BUF then [] else left
    {
      hide Atoi, Cache, First, Flatten, ParseFrames, AtIndex, Prefix, EatPulses;
      ghost var start := Residue();
      ghost var done: seq<Msg> := [];
      EatPulsesInPlace();
      assert done + ParseFrames(Residue()).0 == ParseFrames(Residue()).0;
      while true
        invariant Valid() && history == old(history) + done
        invariant Parse(start) == (done + ParseFrames(Residue()).0, ParseFrames(Residue()).1)
        decreases rxLen
      {
        ghost var t := Residue();
        ghost var before := history;
        var found;
        ghost var m;
        found, m := TakeFrame();
        if !found {
          assert done + [] == done;
          return;
        }
        assert done + ([m] + Parse(Residue()).0) == done + [m] + Parse(Residue()).0;
        done := done + [m];
        assert history == old(history) + done;
        EatPulsesInPlace();
      }
    }

    /** read() fills the free end of the buffer. */
    method ReadInto(chunk: seq<byte>)
      requires Valid() && up && rxLen + |chunk| <= RX_BUF
      modifies this`rxLen, rx
      ensures Valid() && Residue() == old(Residue()) + chunk
    {
      hide Cache, Flatten, Prefix, Conserved;
      CopyIn(rx, rxLen, chunk);
      rxLen := rxLen + |chunk|;
    }

    /** `rx_once` when read() returned data; the kernel returns no more than was asked for. */
    method RxOnce(chunk: seq<byte>)
      requires Valid() && up
      requires 0 < |chunk| <= RX_BUF - (if rxLen == RX_BUF then 0 else rxLen)
      modifies this`rxLen, this`nslots, this`slotEvictions, this`rxMsgs, this`history, this`parseErrors, rx, slots
      ensures Valid()
      ensures (history, Residue()) == (old(history) + Feed(old(Residue()), chunk).0, Feed(old(Residue()), chunk).1)
    {
      hide Cache, Flatten, Prefix, Parse, AtIndex;
      if rxLen == rx.Length {
        rxLen := 0;
        parseErrors := parseErrors + 1;
        assert Residue() == [];
      }
      ReadInto(chunk);
      RxParse();
    }

    // ---------------------------------------------------------------- write

    /** `tx_queue`: a frame is taken whole or not at all. */
    method TxQueue(s: seq<byte>) returns (ok: bool)
      requires Valid() && up
      modifies this`txLen, this`accepted, tx
      ensures Valid() && ok == (old(txLen) + |s| <= TX_BUF)
      ensures ok ==> tx[..txLen] == old(tx[..txLen]) + s && accepted == old(accepted) + [s]
      ensures !ok ==> txLen == old(txLen) && tx[..] == old(tx[..]) && accepted == old(accepted)
    {
      hide Cache, Flatten;
      if txLen + |s| > tx.Length {
        return false;
      }
      ghost var queued := tx[..txLen];
      CopyIn(tx, txLen, s);
      txLen := txLen + |s|;
      accepted := accepted + [s];
      FlattenAppend(old(accepted), s);
      assert sent + (queued + s) == sent + queued + s;
      PrefixGrows(sent, Flatten(old(accepted)), s);
      ok := true;
    }

    /** The socket took the first `n` queued bytes; the rest slide down. */
    method TxTaken(n: nat)
      requires Valid() && up && n <= txLen
      modifies this`txLen, this`sent, tx
      ensures Valid() && txLen == old(txLen) - n
      ensures sent == old(sent) + old(tx[..n]) && sent + tx[..txLen] == old(sent) + old(tx[..txLen])
    {
      hide Cache, Flatten;
      ghost var queued := tx[..txLen];
      sent := sent + tx[..n];
      MoveDown(tx, n, txLen - n);
      txLen := txLen - n;
      assert tx[..txLen] == queued[n..];
      assert queued == queued[..n] + queued[n..] && queued[..n] == old(tx[..n]);
      assert old(sent) + (queued[..n] + queued[n..]) == old(sent) + queued[..n] + queued[n..];
      PrefixOfSum(sent, tx[..txLen]);
    }

    /**
     `tx_drain`: write until the queue is empty or the socket would block; a write fault drops the connection
     and what is left of the queue. `k` counts the writes.
     */
    method TxDrain(writes: nat -> WriteResult) returns (ghost k: nat)
      requires Valid()
      modifies this`txLen, this`rxLen, this`up, this`sent, tx
      ensures Valid() && accepted == old(accepted) && Prefix(old(sent), sent)
      ensures old(up) ==> Drained(old(tx[..txLen]), writes, k, old(sent), sent, tx[..txLen], up)
      ensures !old(up) ==> !up && k == 0 && sent == old(sent) && txLen == old(txLen)
      ensures rxLen == if old(up) && !up then 0 else old(rxLen)
    {
      hide Cache, Flatten, Prefix, Drained, Draining, TakenBy;
      var i := 0;
      k := 0;
      ghost var queue := tx[..txLen];
      DrainStarts(queue, writes, sent);
      while txLen > 0 && up
        invariant Valid() && accepted == old(accepted) && k == i >= 0 && up == old(up) && rxLen == old(rxLen)
        invariant Prefix(old(sent), sent) && Draining(queue, writes, k, old(sent), sent, tx[..txLen])
        invariant !up ==> k == 0 && sent == old(sent) && txLen == old(txLen)
        decreases txLen
      {
        var w := writes(i);
        ghost var given, left := sent, tx[..txLen];
        DrainEnds(queue, writes, k, old(sent), given, left);
        i := i + 1;
        k := k + 1;
        if w.Wrote? && w.n > 0 {
          var n := if w.n > txLen then txLen else w.n;
          DrainOnce(queue, writes, k - 1, old(sent), given, left, n);
          PrefixGrows(old(sent), given, left[..n]);
          assert tx[..n] == left[..n];
          TxTaken(n);
          SumCancels(given, left, n, tx[..txLen]);
        } else if w.WouldBlock? {
          return;
        } else {
          up, rxLen, txLen := false, 0, 0;
          assert tx[..txLen] == [];
          return;
        }
      }
      DrainEnds(queue, writes, k, old(sent), sent, tx[..txLen]);
    }

    /** `plink_send`: a frame that fits is queued behind what is there and the socket is offered it all at once. */
    method Send(cmd: int, kind: int, args: seq<byte>, writes: nat -> WriteResult) returns (ok: bool, ghost k: nat)
      requires Valid()
      modifies this`txLen, this`rxLen, this`up, this`sent, this`accepted, this`txMsgs, tx
      ensures Valid()
      ensures ok == (old(up) && |PrintFrame(cmd, kind, args)| < ARGS_MAX + 64
                     && old(txLen) + |PrintFrame(cmd, kind, args)| <= TX_BUF)
      ensures accepted == if ok then old(accepted) + [PrintFrame(cmd, kind, args)] else old(accepted)
      ensures txMsgs == old(txMsgs) + if ok then 1 else 0
      ensures ok ==> Drained(old(tx[..txLen]) + PrintFrame(cmd, kind, args), writes, k, old(sent), sent,
                             tx[..txLen], up)
      ensures !ok ==> k == 0 && up == old(up) && sent == old(sent) && txLen == old(txLen) && tx[..] == old(tx[..])
    {
      hide Drained, PrintFrame, Cache, Flatten, Prefix;
      k := 0;
      if !up {
        return false, 0;
      }
      var frame := PrintFrame(cmd, kind, args);
      if |frame| >= ARGS_MAX + 64 {
        return false, 0;
      }
      ok := TxQueue(frame);
      if ok {
        txMsgs := txMsgs + 1;
        k := TxDrain(writes);
      }
    }

    /**
     The connection comes up: both buffers are empty, as every way down leaves them, and the registration is
     the first frame. Unless a write fault takes the link down again, what of it is not sent is still queued.
     */
    method ComeUp(writes: nat -> WriteResult) returns (ghost k: nat)
      requires Valid() && !up
      modifies this`txLen, this`rxLen, this`up, this`sent, this`accepted, this`txMsgs, tx
      ensures Valid() && old(EmptyBuffers()) && rxLen == 0
      ensures accepted == [PrintFrame(808, 2, REGISTER_ARGS)] && txMsgs == old(txMsgs) + 1
      ensures Drained(PrintFrame(808, 2, REGISTER_ARGS), writes, k, [], sent, tx[..txLen], up)
      ensures up ==> sent + tx[..txLen] == PrintFrame(808, 2, REGISTER_ARGS)
    {
      hide Cache, PrintFrame, Decimal, Flatten, Drained;
      ShortRegistration();
      FlattenNothing();
      up := true;
      accepted, sent := [], [];
      assert tx[..txLen] == [];
      var ok := TxQueue(PrintFrame(808, 2, REGISTER_ARGS));
      txMsgs := txMsgs + 1;
      assert tx[..txLen] == PrintFrame(808, 2, REGISTER_ARGS) by {
        assert [] + PrintFrame(808, 2, REGISTER_ARGS) == PrintFrame(808, 2, REGISTER_ARGS);
      }
      k := TxDrain(writes);
      DrainConserves(PrintFrame(808, 2, REGISTER_ARGS), writes, k, [], sent, tx[..txLen], up);
    }
  }

  /** While the link is up a drain loses nothing: what was given and what is left are what there was. */
  lemma {:induction false} DrainConserves(queue: seq<byte>, writes: nat -> WriteResult, k: nat,
                                          given: seq<byte>, after: seq<byte>, left: seq<byte>, up: bool)
    requires Drained(queue, writes, k, given, after, left, up)
    ensures up ==> after + left == given + queue
    ensures (forall i :: 0 <= i < k ==> writes(i).Wrote? && writes(i).n > 0) ==> up && left == []
  {
    if up {
      var t := TakenBy(writes, k, |queue|);
      assert given + queue[..t] + queue[t..] == given + (queue[..t] + queue[t..]);
      assert queue[..t] + queue[t..] == queue;
    }
  }

  predicate Prefix(a: seq<byte>, b: seq<byte>) {
    a <= b
  }

  lemma {:induction false} PrefixOfSum(a: seq<byte>, b: seq<byte>)
    ensures Prefix(a, a + b)
  {
  }

  lemma {:induction false} PrefixGrows(a: seq<byte>, b: seq<byte>, c: seq<byte>)
    requires Prefix(a, b)
    ensures Prefix(a, b + c)
  {
  }

  lemma {:induction false} FlattenAppend(frames: seq<seq<byte>>, s: seq<byte>)
    ensures Flatten(frames + [s]) == Flatten(frames) + s
  {
    assert (frames + [s])[..|frames|] == frames;
  }

  lemma {:induction false} FlattenNothing()
    ensures Flatten([]) == []
  {
  }

  lemma {:induction false} ShortRegistration()
    ensures |PrintFrame(808, 2, REGISTER_ARGS)| == 16
  {
    assert Decimal(8) == [56] && Decimal(80) == Decimal(8) + [48] && Decimal(808) == Decimal(80) + [56];
    assert Decimal(2) == [50];
  }

  lemma {:induction false} IndexIs(slots: seq<Slot>, cmd: int, i: nat)
    requires i <= |slots| && (i < |slots| ==> slots[i].cmd == cmd)
    requires forall j :: 0 <= j < i ==> slots[j].cmd != cmd
    ensures SlotIndex(slots, cmd) == i
  {
  }

  // ------------------------------------------------------ what the peer reads

  /** The complete frames of a byte stream: cut after every `#`. */
  function CutFrames(s: seq<byte>): seq<seq<byte>>
    decreases |s|
  {
    var i := First(s, HASH, 0);
    if i == |s| then [] else [s[..i + 1]] + CutFrames(s[i + 1..])
  }

  predicate WholeFrame(f: seq<byte>) {
    f != [] && f[|f| - 1] == HASH && forall i :: 0 <= i < |f| - 1 ==> f[i] != HASH
  }

  lemma {:induction false} FlattenCons(f: seq<byte>, frames: seq<seq<byte>>)
    ensures Flatten([f] + frames) == f + Flatten(frames)
  {
    if frames == [] {
      assert [f] + frames == [f] && [f][..0] == [] && Flatten([f]) == Flatten([]) + f == f;
    } else {
      var n := |frames| - 1;
      FlattenCons(f, frames[..n]);
      assert ([f] + frames)[..|[f] + frames| - 1] == [f] + frames[..n];
      assert f + (Flatten(frames[..n]) + frames[n]) == f + Flatten(frames[..n]) + frames[n];
    }
  }

  /** Whatever prefix of the queue the socket has taken, the peer reads whole accepted frames, in order. */
  lemma {:induction false} PeerReadsWholeFrames(sent: seq<byte>, accepted: seq<seq<byte>>)
    requires Prefix(sent, Flatten(accepted)) && forall f :: f in accepted ==> WholeFrame(f)
    ensures CutFrames(sent) <= accepted
    decreases |accepted|
  {
    if accepted != [] {
      hide Flatten, CutFrames, WholeFrame, Prefix;
      var f, rest := accepted[0], accepted[1..];
      assert accepted == [f] + rest && f in accepted;
      FlattenCons(f, rest);
      PrefixSplit(sent, f, Flatten(rest));
      if |sent| < |f| {
        CutNothing(sent, f);
      } else {
        PeerReadsWholeFrames(sent[|f|..], rest);
        CutOne(f, sent[|f|..]);
      }
    } else {
      CutNothing([], [HASH]);
    }
  }

  lemma PrefixSplit(s: seq<byte>, a: seq<byte>, b: seq<byte>)
    requires Prefix(s, a + b)
    ensures |s| < |a| ==> s == a[..|s|]
    ensures |a| <= |s| ==> s == a + s[|a|..] && Prefix(s[|a|..], b)
  {
    if |s| < |a| {
      assert s == (a + b)[..|s|] == a[..|s|];
    } else {
      assert s == (a + b)[..|s|] == a + b[..|s| - |a|];
    }
  }

  lemma {:induction false} CutNothing(s: seq<byte>, f: seq<byte>)
    requires WholeFrame(f) && |s| < |f| && s == f[..|s|]
    ensures CutFrames(s) == []
  {
    FirstNone(s, HASH, 0);
  }

  lemma {:induction false} CutOne(f: seq<byte>, rest: seq<byte>)
    requires WholeFrame(f)
    ensures CutFrames(f + rest) == [f] + CutFrames(rest)
  {
    FirstIs(f + rest, HASH, 0, |f| - 1);
    assert (f + rest)[..|f|] == f && (f + rest)[|f|..] == rest;
  }

  // --------------------------------------------------------- what a frame says

  const AMP: byte := 38

  predicate Digit(b: byte) {
    48 <= b <= 57
  }

  /** `%d` prints digits, behind a minus sign when the number is negative. */
  lemma {:induction false} DecimalDigits(n: int)
    ensures Decimal(n) != []
    ensures n >= 0 ==> forall b :: b in Decimal(n) ==> Digit(b)
    ensures forall b :: b in Decimal(n) ==> Digit(b) || b == 45
    decreases if n < 0 then 1 - n else n
  {
    if n < 0 {
      DecimalDigits(-n);
    } else if n >= 10 {
      DecimalDigits(n / 10);
    }
  }

  lemma {:induction false} DigitsSnoc(s: seq<byte>, d: byte, acc: nat)
    requires Digit(d) && forall b :: b in s ==> Digit(b)
    ensures Digits(s + [d], acc) == 10 * Digits(s, acc) + (d - 48)
    decreases |s|
  {
    if s == [] {
      assert (s + [d])[1..] == [];
    } else {
      assert (s + [d])[1..] == s[1..] + [d] && s[0] in s;
      DigitsSnoc(s[1..], d, 10 * acc + (s[0] - 48));
    }
  }

  lemma {:induction false} DigitsReadBack(n: nat)
    ensures Digits(Decimal(n), 0) == n
  {
    if n >= 10 {
      DigitsReadBack(n / 10);
      DecimalDigits(n / 10);
      DigitsSnoc(Decimal(n / 10), 48 + n % 10, 0);
    } else {
      assert Digits([48 + n], 0) == Digits([48 + n][1..], n);
    }
  }

  lemma {:induction false} DecimalReadsBack(n: int)
    ensures Atoi(Decimal(n)) == n
  {
    DecimalDigits(n);
    if n < 0 {
      assert Decimal(n)[1..] == Decimal(-n);
      DigitsReadBack(-n);
    } else {
      assert Decimal(n)[0] in Decimal(n);
      DigitsReadBack(n);
    }
  }

  lemma {:induction false} DigitsStop(n: nat, rest: seq<byte>)
    requires rest != [] ==> !Digit(rest[0])
    ensures Digits(Decimal(n) + rest, 0) == n
  {
    DecimalDigits(n);
    DigitsReadBack(n);
    DigitsBefore(Decimal(n), rest, 0);
  }

  lemma {:induction false} DigitsBefore(s: seq<byte>, rest: seq<byte>, acc: nat)
    requires (forall b :: b in s ==> Digit(b)) && (rest != [] ==> !Digit(rest[0]))
    ensures Digits(s + rest, acc) == Digits(s, acc)
    decreases |s|
  {
    if s == [] {
      assert s + rest == rest;
    } else {
      assert s[0] in s && (s + rest)[1..] == s[1..] + rest;
      DigitsBefore(s[1..], rest, 10 * acc + (s[0] - 48));
    }
  }

  /**
   How a number is read: blanks in front are skipped, one sign is heeded, the digits end at the first other byte,
   and anything else in front reads as zero.
   */
  lemma {:induction false} AtoiReads(n: nat, rest: seq<byte>, blank: byte, other: byte)
    requires rest != [] ==> !Digit(rest[0])
    requires blank in {9, 10, 11, 12, 13, 32}
    requires other !in {9, 10, 11, 12, 13, 32, 43, 45} && !(48 <= other <= 57)
    ensures Atoi(Decimal(n) + rest) == n
    ensures Atoi([45] + Decimal(n) + rest) == 0 - n && Atoi([43] + Decimal(n) + rest) == n
    ensures Atoi([blank] + rest) == Atoi(rest) && Atoi([other] + rest) == 0 && Atoi([]) == 0
  {
    hide Decimal, Digits;
    DigitsStop(n, rest);
    DecimalDigits(n);
    var d := Decimal(n);
    assert d[0] in d && (d + rest)[0] == d[0];
    SignReads(45, d + rest);
    SignReads(43, d + rest);
    assert [45] + d + rest == [45] + (d + rest) && [43] + d + rest == [43] + (d + rest);
    OtherReads(other, rest);
    assert ([blank] + rest)[1..] == rest;
  }

  lemma {:induction false} OtherReads(other: byte, s: seq<byte>)
    requires !Space(other) && other != 43 && other != 45 && !Digit(other)
    ensures Atoi([other] + s) == 0
  {
  }

  lemma {:induction false} SignReads(sign: byte, s: seq<byte>)
    requires sign == 43 || sign == 45
    ensures Atoi([sign] + s) == if sign == 45 then 0 - Digits(s, 0) else Digits(s, 0)
  {
    hide Digits;
    assert ([sign] + s)[1..] == s;
  }

  /** Cut at its first three `&`, the text has this marker, these two numbers and this rest. */
  predicate FieldsAre(t: seq<byte>, marker: seq<byte>, cmd: int, kind: int, rest: seq<byte>) {
    var i := First(t, AMP, 0);
    i < |t| &&
    var j := First(t, AMP, i + 1);
    j < |t| &&
    var k := First(t, AMP, j + 1);
    k < |t| && t[..i] == marker && Atoi(t[i + 1..j]) == cmd && Atoi(t[j + 1..k]) == kind && t[k + 1..] == rest
  }

  /** The fields of a sent frame read back as its opcode, type and payload, whatever bytes the payload holds. */
  lemma {:induction false} FrameFields(cmd: int, kind: int, args: seq<byte>)
    ensures FieldsAre(PrintFrame(cmd, kind, args), Ascii("1"), cmd, kind, args + Ascii("#"))
  {
    hide Decimal, Atoi, FieldsAre;
    var d, e := Decimal(cmd), Decimal(kind);
    DecimalDigits(cmd);
    DecimalDigits(kind);
    DecimalReadsBack(cmd);
    DecimalReadsBack(kind);
    FieldsCut([49], d, e, args + [HASH]);
    assert PrintFrame(cmd, kind, args) == [49] + [AMP] + d + [AMP] + e + [AMP] + (args + [HASH]);
    assert Ascii("1") == [49] && Ascii("#") == [HASH];
  }

  lemma {:induction false} FieldsCut(a: seq<byte>, d: seq<byte>, e: seq<byte>, rest: seq<byte>)
    requires AMP !in a && AMP !in d && AMP !in e
    ensures FieldsAre(a + [AMP] + d + [AMP] + e + [AMP] + rest, a, Atoi(d), Atoi(e), rest)
  {
    hide Atoi, First;
    var t := a + [AMP] + d + [AMP] + e + [AMP] + rest;
    var i, j := |a|, |a| + 1 + |d|;
    var k := j + 1 + |e|;
    FirstAfter(t, 0, a);
    FirstAfter(t, i + 1, d);
    FirstAfter(t, j + 1, e);
    assert t[k + 1..] == rest;
  }

  /** A field with no `&` in it ends at the next one. */
  lemma {:induction false} FirstAfter(t: seq<byte>, from: nat, field: seq<byte>)
    requires from + |field| < |t| && t[from..from + |field|] == field && t[from + |field|] == AMP && AMP !in field
    ensures First(t, AMP, from) == from + |field|
  {
    hide First;
    forall m | from <= m < from + |field|
      ensures t[m] != AMP
    {
      assert t[m] == field[m - from] && field[m - from] in field;
    }
    FirstIs(t, AMP, from, from + |field|);
  }

  /** What `plink_send` prints is one whole frame whenever the payload has no terminator in it. */
  lemma {:induction false} PrintedFramesAreWhole(cmd: int, kind: int, args: seq<byte>)
    requires HASH !in args
    ensures WholeFrame(PrintFrame(cmd, kind, args))
  {
    DecimalDigits(cmd);
    DecimalDigits(kind);
    var f := PrintFrame(cmd, kind, args);
    var body := [49, 38] + Decimal(cmd) + [38] + Decimal(kind) + [38] + args;
    assert f == body + [HASH];
    assert HASH !in body;
  }
}
