/**
 The leased frame store as a state machine. Every lock-held section of stage2_ipolar_frames.c is one
 step, so any interleaving of producers and readers is a sequence of operations.
 */
module FrameModel {
  import opened Words

  const SLOT_COUNT := 3
  const UINT32_MAX := 0xFFFF_FFFF

  datatype Frame = Frame(bytes: seq<byte>, width: nat, height: nat, generation: nat)

  // An outstanding view: the frame it was handed and the session it belongs to.
  datatype Lease = Lease(slot: nat, frame: Frame, session: nat)

  // `leases` is keyed by acquisition number; the store itself only counts them.
  datatype State = State(frames: seq<Frame>, refs: seq<nat>, published: int, session: nat, next: nat,
                         alive: bool, leases: map<nat, Lease>, acquired: nat)

  datatype Op = Publish(bytes: seq<byte>, width: nat, height: nat) | Acquire | Release(id: nat) | Invalidate | Destroy

  const NO_FRAME := Frame([], 0, 0, 0)

  function Init(): State {
    State([NO_FRAME, NO_FRAME, NO_FRAME], [0, 0, 0], -1, 1, 0, true, map[], 0)
  }

  predicate Shaped(s: State) {
    |s.frames| == SLOT_COUNT && |s.refs| == SLOT_COUNT && -1 <= s.published < SLOT_COUNT
  }

  /** The first slot no view refers to, or SLOT_COUNT. */
  function FreeSlot(refs: seq<nat>): (k: nat)
    requires |refs| == SLOT_COUNT
    ensures k < SLOT_COUNT ==> refs[k] == 0
    ensures k <= SLOT_COUNT && forall j :: 0 <= j < k ==> refs[j] > 0
  {
    if refs[0] == 0 then 0 else if refs[1] == 0 then 1 else if refs[2] == 0 then 2 else SLOT_COUNT
  }

  predicate Accepts(s: State, op: Op)
    requires Shaped(s)
  {
    op.Publish? && s.alive && FreeSlot(s.refs) < SLOT_COUNT
  }

  /** Whether an acquire hands out a view. */
  predicate Grants(s: State)
    requires Shaped(s)
  {
    s.alive && s.published >= 0 && s.refs[s.published] != UINT32_MAX
  }

  function Step(s: State, op: Op): (t: State)
    requires Shaped(s)
    ensures Shaped(t)
  {
    if !s.alive then s
    else
      match op
      case Publish(bytes, width, height) =>
        var k := FreeSlot(s.refs);
        if k == SLOT_COUNT then s
        else s.(frames := s.frames[k := Frame(bytes, width, height, s.next + 1)], next := s.next + 1, published := k)
      case Acquire =>
        if !Grants(s) then s
        else
          var k := s.published;
          s.(refs := s.refs[k := s.refs[k] + 1],
             leases := s.leases[s.acquired := Lease(k, s.frames[k], s.session)],
             acquired := s.acquired + 1)
      case Release(id) =>
        if id !in s.leases || s.leases[id].slot >= SLOT_COUNT || s.refs[s.leases[id].slot] == 0 then s
        else
          var k := s.leases[id].slot;
          s.(refs := s.refs[k := s.refs[k] - 1], leases := s.leases - {id})
      case Invalidate => s.(published := -1, session := s.session + 1)
      case Destroy =>
        if forall k :: 0 <= k < SLOT_COUNT ==> s.refs[k] == 0
        then s.(frames := [NO_FRAME, NO_FRAME, NO_FRAME], published := -1, alive := false)
        else s
  }

  function Run(s: State, ops: seq<Op>): (t: State)
    requires Shaped(s)
    ensures Shaped(t)
    decreases |ops|
  {
    if ops == [] then s else Run(Step(s, ops[0]), ops[1..])
  }

  // --------------------------------------------------------------- invariant

  function Holders(leases: map<nat, Lease>, k: nat): set<nat> {
    set id | id in leases && leases[id].slot == k
  }

  ghost predicate Inv(s: State) {
    && Shaped(s)
    && (forall k :: 0 <= k < SLOT_COUNT ==> s.refs[k] == |Holders(s.leases, k)|)
    && (forall id :: id in s.leases ==>
          && id < s.acquired && s.leases[id].slot < SLOT_COUNT
          && s.leases[id].frame == s.frames[s.leases[id].slot]
          && s.leases[id].session <= s.session)
    && (!s.alive ==> s.leases == map[])
  }

  lemma {:induction false} HoldersAdd(leases: map<nat, Lease>, id: nat, l: Lease, k: nat)
    requires id !in leases
    ensures |Holders(leases[id := l], k)| == |Holders(leases, k)| + (if l.slot == k then 1 else 0)
  {
    assert Holders(leases[id := l], k) == Holders(leases, k) + (if l.slot == k then {id} else {});
  }

  lemma {:induction false} HoldersRemove(leases: map<nat, Lease>, id: nat, k: nat)
    requires id in leases
    ensures |Holders(leases - {id}, k)| == |Holders(leases, k)| - (if leases[id].slot == k then 1 else 0)
  {
    assert Holders(leases - {id}, k) == Holders(leases, k) - (if leases[id].slot == k then {id} else {});
    assert leases[id].slot == k ==> id in Holders(leases, k);
  }

  lemma {:induction false} HolderSlot(s: State, id: nat)
    requires Inv(s) && id in s.leases
    ensures s.refs[s.leases[id].slot] > 0
  {
    assert id in Holders(s.leases, s.leases[id].slot);
  }

  lemma {:induction false} StepKeepsInv(s: State, op: Op)
    requires Inv(s)
    ensures Inv(Step(s, op))
  {
    if s.alive {
      match op
      case Publish(bytes, width, height) =>
        forall id | id in s.leases
          ensures s.leases[id].slot != FreeSlot(s.refs)
        {
          HolderSlot(s, id);
        }
      case Acquire =>
        if Grants(s) {
          forall k: nat | k < SLOT_COUNT {
            HoldersAdd(s.leases, s.acquired, Lease(s.published, s.frames[s.published], s.session), k);
          }
        }
      case Release(id) =>
        if id in s.leases {
          HolderSlot(s, id);
          forall k: nat | k < SLOT_COUNT {
            HoldersRemove(s.leases, id, k);
          }
        }
      case Invalidate =>
      case Destroy =>
        if !Step(s, op).alive && s.leases != map[] {
          var id :| id in s.leases;
          HolderSlot(s, id);
        }
    }
  }

  lemma {:induction false} RunKeepsInv(s: State, ops: seq<Op>)
    requires Inv(s)
    ensures Inv(Run(s, ops))
    decreases |ops|
  {
    if ops != [] {
      StepKeepsInv(s, ops[0]);
      RunKeepsInv(Step(s, ops[0]), ops[1..]);
    }
  }

  lemma {:induction false} NoLeasesInv(s: State)
    requires Shaped(s) && s.refs == [0, 0, 0] && s.leases == map[]
    ensures Inv(s)
  {
    assert forall k: nat :: Holders(map[], k) == {};
  }

  lemma {:induction false} InitInv()
    ensures Inv(Init())
  {
    NoLeasesInv(Init());
  }

  // -------------------------------------------------------------- main laws

  function Invalidations(ops: seq<Op>): nat {
    if ops == [] then 0 else (if ops[0].Invalidate? then 1 else 0) + Invalidations(ops[1..])
  }

  /**
   Lease immutability: over any interleaving in which the view is not released, its slot still holds
   the very frame that was handed out, the store has not been torn down, and the view is current
   exactly as long as no invalidate has happened.
   */
  lemma {:induction false} LeaseStable(s: State, ops: seq<Op>, id: nat)
    requires Inv(s) && id in s.leases && forall i :: 0 <= i < |ops| ==> ops[i] != Release(id)
    ensures
      var t := Run(s, ops);
      && Inv(t) && t.alive && id in t.leases && t.leases[id] == s.leases[id]
      && t.frames[s.leases[id].slot] == s.leases[id].frame
      && t.refs[s.leases[id].slot] > 0
      && t.session == s.session + Invalidations(ops)
    decreases |ops|
  {
    HolderSlot(s, id);
    if ops != [] {
      StepKeepsInv(s, ops[0]);
      LeaseStable(Step(s, ops[0]), ops[1..], id);
    }
  }

  /** A view obtained now is current later iff nothing invalidated the session in between. */
  lemma {:induction false} CurrentIff(s: State, ops: seq<Op>)
    requires Inv(s) && Grants(s) && forall i :: 0 <= i < |ops| ==> ops[i] != Release(s.acquired)
    ensures
      var t := Run(Step(s, Acquire), ops);
      s.acquired in t.leases &&
      (t.leases[s.acquired].session == t.session <==> forall i :: 0 <= i < |ops| ==> !ops[i].Invalidate?)
  {
    StepKeepsInv(s, Acquire);
    LeaseStable(Step(s, Acquire), ops, s.acquired);
    NoneInvalidate(ops);
  }

  lemma {:induction false} NoneInvalidate(ops: seq<Op>)
    ensures Invalidations(ops) == 0 <==> forall i :: 0 <= i < |ops| ==> !ops[i].Invalidate?
  {
    if ops != [] {
      NoneInvalidate(ops[1..]);
      assert forall i :: 1 <= i < |ops| ==> ops[i] == ops[1..][i - 1];
    }
  }

  /** What a reader should see: the last frame taken in since the last invalidate. */
  function Newest(s: State, ops: seq<Op>, before: Option<Frame>): Option<Frame>
    requires Shaped(s)
    decreases |ops|
  {
    if ops == [] then before
    else
      var op := ops[0];
      Newest(Step(s, op), ops[1..],
             if Accepts(s, op) then Some(Frame(op.bytes, op.width, op.height, s.next + 1))
             else if (op.Invalidate? && s.alive) || !Step(s, op).alive then None
             else before)
  }

  ghost predicate Shows(s: State, f: Option<Frame>)
    requires Shaped(s)
  {
    f == if s.published >= 0 && s.alive then Some(s.frames[s.published]) else None
  }

  lemma {:induction false} NewestShown(s: State, ops: seq<Op>, before: Option<Frame>)
    requires Inv(s) && Shows(s, before)
    ensures Shows(Run(s, ops), Newest(s, ops, before))
    decreases |ops|
  {
    if ops != [] {
      StepKeepsInv(s, ops[0]);
      NewestShown(Step(s, ops[0]), ops[1..],
                  if Accepts(s, ops[0]) then Some(Frame(ops[0].bytes, ops[0].width, ops[0].height, s.next + 1))
                  else if (ops[0].Invalidate? && s.alive) || !Step(s, ops[0]).alive then None
                  else before);
    }
  }

  /** From the start, an acquire hands out the newest frame published since the last invalidate, or nothing. */
  lemma {:induction false} AcquireNewest(ops: seq<Op>)
    ensures
      var t := Run(Init(), ops);
      var f := Newest(Init(), ops, None);
      && Inv(t)
      && (Grants(t) ==> f == Some(Step(t, Acquire).leases[t.acquired].frame))
      && (f.None? ==> !Grants(t))
      && (f.Some? && !Grants(t) ==> t.published >= 0 && t.refs[t.published] == UINT32_MAX)
  {
    InitInv();
    RunKeepsInv(Init(), ops);
    NewestShown(Init(), ops, None);
  }

  /** A publish is dropped, the store unchanged, exactly when every slot is leased (or the store is gone). */
  lemma {:induction false} DroppedIff(s: State, bytes: seq<byte>, width: nat, height: nat)
    requires Inv(s) && s.alive
    ensures Step(s, Publish(bytes, width, height)) == s <==>
            Leased(s, 0) && Leased(s, 1) && Leased(s, 2)
  {
    SlotsLeased(s);
    assert Step(s, Publish(bytes, width, height)) == s <==> FreeSlot(s.refs) == SLOT_COUNT;
  }

  ghost predicate Leased(s: State, k: nat) {
    exists id :: id in s.leases && s.leases[id].slot == k
  }

  /** An acquire is granted exactly if there is a newest frame, unless its slot has all the views it can count. */
  lemma {:induction false} GrantsIff(ops: seq<Op>)
    ensures
      var t := Run(Init(), ops);
      Grants(t) <==> Newest(Init(), ops, None).Some? && t.published >= 0
                     && |Holders(t.leases, t.published)| != 0xFFFF_FFFF
  {
    AcquireNewest(ops);
  }

  // ------------------------------------------------------ a run, call by call

  lemma {:induction false} RunLast(s: State, ops: seq<Op>)
    requires Shaped(s) && ops != []
    ensures Run(s, ops) == Step(Run(s, ops[..|ops| - 1]), ops[|ops| - 1])
    decreases |ops|
  {
    hide Step;
    if |ops| == 1 {
      assert ops[..0] == [] && ops[1..] == [];
    } else {
      RunLast(Step(s, ops[0]), ops[1..]);
      assert ops[1..][..|ops| - 2] == ops[..|ops| - 1][1..];
    }
  }

  /** Call i asks to tear the store down while no view is out. */
  ghost predicate TearsDown(ops: seq<Op>, i: nat) {
    i < |ops| && ops[i].Destroy? && Run(Init(), ops[..i]).leases == map[]
  }

  /** The store lives from its initialisation until it is first torn down with no view out, and no longer. */
  lemma {:induction false} AliveIff(ops: seq<Op>)
    ensures Run(Init(), ops).alive <==> forall i: nat :: !TearsDown(ops, i)
    decreases |ops|
  {
    hide Step, Inv;
    if ops != [] {
      var last := |ops| - 1;
      AliveIff(ops[..last]);
      RunLast(Init(), ops);
      forall i: nat | i < last
        ensures TearsDown(ops, i) <==> TearsDown(ops[..last], i)
      {
        assert ops[..last][..i] == ops[..i];
      }
      InitInv();
      RunKeepsInv(Init(), ops[..last]);
      DestroyIff(Run(Init(), ops[..last]), ops[last]);
      assert TearsDown(ops, last) <==> ops[last].Destroy? && Run(Init(), ops[..last]).leases == map[];
      if i: nat :| TearsDown(ops[..last], i) {
        assert TearsDown(ops, i);
      }
    }
  }

  lemma {:induction false} DestroyIff(s: State, op: Op)
    requires Inv(s)
    ensures Step(s, op).alive <==> s.alive && !(op.Destroy? && s.leases == map[])
  {
    if s.alive && op.Destroy? {
      if s.leases == map[] {
        assert forall k: nat :: Holders(map[], k) == {};
      } else {
        var id :| id in s.leases;
        HolderSlot(s, id);
      }
    }
  }

  /** Call i publishes to a live store with a slot no view holds. */
  ghost predicate TakenIn(ops: seq<Op>, i: nat) {
    && i < |ops| && ops[i].Publish?
    && var s := Run(Init(), ops[..i]);
    s.alive && !(Leased(s, 0) && Leased(s, 1) && Leased(s, 2))
  }

  ghost function TakenCalls(ops: seq<Op>): set<nat> {
    set i: nat | i < |ops| && TakenIn(ops, i)
  }

  lemma {:induction false} TakenCallsNext(ops: seq<Op>)
    requires ops != []
    ensures
      var last := |ops| - 1;
      |TakenCalls(ops)| == |TakenCalls(ops[..last])| + if TakenIn(ops, last) then 1 else 0
  {
    hide Run, Leased;
    var last := |ops| - 1;
    forall i: nat | i < last
      ensures TakenIn(ops, i) <==> TakenIn(ops[..last], i)
    {
      assert ops[..last][..i] == ops[..i];
    }
    hide TakenIn;
    assert TakenCalls(ops) == TakenCalls(ops[..last]) + if TakenIn(ops, last) then {last} else {};
  }

  /** The frames taken in are numbered from one, in order. */
  lemma {:induction false} FramesNumbered(ops: seq<Op>)
    ensures Run(Init(), ops).next == |TakenCalls(ops)|
    decreases |ops|
  {
    hide Step, Inv, TakenIn, TakenCalls;
    if ops == [] {
      NoCalls();
    } else {
      var last := |ops| - 1;
      FramesNumbered(ops[..last]);
      TakenCallsNext(ops);
      RunLast(Init(), ops);
      InitInv();
      RunKeepsInv(Init(), ops[..last]);
      TakingStep(ops, last);
    }
  }

  lemma {:induction false} NoCalls()
    ensures TakenCalls([]) == {}
  {
  }

  lemma {:induction false} TakingStep(ops: seq<Op>, i: nat)
    requires i < |ops| && Inv(Run(Init(), ops[..i]))
    ensures
      var s := Run(Init(), ops[..i]);
      Step(s, ops[i]).next == s.next + if TakenIn(ops, i) then 1 else 0
  {
    hide Run, Inv, Leased;
    var s := Run(Init(), ops[..i]);
    if s.alive && ops[i].Publish? {
      SlotsLeased(s);
    }
  }

  lemma {:induction false} SlotsLeased(s: State)
    requires Inv(s)
    ensures FreeSlot(s.refs) == SLOT_COUNT <==> Leased(s, 0) && Leased(s, 1) && Leased(s, 2)
  {
    forall k: nat | k < SLOT_COUNT
      ensures s.refs[k] > 0 <==> Leased(s, k)
    {
      if s.refs[k] > 0 {
        var id :| id in Holders(s.leases, k);
      }
      if id :| id in s.leases && s.leases[id].slot == k {
        assert id in Holders(s.leases, k);
      }
    }
  }

  /** And a reader who comes right after frame n was taken in is handed it as number n. */
  lemma {:induction false} TakenIsHanded(ops: seq<Op>)
    requires ops != [] && TakenIn(ops, |ops| - 1)
    ensures
      var t, op := Run(Init(), ops), ops[|ops| - 1];
      Grants(t) && Step(t, Acquire).leases[t.acquired].frame
                   == Frame(op.bytes, op.width, op.height, |TakenCalls(ops)|)
  {
    hide TakenCalls, Inv;
    FramesNumbered(ops);
    RunLast(Init(), ops);
    InitInv();
    RunKeepsInv(Init(), ops[..|ops| - 1]);
    hide Run;
    TakenShows(Run(Init(), ops[..|ops| - 1]), ops[|ops| - 1]);
  }

  lemma {:induction false} TakenShows(s: State, op: Op)
    requires Inv(s) && s.alive && op.Publish? && !(Leased(s, 0) && Leased(s, 1) && Leased(s, 2))
    ensures
      var t := Step(s, op);
      && t.alive && t.published >= 0 && t.refs[t.published] == 0
      && t.frames[t.published] == Frame(op.bytes, op.width, op.height, t.next)
  {
    hide Inv, Leased;
    SlotsLeased(s);
    InvShaped(s);
  }

  lemma InvShaped(s: State)
    requires Inv(s)
    ensures Shaped(s)
  {
  }
}
