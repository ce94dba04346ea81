/** The preview gate by its history: what any run's calls say of the next one, without the gate's own variables. */
module PreviewHistory {
  import opened PreviewModel

  // ------------------------------------------------------------ failure budget

  /** Call i of the run reached the camera. */
  predicate Reached(c: Settings, ops: seq<Op>, i: nat) {
    i < |ops| && ops[i].Preview? && Fetches(c, Run(c, START, ops[..i]).gate, ops[i])
  }

  /** Call i brought a good frame, or opened the camera afresh. */
  predicate Clears(c: Settings, ops: seq<Op>, i: nat) {
    i < |ops| && (Revives(ops[i]) || (Reached(c, ops, i) && ops[i].ret == 0))
  }

  /** GP_ERROR_TIMEOUT, or the bridge's own busy code. */
  predicate Passing(ret: int) {
    ret == -10 || ret == -110
  }

  /** GP_ERROR_NOT_SUPPORTED, GP_ERROR_IO, and the range of port, USB and lock errors. */
  predicate Fatal(ret: int) {
    ret == -6 || ret == -7 || -70 <= ret <= -20
  }

  /** Call i reached the camera and brought a passing failure, and no call since has cleared it. */
  ghost predicate Standing(c: Settings, ops: seq<Op>, i: nat) {
    Reached(c, ops, i) && Passing(ops[i].ret) && forall j: nat :: i < j ==> !Clears(c, ops, j)
  }

  /** The passing failures still standing after the run. */
  ghost function Failures(c: Settings, ops: seq<Op>): set<nat> {
    set i: nat | i < |ops| && Standing(c, ops, i)
  }

  /** The latest of them, when there are enough to arm the cooldown. */
  ghost predicate Arming(c: Settings, ops: seq<Op>, i: nat) {
    |Failures(c, ops)| >= c.maxFailures && i in Failures(c, ops) && forall j <- Failures(c, ops) :: j <= i
  }

  lemma {:induction false} ReachedBefore(c: Settings, ops: seq<Op>, i: nat)
    requires i < |ops| - 1
    ensures Reached(c, ops, i) <==> Reached(c, ops[..|ops| - 1], i)
    ensures Clears(c, ops, i) <==> Clears(c, ops[..|ops| - 1], i)
  {
    hide Run, Fetches, Revives;
    assert ops[..|ops| - 1][..i] == ops[..i];
  }

  /** What the last call does to the standing failures: it clears them all, or joins them, or neither. */
  lemma {:induction false} FailuresNext(c: Settings, ops: seq<Op>)
    requires ops != []
    ensures
      var last := |ops| - 1;
      Failures(c, ops)
      == if Clears(c, ops, last) then {}
         else if Reached(c, ops, last) && Passing(ops[last].ret) then Failures(c, ops[..last]) + {last}
         else Failures(c, ops[..last])
  {
    hide Reached, Clears, Passing;
    var last := |ops| - 1;
    var before := ops[..last];
    forall i: nat | i < last
      ensures Standing(c, ops, i) <==> Standing(c, before, i) && !Clears(c, ops, last)
    {
      StandingBefore(c, ops, i);
    }
    LastStands(c, ops);
  }

  lemma {:induction false} StandingBefore(c: Settings, ops: seq<Op>, i: nat)
    requires i < |ops| - 1
    ensures Standing(c, ops, i) <==> Standing(c, ops[..|ops| - 1], i) && !Clears(c, ops, |ops| - 1)
  {
    hide Reached, Passing, Run, Revives, Fetches;
    var last := |ops| - 1;
    ReachedBefore(c, ops, i);
    ClearsWithin(c, ops);
    ClearsWithin(c, ops[..last]);
    hide Clears;
    forall j: nat | j < last
      ensures Clears(c, ops, j) <==> Clears(c, ops[..last], j)
    {
      ReachedBefore(c, ops, j);
    }
  }

  lemma {:induction false} ClearsWithin(c: Settings, ops: seq<Op>)
    ensures forall j: nat :: Clears(c, ops, j) ==> j < |ops|
  {
  }

  lemma {:induction false} LastStands(c: Settings, ops: seq<Op>)
    requires ops != []
    ensures
      var last := |ops| - 1;
      Standing(c, ops, last) <==> Reached(c, ops, last) && Passing(ops[last].ret)
    ensures Standing(c, ops, |ops| - 1) ==> !Clears(c, ops, |ops| - 1)
  {
    ClearsWithin(c, ops);
    hide Run, Fetches;
  }

  /** What one call does to the counter and the cooldown. */
  lemma BudgetStep(c: Settings, s: State, op: Op)
    ensures
      var g, h := s.gate, Step(c, s, op).gate;
      var hit := op.Preview? && Fetches(c, g, op);
      if Revives(op) || (hit && op.ret == 0) then h.timeouts == 0 && h.backoffUntil == 0
      else if hit && Passing(op.ret)
      then h.timeouts == g.timeouts + 1
           && h.backoffUntil == if h.timeouts >= c.maxFailures then op.after + c.cooldown else g.backoffUntil
      else h.timeouts == g.timeouts && h.backoffUntil == g.backoffUntil
  {
  }

  /**
   The failure budget over every run, re-inits included: the counter is the number of passing failures since
   the last good frame or successful init; the cooldown is armed exactly if that number has reached the budget,
   and then it runs from the latest of them.
   */
  lemma {:induction false} BudgetIs(c: Settings, ops: seq<Op>)
    requires Sane(c)
    ensures
      var g := Run(c, START, ops).gate;
      && g.timeouts == |Failures(c, ops)|
      && (|Failures(c, ops)| < c.maxFailures ==> g.backoffUntil == 0)
      && (|Failures(c, ops)| >= c.maxFailures ==> exists i: nat :: Arming(c, ops, i))
      && forall i: nat :: Arming(c, ops, i) ==> ops[i].Preview? && g.backoffUntil == ops[i].after + c.cooldown
    decreases |ops|
  {
    hide Step, Fetches, Passing, Revives, Standing;
    if ops == [] {
      assert Failures(c, ops) == {};
    } else {
      var last := |ops| - 1;
      BudgetIs(c, ops[..last]);
      FailuresNext(c, ops);
      BudgetStep(c, Run(c, START, ops[..last]), ops[last]);
      FailuresWithin(c, ops[..last]);
      var f := Failures(c, ops[..last]);
      if Reached(c, ops, last) && Passing(ops[last].ret) && !Clears(c, ops, last) {
        assert last !in f && |f + {last}| == |f| + 1;
        assert |f| + 1 >= c.maxFailures ==> Arming(c, ops, last);
        hide Failures;
      } else if !Clears(c, ops, last) {
        assert forall i: nat :: Arming(c, ops, i) <==> Arming(c, ops[..last], i);
      }
    }
  }

  lemma {:induction false} FailuresWithin(c: Settings, ops: seq<Op>)
    ensures forall i <- Failures(c, ops) :: i < |ops| && ops[i].Preview?
  {
    hide Fetches;
  }

  // ------------------------------------------------------------- settle window

  /** A successful init that found the camera already in live view. */
  predicate FindsView(c: Settings, op: Op) {
    Revives(op) && op.viewActive && c.settle > 0
  }

  /** The latest such init. */
  ghost predicate LatestView(c: Settings, ops: seq<Op>, i: nat) {
    i < |ops| && ops[i].Init? && FindsView(c, ops[i]) && forall j :: i < j < |ops| ==> !FindsView(c, ops[j])
  }

  /** Its window is open still, with its own end, or the clock has passed that end. */
  predicate OpenTill(g: Gate, till: int, end: int) {
    if g.wasOpen then g.settleUntil == till && till != 0 else end >= till
  }

  lemma ViewStep(c: Settings, s: State, op: Op, from: int, till: int)
    requires Sane(c) && from >= 0 && Ticks(from, op)
    ensures
      var g, h := s.gate, Step(c, s, op).gate;
      && (FindsView(c, op) ==> op.Init? && OpenTill(h, op.now + c.settle, End(from, [op])))
      && (!FindsView(c, op) && OpenTill(g, till, from) ==> OpenTill(h, till, End(from, [op])))
      && (!FindsView(c, op) && !g.wasOpen ==> !h.wasOpen)
  {
  }

  lemma {:induction false} SettleIs(c: Settings, from: int, ops: seq<Op>)
    requires Sane(c) && from >= 0 && Timed(from, ops)
    ensures
      var g := Run(c, START, ops).gate;
      && (g.wasOpen ==> exists i: nat :: LatestView(c, ops, i))
      && forall i: nat :: LatestView(c, ops, i) ==> OpenTill(g, ops[i].now + c.settle, End(from, ops))
    decreases |ops|
  {
    hide Step, OpenTill, FindsView;
    if ops != [] {
      var last := |ops| - 1;
      var before, s := ops[..last], Run(c, START, ops[..last]);
      SettleIs(c, from, before);
      TimedEnd(from, before);
      ViewStep(c, s, ops[last], End(from, before), 0);
      forall i: nat | LatestView(c, ops, i)
        ensures ops[i].Init? && OpenTill(Run(c, START, ops).gate, ops[i].now + c.settle, End(from, ops))
      {
        if i < last {
          assert LatestView(c, before, i) && !FindsView(c, ops[last]);
          ViewStep(c, s, ops[last], End(from, before), ops[i].now + c.settle);
        }
      }
      if FindsView(c, ops[last]) {
        assert LatestView(c, ops, last);
      } else if i: nat :| LatestView(c, before, i) {
        assert LatestView(c, ops, i);
      }
    }
  }

  // ---------------------------------------------------------------- the answer

  /** Call i reached the camera and was answered with a fatal code, and no init has succeeded since. */
  ghost predicate Broken(c: Settings, ops: seq<Op>, i: nat) {
    Reached(c, ops, i) && Fatal(ops[i].ret) && forall j :: i < j < |ops| ==> !Revives(ops[j])
  }

  lemma {:induction false} BrokenIff(c: Settings, ops: seq<Op>, i: nat)
    ensures Broken(c, ops, i) <==> LatchedSince(c, ops, i)
  {
    hide Run, Fetches, Revives;
  }

  /** The standing failures have armed a cooldown that is not over at `cool`. */
  ghost predicate CoolingDown(c: Settings, ops: seq<Op>, cool: int) {
    exists i: nat :: Arming(c, ops, i) && ops[i].Preview? && cool < ops[i].after + c.cooldown
  }

  /** The latest init that found live view active is not `settle` seconds old at `settled`. */
  ghost predicate StillSettling(c: Settings, ops: seq<Op>, settled: int) {
    exists i: nat :: LatestView(c, ops, i) && settled < ops[i].now + c.settle
  }

  /** The last frame was asked for less than the interval before `due`, at a time the gate could note. */
  predicate AskedLately(c: Settings, fetches: seq<Fetch>, due: int) {
    fetches != [] && var last := fetches[|fetches| - 1].at; last != 0 && due - last < c.minInterval
  }

  lemma {:induction false} CoolingIff(c: Settings, from: int, ops: seq<Op>, cool: int)
    requires Sane(c) && from >= 0 && Timed(from, ops)
    ensures Cooling(Run(c, START, ops).gate, cool) <==> CoolingDown(c, ops, cool)
  {
    hide Failures, Run;
    BudgetIs(c, ops);
    FailuresWithin(c, ops);
    AfterPositive(c, from, ops);
  }

  lemma {:induction false} AfterPositive(c: Settings, from: int, ops: seq<Op>)
    requires from >= 0 && Timed(from, ops)
    ensures forall i :: 0 <= i < |ops| && ops[i].Preview? ==> ops[i].after >= 0
    ensures forall i :: 0 <= i < |ops| && ops[i].Init? ==> ops[i].now >= 0
    decreases |ops|
  {
    if ops != [] {
      TimedEnd(from, ops[..|ops| - 1]);
      AfterPositive(c, from, ops[..|ops| - 1]);
    }
  }

  lemma {:induction false} SettlingIff(c: Settings, from: int, ops: seq<Op>, op: Op)
    requires Sane(c) && from >= 0 && Timed(from, ops) && op.Preview? && Ticks(End(from, ops), op)
    ensures Settling(Run(c, START, ops).gate, op.settled) <==> StillSettling(c, ops, op.settled)
  {
    hide LatestView, Run;
    SettleIs(c, from, ops);
  }

  /**
   Every call of every run, re-inits included, on a clock that does not run backwards. Once a fetch has been
   answered with a fatal code, and until an init succeeds, that code is the answer and the camera is left
   alone; otherwise a call inside the cooldown, the settle window or the interval is answered busy and fetches
   nothing, and any other call fetches and is answered what the camera says.
   */
  lemma {:induction false} AnsweredBy(c: Settings, from: int, ops: seq<Op>, op: Op)
    requires Sane(c) && from >= 0 && Timed(from, ops) && op.Preview? && Ticks(End(from, ops), op)
    ensures
      var s, t := Run(c, START, ops), Run(c, START, ops + [op]);
      var held := CoolingDown(c, ops, op.cool) || StillSettling(c, ops, op.settled)
                  || AskedLately(c, s.fetches, op.due);
      && (forall i: nat :: Broken(c, ops, i) ==> t.answers == s.answers + [ops[i].ret] && t.fetches == s.fetches)
      && ((forall i: nat :: !Broken(c, ops, i)) ==>
            && t.answers == s.answers + [if held then -110 else op.ret]
            && t.fetches == if held then s.fetches else s.fetches + [Fetch(op.due, op.ret)])
  {
    hide Run, LatchedSince, CoolingDown, StillSettling, Settling, Cooling;
    LatchedIff(c, ops);
    forall i: nat
      ensures Broken(c, ops, i) <==> LatchedSince(c, ops, i)
    {
      BrokenIff(c, ops, i);
    }
    hide Broken;
    CoolingIff(c, from, ops, op.cool);
    SettlingIff(c, from, ops, op);
    RunMarked(c, from, ops);
    RunNext(c, ops, op);
    var s := Run(c, START, ops);
    LateIff(c, s, from, End(from, ops), op.due);
    hide AskedLately, TooSoon;
  }

  lemma LateIff(c: Settings, s: State, from: int, end: int, due: int)
    requires Sane(c) && Marked(s, from, end) && end <= due
    ensures TooSoon(c, s.gate, due) <==> AskedLately(c, s.fetches, due)
  {
  }

  lemma RunNext(c: Settings, ops: seq<Op>, op: Op)
    ensures Run(c, START, ops + [op]) == Step(c, Run(c, START, ops), op)
  {
    hide Step;
    assert (ops + [op])[..|ops|] == ops;
  }

  // ------------------------------------------------------------------- example

  /** With the source's defaults, failures and frames in turn never use the budget up. */
  lemma FramesRefillBudget()
    ensures
      var c := Settings(3, 30, 2, 0);
      var ops := [Preview(10, 10, 10, 10, -10), Preview(20, 20, 20, 20, 0), Preview(30, 30, 30, 30, -10),
                  Preview(40, 40, 40, 40, 0), Preview(50, 50, 50, 50, -10)];
      Run(c, START, ops + [Preview(60, 60, 60, 60, 0)]).answers == [-10, 0, -10, 0, -10, 0]
  {
    var c := Settings(3, 30, 2, 0);
    var f, g := Gate(false, false, 0, 0, 1, false, 0, 10), FRESH;
    var o1, o2, o3 := Preview(10, 10, 10, 10, -10), Preview(20, 20, 20, 20, 0), Preview(30, 30, 30, 30, -10);
    var o4, o5, o6 := Preview(40, 40, 40, 40, 0), Preview(50, 50, 50, 50, -10), Preview(60, 60, 60, 60, 0);
    hide Run;
    RunNone(c);
    RunNext(c, [], o1);
    RunNext(c, [o1], o2);
    RunNext(c, [o1, o2], o3);
    RunNext(c, [o1, o2, o3], o4);
    RunNext(c, [o1, o2, o3, o4], o5);
    RunNext(c, [o1, o2, o3, o4, o5], o6);
    assert [] + [o1] == [o1] && [o1] + [o2] == [o1, o2] && [o1, o2] + [o3] == [o1, o2, o3];
    assert [o1, o2, o3] + [o4] == [o1, o2, o3, o4] && [o1, o2, o3, o4] + [o5] == [o1, o2, o3, o4, o5];
  }

  lemma RunNone(c: Settings)
    ensures Run(c, START, []) == START
  {
  }
}
