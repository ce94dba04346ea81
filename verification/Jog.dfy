/** polaris-jog.c as it runs: the axis records updated in place, every frame handed to the link. */
module Jog {
  import opened JogModel

  class Jogger {
    const axes: array<Axis>
    // Every frame handed to plink_send so far.
    ghost var wire: seq<Frame>

    ghost predicate Valid() {
      axes.Length == AXES
    }

    ghost function State(): (s: JogModel.State)
      requires Valid()
      reads this, axes
      ensures Shaped(s)
    {
      JogModel.State(axes[..], wire)
    }

    constructor ()
      ensures Valid() && State() == START
    {
      axes := new Axis[AXES](_ => IDLE);
      wire := [];
    }

    /** plink_send; its result is ignored by every caller. */
    method Send(f: Frame)
      modifies `wire
      ensures wire == old(wire) + [f]
    {
      wire := wire + [f];
    }

    method SetAxis(axis: int, speed: int, gear: int, now: real, up: bool) returns (r: int)
      requires Valid()
      modifies `wire, axes
      ensures State() == Step(old(State()), Set(axis, speed, gear, now, up))
      ensures r == if OnAxis(axis) && (up || (speed == 0 && gear == 0)) then 0 else -1
    {
      if axis < 0 || axis >= AXES {
        return -1;
      }
      if speed == 0 && gear == 0 {
        StopAxis(axis);
        return 0;
      }
      if !up {
        return -1;
      }
      if speed != 0 {
        DriveFast(axis, speed, now);
      } else {
        DriveSlow(axis, gear, now);
      }
      r := 0;
    }

    method DriveFast(axis: nat, speed: int, now: real)
      requires Valid() && axis < AXES
      modifies `wire, axes
      ensures State() == Apply(old(State()), axis, DrivenFast(axis, old(axes[axis]), speed, now))
    {
      var mag := if speed < 0 then -speed else speed;
      var sgn := if speed < 0 then -1 else 1;
      var want := sgn * Clamp(mag, SPEED_MIN, SPEED_MAX);
      if axes[axis].pressed {
        Send(SlowFrame(axis, axes[axis].gear, false));
        axes[axis] := axes[axis].(pressed := false, gear := 0);
      }
      if axes[axis].speed != want {
        axes[axis] := axes[axis].(speed := want);
        Send(Fast(FastOp(axis), want));
        axes[axis] := axes[axis].(next := now + REPEAT_MS);
      }
      axes[axis] := axes[axis].(lease := now + LEASE_MS);
    }

    method DriveSlow(axis: nat, gear: int, now: real)
      requires Valid() && axis < AXES
      modifies `wire, axes
      ensures State() == Apply(old(State()), axis, DrivenSlow(axis, old(axes[axis]), gear, now))
    {
      if axes[axis].speed != 0 {
        Send(Fast(FastOp(axis), 0));
        axes[axis] := axes[axis].(speed := 0);
      }
      if !axes[axis].pressed || axes[axis].gear != gear {
        if axes[axis].pressed {
          Send(SlowFrame(axis, axes[axis].gear, false));
        }
        axes[axis] := axes[axis].(gear := gear);
        Send(SlowFrame(axis, gear, true));
        axes[axis] := axes[axis].(pressed := true);
      }
      axes[axis] := axes[axis].(lease := now + LEASE_MS, next := 0.0);
    }

    method StopAxis(axis: int)
      requires Valid()
      modifies `wire, axes
      ensures State() == Step(old(State()), Stop(axis))
    {
      if axis < 0 || axis >= AXES {
        return;
      }
      if axes[axis].pressed {
        Send(SlowFrame(axis, axes[axis].gear, false));
        axes[axis] := axes[axis].(pressed := false);
      }
      if axes[axis].speed != 0 {
        Send(Fast(FastOp(axis), 0));
        axes[axis] := axes[axis].(speed := 0);
      }
      axes[axis] := axes[axis].(gear := 0, lease := 0.0, next := 0.0);
    }

    method StopEvery()
      requires Valid()
      modifies `wire, axes
      ensures State() == Step(old(State()), StopAll)
    {
      for i := 0 to AXES
        invariant State() == StopTo(old(State()), i)
      {
        StopAxis(i);
      }
    }

    method TickEvery(now: real, up: bool)
      requires Valid()
      modifies `wire, axes
      ensures State() == Step(old(State()), Tick(now, up))
    {
      if !up {
        for i := 0 to AXES
          modifies axes
          invariant forall j :: 0 <= j < i ==> axes[j] == IDLE
        {
          axes[i] := IDLE;
        }
        assert axes[..] == [IDLE, IDLE, IDLE];
        return;
      }
      for i := 0 to AXES
        invariant State() == TickTo(old(State()), i, now)
      {
        TickAxis(i, now);
      }
    }

    method TickAxis(i: nat, now: real)
      requires Valid() && i < AXES
      modifies `wire, axes
      ensures State() == Apply(old(State()), i, Ticked(i, old(axes[i]), now))
    {
      if !axes[i].pressed && axes[i].speed == 0 {
        return;
      }
      if now >= axes[i].lease {
        StopAxis(i);
        return;
      }
      if axes[i].speed != 0 && now >= axes[i].next {
        Send(Fast(FastOp(i), axes[i].speed));
        axes[i] := axes[i].(next := now + REPEAT_MS);
      }
    }

    method NextDeadline(now: real) returns (best: real)
      requires Valid()
      ensures best == Deadline(axes[..], AXES, now)
    {
      best := -1.0;
      for i := 0 to AXES
        invariant best == Deadline(axes[..], i, now)
      {
        if axes[i].pressed || axes[i].speed != 0 {
          var d := axes[i].lease - now;
          if axes[i].speed != 0 {
            var r := axes[i].next - now;
            if r < d {
              d := r;
            }
          }
          if d < 0.0 {
            d := 0.0;
          }
          if best < 0.0 || d < best {
            best := d;
          }
        }
      }
    }

    method Active() returns (active: bool)
      requires Valid()
      ensures active <==> exists a :: 0 <= a < AXES && Moving(axes[a])
    {
      for i := 0 to AXES
        invariant forall a :: 0 <= a < i ==> !Moving(axes[a])
      {
        if axes[i].pressed || axes[i].speed != 0 {
          return true;
        }
      }
      active := false;
    }
  }
}
