/** The host-side safety envelope as it runs: rates, clock and stop flag updated by each call. */
module Rate {
  import opened Words
  import opened RateModel

  class Safety {
    const limits: Limits
    var rates: map<int, real>
    var lastUpdate: Option<real>
    var safeStopped: bool
    var reason: string

    ghost function State(): RateModel.State
      reads this
    {
      RateModel.State(rates, lastUpdate, safeStopped, reason)
    }

    ghost predicate Valid()
      reads this
    {
      Sane(limits) && Shaped(State())
    }

    constructor (limits: Limits)
      requires Sane(limits)
      ensures Valid() && State() == START && this.limits == limits
    {
      this.limits := limits;
      rates, lastUpdate, safeStopped, reason := ZERO, None, true, "initial";
    }

    /** The clock and ramp checks both kinds of request share. */
    method StepAllowed(axis: int, rate: real, now: real) returns (ok: bool)
      requires Valid() && OnAxis(axis)
      ensures ok == Reachable(limits, State(), axis, rate, now)
    {
      if lastUpdate.Some? {
        var dt := now - lastUpdate.value;
        if dt < 0.0 {
          return false;
        }
        if Abs(rate - rates[axis]) > limits.maxAccel * dt + SLACK {
          return false;
        }
      }
      ok := true;
    }

    method Command(frame: seq<byte>, now: real) returns (ok: bool)
      requires Valid()
      modifies this
      ensures Valid() && State() == Step(limits, old(State()), Request(frame, now))
      ensures ok == Granted(limits, old(State()), Request(frame, now)).Some?
    {
      hide DecodeFrame, Reachable;
      var decoded := DecodeFrame(frame);
      if decoded.None? {
        return false;
      }
      var (axis, rate) := decoded.value;
      DecodedAxis(frame);
      if Abs(rate) > limits.maxRate {
        return false;
      }
      ok := StepAllowed(axis, rate, now);
      if ok {
        rates := rates[axis := rate];
        lastUpdate := Some(now);
        safeStopped := false;
        reason := "commanded";
      }
    }

    method CommandJog(frame: seq<byte>, now: real) returns (ok: bool)
      requires Valid()
      modifies this
      ensures Valid() && State() == Step(limits, old(State()), RequestJog(frame, now))
      ensures ok == Granted(limits, old(State()), RequestJog(frame, now)).Some?
    {
      hide DecodeJogFrame, Reachable;
      var decoded := DecodeJogFrame(frame);
      if decoded.None? {
        return false;
      }
      var (axis, speed) := decoded.value;
      DecodedJogAxis(frame);
      if speed != 0 && -JOG_SPEED_MIN < speed < JOG_SPEED_MIN {
        return false;
      }
      if speed > limits.maxSpeed || speed < -limits.maxSpeed {
        return false;
      }
      ok := StepAllowed(axis, speed as real, now);
      if ok {
        rates := rates[axis := speed as real];
        lastUpdate := Some(now);
        safeStopped := speed == 0 && forall a <- rates :: rates[a] == 0.0;
        reason := if speed == 0 then "stop-commanded" else "jog-commanded";
      }
    }

    method Watch(now: real)
      requires Valid()
      modifies this
      ensures Valid() && State() == Step(limits, old(State()), Tick(now))
    {
      if lastUpdate.None? || now - lastUpdate.value > limits.watchdog {
        Halt("watchdog");
      }
    }

    method Halt(why: string)
      requires Valid()
      modifies this
      ensures Valid() && State() == Step(limits, old(State()), Stop(why))
    {
      rates := ZERO;
      safeStopped := true;
      reason := why;
    }

    method Disconnect()
      requires Valid()
      modifies this
      ensures Valid() && State() == Step(limits, old(State()), Stop("link-disconnect"))
    {
      Halt("link-disconnect");
    }
  }

  lemma DecodedAxis(frame: seq<byte>)
    requires DecodeFrame(frame).Some?
    ensures OnAxis(DecodeFrame(frame).value.0)
  {
  }

  lemma DecodedJogAxis(frame: seq<byte>)
    requires DecodeJogFrame(frame).Some?
    ensures OnAxis(DecodeJogFrame(frame).value.0)
  {
  }
}
