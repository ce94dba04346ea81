/** The preview and init shims as they run: the process-wide gate variables updated step by step. */
module Preview {
  import opened PreviewModel

  class PreviewGate {
    const settings: Settings
    var disabled: bool
    var sessionUnhealthy: bool
    var lastTerminal: int
    var backoffUntil: int
    var timeouts: int
    var sessionWasOpen: bool
    var settleUntil: int
    var lastFetch: int
    ghost var fetches: seq<Fetch>
    ghost var answers: seq<int>

    ghost function State(): PreviewModel.State
      reads this
    {
      PreviewModel.State(Gate(disabled, sessionUnhealthy, lastTerminal, backoffUntil, timeouts, sessionWasOpen,
                              settleUntil, lastFetch), fetches, answers)
    }

    constructor (settings: Settings)
      ensures State() == START && this.settings == settings
    {
      this.settings := settings;
      disabled, sessionUnhealthy, lastTerminal, backoffUntil, timeouts := false, false, 0, 0, 0;
      sessionWasOpen, settleUntil, lastFetch := false, 0, 0;
      fetches, answers := [], [];
    }

    /** `cool`, `settled`, `due` and `after` are the clock readings; `core` is what the camera library answers. */
    method CapturePreview(cool: int, settled: int, due: int, after: int, core: int) returns (ret: int)
      modifies this
      ensures State() == Step(settings, old(State()), PreviewModel.Preview(cool, settled, due, after, core))
      ensures ret == Answer(settings, old(State()).gate, PreviewModel.Preview(cool, settled, due, after, core))
    {
      var admitted;
      admitted, ret := Admit(cool, settled, due);
      if admitted {
        fetches := fetches + [Fetch(due, core)];
        ret := core;
        if ret != 0 {
          Classify(ret, after);
        } else {
          timeouts := 0;
          backoffUntil := 0;
        }
      }
      answers := answers + [ret];
    }

    /** The gates before the camera is asked. */
    method Admit(cool: int, settled: int, due: int) returns (admitted: bool, ret: int)
      modifies `sessionWasOpen, `settleUntil, `lastFetch
      ensures var g, op := old(State()).gate, PreviewModel.Preview(cool, settled, due, 0, 0);
              && admitted == Fetches(settings, g, op)
              && (if admitted then State().gate == Passed(g).(lastFetch := due)
                  else State().gate == Previewed(settings, g, op) && ret == Answer(settings, g, op))
    {
      if disabled {
        return false, NOT_SUPPORTED;
      }
      if sessionUnhealthy {
        return false, lastTerminal;
      }
      if backoffUntil != 0 && cool < backoffUntil {
        return false, CAMERA_BUSY;
      }
      if sessionWasOpen && settleUntil != 0 {
        if settled < settleUntil {
          return false, CAMERA_BUSY;
        }
        sessionWasOpen := false;
        settleUntil := 0;
      }
      if settings.minInterval > 0 && lastFetch != 0 && due - lastFetch < settings.minInterval {
        return false, CAMERA_BUSY;
      }
      lastFetch := due;
      admitted, ret := true, 0;
    }

    method Classify(ret: int, after: int)
      requires ret != 0
      modifies `disabled, `sessionUnhealthy, `lastTerminal, `timeouts, `backoffUntil
      ensures State().gate == Classified(settings, old(State()).gate, after, ret)
    {
      if ret == NOT_SUPPORTED {
        disabled := true;
        return;
      }
      if ret == IO || (ret <= -20 && ret >= -70) {
        sessionUnhealthy := true;
        lastTerminal := ret;
        return;
      }
      if ret != TIMEOUT && ret != CAMERA_BUSY {
        return;
      }
      timeouts := timeouts + 1;
      if timeouts >= settings.maxFailures {
        backoffUntil := after + settings.cooldown;
      }
    }

    method Init(core: int, viewActive: bool, now: int) returns (ret: int)
      modifies this
      ensures State() == Step(settings, old(State()), PreviewModel.Init(core, viewActive, now)) && ret == core
    {
      ret := core;
      if ret != 0 {
        return;
      }
      disabled := false;
      timeouts := 0;
      backoffUntil := 0;
      sessionUnhealthy := false;
      lastTerminal := 0;
      if viewActive && settings.settle > 0 {
        sessionWasOpen := true;
        settleUntil := now + settings.settle;
      }
    }
  }
}
