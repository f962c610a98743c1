/** The countdown controller: the light's mutable state, its start/pause
    toggle, reset and frame callback, and the single outstanding frame request
    that keeps it ticking while it runs. */
module Controller {

  import opened Wrappers
  import opened StageTable
  import opened Countdown

  /** The host's frame scheduler, as far as the light uses it: the frame
      requests issued and neither delivered nor cancelled yet. Request ids are
      positive, so a stored id is never mistaken for "no request". */
  class FrameHost {
    var live: set<nat>
    var nextId: nat

    ghost predicate Valid()
      reads this
    {
      0 < nextId && forall id :: id in live ==> 0 < id < nextId
    }

    constructor ()
      ensures Valid() && live == {}
    {
      live := {};
      nextId := 1;
    }

    /** Asks for a callback on the next frame; the id is new. */
    method Request() returns (id: nat)
      requires Valid()
      modifies this
      ensures Valid()
      ensures 0 < id && id !in old(live) && live == old(live) + {id}
      ensures old(nextId) <= id < nextId
    {
      id := nextId;
      nextId := nextId + 1;
      live := live + {id};
    }

    /** Withdraws a request; a request no longer live is ignored. */
    method Cancel(id: nat)
      requires Valid()
      modifies this
      ensures Valid()
      ensures live == old(live) - {id} && nextId == old(nextId)
    {
      live := live - {id};
    }

    /** Retires a live request as its callback is invoked. */
    method Deliver(id: nat)
      requires Valid()
      requires id in live
      modifies this
      ensures Valid()
      ensures live == old(live) - {id} && |live| == |old(live)| - 1
      ensures nextId == old(nextId)
    {
      live := live - {id};
    }
  }

  /** What the rest of the application can observe of a light. */
  datatype Snapshot = Snapshot(light: Light, isRunning: bool, isPaused: bool, lastTick: Option<int>, pending: bool)

  /** A traffic light with its countdown controller. */
  class TrafficLight {
    var current: Stage
    var secondsLeft: nat
    var isRunning: bool
    var isPaused: bool
    /** Timestamp (ms) the countdown is measured from: set by a start press,
        by the first frame if none is set, and by every frame that advances
        it; `None` until one is set. */
    var lastTick: Option<int>
    /** The frame request this light holds, if any. */
    var rafId: Option<nat>
    const host: FrameHost

    /** The stage shown and the seconds left in it. */
    function View(): Light
      reads this
    {
      Light(current, secondsLeft)
    }

    function Observe(): Snapshot
      reads this
    {
      Snapshot(View(), isRunning, isPaused, lastTick, rafId.Some?)
    }

    /** The frame requests this light holds. */
    function Held(): set<nat>
      reads this
    {
      if rafId.Some? then {rafId.value} else {}
    }

    /** The controller's invariant: the seconds left fit the stage, a paused
        light is not running, a frame is requested exactly while the light
        runs unpaused, and the host has no request the light does not hold. */
    ghost predicate Valid()
      reads this, host
    {
      host.Valid() &&
      InRange(Default, View()) &&
      (isPaused ==> !isRunning) &&
      (rafId.Some? <==> isRunning && !isPaused) &&
      host.live == Held()
    }

    constructor ()
      ensures Valid() && fresh(host)
      ensures Observe() == Snapshot(Initial, false, false, None, false)
    {
      current := Order[0];
      secondsLeft := Default.duration[Order[0]];
      isRunning := false;
      isPaused := false;
      lastTick := None;
      rafId := None;
      host := new FrameHost();
    }

    /** The scheduling effect, run after the running or paused flag changes:
        the previous run's request is cancelled, and a new one is issued only
        while the light runs unpaused. */
    method SyncFrame()
      requires host.Valid() && host.live == Held()
      modifies this`rafId, host
      ensures host.Valid() && host.live == Held()
      ensures rafId.Some? <==> isRunning && !isPaused
      ensures rafId.Some? ==> rafId.value !in old(host.live)
    {
      if rafId.Some? {
        host.Cancel(rafId.value);
        rafId := None;
      }
      if isRunning && !isPaused {
        var id := host.Request();
        rafId := Some(id);
      }
    }

    /** The start/pause button: a running light pauses and drops its frame
        request; any other light starts, taking `now` as its baseline. The
        countdown itself is left as it was. */
    method Toggle(now: int)
      requires Valid()
      modifies this, host
      ensures Valid()
      ensures View() == old(View())
      ensures old(isRunning) ==> !isRunning && isPaused && lastTick == old(lastTick) && host.live == {}
      ensures !old(isRunning) ==> isRunning && !isPaused && lastTick == Some(now) && |host.live| == 1
    {
      if isRunning {
        isPaused := true;
        isRunning := false;
      } else {
        isPaused := false;
        lastTick := Some(now);
        isRunning := true;
      }
      SyncFrame();
    }

    /** The reset button: back to the initial light, stopped, with no baseline
        and no frame request, whatever the state before. */
    method Reset()
      requires Valid()
      modifies this, host
      ensures Valid()
      ensures Observe() == Snapshot(Initial, false, false, None, false)
      ensures host.live == {}
    {
      current := Order[0];
      secondsLeft := Default.duration[Order[0]];
      isRunning := false;
      isPaused := false;
      lastTick := None;
      if rafId.Some? {
        host.Cancel(rafId.value);
        rafId := None;
      }
      SyncFrame();
    }

    /** The frame callback at frame time `t`, invoked by the host for the
        request the light holds: the countdown and baseline change as
        `TickStep` says, and a new frame is requested in place of the one
        just delivered. */
    method Tick(t: int)
      requires Valid() && rafId.Some?
      modifies this, host
      ensures Valid()
      ensures Timer(View(), lastTick) == TickStep(Default, old(Timer(View(), lastTick)), t)
      ensures isRunning == old(isRunning) && isPaused == old(isPaused)
      ensures rafId.Some? && rafId != old(rafId) && |host.live| == 1
    {
      host.Deliver(rafId.value);
      if lastTick.None? {
        lastTick := Some(t);
      }
      var elapsed := WholeSeconds(lastTick.value, t);
      if elapsed >= 1 {
        var next := Advance(Default, View());
        current, secondsLeft := next.stage, next.secs;
        lastTick := Some(t);
      }
      if isRunning && !isPaused {
        var id := host.Request();
        rafId := Some(id);
      }
    }

    /** Teardown when the light goes away: the outstanding frame request, if
        any, is cancelled, so no callback fires afterwards. */
    method Unmount()
      requires Valid()
      modifies this`rafId, host
      ensures host.Valid() && host.live == {} && rafId.None?
    {
      if rafId.Some? {
        host.Cancel(rafId.value);
        rafId := None;
      }
    }
  }

  /** Starting a fresh light and letting whole seconds pass: red is still shown,
      at zero, after five frames; the sixth moves to green at four. */
  method FirstGreen() returns (afterFive: Light, afterSix: Light)
    ensures afterFive == Light(Red, 0)
    ensures afterSix == Light(Green, 4)
  {
    var l := new TrafficLight();
    l.Toggle(0);
    l.Tick(1000);
    l.Tick(2000);
    l.Tick(3000);
    l.Tick(4000);
    l.Tick(5000);
    afterFive := l.View();
    l.Tick(6000);
    afterSix := l.View();
  }

  /** Pausing keeps the progress and stops the frames: two seconds in, a
      pause leaves no request for the host to deliver, and after resuming
      three more seconds reach zero at red, with green only one frame later. */
  method PauseKeepsProgress() returns (beforePause: Light, whilePaused: set<nat>, atZero: Light, afterZero: Light)
    ensures beforePause == Light(Red, 3)
    ensures whilePaused == {}
    ensures atZero == Light(Red, 0)
    ensures afterZero == Light(Green, 4)
  {
    var l := new TrafficLight();
    l.Toggle(0);
    l.Tick(1000);
    l.Tick(2000);
    beforePause := l.View();
    l.Toggle(2500);
    whilePaused := l.host.live;
    l.Toggle(30000);
    l.Tick(31000);
    l.Tick(31400);
    l.Tick(32000);
    l.Tick(33000);
    atZero := l.View();
    l.Tick(34000);
    afterZero := l.View();
  }

  /** Two presses from a fresh light: the second pauses it, so the light ends
      stopped and paused with the countdown untouched. */
  method ToggleTwice() returns (s: Snapshot)
    ensures s == Snapshot(Initial, false, true, Some(100), false)
  {
    var l := new TrafficLight();
    l.Toggle(100);
    l.Toggle(200);
    s := l.Observe();
  }

  /** Reset mid-countdown gives the initial state, and a second reset gives
      the same state again. */
  method ResetTwice() returns (once: Snapshot, twice: Snapshot)
    ensures once == twice == Snapshot(Initial, false, false, None, false)
  {
    var l := new TrafficLight();
    l.Toggle(0);
    l.Tick(1500);
    l.Reset();
    once := l.Observe();
    l.Reset();
    twice := l.Observe();
  }

  /** Pressing start/pause `n` times in a row never leaves more than one
      frame request outstanding. */
  method RapidToggle(n: nat) returns (most: nat)
    ensures most <= 1
  {
    var l := new TrafficLight();
    most := |l.host.live|;
    var i := 0;
    while i < n
      invariant l.Valid()
      invariant most <= 1
    {
      l.Toggle(50 * i);
      if |l.host.live| > most {
        most := |l.host.live|;
      }
      i := i + 1;
    }
  }
}
