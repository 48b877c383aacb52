/**
 * Whole-system runs: a fixture, some modes and a controller are built, and
 * a short script of button presses, datagrams and clock ticks is played
 * against them. Each method returns everything written to the fixture.
 */
module Scenarios {
  import opened TrafficLights
  import opened Sequences
  import opened Watchdog
  import opened Modes
  import opened Controller

  /** Two fixed modes, ALL then NONE: start, press, press. */
  method FixedPair() returns (shown: seq<Lights>)
    ensures shown == [All, None, All]
  {
    var out := new TrafficLight();
    var modes := [Fixed(out, All), Fixed(out, None)];
    var c := new ModesController(modes);
    c.Start();
    c.Switch();
    c.Switch();
    shown := out.trace;
  }

  /**
   * A watchdog with a two-tick window, entered at once: entering shows
   * AMBER, the command 0x02 shows AMBER, and the timeout thread consumes
   * the event and starts a fresh window.
   */
  method WatchdogCommanded() returns (u: UdpListenerMode, out: TrafficLight)
    ensures fresh(u) && fresh(out) && u.out == out && u.updateTimeout == 2
    ensures u.Model() == State(Amber, true, false, Waiting(0), true)
    ensures out.trace == [Amber, Amber]
  {
    out := new TrafficLight();
    u := new UdpListenerMode(out, 2);
    u.Enter();
    u.Receive([0x02]);
    u.Signalled();
  }

  /**
   * Continuing from `WatchdogCommanded`: two silent ticks fire the fallback
   * (AMBER again, a separate write), and the out-of-range datagram 0x09
   * writes nothing.
   */
  method WatchdogFallback() returns (shown: seq<Lights>, fellBack: bool)
    ensures shown == [Amber, Amber, Amber]
    ensures fellBack
  {
    var u, out := WatchdogCommanded();
    u.Tick();
    u.Tick();
    u.Receive([0x09]);
    shown := out.trace;
    fellBack := u.monitor.FellBack?;
  }

  /** ALL, then the watchdog: starting shows ALL and leaves the watchdog in its initial state. */
  method FixedThenListenerStarted() returns (c: ModesController, u: UdpListenerMode, out: TrafficLight)
    ensures fresh(c) && fresh(u) && fresh(out)
    ensures c.Valid() && c.modes == [Fixed(out, All), Listener(u)] && c.i == 0
    ensures u.out == out && u.updateTimeout == 16 && u.Model() == Initial()
    ensures out.trace == [All]
  {
    out := new TrafficLight();
    u := new UdpListenerMode(out, 16);
    var modes := [Fixed(out, All), Listener(u)];
    c := new ModesController(modes);
    c.Start();
  }

  /**
   * Continuing from `FixedThenListenerStarted`: RED_GREEN arrives while the
   * watchdog is not the current mode; the press that enters it shows
   * RED_GREEN at once.
   */
  method ListenerReentry() returns (shown: seq<Lights>)
    ensures shown == [All, RedGreen]
  {
    var c, u, out := FixedThenListenerStarted();
    u.Receive([0x05]);
    assert u.lights == RedGreen && !u.isActive && out.trace == [All];
    assert c.Valid() && EnterWrites(c.modes[1]) == [RedGreen];
    c.Switch();
    assert c.i == 1;
    shown := out.trace;
  }

  /**
   * A sequence mode over RED then GREEN: its worker writes nothing until the
   * mode is entered, and once entered shows the steps cyclically.
   */
  method SequenceCycle() returns (shown: seq<Lights>)
    ensures shown == [Red, Green, Red]
  {
    var out := new TrafficLight();
    var steps := new LoopedSequence([TimedLights(Red, 3), TimedLights(Green, 2)]);
    var s := new SequenceMode(out, steps);
    s.WorkerStep();
    EnterMode(Sequenced(s));
    s.WorkerStep();
    s.WorkerStep();
    s.WorkerStep();
    shown := out.trace;
  }

  /**
   * The watchdog first, as the program orders its modes, then ALL. Starting
   * shows the watchdog's initial AMBER, and a press leaves it for ALL; the
   * watchdog keeps its initial state, now inactive, and its listener runs.
   */
  method ListenerLeft() returns (c: ModesController, u: UdpListenerMode, out: TrafficLight)
    ensures fresh(c) && fresh(u) && fresh(out)
    ensures c.Valid() && c.modes == [Listener(u), Fixed(out, All)] && c.i == 1
    ensures u.out == out && u.updateTimeout == 16 && u.Model() == Initial()
    ensures out.trace == [Amber, All]
  {
    out := new TrafficLight();
    u := new UdpListenerMode(out, 16);
    var modes := [Listener(u), Fixed(out, All)];
    c := new ModesController(modes);
    c.Start();
    assert c.i == 0 && out.trace == [Amber];
    c.Switch();
    assert Kept(modes[0]) == Watch(Initial());
  }

  /**
   * Continuing from `ListenerLeft`: RED_GREEN arrives while the watchdog is
   * not current and writes nothing; the next press comes back to the
   * watchdog, which shows RED_GREEN at once.
   */
  method ListenerLeftAndReentered() returns (shown: seq<Lights>)
    ensures shown == [Amber, All, RedGreen]
  {
    var c, u, out := ListenerLeft();
    u.Receive([0x05]);
    assert u.lights == RedGreen && !u.isActive && out.trace == [Amber, All];
    assert c.Valid() && EnterWrites(c.modes[0]) == [RedGreen];
    c.Switch();
    assert c.i == 0;
    shown := out.trace;
  }

  /** A sequence mode over RED then GREEN, writing to a new fixture. */
  method RedGreenSequence() returns (s: SequenceMode, out: TrafficLight)
    ensures fresh(s) && fresh(out) && fresh(s.steps)
    ensures s.Valid() && s.out == out && !s.activated && s.working
    ensures s.steps.items == [TimedLights(Red, 3), TimedLights(Green, 2)] && s.steps.yielded == []
    ensures out.trace == []
  {
    out := new TrafficLight();
    var steps := new LoopedSequence([TimedLights(Red, 3), TimedLights(Green, 2)]);
    s := new SequenceMode(out, steps);
  }

  /**
   * ALL, then a sequence over RED, GREEN: starting shows ALL, and the press
   * that enters the sequence activates it without writing anything itself.
   */
  method SequenceEntered() returns (s: SequenceMode, out: TrafficLight)
    ensures fresh(s) && fresh(out) && fresh(s.steps)
    ensures s.Valid() && s.out == out && s.activated && s.working
    ensures s.steps.items == [TimedLights(Red, 3), TimedLights(Green, 2)] && s.steps.yielded == []
    ensures out.trace == [All]
  {
    s, out := RedGreenSequence();
    var modes := [Fixed(out, All), Sequenced(s)];
    var c := new ModesController(modes);
    c.Start();
    assert c.i == 0 && out.trace == [All];
    c.Switch();
    assert Kept(modes[1]) == Worker(true);
  }

  /** Continuing from `SequenceEntered`: the worker, now activated, shows RED. */
  method SequenceEnteredByPress() returns (shown: seq<Lights>)
    ensures shown == [All, Red]
  {
    var s, out := SequenceEntered();
    s.WorkerStep();
    shown := out.trace;
  }

  /** A sequence over RED, GREEN first, then ALL: after `start` the worker shows RED. */
  method SequenceStarted() returns (c: ModesController, s: SequenceMode, out: TrafficLight)
    ensures fresh(c) && fresh(s) && fresh(out) && fresh(s.steps)
    ensures c.Valid() && c.modes == [Sequenced(s), Fixed(out, All)] && c.i == 0
    ensures s.Valid() && s.out == out && s.activated && s.working
    ensures out.trace == [Red]
  {
    s, out := RedGreenSequence();
    var modes := [Sequenced(s), Fixed(out, All)];
    c := new ModesController(modes);
    c.Start();
    assert Kept(modes[0]) == Worker(true);
    assert out.trace == [] && s.activated && s.working && s.Valid();
    s.WorkerStep();
  }

  /**
   * Continuing from `SequenceStarted`: a press shows ALL, and the worker,
   * now deactivated, writes nothing more.
   */
  method SequenceStartedThenLeft() returns (shown: seq<Lights>)
    ensures shown == [Red, All]
  {
    var c, s, out := SequenceStarted();
    c.Switch();
    assert c.i == 1 && out.trace == [Red, All] && !s.activated && s.Valid();
    s.WorkerStep();
    shown := out.trace;
  }

  /** Entering a fixed mode again leaves the fixture as entering it once did. */
  method FixedEnterTwice(l: Lights) returns (once: Channels, twice: Channels, shown: seq<Lights>)
    ensures once == twice == ChannelsOf(l)
    ensures shown == [l, l]
  {
    var out := new TrafficLight();
    var m := Fixed(out, l);
    EnterMode(m);
    once := out.Shown();
    EnterMode(m);
    twice := out.Shown();
    shown := out.trace;
  }

  /** A sequence mode over an empty list: its first step ends the worker and nothing is shown. */
  method EmptySequence() returns (shown: seq<Lights>, working: bool)
    ensures shown == [] && !working
  {
    var out := new TrafficLight();
    var steps := new LoopedSequence<TimedLights>([]);
    var s := new SequenceMode(out, steps);
    EnterMode(Sequenced(s));
    s.WorkerStep();
    s.WorkerStep();
    shown, working := out.trace, s.working;
  }
}
