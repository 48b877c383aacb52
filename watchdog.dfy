/**
 * The UDP listener mode: a watchdog that shows the lights named by the
 * last valid command datagram and falls back to AMBER when commands stop.
 *
 * Its two background threads are replaced by events. The listener thread
 * contributes `Received(msg)`, one datagram read. The update-timeout thread
 * contributes `Signalled` (its wait returns because a command arrived) and
 * `Tick` (one unit of time passes while it waits). The controller contributes
 * `Entered` and `Exited`. `Step` is the specification of one event;
 * `UdpListenerMode` is the object whose methods carry the events out.
 */
module Watchdog {
  import opened TrafficLights

  /** Where the update-timeout thread is waiting. */
  datatype Monitor =
    | Waiting(elapsed: nat)  // in the bounded wait, `elapsed` units into the window
    | FellBack               // fallback fired; in the unbounded wait for the next command

  /**
   * The watchdog's state: the last-known lights, the active flag, the
   * "updated" event, the timeout thread's position, and whether the
   * listener thread is still reading datagrams.
   */
  datatype State = State(lights: Lights, active: bool, updated: bool, monitor: Monitor, listening: bool)

  datatype Event = Received(msg: seq<byte>) | Signalled | Tick | Entered | Exited

  /** The state reached by one event and the values written to the output meanwhile. */
  datatype Transition = Transition(next: State, output: seq<Lights>)

  /**
   * The state right after construction: AMBER, inactive, both threads
   * started, so a fallback can already fire.
   */
  function Initial(): (r: State)
    ensures r.lights.Value() == 2 && !r.active && r.listening
    ensures Armed(r) && !r.updated
  {
    State(Amber, false, false, Waiting(0), true)
  }

  /** `_update(l)`: store l; show it only when the mode is active. */
  function ApplyUpdate(s: State, l: Lights): (r: Transition)
    ensures r.next == s.(lights := l)
    ensures r.output != [] <==> s.active
    ensures r.output == [] || r.output == [l]
  {
    Transition(s.(lights := l), if s.active then [l] else [])
  }

  /** A datagram the listener acts on: non-empty with an accepted first byte. */
  predicate IsCommand(msg: seq<byte>)
  {
    |msg| > 0 && Accepts(msg[0])
  }

  /** Whether the timeout thread gives up waiting at this event. */
  predicate Fires(timeout: nat, s: State, e: Event)
  {
    e.Tick? && s.monitor.Waiting? && !s.updated && s.monitor.elapsed + 1 >= timeout
  }

  /**
   * One event. `timeout` is the update window in time units.
   *
   * Output is gated: apart from entering, an event writes only while the
   * mode is active, and whatever is written is the new last-known lights.
   * Only entering and exiting move the active flag, and the lights change
   * only through a command or the fallback.
   */
  function Step(timeout: nat, s: State, e: Event): (r: Transition)
    ensures r.output == [] || r.output == [r.next.lights]
    ensures !e.Entered? && r.output != [] ==> s.active && r.next.active
    ensures r.next.active == (if e.Entered? then true else if e.Exited? then false else s.active)
    ensures r.next.lights != s.lights ==>
      (e.Received? && s.listening && IsCommand(e.msg)) || Fires(timeout, s, e)
    ensures r.next.updated && !s.updated ==> e.Received? && s.listening && IsCommand(e.msg)
  {
    match e
    case Received(msg) =>
      if !s.listening then Transition(s, [])
      // an empty datagram makes `msg[0]` raise, which ends the listener thread
      else if |msg| == 0 then Transition(s.(listening := false), [])
      else if Accepts(msg[0]) then
        var t := ApplyUpdate(s, FromValue(msg[0] as int).value);
        Transition(t.next.(updated := true), t.output)
      else Transition(s, [])
    case Signalled =>
      // both waits return on the event; the bounded wait then clears it and starts a new window
      if s.updated then Transition(s.(updated := false, monitor := Waiting(0)), [])
      else Transition(s, [])
    case Tick =>
      if Fires(timeout, s, e) then
        var t := ApplyUpdate(s, Amber);
        Transition(t.next.(monitor := FellBack), t.output)
      else if s.monitor.Waiting? && !s.updated then
        Transition(s.(monitor := Waiting(s.monitor.elapsed + 1)), [])
      else Transition(s, [])
    case Entered => Transition(s.(active := true), [s.lights])
    case Exited => Transition(s.(active := false), [])
  }

  /** A sequence of events: the final state and everything written, in order. */
  function Run(timeout: nat, s: State, events: seq<Event>): Transition
    decreases |events|
  {
    if events == [] then Transition(s, [])
    else
      var t := Step(timeout, s, events[0]);
      var rest := Run(timeout, t.next, events[1..]);
      Transition(rest.next, t.output + rest.output)
  }

  /** How many times the fallback fires during a run. */
  function Fallbacks(timeout: nat, s: State, events: seq<Event>): nat
    decreases |events|
  {
    if events == [] then 0
    else (if Fires(timeout, s, events[0]) then 1 else 0)
         + Fallbacks(timeout, Step(timeout, s, events[0]).next, events[1..])
  }

  /** No command datagram among the events. */
  predicate Silent(events: seq<Event>)
  {
    forall k :: 0 <= k < |events| ==> !(events[k].Received? && IsCommand(events[k].msg))
  }

  /** A fallback can still happen before the next command. */
  predicate Armed(s: State)
  {
    s.updated || s.monitor.Waiting?
  }

  function Ticks(n: nat): (r: seq<Event>)
    ensures |r| == n && forall k :: 0 <= k < n ==> r[k] == Tick
  {
    seq(n, _ => Tick)
  }

  // Properties of single events.

  /** A command stores the decoded lights, raises the event, and is shown iff the mode is active. */
  lemma CommandStoredAndGated(timeout: nat, s: State, msg: seq<byte>)
    requires s.listening && IsCommand(msg)
    ensures var t := Step(timeout, s, Received(msg));
      && t.next.lights.Value() == msg[0] as int
      && t.next.updated
      && t.next == s.(lights := t.next.lights, updated := true)
      && t.output == (if s.active then [t.next.lights] else [])
  {
  }

  /** A datagram whose first byte is out of range changes nothing and writes nothing. */
  lemma OutOfRangeIgnored(timeout: nat, s: State, msg: seq<byte>)
    requires |msg| > 0 && msg[0] as int > 7
    ensures Step(timeout, s, Received(msg)) == Transition(s, [])
  {
  }

  /**
   * An empty datagram ends the listener; it writes nothing and keeps the
   * lights. Whatever happens afterwards, no later datagram is acted on.
   */
  lemma EmptyDatagramStopsListener(timeout: nat, s: State, later: seq<Event>, msg: seq<byte>)
    requires s.listening
    ensures Step(timeout, s, Received([])) == Transition(s.(listening := false), [])
    ensures var s' := Run(timeout, s, [Received([])] + later).next;
      !s'.listening && Step(timeout, s', Received(msg)) == Transition(s', [])
  {
    var stopped := s.(listening := false);
    assert Run(timeout, s, [Received([])]) == Transition(stopped, []) by {
      assert [Received([])][1..] == [];
    }
    RunAppend(timeout, s, [Received([])], later);
    StoppedListenerStaysStopped(timeout, stopped, later);
    StoppedListenerStaysStopped(timeout, Run(timeout, stopped, later).next, []);
  }

  /** Entering shows the last-known lights at once, then sets active; exiting only clears active. */
  lemma EnterExitEffects(timeout: nat, s: State)
    ensures Step(timeout, s, Entered) == Transition(s.(active := true), [s.lights])
    ensures Step(timeout, s, Exited) == Transition(s.(active := false), [])
  {
  }

  /** The fallback shows AMBER and moves the timeout thread into the unbounded wait. */
  lemma FallbackShowsAmber(timeout: nat, s: State)
    requires Fires(timeout, s, Tick)
    ensures var t := Step(timeout, s, Tick);
      && t.next == s.(lights := Amber, monitor := FellBack)
      && t.output == (if s.active then [Amber] else [])
  {
  }

  // Properties of runs.

  /** A run of two events is the two steps one after the other. */
  lemma RunPair(timeout: nat, s: State, e1: Event, e2: Event)
    ensures var t1 := Step(timeout, s, e1); var t2 := Step(timeout, t1.next, e2);
      Run(timeout, s, [e1, e2]) == Transition(t2.next, t1.output + t2.output)
  {
    var t1 := Step(timeout, s, e1);
    var t2 := Step(timeout, t1.next, e2);
    var r2 := Run(timeout, t1.next, [e2]);
    assert r2 == Transition(t2.next, t2.output) by {
      assert [e2][0] == e2 && [e2][1..] == [];
      assert Run(timeout, t2.next, []) == Transition(t2.next, []);
      assert t2.output + [] == t2.output;
    }
    assert Run(timeout, s, [e1, e2]) == Transition(r2.next, t1.output + r2.output) by {
      assert [e1, e2][0] == e1 && [e1, e2][1..] == [e2];
    }
  }

  /** A run over a concatenation is the second run started where the first ended. */
  lemma {:induction false} RunAppend(timeout: nat, s: State, a: seq<Event>, b: seq<Event>)
    ensures var r1 := Run(timeout, s, a); var r2 := Run(timeout, r1.next, b);
      Run(timeout, s, a + b) == Transition(r2.next, r1.output + r2.output)
    ensures Fallbacks(timeout, s, a + b) == Fallbacks(timeout, s, a) + Fallbacks(timeout, Run(timeout, s, a).next, b)
    decreases |a|
  {
    if a != [] {
      assert (a + b)[0] == a[0];
      assert (a + b)[1..] == a[1..] + b;
      RunAppend(timeout, Step(timeout, s, a[0]).next, a[1..], b);
    } else {
      assert a + b == b;
    }
  }

  /** Dropping the first event of a silent sequence leaves a silent sequence. */
  lemma SilentTail(events: seq<Event>)
    requires Silent(events) && events != []
    ensures !(events[0].Received? && IsCommand(events[0].msg))
    ensures Silent(events[1..])
  {
    forall k | 0 <= k < |events[1..]|
      ensures !(events[1..][k].Received? && IsCommand(events[1..][k].msg))
    {
      assert events[1..][k] == events[k + 1];
    }
  }

  /**
   * Once the fallback has fired and seen no command, silence never re-arms
   * it: the lights stay as they are and the thread stays in the unbounded wait.
   */
  lemma {:induction false} SilenceCannotRearm(timeout: nat, s: State, events: seq<Event>)
    requires Silent(events) && !Armed(s)
    ensures var s' := Run(timeout, s, events).next;
      !Armed(s') && s'.lights == s.lights && s'.monitor == s.monitor
    ensures Fallbacks(timeout, s, events) == 0
    decreases |events|
  {
    if events != [] {
      SilentTail(events);
      SilenceCannotRearm(timeout, Step(timeout, s, events[0]).next, events[1..]);
    }
  }

  /** While no command arrives the fallback fires at most once, and not at all once it has fired. */
  lemma {:induction false} AtMostOneFallbackPerSilence(timeout: nat, s: State, events: seq<Event>)
    requires Silent(events)
    ensures Fallbacks(timeout, s, events) <= (if Armed(s) then 1 else 0)
    decreases |events|
  {
    if events == [] {
    } else if !Armed(s) {
      SilenceCannotRearm(timeout, s, events);
    } else {
      var s' := Step(timeout, s, events[0]).next;
      SilentTail(events);
      if Fires(timeout, s, events[0]) {
        assert !Armed(s');
        SilenceCannotRearm(timeout, s', events[1..]);
      } else {
        AtMostOneFallbackPerSilence(timeout, s', events[1..]);
      }
    }
  }

  /** How many units of time pass during a sequence of events. */
  function TickCount(events: seq<Event>): (n: nat)
    ensures n <= |events|
    decreases |events|
  {
    if events == [] then 0 else (if events[0].Tick? then 1 else 0) + TickCount(events[1..])
  }

  /**
   * During a silence that starts in the bounded wait, the fallback fires
   * exactly once if at least one unit passes and the units passed fill the
   * window, and not at all otherwise, whatever datagrams, entries and exits
   * come in between. Once it has fired the lights are AMBER; until it fires
   * the wait has advanced by the units passed and the lights are untouched.
   */
  lemma {:induction false} ExactlyOneFallbackPerSilence(timeout: nat, s: State, events: seq<Event>)
    requires Silent(events) && s.monitor.Waiting? && !s.updated
    ensures var fired := 0 < TickCount(events) && timeout <= s.monitor.elapsed + TickCount(events);
      Fallbacks(timeout, s, events) == if fired then 1 else 0
    ensures var s' := Run(timeout, s, events).next;
      if Fallbacks(timeout, s, events) == 1 then s'.lights == Amber && s'.monitor == FellBack && !s'.updated
      else s'.lights == s.lights && s'.monitor == Waiting(s.monitor.elapsed + TickCount(events)) && !s'.updated
    decreases |events|
  {
    if events != [] {
      SilentTail(events);
      var s' := Step(timeout, s, events[0]).next;
      if Fires(timeout, s, events[0]) {
        assert s'.lights == Amber && s'.monitor == FellBack && !s'.updated;
        SilenceCannotRearm(timeout, s', events[1..]);
      } else {
        ExactlyOneFallbackPerSilence(timeout, s', events[1..]);
      }
    }
  }

  /** Before the window is over, time passing writes nothing and only advances the wait. */
  lemma {:induction false} QuietWithinWindow(timeout: nat, s: State, n: nat)
    requires s.monitor.Waiting? && !s.updated && s.monitor.elapsed + n < timeout
    ensures Run(timeout, s, Ticks(n)) == Transition(s.(monitor := Waiting(s.monitor.elapsed + n)), [])
    ensures Fallbacks(timeout, s, Ticks(n)) == 0
    decreases n
  {
    if n > 0 {
      var s' := s.(monitor := Waiting(s.monitor.elapsed + 1));
      assert Step(timeout, s, Tick).next == s';
      assert Ticks(n)[1..] == Ticks(n - 1);
      QuietWithinWindow(timeout, s', n - 1);
    }
  }

  /**
   * Once the window is over, the fallback has fired exactly once: the lights
   * are AMBER, AMBER was written exactly once if the mode is active, and the
   * timeout thread waits for the next command.
   */
  lemma {:induction false} FallbackAfterWindow(timeout: nat, s: State, n: nat)
    requires s.monitor.Waiting? && !s.updated && 0 < n && timeout <= s.monitor.elapsed + n
    ensures Run(timeout, s, Ticks(n)) == Transition(s.(lights := Amber, monitor := FellBack), if s.active then [Amber] else [])
    ensures Fallbacks(timeout, s, Ticks(n)) == 1
    decreases n
  {
    assert Ticks(n)[0] == Tick;
    assert Ticks(n)[1..] == Ticks(n - 1);
    var s' := Step(timeout, s, Tick).next;
    if Fires(timeout, s, Tick) {
      assert !Armed(s');
      AfterFallbackQuiet(timeout, s', n - 1);
    } else {
      FallbackAfterWindow(timeout, s', n - 1);
    }
  }

  /** In the unbounded wait time passing changes nothing. */
  lemma {:induction false} AfterFallbackQuiet(timeout: nat, s: State, n: nat)
    requires s.monitor.FellBack? && !s.updated
    ensures Run(timeout, s, Ticks(n)) == Transition(s, [])
    ensures Fallbacks(timeout, s, Ticks(n)) == 0
    decreases n
  {
    if n > 0 {
      assert Ticks(n)[1..] == Ticks(n - 1);
      AfterFallbackQuiet(timeout, s, n - 1);
    }
  }

  /**
   * A command, once the timeout thread has seen it, starts a new full window:
   * whatever the thread was doing before, a fallback needs `timeout` further
   * units of silence.
   */
  lemma CommandRestartsWindow(timeout: nat, s: State, msg: seq<byte>, n: nat)
    requires s.listening && IsCommand(msg)
    ensures var s' := Run(timeout, s, [Received(msg), Signalled]).next;
      && s'.monitor == Waiting(0) && !s'.updated
      && s'.lights.Value() == msg[0] as int
      && (n < timeout ==> Fallbacks(timeout, s', Ticks(n)) == 0)
      && (0 < n && timeout <= n ==> Fallbacks(timeout, s', Ticks(n)) == 1)
  {
    var t1 := Step(timeout, s, Received(msg));
    var t2 := Step(timeout, t1.next, Signalled);
    RunPair(timeout, s, Received(msg), Signalled);
    var s' := t2.next;
    if n < timeout {
      QuietWithinWindow(timeout, s', n);
    } else if 0 < n {
      FallbackAfterWindow(timeout, s', n);
    }
  }

  /** A value received while inactive is shown as soon as the mode is entered. */
  lemma ReentryShowsLastCommand(timeout: nat, s: State, msg: seq<byte>)
    requires s.listening && !s.active && IsCommand(msg)
    ensures var r := Run(timeout, s, [Received(msg), Entered]);
      && |r.output| == 1
      && r.output[0].Value() == msg[0] as int
      && r.next.active
  {
    RunPair(timeout, s, Received(msg), Entered);
  }

  /**
   * While the mode is not entered, nothing reaches the fixture: a run with
   * no entry, starting inactive, writes nothing and ends inactive, even
   * though commands and fallbacks still change the last-known lights.
   */
  lemma {:induction false} InactiveWritesNothing(timeout: nat, s: State, events: seq<Event>)
    requires !s.active
    requires forall k :: 0 <= k < |events| ==> !events[k].Entered?
    ensures Run(timeout, s, events).output == []
    ensures !Run(timeout, s, events).next.active
    decreases |events|
  {
    if events != [] {
      assert !events[0].Entered?;
      forall k | 0 <= k < |events[1..]|
        ensures !events[1..][k].Entered?
      {
        assert events[1..][k] == events[k + 1];
      }
      InactiveWritesNothing(timeout, Step(timeout, s, events[0]).next, events[1..]);
    }
  }

  /** Once the listener has stopped it never reads again, whatever happens. */
  lemma {:induction false} StoppedListenerStaysStopped(timeout: nat, s: State, events: seq<Event>)
    requires !s.listening
    ensures !Run(timeout, s, events).next.listening
    ensures forall msg :: Step(timeout, s, Received(msg)) == Transition(s, [])
    decreases |events|
  {
    if events != [] {
      StoppedListenerStaysStopped(timeout, Step(timeout, s, events[0]).next, events[1..]);
    }
  }

  /**
   * The watchdog object. Its fields are the source's `_lights`,
   * `_is_active` and `_on_updated`, plus the positions of its two threads.
   */
  class UdpListenerMode {
    const out: TrafficLight
    const updateTimeout: nat
    var lights: Lights
    var isActive: bool
    var onUpdated: bool
    var monitor: Monitor
    var listening: bool

    /** The abstract state this object holds. */
    ghost function Model(): State
      reads this
    {
      State(lights, isActive, onUpdated, monitor, listening)
    }

    /** Starts inactive showing nothing, with last-known lights AMBER. */
    constructor (out: TrafficLight, updateTimeout: nat)
      ensures Model() == Initial()
      ensures this.out == out && this.updateTimeout == updateTimeout
    {
      this.out := out;
      this.updateTimeout := updateTimeout;
      lights := Amber;
      isActive := false;
      onUpdated := false;
      monitor := Waiting(0);
      listening := true;
    }

    /** `_update`: store the lights, and write them if active. */
    method Update(l: Lights)
      modifies this, out
      ensures Model() == ApplyUpdate(old(Model()), l).next
      ensures out.trace == old(out.trace) + ApplyUpdate(old(Model()), l).output
      ensures old(isActive) ==> out.Shown() == ChannelsOf(l)
      ensures !old(isActive) ==> unchanged(out)
    {
      lights := l;
      if isActive {
        out.Set(lights);
      }
    }

    /** One pass of the listener loop: read a datagram and act on its first byte. */
    method Receive(msg: seq<byte>)
      modifies this, out
      ensures var t := Step(updateTimeout, old(Model()), Received(msg));
        Model() == t.next && out.trace == old(out.trace) + t.output
      ensures var t := Step(updateTimeout, old(Model()), Received(msg));
        if t.output == [] then unchanged(out) else out.Shown() == ChannelsOf(lights)
    {
      if !listening {
        return;
      }
      if |msg| == 0 {
        listening := false;
        return;
      }
      if None.Value() <= msg[0] as int <= All.Value() {
        Update(FromValue(msg[0] as int).value);
        onUpdated := true;
      }
    }

    /** The timeout thread's wait returns because the event is set. */
    method Signalled()
      modifies this
      ensures Model() == Step(updateTimeout, old(Model()), Event.Signalled).next
    {
      if onUpdated {
        onUpdated := false;
        monitor := Waiting(0);
      }
    }

    /** One unit of time passes for the timeout thread. */
    method Tick()
      modifies this, out
      ensures var t := Step(updateTimeout, old(Model()), Event.Tick);
        Model() == t.next && out.trace == old(out.trace) + t.output
      ensures var t := Step(updateTimeout, old(Model()), Event.Tick);
        if t.output == [] then unchanged(out) else out.Shown() == ChannelsOf(lights)
    {
      match monitor
      case FellBack =>
      case Waiting(elapsed) =>
        if !onUpdated {
          if elapsed + 1 < updateTimeout {
            monitor := Waiting(elapsed + 1);
          } else {
            Update(Amber);
            monitor := FellBack;
          }
        }
    }

    /** Show the last-known lights, then become active. */
    method Enter()
      modifies this, out
      ensures var t := Step(updateTimeout, old(Model()), Entered);
        Model() == t.next && out.trace == old(out.trace) + t.output
      ensures out.Shown() == ChannelsOf(lights)
    {
      out.Set(lights);
      isActive := true;
    }

    /** Become inactive; nothing is written. */
    method Exit()
      modifies this
      ensures Model() == Step(updateTimeout, old(Model()), Exited).next
    {
      isActive := false;
    }
  }
}
