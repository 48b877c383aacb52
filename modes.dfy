/**
 * The three kinds of mode the controller cycles through, and the dispatch of
 * `enter` and `exit` to them. A fixed mode writes one constant on entry; a
 * sequence mode gates a worker that paces a looped sequence; a listener mode
 * is the UDP watchdog.
 */
module Modes {
  import opened TrafficLights
  import opened Sequences
  import opened Watchdog

  /** One step of a timed sequence: the lights and how long they stay on, in time units. */
  datatype TimedLights = TimedLights(lights: Lights, interval: nat)

  /**
   * The sequence mode: an activation flag (the source's `_on_activated`
   * event) over a looped sequence of timed steps.
   */
  class SequenceMode {
    const out: TrafficLight
    const steps: LoopedSequence<TimedLights>
    var activated: bool
    /** The worker thread is still running: it ends when its iterator raises. */
    var working: bool

    ghost predicate Valid()
      reads this, steps
    {
      steps.Valid()
    }

    /** Starts inactive; the worker waits for activation. */
    constructor (out: TrafficLight, steps: LoopedSequence<TimedLights>)
      requires steps.Valid()
      ensures Valid() && !activated && working
      ensures this.out == out && this.steps == steps
    {
      this.out := out;
      this.steps := steps;
      activated := false;
      working := true;
    }

    /** Signals activation; the worker, not `enter`, writes the lights. */
    method Enter()
      modifies this
      ensures activated && working == old(working)
    {
      activated := true;
    }

    method Exit()
      modifies this
      ensures !activated && working == old(working)
    {
      activated := false;
    }

    /**
     * One pass of the worker loop: when activated, take the next step and
     * show its lights (the pause that follows is not modelled); otherwise
     * the worker is blocked and nothing happens. An iterator with nothing to
     * yield ends the worker.
     */
    method WorkerStep()
      requires Valid()
      modifies this, steps, out
      ensures Valid() && activated == old(activated)
      ensures old(activated && working) && 0 < |steps.items| ==>
        && working
        && steps.yielded == old(steps.yielded) + [steps.items[|old(steps.yielded)| % |steps.items|]]
        && out.trace == old(out.trace) + [steps.items[|old(steps.yielded)| % |steps.items|].lights]
        && out.Shown() == ChannelsOf(steps.items[|old(steps.yielded)| % |steps.items|].lights)
      ensures old(activated && working) && |steps.items| == 0 ==> !working && unchanged(steps, out)
      ensures !old(activated && working) ==> unchanged(this, steps, out)
    {
      if activated && working {
        var step := steps.Next();
        if step.Some? {
          out.Set(step.value.lights);
        } else {
          working := false;
        }
      }
    }
  }

  /** A mode in the controller's list. */
  datatype Mode =
    | Fixed(out: TrafficLight, lights: Lights)
    | Sequenced(sequence: SequenceMode)
    | Listener(listener: UdpListenerMode)

  /** The fixture a mode writes to. */
  function Output(m: Mode): TrafficLight
  {
    match m
    case Fixed(out, _) => out
    case Sequenced(s) => s.out
    case Listener(u) => u.out
  }

  /** The object holding the mode's own mutable state (a fixed mode has none). */
  ghost function Owner(m: Mode): set<object>
  {
    match m
    case Fixed(_, _) => {}
    case Sequenced(s) => {s}
    case Listener(u) => {u}
  }

  /** Whether the mode's activation flag lets its background work write to the output. */
  ghost predicate Engaged(m: Mode)
    reads Owner(m)
  {
    match m
    case Fixed(_, _) => false
    case Sequenced(s) => s.activated
    case Listener(u) => u.isActive
  }

  /** What a mode holds besides its activation flag. */
  datatype Held = Stateless | Worker(working: bool) | Watch(state: State)

  /**
   * The mode's state with its activation flag left out: entering and
   * exiting change the flag and nothing else.
   */
  ghost function Kept(m: Mode): Held
    reads Owner(m)
  {
    match m
    case Fixed(_, _) => Stateless
    case Sequenced(s) => Worker(s.working)
    case Listener(u) => Watch(u.Model().(active := false))
  }

  /** What `enter` writes to the output straight away, given the mode's current state. */
  ghost function EnterWrites(m: Mode): seq<Lights>
    reads Owner(m)
  {
    match m
    case Fixed(_, l) => [l]
    case Sequenced(_) => []
    case Listener(u) => [u.lights]
  }

  /** Every object the modes of a list own or write to. */
  ghost function AllObjects(ms: seq<Mode>): (r: set<object>)
    ensures forall k :: 0 <= k < |ms| ==> Owner(ms[k]) <= r && Output(ms[k]) in r
    decreases |ms|
  {
    if ms == [] then {}
    else AllObjects(ms[..|ms| - 1]) + Owner(ms[|ms| - 1]) + {Output(ms[|ms| - 1])}
  }

  /** A mode whose own object did not change keeps its flag. */
  twostate lemma ModeUntouched(m: Mode)
    requires unchanged(Owner(m))
    ensures old(Engaged(m)) == Engaged(m)
  {
  }

  /** `modes[i].enter()`. */
  method EnterMode(m: Mode)
    modifies Owner(m), Output(m)
    ensures Engaged(m) == !m.Fixed?
    ensures Output(m).trace == old(Output(m).trace) + old(EnterWrites(m))
    ensures m.Fixed? ==> m.out.Shown() == ChannelsOf(m.lights)
    ensures Kept(m) == old(Kept(m))
    ensures m.Sequenced? ==> unchanged(Output(m))
    ensures m.Listener? ==> Output(m).Shown() == ChannelsOf(old(m.listener.lights))
  {
    match m
    case Fixed(out, l) => out.Set(l);
    case Sequenced(s) => s.Enter();
    case Listener(u) => u.Enter();
  }

  /** `modes[i].exit()`: clears the flag and writes nothing. */
  method ExitMode(m: Mode)
    modifies Owner(m)
    ensures !Engaged(m)
    ensures Kept(m) == old(Kept(m))
  {
    match m
    case Fixed(_, _) =>
    case Sequenced(s) => s.Exit();
    case Listener(u) => u.Exit();
  }
}
