# Traffic-light server: a Dafny model

This project models the decision logic of a Raspberry Pi traffic-light
server (`RaspberryPi.Server/main.py`). The server drives one red/amber/green
fixture. A list of *modes* takes turns owning the fixture, and a push-button
cycles through them. The three kinds of mode are:

- a **fixed** mode, which shows one constant;
- a **sequence** mode, whose worker thread steps through a looped list of
  timed light states;
- a **UDP listener** mode, a watchdog. It shows the value named by the first
  byte of the last valid command datagram, and falls back to AMBER after a
  silence period.

The model has one module per piece of the program:

| file | module | what it holds |
|---|---|---|
| `wrappers.dfy` | `Wrappers` | an `Option` type |
| `cyclic.dfy` | `Cyclic` | advancing an index modulo a length, and some modular-arithmetic facts |
| `lights.dfy` | `TrafficLights` | the `Lights` enum and its validated decoding, the channel mapping of `TrafficLight.set`, and the fixture as a class with an output trace |
| `sequences.dfy` | `Sequences` | `looped_sequence` as a recursive definition plus a generator object proved against it |
| `watchdog.dfy` | `Watchdog` | the listener mode as a pure state machine `Step` over an event alphabet, plus the `UdpListenerMode` class whose methods are proved against `Step` |
| `modes.dfy` | `Modes` | the sequence mode, the `Mode` variants, and the dispatch of `enter`/`exit` |
| `controller.dfy` | `Controller` | `ModesController` with its call log |
| `scenarios.dfy` | `Scenarios` | whole-system runs with their exact output |

Threads, sockets and GPIO are replaced by explicit events and an output
trace:

- `TrafficLight.trace` records every value handed to `set`.
- A button press is a call to `Switch`.
- The listener thread contributes `Received(msg)`, one datagram.
- The update-timeout thread contributes two events: `Signalled`, when its wait returns because the event was set, and `Tick`, one unit of time passing while it waits.
- The sequence worker contributes `WorkerStep`, one pass of its loop.

Durations and the update timeout are natural numbers of time units.

Three edge behaviours of the code are modelled as the code has them:

- **Empty datagram.** The listener reads `msg[0]` (`main.py:80`). On an empty datagram this raises `IndexError`. Nothing catches it, so the listener thread ends and no later datagram is ever processed. The model has a `listening` flag for this (`Watchdog.EmptyDatagramStopsListener`, `Watchdog.StoppedListenerStaysStopped`).
- **Where `enter` writes.** The listener's `enter` writes the last-known lights before it takes the activity lock, and sets the flag under the lock (`main.py:99-101`). The model's `Enter` does the same: it writes first and sets the flag after. The gap between the two steps, where another thread could run, is listed under "Left out".
- **Empty step list.** With `looped_sequence([])`, the first `next` raises `IndexError` at `l[0]`. That ends the sequence mode's worker thread. The model follows the code (`Sequences.LoopedSequence.Next`, `Modes.SequenceMode.WorkerStep`).

## Model

| member | source | states |
|---|---|---|
| TrafficLights.Lights.Value | RaspberryPi.Server/main.py:9-17 | every member's value is a 3-bit mask, below 8 |
| TrafficLights.FromValue | RaspberryPi.Server/main.py:9-17 | `Lights(v)` names a member exactly when 0 <= v <= 7, and then that member's value is v |
| TrafficLights.Accepts | RaspberryPi.Server/main.py:80 | the range test `NONE.value <= b <= ALL.value` on a byte holds exactly when the byte is at most 7 |
| TrafficLights.AcceptsExactlyTheMasks | RaspberryPi.Server/main.py:80-81 | the listener's range test `NONE.value <= b <= ALL.value` accepts a byte exactly when it is at most 7, which is exactly when it decodes; the decoded member's value is the byte |
| TrafficLights.ValueRoundTrip | RaspberryPi.Server/main.py:9-17 | decoding a member's value gives the member back |
| TrafficLights.ValueInjective | RaspberryPi.Server/main.py:9-17 | distinct members have distinct values |
| TrafficLights.AllLightsByValue | RaspberryPi.Server/main.py:9-17 | iterating the enum lists its eight members, each at the position of its value |
| TrafficLights.RandomDrawDecodes | RaspberryPi.Server/main.py:128-130 | a draw from `range(len(Lights))` always decodes, to the member at that position |
| TrafficLights.ChannelsOf | RaspberryPi.Server/main.py:25-29 | the bit extraction of `set`: red is lit exactly for the values 4..7, amber exactly when the value modulo 4 is 2 or 3, green exactly for the odd values |
| TrafficLights.MaskOf | RaspberryPi.Server/main.py:25-29 | a channel triple read back by place value is a mask below 8 |
| TrafficLights.ChannelsByName | RaspberryPi.Server/main.py:25-29 | red is lit exactly for RED, RED_GREEN, RED_AMBER and ALL; amber and green likewise for the members carrying their colour |
| TrafficLights.ChannelsEncodeValue | RaspberryPi.Server/main.py:25-29 | the three bits `set` extracts (4, 2, 1) put together again give the member's value |
| TrafficLights.ChannelsBijection | RaspberryPi.Server/main.py:25-29 | the eight members map one-to-one onto the eight channel triples, in both directions |
| TrafficLights.ChannelsInjective | RaspberryPi.Server/main.py:25-29 | distinct members light distinct channel triples |
| TrafficLights.TrafficLight.constructor | RaspberryPi.Server/main.py:19-23 | a new fixture has all channels off and has been told nothing |
| TrafficLights.TrafficLight.Set | RaspberryPi.Server/main.py:25-29 | `set` lights red iff `v & 4`, amber iff `v & 2`, green iff `v & 1`, and appends the value to the trace |
| Cyclic.Advance | RaspberryPi.Server/main.py:115 | `(i + 1) % n` stays below n, wrapping to 0 exactly after the last index |
| Cyclic.IndexAfter | RaspberryPi.Server/main.py:113-116 | the index after k presses from 0 is always in range |
| Cyclic.IndexAfterIsMod | RaspberryPi.Server/main.py:113-116 | the index after k presses is k mod n |
| Cyclic.FirstRoundInOrder | RaspberryPi.Server/main.py:113-116 | during the first round the k-th press leads to index k, so the list order is the visiting order |
| Cyclic.FullRoundReturnsToStart | RaspberryPi.Server/main.py:113-116 | n presses over n modes lead back to index 0 |
| Cyclic.Periodic | RaspberryPi.Server/main.py:113-116 | n more presses always lead back to the same index |
| Cyclic.ModAddLeft | RaspberryPi.Server/main.py:115 | reducing modulo n before adding does not change the result modulo n, so advancing step by step agrees with one reduction |
| Sequences.Generated | RaspberryPi.Server/main.py:122-126 | the generator's loop unrolled n times yields n values |
| Sequences.GeneratedAt | RaspberryPi.Server/main.py:122-126 | started at index i, the k-th yielded value is `l[(i + k) % len(l)]` |
| Sequences.LoopedAt | RaspberryPi.Server/main.py:122-126 | from a fresh generator, the k-th yielded value is `l[k % len(l)]` |
| Sequences.FirstRoundIsList | RaspberryPi.Server/main.py:122-126 | the first `len(l)` values are `l` itself, in order |
| Sequences.GeneratedPeriodic | RaspberryPi.Server/main.py:122-126 | each value recurs exactly `len(l)` steps later |
| Sequences.SnocGenerated | RaspberryPi.Server/main.py:125-126 | one more step appends `l[n % len(l)]` to the values yielded so far |
| Sequences.LoopedSequence.constructor | RaspberryPi.Server/main.py:122-123 | a new generator starts at index 0 and has yielded nothing |
| Sequences.LoopedSequence.Next | RaspberryPi.Server/main.py:124-126 | for a non-empty list, `next` yields `l[k % len(l)]` as the k-th value and keeps "index = values yielded mod length"; for an empty list it raises and yields nothing |
| Watchdog.Initial | RaspberryPi.Server/main.py:65-75 | a new watchdog holds AMBER (value 2), is inactive, has no pending event, its listener is running, and a fallback can already fire |
| Watchdog.ApplyUpdate | RaspberryPi.Server/main.py:92-96 | `_update(l)` always stores l and changes nothing else in the state; it writes exactly when the mode is active, and then it writes l |
| Watchdog.Step | RaspberryPi.Server/main.py:77-105 | for every event: what is written is nothing or the new last-known lights; apart from `enter`, a write happens only while the mode is active before and after; only `enter` and `exit` move the active flag; the lights change only through an accepted command or the fallback; only an accepted command raises the "updated" event |
| Watchdog.CommandStoredAndGated | RaspberryPi.Server/main.py:77-96 | a valid datagram stores the decoded lights, raises the "updated" event, changes nothing else, and writes the lights iff the mode is active |
| Watchdog.OutOfRangeIgnored | RaspberryPi.Server/main.py:80 | a first byte above 7 leaves the state and the output untouched |
| Watchdog.EmptyDatagramStopsListener | RaspberryPi.Server/main.py:77-82 | an empty datagram makes `msg[0]` raise: the listener stops and nothing else changes, and after any later events no datagram is acted on any more |
| Watchdog.InactiveWritesNothing | RaspberryPi.Server/main.py:92-105 | from an inactive state, a run with no `enter` writes nothing to the fixture and ends inactive (that commands and fallbacks still store their lights meanwhile is stated by `Watchdog.CommandStoredAndGated` and `Watchdog.FallbackShowsAmber`) |
| Watchdog.StoppedListenerStaysStopped | RaspberryPi.Server/main.py:77-82 | once the listener thread has ended, it stays ended, and datagrams have no effect |
| Watchdog.EnterExitEffects | RaspberryPi.Server/main.py:98-105 | `enter` writes the last-known lights at once, then sets active; `exit` only clears active and writes nothing |
| Watchdog.FallbackShowsAmber | RaspberryPi.Server/main.py:88-90 | when the window elapses, the lights become AMBER through `_update`, and the thread moves to the unbounded wait |
| Watchdog.RunAppend | RaspberryPi.Server/main.py:84-90 | a run over two event sequences back to back is the second run started where the first ended, and the fallback counts add up |
| Watchdog.SilenceCannotRearm | RaspberryPi.Server/main.py:88-90 | once the fallback has fired and no valid datagram arrives, it never fires again, and the lights and the unbounded wait stay as they are |
| Watchdog.AtMostOneFallbackPerSilence | RaspberryPi.Server/main.py:84-90 | during any stretch with no valid datagram, the fallback fires at most once, and not at all if it had already fired |
| Watchdog.ExactlyOneFallbackPerSilence | RaspberryPi.Server/main.py:80-90 | during a silence that starts in the bounded wait, with any datagrams, entries and exits in between, the fallback fires exactly once when at least one unit passes and the units fill the window, and never otherwise; afterwards the lights are AMBER, or else untouched with the wait advanced by the units passed |
| Watchdog.QuietWithinWindow | RaspberryPi.Server/main.py:86 | before the window ends, time passing only advances the bounded wait and writes nothing |
| Watchdog.FallbackAfterWindow | RaspberryPi.Server/main.py:84-90 | a full window of silence fires the fallback exactly once: the lights become AMBER, AMBER is written once if active, and the thread waits for the next command |
| Watchdog.AfterFallbackQuiet | RaspberryPi.Server/main.py:90 | in the unbounded wait, time passing changes nothing |
| Watchdog.CommandRestartsWindow | RaspberryPi.Server/main.py:80-87 | a valid datagram, once the timeout thread has consumed it, starts a full new window: less than `timeout` units of silence fire nothing, and at least `timeout` units fire exactly one fallback |
| Watchdog.ReentryShowsLastCommand | RaspberryPi.Server/main.py:92-101 | a value received while inactive is written as soon as the mode is entered, and nothing else is written |
| Watchdog.UdpListenerMode.constructor | RaspberryPi.Server/main.py:63-75 | starts inactive with last-known lights AMBER, no event, a fresh window, and the listener running |
| Watchdog.UdpListenerMode.Update | RaspberryPi.Server/main.py:92-96 | `_update` always stores the lights and writes them iff the mode is active; an inactive update leaves the fixture untouched |
| Watchdog.UdpListenerMode.Receive | RaspberryPi.Server/main.py:78-82 | one pass of the listener loop performs the `Received` step; when it writes, the fixture shows the new lights, and otherwise the fixture is untouched |
| Watchdog.UdpListenerMode.Signalled | RaspberryPi.Server/main.py:86-87 | a wait that returns because the event was set clears it and restarts the window |
| Watchdog.UdpListenerMode.Tick | RaspberryPi.Server/main.py:86-90 | one unit of waiting performs the `Tick` step: the wait advances, or the fallback fires; an active fallback shows AMBER, and otherwise the fixture is untouched |
| Watchdog.UdpListenerMode.Enter | RaspberryPi.Server/main.py:98-101 | performs the `Entered` step; the fixture shows the last-known lights |
| Watchdog.UdpListenerMode.Exit | RaspberryPi.Server/main.py:103-105 | performs the `Exited` step |
| Modes.SequenceMode.constructor | RaspberryPi.Server/main.py:43-48 | starts inactive, with its worker running |
| Modes.SequenceMode.Enter | RaspberryPi.Server/main.py:56-57 | sets the activation event |
| Modes.SequenceMode.Exit | RaspberryPi.Server/main.py:59-60 | clears the activation event |
| Modes.SequenceMode.WorkerStep | RaspberryPi.Server/main.py:50-54 | while active, one pass writes the next step's lights, which are `l[k % len(l)]` for the k-th step; while inactive, nothing happens; an exhausted iterator ends the worker |
| Modes.EnterMode | RaspberryPi.Server/main.py:36-101 | a fixed mode writes its constant, a sequence mode only sets its flag, and a listener writes its last-known lights and becomes active; everything else the mode holds (a listener's lights, window, event and listener flag, a sequence's worker flag) is kept |
| Modes.ExitMode | RaspberryPi.Server/main.py:39-105 | every mode ends up inactive, nothing is written, and everything else the mode holds is kept |
| Controller.SwitchLeavesOneActive | RaspberryPi.Server/main.py:113-116 | a press exits the one active index before entering the next, so exactly the next index is active afterwards, and that index is where the recorded presses lead |
| Controller.StartMakesActive | RaspberryPi.Server/main.py:119-120 | `start` enters the index without a preceding exit, and records no press |
| Controller.ModesController.constructor | RaspberryPi.Server/main.py:108-111 | the index starts at 0 and nothing has been entered; the modes must be distinct objects, none of them active yet |
| Controller.ModesController.EngagedIsActive | RaspberryPi.Server/main.py:113-120 | a mode whose activation flag is set is the one at the index, and the only one entered and not exited since |
| Controller.ModesController.ExitAndAdvance | RaspberryPi.Server/main.py:114-115 | exits the mode at the index and advances the index modulo the length: afterwards no mode is active, the exited mode keeps everything but its flag, and the mode now at the index is as it was, bar its flag |
| Controller.ModesController.EnterCurrent | RaspberryPi.Server/main.py:116 | enters the mode at the index, which is allowed only while every other mode is inactive; afterwards exactly that mode's flag may be set, the mode keeps everything else, and its entry write reaches the fixture |
| Controller.ModesController.Start | RaspberryPi.Server/main.py:119-120 | enters only the mode at the index, with no exit: that mode's entry write reaches the fixture, and the mode keeps everything but its flag (a sequence's worker keeps running) |
| Controller.ModesController.Switch | RaspberryPi.Server/main.py:113-116 | exits the old mode, then advances the index modulo the length, then enters the new mode (the exit has to come first, because `EnterCurrent` requires every other mode to be inactive); afterwards no mode but the new one is active, the index stays in range, the fixture shows what the new mode's entry writes, both modes keep everything but their flags (so a listener that is left and re-entered still holds the commands it received meanwhile), and only the two modes' objects and the new mode's fixture change |
| Controller.PressTimes | RaspberryPi.Server/main.py:113-117 | k presses visit the indices `(i + 1) % n`, ..., `(i + k) % n` in order |
| Controller.FullRoundFromStart | RaspberryPi.Server/main.py:109-116 | from index 0, n presses visit 1, ..., n-1 and then 0: each index exactly once |
| Scenarios.FixedPair | RaspberryPi.Server/main.py:107-120 | modes [ALL, NONE]: start, press, press writes exactly ALL, NONE, ALL |
| Scenarios.WatchdogCommanded | RaspberryPi.Server/main.py:77-101 | an entered watchdog with a two-unit window shows AMBER on entry and AMBER for the command 0x02, and the timeout thread's consumed event leaves a fresh window |
| Scenarios.WatchdogFallback | RaspberryPi.Server/main.py:84-90 | continuing, two silent units write AMBER again as a separate fallback write, and 0x09 writes nothing |
| Scenarios.FixedThenListenerStarted | RaspberryPi.Server/main.py:107-120 | modes [ALL, watchdog]: `start` writes ALL and leaves the watchdog in its initial state |
| Scenarios.ListenerReentry | RaspberryPi.Server/main.py:92-116 | continuing, RED_GREEN received while the fixed mode is current writes nothing, and the press that enters the watchdog writes it |
| Scenarios.ListenerLeft | RaspberryPi.Server/main.py:98-120 | modes [watchdog, ALL], the program's order: `start` writes AMBER, a press writes ALL, and the exited watchdog keeps its initial state with its listener running |
| Scenarios.ListenerLeftAndReentered | RaspberryPi.Server/main.py:77-116 | continuing, RED_GREEN received while the watchdog is not current writes nothing, and the press back to it writes RED_GREEN: the trace is AMBER, ALL, RED_GREEN |
| Scenarios.SequenceEntered | RaspberryPi.Server/main.py:107-120 | modes [ALL, sequence]: `start` writes ALL, and the press into the sequence activates its worker without writing |
| Scenarios.SequenceEnteredByPress | RaspberryPi.Server/main.py:50-54 | continuing, the worker's first pass writes RED: the trace is ALL, RED |
| Scenarios.SequenceStarted | RaspberryPi.Server/main.py:42-60 | modes [sequence, ALL]: `start` activates the sequence and its worker's first pass writes RED |
| Scenarios.SequenceStartedThenLeft | RaspberryPi.Server/main.py:42-60 | continuing, a press writes ALL and deactivates the sequence, whose worker then writes nothing: the trace is RED, ALL |
| Scenarios.SequenceCycle | RaspberryPi.Server/main.py:42-60 | a sequence over RED, GREEN writes nothing before entry, then RED, GREEN, RED |
| Scenarios.FixedEnterTwice | RaspberryPi.Server/main.py:36-37 | entering a fixed mode twice leaves the fixture as one entry did |
| Scenarios.EmptySequence | RaspberryPi.Server/main.py:50-54 | a sequence mode over an empty list writes nothing, and its worker ends |

## Left out

- GPIO (`LED`, `Button`, `main.py:4`, `20-23`, `153`) is foreign hardware I/O. The fixture is a class with three booleans and an output trace. A button press is a call to `Switch`. `LED.value` receives `v & 4` (0 or 4) and treats any non-zero value as on, so the model records a boolean.
- The socket (`socket`, `bind`, `recvfrom(1024)`, `main.py:70-71`, `79`) is network I/O. A datagram is an event carrying its bytes. Bind failure and the 1024-byte truncation are not modelled, because only the first byte is ever read.
- Threads, `Event.wait` with a timeout, `Lock` and `sleep` (`main.py:45-54`, `67-90`) are concurrency and real time. Each thread's loop body is an atomic event, and events happen one at a time. This leaves these interleavings unmodelled:
  - the sequence worker can write once after `exit` with no re-entry at all, when `exit` lands between `wait()` returning (`main.py:51`) and the write (`main.py:53`);
  - `enter` writes the lights before taking the lock (`main.py:99-101`), so an `_update` between those lines is stored but not written;
  - the listener's `_update` (`main.py:81`) and `set()` (`main.py:82`) are separate steps, so a fallback firing between them overwrites the command just received with AMBER;
  - the timeout thread's bounded wait can return False (`main.py:86`) and the listener can then run lines 79-82 in full before `_update(Lights.AMBER)` (`main.py:89`). AMBER then overwrites the command just received, the `wait()` at `main.py:90` returns at once, and a new window starts with AMBER shown;
  - the press callback is installed (`main.py:117`) before `start()` runs (`main.py:119-120`, called at `main.py:154`), and the button library runs it on its own thread. A press can land inside `start()`: with modes `[listener, ALL]`, `start()` takes `modes[0]` and runs `enter` up to its write (`main.py:99`), the press exits the listener, moves to index 1 and enters ALL, and `start()` then sets the listener's flag (`main.py:100-101`). Two modes are then active at once, and the listener's commands and fallbacks overwrite the current mode until the presses come back round to it. The model's single-active-mode invariant (`Controller.ModesController.Valid`) assumes a press never overlaps `start()`;
  - `_update` stores `self._lights` outside the lock (`main.py:93`) and reads it again under the lock (`main.py:96`), so a listener `_update(X)` overlapping the fallback's `_update(AMBER)` can write AMBER twice and never write X.

  In the model a fallback needs the "updated" event to be clear (`Watchdog.Fires`), each event is atomic, and `Start` and `Switch` are each one step, so none of these outcomes can occur.
- Durations (the floats in `main.py:137-149`, the `16.0` timeout at `main.py:135`) are floating point. The model uses natural numbers of time units. The timeout is the number of `Tick` events that make up one window.
- `random_sequence_lights` (`main.py:128-130`) uses randomness and `random.uniform` floats. The model only states that the drawn integer always decodes (`TrafficLights.RandomDrawDecodes`). A sequence mode in the model runs over a `looped_sequence`.
- The `__main__` wiring and `pause()` (`main.py:132-156`) are process startup.
- Controller.ModesController.constructor: requires a non-empty mode list. Over an empty list, both the source's `start` and a press raise `IndexError` at `self._modes[self._i]` (`main.py:114`, `120`). The program always builds a non-empty list.
- Controller.ModesController.constructor: requires the modes to be distinct objects, none of them entered yet, as the program builds them (`main.py:134-152`). A list naming the same mode object twice is not modelled.
- Modes.SequenceMode.WorkerStep: the pause after each step (`main.py:54`) is not modelled as time. An `exit` during the pause only clears the event. A re-entry before the pause ends lets the next pass write the following step, as a `WorkerStep` after `Enter` does in the model. Until then the fixture keeps showing the previous mode's last write, because entering a sequence mode writes nothing. The model fixes the order of these writes but not how long each is shown. The iterator is also always a `looped_sequence`, not an arbitrary Python iterator.
