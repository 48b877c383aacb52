/**
 * The modes controller: a cyclic state machine over a fixed, non-empty list
 * of modes. A button press exits the current mode, advances the index
 * modulo the list's length, and enters the next mode; `start` enters the
 * mode at the current index.
 */
module Controller {
  import opened TrafficLights
  import opened Watchdog
  import opened Modes
  import Cyclic

  /** A lifecycle call the controller makes on the mode at an index. */
  datatype Call = Enter(index: nat) | Exit(index: nat)

  /** The indices entered and not exited since, after a sequence of calls. */
  function Active(calls: seq<Call>): set<nat>
    decreases |calls|
  {
    if calls == [] then {}
    else
      var before := Active(calls[..|calls| - 1]);
      match calls[|calls| - 1]
      case Enter(k) => before + {k}
      case Exit(k) => before - {k}
  }

  /** The number of presses a call sequence records: one exit per press. */
  function Presses(calls: seq<Call>): nat
    decreases |calls|
  {
    if calls == [] then 0
    else Presses(calls[..|calls| - 1]) + (if calls[|calls| - 1].Exit? then 1 else 0)
  }

  /**
   * The call log agrees with an index i into n modes: i is where the presses
   * recorded so far lead, and once anything has been entered, i is the one
   * index entered and not exited since.
   */
  predicate LogAgrees(calls: seq<Call>, n: nat, i: nat)
    requires 0 < n
  {
    && Active(calls) <= {i}
    && (calls != [] ==> Active(calls) == {i})
    && i == Cyclic.IndexAfter(n, Presses(calls))
  }

  /** A press exits the only active mode before entering the next, so afterwards exactly the next one is active. */
  lemma SwitchLeavesOneActive(calls: seq<Call>, n: nat, i: nat)
    requires 0 < n && LogAgrees(calls, n, i)
    ensures i < n
    ensures LogAgrees(calls + [Exit(i)] + [Enter(Cyclic.Advance(i, n))], n, Cyclic.Advance(i, n))
    ensures Active(calls + [Exit(i)] + [Enter(Cyclic.Advance(i, n))]) == {Cyclic.Advance(i, n)}
  {
    var c1 := calls + [Exit(i)];
    var c2 := c1 + [Enter(Cyclic.Advance(i, n))];
    assert c2[..|c2| - 1] == c1;
    assert c1[..|c1| - 1] == calls;
  }

  /** Starting enters the mode at the index; no press is recorded. */
  lemma StartMakesActive(calls: seq<Call>, n: nat, i: nat)
    requires 0 < n && LogAgrees(calls, n, i)
    ensures LogAgrees(calls + [Enter(i)], n, i)
    ensures Active(calls + [Enter(i)]) == {i}
  {
    assert (calls + [Enter(i)])[..|calls|] == calls;
  }

  class ModesController {
    const modes: seq<Mode>
    var i: nat
    /** Every enter and exit made so far, in order; each lifecycle call appends itself. */
    ghost var calls: seq<Call>

    /** The fixed shape of the mode list: non-empty, with distinct mode objects. */
    ghost predicate WellFormed()
    {
      && 0 < |modes|
      && (forall j, k :: 0 <= j < |modes| && 0 <= k < |modes| && j != k ==> Owner(modes[j]) !! Owner(modes[k]))
    }

    /** No mode except possibly the one at index k has its activation flag set. */
    ghost predicate OthersDisengaged(k: nat)
      reads AllObjects(modes)
    {
      forall j :: 0 <= j < |modes| && j != k ==> !Engaged(modes[j])
    }

    /**
     * The index is in range and the call log agrees with it: exactly the mode
     * at the index has been entered and not exited since (once anything has
     * been entered), and the index is where the recorded presses lead. The
     * modes' own flags say the same: no other mode is engaged, and the mode at
     * the index is engaged exactly when it has been entered and is not fixed.
     */
    ghost predicate Valid()
      reads this, AllObjects(modes)
    {
      && WellFormed()
      && i < |modes|
      && LogAgrees(calls, |modes|, i)
      && OthersDisengaged(i)
      && Engaged(modes[i]) == (calls != [] && !modes[i].Fixed?)
    }

    /**
     * `ModesController(button, modes)`: the index starts at 0. The modes
     * must be distinct objects, none of them entered yet, as the program
     * builds them.
     */
    constructor (modes: seq<Mode>)
      requires 0 < |modes|
      requires forall j, k :: 0 <= j < |modes| && 0 <= k < |modes| && j != k ==> Owner(modes[j]) !! Owner(modes[k])
      requires forall k :: 0 <= k < |modes| ==> !Engaged(modes[k])
      ensures Valid()
      ensures this.modes == modes && i == 0 && calls == []
    {
      this.modes := modes;
      i := 0;
      calls := [];
    }

    /** A mode with its flag set is the one mode the log has entered and not exited since. */
    lemma EngagedIsActive(k: nat)
      requires Valid() && k < |modes|
      ensures Engaged(modes[k]) ==> k == i && Active(calls) == {k}
    {
    }

    /**
     * The first half of a press, `self._modes[self._i].exit()` and the index
     * update: afterwards no mode is engaged, and the mode now at the index
     * writes on entry what it would have written before.
     */
    method ExitAndAdvance()
      requires WellFormed() && i < |modes| && OthersDisengaged(i)
      modifies Owner(modes[i]), this`i, this`calls
      ensures i == Cyclic.Advance(old(i), |modes|)
      ensures calls == old(calls) + [Exit(old(i))]
      ensures OthersDisengaged(i) && !Engaged(modes[i])
      ensures Kept(modes[old(i)]) == old(Kept(modes[i]))
      ensures var m := modes[i];
        && unchanged(Output(m))
        && EnterWrites(m) == old(EnterWrites(m))
        && Kept(m) == old(Kept(m))
    {
      var m, next := modes[i], Cyclic.Advance(i, |modes|);
      ExitMode(m);
      forall j | 0 <= j < |modes| && j != i
        ensures !Engaged(modes[j])
      {
        assert Owner(modes[j]) !! Owner(m);
        ModeUntouched(modes[j]);
      }
      if next != i {
        assert Owner(modes[next]) !! Owner(m);
      }
      calls := calls + [Exit(i)];
      i := next;
    }

    /**
     * `self._modes[self._i].enter()`. The mode may be entered only while no
     * other mode is engaged, which is what exiting first guarantees.
     */
    method EnterCurrent()
      requires WellFormed() && i < |modes| && OthersDisengaged(i)
      requires LogAgrees(calls + [Enter(i)], |modes|, i)
      modifies Owner(modes[i]), Output(modes[i]), this`calls
      ensures Valid()
      ensures calls == old(calls) + [Enter(i)]
      ensures var m := modes[i];
        && Output(m).trace == old(Output(m).trace) + old(EnterWrites(m))
        && (m.Fixed? ==> Output(m).Shown() == ChannelsOf(m.lights))
        && (m.Sequenced? ==> unchanged(Output(m)))
        && (m.Listener? ==> Output(m).Shown() == ChannelsOf(old(m.listener.lights)))
        && Kept(m) == old(Kept(m))
    {
      var m := modes[i];
      EnterMode(m);
      forall j | 0 <= j < |modes| && j != i
        ensures !Engaged(modes[j])
      {
        assert Owner(modes[j]) !! Owner(m);
        ModeUntouched(modes[j]);
      }
      calls := calls + [Enter(i)];
    }

    /** `start()`: enter the mode at the index, without exiting anything first. */
    method Start()
      requires Valid()
      modifies Owner(modes[i]), Output(modes[i]), this`calls
      ensures Valid()
      ensures i == old(i)
      ensures calls == old(calls) + [Enter(i)]
      ensures var m := modes[i];
        && Output(m).trace == old(Output(m).trace) + old(EnterWrites(m))
        && (m.Fixed? ==> Output(m).Shown() == ChannelsOf(m.lights))
        && (m.Sequenced? ==> unchanged(Output(m)))
        && (m.Listener? ==> Output(m).Shown() == ChannelsOf(old(m.listener.lights)))
        && Kept(m) == old(Kept(m))
    {
      StartMakesActive(calls, |modes|, i);
      EnterCurrent();
    }

    /**
     * `switch_mode()`, the button callback: exit the current mode, advance
     * the index, enter the next mode. The old mode ends disengaged and the
     * next one shows what its `enter` writes.
     */
    method Switch()
      requires Valid()
      modifies Owner(modes[i]), Owner(modes[Cyclic.Advance(i, |modes|)])
      modifies Output(modes[Cyclic.Advance(i, |modes|)]), this`i, this`calls
      ensures Valid()
      ensures i == Cyclic.Advance(old(i), |modes|)
      ensures calls == old(calls) + [Exit(old(i))] + [Enter(i)]
      ensures old(i) != i ==> !Engaged(modes[old(i)])
      ensures Kept(modes[old(i)]) == old(Kept(modes[i]))
      ensures var m := modes[i];
        && Output(m).trace == old(Output(m).trace) + old(EnterWrites(m))
        && (m.Fixed? ==> Output(m).Shown() == ChannelsOf(m.lights))
        && (m.Sequenced? ==> unchanged(Output(m)))
        && (m.Listener? ==> Output(m).Shown() == ChannelsOf(old(m.listener.lights)))
        && Kept(m) == old(Kept(m))
    {
      SwitchLeavesOneActive(calls, |modes|, i);
      ghost var was, log := i, calls;
      ExitAndAdvance();
      ghost var kept := Kept(modes[was]);
      if was != i {
        assert Owner(modes[was]) !! Owner(modes[i]);
      }
      EnterCurrent();
      assert Kept(modes[was]) == kept;
      assert calls == log + [Exit(was)] + [Enter(i)];
    }
  }

  /**
   * k button presses in a row. The i-th press moves the index i steps past
   * where it started, modulo the number of modes; `visited` lists the
   * index after each press.
   */
  method PressTimes(c: ModesController, k: nat) returns (visited: seq<nat>)
    requires c.Valid()
    modifies AllObjects(c.modes), c`i, c`calls
    ensures c.Valid()
    ensures |visited| == k
    ensures forall j :: 0 <= j < k ==> visited[j] == (old(c.i) + j + 1) % |c.modes|
    ensures c.i == (old(c.i) + k) % |c.modes|
  {
    ghost var start := c.i;
    Cyclic.ModUnique(start, |c.modes|, 0, start);
    visited := [];
    var j := 0;
    while j < k
      invariant j <= k && c.Valid()
      invariant c.i == (start + j) % |c.modes|
      invariant |visited| == j
      invariant forall t :: 0 <= t < j ==> visited[t] == (start + t + 1) % |c.modes|
    {
      ghost var next := (start + j + 1) % |c.modes|;
      assert Cyclic.Advance(c.i, |c.modes|) == next by {
        Cyclic.ModAddLeft(start + j, 1, |c.modes|);
      }
      c.Switch();
      visited := visited + [c.i];
      j := j + 1;
    }
  }

  /**
   * From index 0, n presses over n modes visit 1, ..., n - 1 in order and
   * then return to 0, so every index is visited exactly once.
   */
  lemma FullRoundFromStart(n: nat, visited: seq<nat>)
    requires 0 < n && |visited| == n
    requires forall j :: 0 <= j < n ==> visited[j] == (0 + j + 1) % n
    ensures forall j :: 0 <= j < n - 1 ==> visited[j] == j + 1
    ensures visited[n - 1] == 0
    ensures forall j, t :: 0 <= j < t < n ==> visited[j] != visited[t]
  {
    forall j | 0 <= j < n - 1
      ensures visited[j] == j + 1
    {
      Cyclic.ModUnique(j + 1, n, 0, j + 1);
    }
    Cyclic.ModUnique(n, n, 1, 0);
  }
}
