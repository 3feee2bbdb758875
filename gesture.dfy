/**
 * The long-press state machine of one `beforeMount` call, as pure values.
 *
 * A `State` holds the two closure variables (`pressTimer`, `isLongPress`), the
 * threshold fixed at mount time, and the scheduler's view of the timers this
 * closure has set: the ones still pending (with the delay they were set for),
 * the next handle `setTimeout` will hand out, and the log of timers whose
 * callback has run (each entry is one invocation of the user's callback).
 * Time is abstract: a timer expiring is an explicit `Fire` input.
 */
module Gesture {
  import opened Wrappers

  type TimerId = nat

  /** The threshold used when the binding gives no usable argument. */
  const DefaultDuration: nat := 500

  /** The first handle the scheduler gives out; handles are never falsy. */
  const FirstTimer: TimerId := 1

  /** The event object a start handler receives: its class and, for a mouse event, its button. */
  datatype PressEvent = MouseEvent(button: int) | TouchEvent

  datatype State = State(
    duration: nat,
    pressTimer: Option<TimerId>,
    isLongPress: bool,
    pending: map<TimerId, nat>,
    nextTimer: TimerId,
    calls: seq<TimerId>)

  /** The inputs a closure reacts to: its three handlers and the expiry of one of its timers. */
  datatype Input = Start(e: PressEvent) | Stop | ClickEvent | Fire(id: TimerId)

  /** The number of times the callback ran for timer `t`. */
  function Invocations(s: State, t: TimerId): nat {
    multiset(s.calls)[t]
  }

  /**
   * What every reachable state satisfies: handles are issued in increasing
   * order, every pending timer was set for the threshold, and a timer is
   * either pending or has fired at most once, never both.
   */
  ghost predicate Valid(s: State) {
    && s.duration > 0
    && (forall t :: t in s.pending ==> t < s.nextTimer && s.pending[t] == s.duration)
    && (forall i :: 0 <= i < |s.calls| ==> s.calls[i] < s.nextTimer && s.calls[i] !in s.pending)
    && NoDup(s.calls)
    && (s.pressTimer.Some? ==> s.pressTimer.value < s.nextTimer)
  }

  /** `binding.arg || 500`: a missing or zero argument falls back to the default. */
  function Threshold(arg: Option<nat>): (d: nat)
    ensures d > 0
    ensures arg.Some? && arg.value != 0 ==> d == arg.value
    ensures arg.None? || arg.value == 0 ==> d == DefaultDuration
  {
    match arg
    case Some(n) => if n != 0 then n else DefaultDuration
    case None => DefaultDuration
  }

  /** The closure right after `beforeMount`: no timer, no long press, nothing scheduled. */
  function Init(arg: Option<nat>): (s: State)
    ensures Valid(s)
    ensures s.duration == Threshold(arg)
    ensures s.pressTimer == None && !s.isLongPress && s.pending == map[] && s.calls == []
  {
    State(Threshold(arg), None, false, map[], FirstTimer, [])
  }

  /** Whether a start event sets a timer: a touch, or a mouse press with the primary button. */
  predicate StartsTimer(e: PressEvent) {
    e.TouchEvent? || e.button == 0
  }

  /**
   * `onStartPress`: the flag is cleared first, for every event; a secondary
   * mouse button then returns; otherwise a new timer is set and its handle
   * overwrites `pressTimer` without clearing the one it replaces.
   */
  function StartPress(s: State, e: PressEvent): (r: State)
    ensures !r.isLongPress
    ensures r.duration == s.duration && r.calls == s.calls
    ensures !StartsTimer(e) ==> r.pressTimer == s.pressTimer && r.pending == s.pending && r.nextTimer == s.nextTimer
    ensures StartsTimer(e) ==> r.pressTimer == Some(s.nextTimer) && r.nextTimer == s.nextTimer + 1
    ensures StartsTimer(e) && Valid(s) ==>
              s.nextTimer !in s.pending && r.pending == s.pending[s.nextTimer := s.duration]
    ensures Valid(s) ==> Valid(r)
  {
    if StartsTimer(e) then
      s.(isLongPress := false,
         pressTimer := Some(s.nextTimer),
         pending := s.pending[s.nextTimer := s.duration],
         nextTimer := s.nextTimer + 1)
    else
      s.(isLongPress := false)
  }

  /**
   * The callback of pending timer `id` runs: the flag is set, the user's
   * callback is invoked once, and the timer is no longer pending.
   * `pressTimer` keeps whatever handle it holds.
   */
  function TimerFires(s: State, id: TimerId): (r: State)
    requires id in s.pending
    ensures r.isLongPress
    ensures r.calls == s.calls + [id] && id !in r.pending
    ensures forall t :: t in r.pending <==> t in s.pending && t != id
    ensures r.pressTimer == s.pressTimer && r.duration == s.duration && r.nextTimer == s.nextTimer
    ensures Valid(s) ==> Valid(r) && Invocations(r, id) == 1
  {
    s.(isLongPress := true, pending := s.pending - {id}, calls := s.calls + [id])
  }

  /**
   * `onStopPress`, state part: a set `pressTimer` is cleared and reset to
   * none; with no handle, nothing changes. The flag is never touched.
   */
  function StopPress(s: State): (r: State)
    ensures r.isLongPress == s.isLongPress && r.pressTimer == None
    ensures r.duration == s.duration && r.calls == s.calls && r.nextTimer == s.nextTimer
    ensures s.pressTimer.None? ==> r == s
    ensures s.pressTimer.Some? ==>
              forall t :: t in r.pending <==> t in s.pending && t != s.pressTimer.value
    ensures Valid(s) ==> Valid(r)
  {
    match s.pressTimer
    case Some(t) => s.(pending := s.pending - {t}, pressTimer := None)
    case None => s
  }

  /** Whether `onStopPress` and `onClick` call `preventDefault` and `stopImmediatePropagation`. */
  function Suppressed(s: State): (b: bool)
    ensures b <==> s.isLongPress
  {
    s.isLongPress
  }

  /** One input. The event loop never runs a timer that is not pending, so such a `Fire` changes nothing. */
  function Step(s: State, i: Input): State {
    match i
    case Start(e) => StartPress(s, e)
    case Stop => StopPress(s)
    case ClickEvent => s
    case Fire(id) => if id in s.pending then TimerFires(s, id) else s
  }

  function Run(s: State, inputs: seq<Input>): State
    decreases |inputs|
  {
    if inputs == [] then s else Run(Step(s, inputs[0]), inputs[1..])
  }

  lemma StepValid(s: State, i: Input)
    requires Valid(s)
    ensures Valid(Step(s, i))
  {
  }

  lemma {:induction false} RunValid(s: State, inputs: seq<Input>)
    requires Valid(s)
    ensures Valid(Run(s, inputs))
    decreases |inputs|
  {
    if inputs != [] {
      StepValid(s, inputs[0]);
      RunValid(Step(s, inputs[0]), inputs[1..]);
    }
  }

  /** A timer that was handed out and is no longer pending stays so, and its callback count is frozen. */
  lemma StepKeepsRetired(s: State, i: Input, t: TimerId)
    requires Valid(s) && t < s.nextTimer && t !in s.pending
    ensures Valid(Step(s, i)) && t < Step(s, i).nextTimer && t !in Step(s, i).pending
    ensures Invocations(Step(s, i), t) == Invocations(s, t)
  {
    StepValid(s, i);
  }

  /**
   * Once a timer has been cleared or has fired, no sequence of inputs makes
   * its callback run again: the user's callback runs at most once per timer.
   */
  lemma {:induction false} RetiredTimerNeverFires(s: State, t: TimerId, inputs: seq<Input>)
    requires Valid(s) && t < s.nextTimer && t !in s.pending
    ensures Valid(Run(s, inputs))
    ensures t !in Run(s, inputs).pending
    ensures Invocations(Run(s, inputs), t) == Invocations(s, t)
    decreases |inputs|
  {
    if inputs != [] {
      StepKeepsRetired(s, inputs[0], t);
      RetiredTimerNeverFires(Step(s, inputs[0]), t, inputs[1..]);
    }
  }

  /**
   * A stop event cancels the timer `pressTimer` names: whatever follows, that
   * timer's callback runs no more often than it had before the stop.
   */
  lemma CancelledTimerNeverFires(s: State, inputs: seq<Input>)
    requires Valid(s) && s.pressTimer.Some?
    ensures Invocations(Run(StopPress(s), inputs), s.pressTimer.value) == Invocations(s, s.pressTimer.value)
  {
    RetiredTimerNeverFires(StopPress(s), s.pressTimer.value, inputs);
  }

  /**
   * A press released before its timer expires: the timer it set never runs
   * the callback, whatever follows, and a click right after the release is
   * not suppressed.
   */
  lemma ShortPress(s: State, e: PressEvent, inputs: seq<Input>)
    requires Valid(s) && StartsTimer(e)
    ensures !Suppressed(Run(s, [Start(e), Stop]))
    ensures Invocations(Run(Run(s, [Start(e), Stop]), inputs), s.nextTimer) == 0
  {
    var pressed := StartPress(s, e);
    var released := StopPress(pressed);
    calc {
      Run(s, [Start(e), Stop]);
      { assert [Start(e), Stop][1..] == [Stop]; }
      Run(pressed, [Stop]);
      { assert [Stop][1..] == []; }
      Run(released, []);
    }
    assert s.nextTimer !in s.calls;
    RetiredTimerNeverFires(released, s.nextTimer, inputs);
  }

  /**
   * A press held until its timer expires: the callback runs exactly once for
   * that timer, whatever follows; the release and the click after it are
   * both suppressed.
   */
  lemma LongPress(s: State, e: PressEvent, inputs: seq<Input>)
    requires Valid(s) && StartsTimer(e)
    ensures s.nextTimer in StartPress(s, e).pending
    ensures Run(s, [Start(e), Fire(s.nextTimer)]).calls == s.calls + [s.nextTimer]
    ensures Suppressed(Run(s, [Start(e), Fire(s.nextTimer)]))
    ensures Suppressed(Run(s, [Start(e), Fire(s.nextTimer), Stop]))
    ensures Invocations(Run(Run(s, [Start(e), Fire(s.nextTimer)]), inputs), s.nextTimer) == 1
  {
    var t := s.nextTimer;
    var pressed := StartPress(s, e);
    var fired := TimerFires(pressed, t);
    calc {
      Run(s, [Start(e), Fire(t)]);
      { assert [Start(e), Fire(t)][1..] == [Fire(t)]; }
      Run(pressed, [Fire(t)]);
      { assert [Fire(t)][1..] == []; }
      Run(fired, []);
    }
    calc {
      Run(s, [Start(e), Fire(t), Stop]);
      { assert [Start(e), Fire(t), Stop][1..] == [Fire(t), Stop]; }
      Run(pressed, [Fire(t), Stop]);
      { assert [Fire(t), Stop][1..] == [Stop]; }
      Run(fired, [Stop]);
      { assert [Stop][1..] == []; }
      Run(StopPress(fired), []);
    }
    RetiredTimerNeverFires(fired, t, inputs);
  }

  /**
   * A start event with a secondary mouse button sets no timer and leaves
   * `pressTimer` as it was, yet clears the flag: a right click after a long
   * press is no longer suppressed.
   */
  lemma SecondaryButtonClearsFlag(s: State, button: int)
    requires button != 0 && s.isLongPress
    ensures !Suppressed(Run(s, [Start(MouseEvent(button)), ClickEvent]))
    ensures Run(s, [Start(MouseEvent(button))]).pending == s.pending
    ensures Run(s, [Start(MouseEvent(button))]).pressTimer == s.pressTimer
  {
    var pressed := StartPress(s, MouseEvent(button));
    calc {
      Run(s, [Start(MouseEvent(button)), ClickEvent]);
      { assert [Start(MouseEvent(button)), ClickEvent][1..] == [ClickEvent]; }
      Run(pressed, [ClickEvent]);
      { assert [ClickEvent][1..] == []; }
      Run(pressed, []);
    }
    assert Run(s, [Start(MouseEvent(button))]) == Run(pressed, []) by {
      assert [Start(MouseEvent(button))][1..] == [];
    }
  }

  /**
   * Two primary presses in a row leave two timers pending; the stop cancels
   * only the second, and the first still fires, invoking the callback and
   * suppressing the next click, although the last press was short.
   */
  lemma StaleTimerStillFires()
    ensures Run(Init(None), [Start(MouseEvent(0)), Start(TouchEvent)]).calls == []
    ensures Run(Init(None), [Start(MouseEvent(0)), Start(TouchEvent)]).pending.Keys == {FirstTimer, FirstTimer + 1}
    ensures Run(Init(None), [Start(MouseEvent(0)), Start(TouchEvent), Stop]).pending.Keys == {FirstTimer}
    ensures Run(Init(None), [Start(MouseEvent(0)), Start(TouchEvent), Stop, Fire(FirstTimer)]).calls == [FirstTimer]
    ensures Suppressed(Run(Init(None), [Start(MouseEvent(0)), Start(TouchEvent), Stop, Fire(FirstTimer)]))
  {
    var s0 := Init(None);
    var s1 := StartPress(s0, MouseEvent(0));
    var s2 := StartPress(s1, TouchEvent);
    var s3 := StopPress(s2);
    var s4 := TimerFires(s3, FirstTimer);
    assert s2.pending.Keys == {FirstTimer, FirstTimer + 1};
    assert s3.pending.Keys == {FirstTimer};
    calc {
      Run(s0, [Start(MouseEvent(0)), Start(TouchEvent)]);
      { assert [Start(MouseEvent(0)), Start(TouchEvent)][1..] == [Start(TouchEvent)]; }
      Run(s1, [Start(TouchEvent)]);
      { assert [Start(TouchEvent)][1..] == []; }
      Run(s2, []);
    }
    calc {
      Run(s0, [Start(MouseEvent(0)), Start(TouchEvent), Stop]);
      { assert [Start(MouseEvent(0)), Start(TouchEvent), Stop][1..] == [Start(TouchEvent), Stop]; }
      Run(s1, [Start(TouchEvent), Stop]);
      { assert [Start(TouchEvent), Stop][1..] == [Stop]; }
      Run(s2, [Stop]);
      { assert [Stop][1..] == []; }
      Run(s3, []);
    }
    calc {
      Run(s0, [Start(MouseEvent(0)), Start(TouchEvent), Stop, Fire(FirstTimer)]);
      { assert [Start(MouseEvent(0)), Start(TouchEvent), Stop, Fire(FirstTimer)][1..]
            == [Start(TouchEvent), Stop, Fire(FirstTimer)]; }
      Run(s1, [Start(TouchEvent), Stop, Fire(FirstTimer)]);
      { assert [Start(TouchEvent), Stop, Fire(FirstTimer)][1..] == [Stop, Fire(FirstTimer)]; }
      Run(s2, [Stop, Fire(FirstTimer)]);
      { assert [Stop, Fire(FirstTimer)][1..] == [Fire(FirstTimer)]; }
      Run(s3, [Fire(FirstTimer)]);
      { assert [Fire(FirstTimer)][1..] == []; }
      Run(s4, []);
    }
  }
}
