/**
 * The long-press directive: its two lifecycle hooks, the closure each
 * `beforeMount` call creates, and the element they act on.
 *
 * `Element` is the host element as far as the directive sees it: its
 * listener registry and the `__longpressHandlers` property. `PressTracker` is
 * the state one `beforeMount` call closes over (`duration`, `pressTimer`,
 * `isLongPress`) together with the timers that closure has set; its methods
 * are the three handlers and the timer callback. Invoking the user's
 * callback is recorded in `calls`, one entry per invocation.
 */
module DynDirective {
  import opened Wrappers
  import opened Registry
  import G = Gesture

  /** How a hook ends: normally, or with the TypeError of reading a property of `undefined`. */
  datatype Outcome = Completed | TypeError

  class PressTracker {
    const duration: nat
    var pressTimer: Option<G.TimerId>
    var isLongPress: bool
    /** Timers this closure has set that have neither fired nor been cleared, with their delay. */
    var pending: map<G.TimerId, nat>
    /** The handle the scheduler gives to the next timer. */
    var nextTimer: G.TimerId
    /** One entry per invocation of the user's callback: the timer whose expiry caused it. */
    var calls: seq<G.TimerId>

    ghost function State(): G.State
      reads this
    {
      G.State(duration, pressTimer, isLongPress, pending, nextTimer, calls)
    }

    ghost predicate Valid()
      reads this
    {
      G.Valid(State())
    }

    /** The closure variables as `beforeMount` initialises them. */
    constructor (arg: Option<nat>)
      ensures Valid() && State() == G.Init(arg)
    {
      duration := G.Threshold(arg);
      pressTimer := None;
      isLongPress := false;
      pending := map[];
      nextTimer := G.FirstTimer;
      calls := [];
    }

    /** `setTimeout`: a new timer with a handle never given out before. */
    method SetTimeout(delay: nat) returns (id: G.TimerId)
      modifies this
      ensures id == old(nextTimer) && nextTimer == id + 1
      ensures pending == old(pending)[id := delay]
      ensures pressTimer == old(pressTimer) && isLongPress == old(isLongPress) && calls == old(calls)
    {
      id := nextTimer;
      pending := pending[id := delay];
      nextTimer := nextTimer + 1;
    }

    /** `clearTimeout`: a pending timer stops being pending; any other handle is ignored. */
    method ClearTimeout(id: G.TimerId)
      modifies this
      ensures pending == old(pending) - {id}
      ensures pressTimer == old(pressTimer) && isLongPress == old(isLongPress)
      ensures nextTimer == old(nextTimer) && calls == old(calls)
    {
      pending := pending - {id};
    }

    /** `onStartPress`, reached by `mousedown` and `touchstart`. */
    method OnStartPress(e: G.PressEvent)
      requires Valid()
      modifies this
      ensures Valid() && State() == G.StartPress(old(State()), e)
      ensures !isLongPress && calls == old(calls)
      ensures !G.StartsTimer(e) ==> pressTimer == old(pressTimer) && pending == old(pending)
      ensures G.StartsTimer(e) ==>
                && old(nextTimer) !in old(pending)
                && pending == old(pending)[old(nextTimer) := duration]
                && pressTimer == Some(old(nextTimer))
    {
      isLongPress := false;
      if e.MouseEvent? && e.button != 0 {
        return;
      }
      var id := SetTimeout(duration);
      pressTimer := Some(id);
    }

    /**
     * The scheduler runs the callback of pending timer `id`: the flag is set
     * and the user's callback is invoked. `pressTimer` is left as it is.
     */
    method TimerFires(id: G.TimerId)
      requires Valid() && id in pending
      modifies this
      ensures Valid() && State() == G.TimerFires(old(State()), id)
      ensures isLongPress && calls == old(calls) + [id] && G.Invocations(State(), id) == 1
      ensures pending == old(pending) - {id} && pressTimer == old(pressTimer)
    {
      pending := pending - {id};
      isLongPress := true;
      calls := calls + [id];
    }

    /**
     * `onStopPress`, reached by `mouseup`, `mouseleave`, `touchend` and
     * `touchcancel`. `suppressed` says whether the event's default action and
     * its remaining listeners were cancelled.
     */
    method OnStopPress() returns (suppressed: bool)
      requires Valid()
      modifies this
      ensures Valid() && State() == G.StopPress(old(State()))
      ensures suppressed == isLongPress == old(isLongPress)
      ensures pressTimer == None
      ensures old(pressTimer).Some? ==> pending == old(pending) - {old(pressTimer).value}
      ensures old(pressTimer).None? ==> pending == old(pending)
    {
      if pressTimer.Some? {
        ClearTimeout(pressTimer.value);
        pressTimer := None;
      }
      suppressed := isLongPress;
    }

    /** `onClick`, registered for `click` in the capture phase; it changes no state. */
    method OnClick() returns (suppressed: bool)
      ensures suppressed == G.Suppressed(State())
    {
      suppressed := isLongPress;
    }
  }

  class Element {
    var listeners: seq<Listener<PressTracker>>
    /** The `__longpressHandlers` property. */
    var longpressHandlers: Option<Handlers<PressTracker>>

    ghost predicate Valid()
      reads this
    {
      NoDup(listeners)
    }

    constructor ()
      ensures Valid() && listeners == [] && longpressHandlers == None
    {
      listeners := [];
      longpressHandlers := None;
    }

    method AddEventListener(event: EventType, handler: Handler<PressTracker>, capture: bool)
      requires Valid()
      modifies this
      ensures Valid()
      ensures listeners == Add(old(listeners), Listener(event, handler, capture))
      ensures longpressHandlers == old(longpressHandlers)
    {
      listeners := Add(listeners, Listener(event, handler, capture));
    }

    method RemoveEventListener(event: EventType, handler: Handler<PressTracker>, capture: bool)
      requires Valid()
      modifies this
      ensures Valid() && Listener(event, handler, capture) !in listeners
      ensures listeners == Remove(old(listeners), Listener(event, handler, capture))
      ensures longpressHandlers == old(longpressHandlers)
    {
      RemoveNoDup(listeners, Listener(event, handler, capture));
      listeners := Remove(listeners, Listener(event, handler, capture));
    }
  }

  /** The three handler instances of one closure. */
  function HandlersOf(closure: PressTracker): Handlers<PressTracker> {
    Handlers(Bound(StartPress, closure), Bound(StopPress, closure), Bound(ClickHandler, closure))
  }

  /** The registration block of `beforeMount`: the seven `addEventListener` calls, in order. */
  method AddListeners(el: Element, h: Handlers<PressTracker>)
    requires el.Valid()
    requires forall l :: l in MountListeners(h) ==> l !in el.listeners
    modifies el
    ensures el.Valid()
    ensures el.listeners == old(el.listeners) + MountListeners(h)
    ensures el.longpressHandlers == old(el.longpressHandlers)
  {
    ghost var before := el.listeners;
    ghost var m := MountListeners(h);
    MountListenersDistinct(h);
    assert el.listeners == before + m[..0];
    el.AddEventListener(MouseDown, h.onStartPress, false);
    assert el.listeners == before + m[..1] by { AddFreshStep(before, m, 0); }
    el.AddEventListener(TouchStart, h.onStartPress, false);
    assert el.listeners == before + m[..2] by { AddFreshStep(before, m, 1); }
    el.AddEventListener(MouseUp, h.onStopPress, false);
    assert el.listeners == before + m[..3] by { AddFreshStep(before, m, 2); }
    el.AddEventListener(MouseLeave, h.onStopPress, false);
    assert el.listeners == before + m[..4] by { AddFreshStep(before, m, 3); }
    el.AddEventListener(TouchEnd, h.onStopPress, false);
    assert el.listeners == before + m[..5] by { AddFreshStep(before, m, 4); }
    el.AddEventListener(TouchCancel, h.onStopPress, false);
    assert el.listeners == before + m[..6] by { AddFreshStep(before, m, 5); }
    el.AddEventListener(Click, h.onClick, true);
    assert el.listeners == before + m[..7] by { AddFreshStep(before, m, 6); }
    assert m[..7] == m;
  }

  /**
   * The `beforeMount` hook: a new closure with the threshold `arg` gives, its
   * seven listeners appended to the element's registry, and the handler
   * record stored on the element.
   */
  method BeforeMount(el: Element, arg: Option<nat>) returns (closure: PressTracker)
    requires el.Valid()
    modifies el
    ensures fresh(closure) && closure.Valid() && closure.State() == G.Init(arg)
    ensures el.Valid()
    ensures el.listeners == old(el.listeners) + MountListeners(HandlersOf(closure))
    ensures el.longpressHandlers == Some(HandlersOf(closure))
  {
    closure := new PressTracker(arg);
    var h := HandlersOf(closure);
    AddListeners(el, h);
    el.longpressHandlers := Some(h);
  }

  /** The removal block of `unmounted`: the seven `removeEventListener` calls, in order. */
  method RemoveListeners(el: Element, h: Handlers<PressTracker>)
    requires el.Valid()
    modifies el
    ensures el.Valid()
    ensures el.listeners == RemoveAll(old(el.listeners), MountListeners(h))
    ensures el.longpressHandlers == old(el.longpressHandlers)
  {
    RemoveSeven(el.listeners, MountListeners(h));
    el.RemoveEventListener(MouseDown, h.onStartPress, false);
    el.RemoveEventListener(TouchStart, h.onStartPress, false);
    el.RemoveEventListener(MouseUp, h.onStopPress, false);
    el.RemoveEventListener(MouseLeave, h.onStopPress, false);
    el.RemoveEventListener(TouchEnd, h.onStopPress, false);
    el.RemoveEventListener(TouchCancel, h.onStopPress, false);
    el.RemoveEventListener(Click, h.onClick, true);
  }

  /**
   * The `unmounted` hook. With no handler record on the element, reading
   * `handlers.onStartPress` throws before anything is removed. Otherwise the
   * seven listeners of the stored record are removed, in registration order,
   * and the record is deleted. The closure is not touched: a pending timer
   * stays pending.
   */
  method Unmounted(el: Element) returns (outcome: Outcome)
    requires el.Valid()
    modifies el
    ensures el.Valid()
    ensures old(el.longpressHandlers).None? ==>
              outcome == TypeError && el.listeners == old(el.listeners) && el.longpressHandlers == None
    ensures old(el.longpressHandlers).Some? ==>
              && outcome == Completed
              && el.longpressHandlers == None
              && el.listeners == RemoveAll(old(el.listeners), MountListeners(old(el.longpressHandlers).value))
              && forall l :: l in el.listeners <==>
                   l in old(el.listeners) && l !in MountListeners(old(el.longpressHandlers).value)
  {
    if el.longpressHandlers.None? {
      return TypeError;
    }
    var handlers := el.longpressHandlers.value;
    ghost var before := el.listeners;
    RemoveListeners(el, handlers);
    RemoveAllMembers(before, MountListeners(handlers));
    el.longpressHandlers := None;
    outcome := Completed;
  }

  /**
   * A press held past the threshold on a freshly mounted element: the
   * callback runs once, and both the release and the click after it are
   * suppressed. Unmounting then leaves the element with no listener.
   */
  method LongPressScenario()
    returns (releaseSuppressed: bool, clickSuppressed: bool, outcome: Outcome,
             remaining: seq<Listener<PressTracker>>, callbacks: nat)
    ensures releaseSuppressed && clickSuppressed && outcome == Completed
    ensures remaining == [] && callbacks == 1
  {
    var el := new Element();
    var closure := BeforeMount(el, Some(500));
    assert closure.duration == 500;
    closure.OnStartPress(G.MouseEvent(0));
    var id := closure.pressTimer.value;
    assert closure.pending == map[id := 500];
    closure.TimerFires(id);
    assert closure.calls == [id];
    releaseSuppressed := closure.OnStopPress();
    clickSuppressed := closure.OnClick();
    MountUnmountRoundTrip([], HandlersOf(closure));
    outcome := Unmounted(el);
    remaining := el.listeners;
    callbacks := |closure.calls|;
  }

  /** A press released before the threshold: its timer is cleared, and the click is delivered. */
  method ShortPressScenario() returns (clickSuppressed: bool, stillPending: bool)
    ensures !clickSuppressed && !stillPending
  {
    var el := new Element();
    var closure := BeforeMount(el, None);
    closure.OnStartPress(G.TouchEvent);
    var id := closure.pressTimer.value;
    var released := closure.OnStopPress();
    assert !released;
    clickSuppressed := closure.OnClick();
    stillPending := id in closure.pending;
  }

  /**
   * Mounting and then unmounting on any element: the registry is back to
   * what it was, order included, the handler record is gone, and no event
   * type reaches a handler of the closure that mount created.
   */
  method MountThenUnmount(el: Element, arg: Option<nat>) returns (closure: PressTracker, outcome: Outcome)
    requires el.Valid()
    modifies el
    ensures fresh(closure) && el.Valid() && outcome == Completed
    ensures el.listeners == old(el.listeners) && el.longpressHandlers == None
    ensures forall event, h :: h in Reached(el.listeners, event) ==> !(h.Bound? && h.closure == closure)
  {
    ghost var before := el.listeners;
    closure := BeforeMount(el, arg);
    MountUnmountRoundTrip(before, HandlersOf(closure));
    outcome := Unmounted(el);
    forall event: EventType
      ensures forall h :: h in Reached(el.listeners, event) ==> !(h.Bound? && h.closure == closure)
    {
      ReachedMembers(el.listeners, event);
    }
  }

  /**
   * Unmounting in the middle of a press leaves its timer pending, so the
   * callback still runs afterwards; a second unmount finds no handler record
   * and throws.
   */
  method UnmountDuringPress() returns (callsAfterUnmount: nat, second: Outcome)
    ensures callsAfterUnmount == 1 && second == TypeError
  {
    var el := new Element();
    var closure := BeforeMount(el, Some(0));
    assert closure.duration == G.DefaultDuration;
    closure.OnStartPress(G.MouseEvent(0));
    var id := closure.pressTimer.value;
    var first := Unmounted(el);
    assert first == Completed;
    assert id in closure.pending;
    closure.TimerFires(id);
    callsAfterUnmount := |closure.calls|;
    second := Unmounted(el);
  }
}
