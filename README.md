# Long-press directive, modelled in Dafny

The repository ships one Vue directive, `DynDirective`, that adds long-press
detection to an element. `beforeMount` reads the threshold from the binding's
argument (500 ms when it is missing or falsy), creates two closure variables
(`pressTimer` and `isLongPress`), and registers seven listeners on the element:
`mousedown` and `touchstart` start a press, `mouseup`, `mouseleave`, `touchend`
and `touchcancel` end it, and `click` is caught in the capture phase. It then
stores the three handlers on the element as `__longpressHandlers`.

A press clears `isLongPress` and, unless it is a mouse press with a
non-primary button, sets a timer whose expiry sets `isLongPress` and invokes
the user's callback. A release clears the timer that `pressTimer` names.
The release handler and the click handler both call `preventDefault` and
`stopImmediatePropagation` exactly when `isLongPress` is set. `unmounted`
reads the stored record, removes the seven listeners with those exact handler
instances, and deletes the record.

The model has four modules:

- `Gesture` (`gesture.dfy`): the state of one closure as a pure value.
  Each handler and the timer callback is a transition function on it. An
  invariant, `Valid`, holds on every reachable state. Lemmas over arbitrary
  input sequences (`Run`) state what the directive promises about timers,
  callbacks and suppression.
- `Registry` (`registry.dfy`): the element's listener registry. A listener is
  identified by its event type, its handler instance and its capture flag, as
  in the DOM. This module has the seven listeners `beforeMount` registers,
  and lemmas saying which handler each event type reaches and that unmounting
  undoes mounting.
- `DynDirective` (`directive.dfy`): the imperative model. `PressTracker` is the
  closure, with the closure variables and the timers it has set as fields. Its
  methods are the handlers and the timer callback, and each one is proved
  against the matching `Gesture` function. `Element` is the host element's
  registry and `__longpressHandlers` property. `BeforeMount` and `Unmounted`
  are the two hooks.
- `Wrappers` (`wrappers.dfy`): `Option`, and `NoDup`, the predicate that no element of a sequence occurs twice.

Time is abstract. `setTimeout` hands out a new handle and records the timer
as pending with its delay. A timer's expiry is an explicit call
(`PressTracker.TimerFires`, or a `Fire` input in a `Gesture` trace), which only
a pending timer can receive. Invoking the user's callback is recorded in
`calls`, one entry per invocation, naming the timer that caused it.

In some places the code behaves differently from what a long-press directive
might be expected to do. The model follows the code:

- A second press overwrites `pressTimer` without clearing the earlier timer,
  so two timers can be pending. The first can still fire after a short press
  and suppress the click that follows (`Gesture.StaleTimerStillFires`).
- A mouse press with a non-primary button sets no timer, but it clears
  `isLongPress` before the button test (`Gesture.SecondaryButtonClearsFlag`).
- `unmounted` does not touch the closure. A pending timer stays pending, so
  the callback can still run after unmount (`DynDirective.UnmountDuringPress`).
- `unmounted` on an element with no stored record reads
  `handlers.onStartPress` from `undefined` and throws a TypeError before it
  removes anything. The model returns `TypeError` (`DynDirective.Unmounted`).
- `binding.arg || 500` replaces a numeric `0` with 500 (`Gesture.Threshold`).
  A static argument is a string, and then this holds only for a missing
  argument (see "## Left out").
- `isLongPress` is never reset on release or click. Only the next press
  clears it.

## Model

| member | source | states |
|---|---|---|
| `Gesture.Threshold` | src/DynDirective/index.ts:11 | for a numeric argument: the threshold is the argument when it is present and non-zero, and 500 otherwise; it is then always positive |
| `Gesture.Init` | src/DynDirective/index.ts:11-13 | a new closure has no timer handle, `isLongPress` false, no pending timer and no callback invocation, and satisfies the invariant |
| `Gesture.StartPress` | src/DynDirective/index.ts:21-31 | every start event clears `isLongPress`. A non-primary mouse press leaves `pressTimer` and the pending timers unchanged. A primary mouse press or a touch adds exactly one new pending timer, for the threshold, and records its handle in `pressTimer`. The invariant is preserved |
| `Gesture.TimerFires` | src/DynDirective/index.ts:27-30 | a pending timer's expiry sets `isLongPress`, invokes the callback exactly once for that timer, and removes it from the pending timers. `pressTimer` is left as it was |
| `Gesture.StopPress` | src/DynDirective/index.ts:34-38 | with a handle in `pressTimer`, that timer stops being pending and the handle becomes none. With no handle, the state is unchanged. `isLongPress` is never touched |
| `Gesture.Suppressed` | src/DynDirective/index.ts:40-43 | the release and the click are suppressed exactly when `isLongPress` is set |
| `Gesture.RunValid` | src/DynDirective/index.ts:21-44 | the invariant holds after any sequence of presses, releases, clicks and timer expiries: handles are fresh, pending timers run for the threshold, and each timer is pending or fired at most once |
| `Gesture.RetiredTimerNeverFires` | src/DynDirective/index.ts:27-38 | once a timer has fired or been cleared, no later input makes its callback run again |
| `Gesture.CancelledTimerNeverFires` | src/DynDirective/index.ts:34-38 | after a release clears the timer `pressTimer` names, that timer's callback count never grows |
| `Gesture.ShortPress` | src/DynDirective/index.ts:21-44 | a press released before its timer expires never invokes the callback for that timer, and a click right after the release is not suppressed |
| `Gesture.LongPress` | src/DynDirective/index.ts:21-44 | a press whose timer expires invokes the callback exactly once, however the trace continues, and both the release and the click after it are suppressed |
| `Gesture.SecondaryButtonClearsFlag` | src/DynDirective/index.ts:22-26 | a non-primary mouse press sets no timer and keeps `pressTimer`, but clears a set `isLongPress`, so the click after it is not suppressed |
| `Gesture.StaleTimerStillFires` | src/DynDirective/index.ts:27-38 | two presses leave two timers pending. The release cancels only the second, and the first still fires, invokes the callback and suppresses the next click |
| `Registry.Add` | src/DynDirective/index.ts:55-63 | registering a listener that is already registered changes nothing. Otherwise the listener is appended. A registry without duplicates keeps none |
| `Registry.Remove` | src/DynDirective/index.ts:89-97 | removing a registered listener shortens the registry by one and keeps every other listener. Removing an unregistered one changes nothing |
| `Registry.RemoveNoDup` | src/DynDirective/index.ts:89-97 | in a registry without duplicates, no entry equal to the removed listener remains |
| `Registry.ReachedMembers` | src/DynDirective/index.ts:55-63 | an event reaches the handler of every listener registered for its type, and no other handler |
| `Registry.ReachedAfterMount` | src/DynDirective/index.ts:55-63 | after mount, `mousedown` and `touchstart` reach `onStartPress`; `mouseup`, `mouseleave`, `touchend` and `touchcancel` reach `onStopPress`; `click` reaches `onClick`; other types reach no new handler |
| `Registry.MountUnmountRoundTrip` | src/DynDirective/index.ts:55-97 | registering the seven listeners of a new closure appends them in order. Removing the seven (same types, same handler instances, `capture: true` for click) restores the registry exactly |
| `Registry.RemoveAllMembers` | src/DynDirective/index.ts:89-97 | after the removals, the registry holds exactly the listeners it held before that are not among the removed ones |
| `DynDirective.PressTracker.constructor` | src/DynDirective/index.ts:11-13 | the closure starts in `Gesture.Init` of the binding's argument |
| `DynDirective.PressTracker.OnStartPress` | src/DynDirective/index.ts:21-31 | the new closure state is `Gesture.StartPress` of the old one, spelled out field by field |
| `DynDirective.PressTracker.TimerFires` | src/DynDirective/index.ts:27-30 | the new state is `Gesture.TimerFires` of the old one: the flag is set, the callback has been invoked once for this timer, and `pressTimer` is untouched |
| `DynDirective.PressTracker.OnStopPress` | src/DynDirective/index.ts:34-44 | the new state is `Gesture.StopPress` of the old one. The event is suppressed exactly when `isLongPress` is set, and the flag is unchanged |
| `DynDirective.PressTracker.OnClick` | src/DynDirective/index.ts:46-52 | the click is suppressed exactly when `isLongPress` is set; nothing changes |
| `DynDirective.AddListeners` | src/DynDirective/index.ts:55-63 | the seven `addEventListener` calls append exactly the seven listeners of the closure, in order |
| `DynDirective.BeforeMount` | src/DynDirective/index.ts:9-67 | a new closure in its initial state, its seven listeners appended to the element's registry, and its handler record stored on the element |
| `DynDirective.RemoveListeners` | src/DynDirective/index.ts:89-97 | the seven `removeEventListener` calls remove the seven listeners of the stored handlers, in order |
| `DynDirective.Unmounted` | src/DynDirective/index.ts:86-101 | with no stored record, the hook throws and changes nothing. Otherwise it removes exactly the seven mounted listeners and deletes the record. It modifies only the element: no closure variable and no pending timer changes |
| `DynDirective.LongPressScenario` | src/DynDirective/index.ts:21-52 | on a new element mounted with threshold 500, a primary press whose timer expires invokes the callback once and makes the release and the click both suppressed. Unmounting then completes, and the element is left with no listener |
| `DynDirective.ShortPressScenario` | src/DynDirective/index.ts:21-52 | a touch released before expiry clears its timer, and the click that follows is not suppressed |
| `DynDirective.MountThenUnmount` | src/DynDirective/index.ts:55-101 | on any element, `beforeMount` followed by `unmounted` completes, restores the listener registry exactly, order included, and removes the record. No event type reaches a handler of the new closure afterwards |
| `DynDirective.UnmountDuringPress` | src/DynDirective/index.ts:86-101 | unmounting during a press leaves the timer pending, so the callback still runs once after unmount. A second unmount throws |

## Left out

- `vite-lib.config.ts`: build and packaging configuration, with no behaviour of the directive in it.
- The browser's event dispatch is not modelled: capture and bubble phases, the order among other code's listeners, and what `stopImmediatePropagation` does to them. `Registry.Reached` says which handlers an event type reaches. The handlers return `suppressed` to stand for `preventDefault` plus `stopImmediatePropagation`.
- Real time: `setTimeout` and `clearTimeout` become a per-closure scheduler of handles. The delay is recorded but not counted down, and expiry is an explicit event.
- Timer handles come from a counter in each closure rather than from one global counter. A closure only ever clears handles it was given, so this makes no difference to what the directive does.
- The event objects keep only their class (mouse or touch) and, for a mouse event, `button`. Which class an event has follows from its type: `mousedown` delivers a mouse event, `touchstart` a touch event.
- `Gesture.Threshold`: the argument is modelled as an optional natural number, standing for a numeric argument given dynamically (`v-longpress:[n]`). A static argument is a string, and any non-empty string is truthy. So `v-longpress:0` keeps `"0"`, and `setTimeout` converts it to a 0 ms delay. A non-numeric string converts to NaN, which also gives a 0 ms delay. The model has no input for these string arguments, and its threshold is never 0.
- What the user's callback does, and the error a non-function `binding.value` would raise when the timer fires. Each invocation is only recorded.
- `console.log("inner click")` in the click handler: debug output that changes no state.
- The commented-out lifecycle hooks: they contain no code.
- A second `beforeMount` on an element that is still mounted is allowed. It overwrites the stored record, so the earlier closure's listeners stay registered. Nothing in the model follows those listeners further than the registry.
- `Registry.Remove`: its contract does not say that the remaining entries keep their order. `Registry.RemoveAfter` and `Registry.MountUnmountRoundTrip` state the order where the model relies on it.
