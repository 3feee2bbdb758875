/**
 * The event-listener registry of a DOM element, as the directive uses it.
 *
 * A listener is identified by its event type, its handler instance and its
 * capture flag; adding one that is already registered does nothing, and
 * removing one removes the entry with that identity. A handler is either one
 * of the three closures a `beforeMount` call creates, identified by its kind
 * and the closure state it captures (`C`), or a listener of some other code.
 */
module Registry {
  import opened Wrappers

  /**
   * The event types the directive listens to; `Other` stands for every
   * other type, on which only listeners of other code can be registered.
   * `Other(name)` is only meant for a name that is none of the seven types
   * above: `Other("mousedown")` is not a second spelling of `MouseDown`, and
   * `Reached` treats it as a type of its own.
   */
  datatype EventType =
    | MouseDown | TouchStart
    | MouseUp | MouseLeave | TouchEnd | TouchCancel
    | Click
    | Other(name: string)

  datatype HandlerKind = StartPress | StopPress | ClickHandler

  datatype Handler<C> = Bound(kind: HandlerKind, closure: C) | Foreign(id: nat)

  datatype Listener<C> = Listener(event: EventType, handler: Handler<C>, capture: bool)

  /** The record `beforeMount` stores on the element for `unmounted` to find. */
  datatype Handlers<C> = Handlers(onStartPress: Handler<C>, onStopPress: Handler<C>, onClick: Handler<C>)

  /** `addEventListener`: a listener already registered is not registered twice. */
  function Add<C(==)>(ls: seq<Listener<C>>, l: Listener<C>): (r: seq<Listener<C>>)
    ensures l in ls ==> r == ls
    ensures l !in ls ==> r == ls + [l]
    ensures NoDup(ls) ==> NoDup(r)
  {
    if l in ls then ls else ls + [l]
  }

  /** `removeEventListener`: the entry equal to `l` goes, everything else keeps its order. */
  function Remove<C(==)>(ls: seq<Listener<C>>, l: Listener<C>): (r: seq<Listener<C>>)
    ensures l !in ls ==> r == ls
    ensures l in ls ==> |r| == |ls| - 1
    ensures forall x :: x in r ==> x in ls
    ensures forall x :: x in ls && x != l ==> x in r
    decreases |ls|
  {
    if ls == [] then []
    else if ls[0] == l then
      assert ls == [l] + ls[1..];
      ls[1..]
    else
      assert ls == [ls[0]] + ls[1..];
      [ls[0]] + Remove(ls[1..], l)
  }

  /** In a registry without duplicates, removal keeps it so and leaves no entry equal to `l`. */
  lemma {:induction false} RemoveNoDup<C>(ls: seq<Listener<C>>, l: Listener<C>)
    requires NoDup(ls)
    ensures NoDup(Remove(ls, l)) && l !in Remove(ls, l)
    decreases |ls|
  {
    if ls != [] {
      assert ls == [ls[0]] + ls[1..];
      assert ls[0] !in ls[1..];
      if ls[0] != l {
        RemoveNoDup(ls[1..], l);
        var rest := Remove(ls[1..], l);
        assert ls[0] !in multiset(rest);
        assert forall j :: 0 < j < |[ls[0]] + rest| ==> ([ls[0]] + rest)[j] in rest;
      }
    }
  }

  function AddAll<C(==)>(ls: seq<Listener<C>>, xs: seq<Listener<C>>): seq<Listener<C>>
    decreases |xs|
  {
    if xs == [] then ls else AddAll(Add(ls, xs[0]), xs[1..])
  }

  function RemoveAll<C(==)>(ls: seq<Listener<C>>, xs: seq<Listener<C>>): seq<Listener<C>>
    decreases |xs|
  {
    if xs == [] then ls else RemoveAll(Remove(ls, xs[0]), xs[1..])
  }

  /** The seven listeners `beforeMount` registers, in registration order; only the click one captures. */
  function MountListeners<C>(h: Handlers<C>): seq<Listener<C>> {
    [ Listener(MouseDown, h.onStartPress, false),
      Listener(TouchStart, h.onStartPress, false),
      Listener(MouseUp, h.onStopPress, false),
      Listener(MouseLeave, h.onStopPress, false),
      Listener(TouchEnd, h.onStopPress, false),
      Listener(TouchCancel, h.onStopPress, false),
      Listener(Click, h.onClick, true) ]
  }

  /** The handlers an event of type `event` reaches, in the order they were registered. */
  function Reached<C>(ls: seq<Listener<C>>, event: EventType): seq<Handler<C>>
    decreases |ls|
  {
    if ls == [] then []
    else (if ls[0].event == event then [ls[0].handler] else []) + Reached(ls[1..], event)
  }

  /** An event reaches exactly the handlers of the listeners registered for its type. */
  lemma {:induction false} ReachedMembers<C>(ls: seq<Listener<C>>, event: EventType)
    ensures forall l :: l in ls && l.event == event ==> l.handler in Reached(ls, event)
    ensures forall h :: h in Reached(ls, event) ==> exists l :: l in ls && l.event == event && l.handler == h
    decreases |ls|
  {
    if ls != [] {
      assert ls == [ls[0]] + ls[1..];
      ReachedMembers(ls[1..], event);
    }
  }

  lemma MountListenersDistinct<C>(h: Handlers<C>)
    ensures NoDup(MountListeners(h))
  {
  }

  /** Registering the next of a batch of fresh, distinct listeners appends it. */
  lemma AddFreshStep<C>(ls: seq<Listener<C>>, xs: seq<Listener<C>>, k: nat)
    requires k < |xs| && NoDup(xs)
    requires forall x :: x in xs ==> x !in ls
    ensures Add(ls + xs[..k], xs[k]) == ls + xs[..k + 1]
  {
    assert xs[k] !in xs[..k];
    assert xs[..k + 1] == xs[..k] + [xs[k]];
  }

  /** Removing a batch of seven, one after the other. */
  lemma RemoveSeven<C>(ls: seq<Listener<C>>, m: seq<Listener<C>>)
    requires |m| == 7
    ensures RemoveAll(ls, m) ==
      Remove(Remove(Remove(Remove(Remove(Remove(Remove(ls, m[0]), m[1]), m[2]), m[3]), m[4]), m[5]), m[6])
  {
    var r1 := Remove(ls, m[0]);
    var r2 := Remove(r1, m[1]);
    var r3 := Remove(r2, m[2]);
    var r4 := Remove(r3, m[3]);
    var r5 := Remove(r4, m[4]);
    var r6 := Remove(r5, m[5]);
    assert RemoveAll(r6, m[6..]) == Remove(r6, m[6]) by {
      assert m[6..][1..] == [];
    }
    assert RemoveAll(r5, m[5..]) == RemoveAll(r6, m[6..]) by { assert m[5..][1..] == m[6..]; }
    assert RemoveAll(r4, m[4..]) == RemoveAll(r5, m[5..]) by { assert m[4..][1..] == m[5..]; }
    assert RemoveAll(r3, m[3..]) == RemoveAll(r4, m[4..]) by { assert m[3..][1..] == m[4..]; }
    assert RemoveAll(r2, m[2..]) == RemoveAll(r3, m[3..]) by { assert m[2..][1..] == m[3..]; }
    assert RemoveAll(r1, m[1..]) == RemoveAll(r2, m[2..]) by { assert m[1..][1..] == m[2..]; }
  }

  /** Adding listeners none of which is registered yet appends them all, in order. */
  lemma {:induction false} AddAllFresh<C>(ls: seq<Listener<C>>, xs: seq<Listener<C>>)
    requires NoDup(xs)
    requires forall x :: x in xs ==> x !in ls
    ensures AddAll(ls, xs) == ls + xs
    decreases |xs|
  {
    if xs != [] {
      assert xs == [xs[0]] + xs[1..];
      assert Add(ls, xs[0]) == ls + [xs[0]];
      assert forall x :: x in xs[1..] ==> x !in ls + [xs[0]];
      AddAllFresh(ls + [xs[0]], xs[1..]);
      assert ls + [xs[0]] + xs[1..] == ls + xs;
    }
  }

  /** Removing a listener that only occurs after a prefix leaves the prefix alone. */
  lemma {:induction false} RemoveAfter<C>(ls: seq<Listener<C>>, ys: seq<Listener<C>>, x: Listener<C>)
    requires x !in ls
    ensures Remove(ls + ys, x) == ls + Remove(ys, x)
    decreases |ls|
  {
    if ls == [] {
      assert ls + ys == ys;
    } else {
      var head, tail := ls[0], ls[1..];
      var whole := ls + ys;
      assert whole[0] == head && head != x;
      assert whole[1..] == tail + ys;
      assert Remove(whole, x) == [head] + Remove(tail + ys, x);
      assert x !in tail;
      RemoveAfter(tail, ys, x);
      assert [head] + (tail + Remove(ys, x)) == ls + Remove(ys, x);
    }
  }

  /** Removing, in order, the listeners that were appended restores the registry. */
  lemma {:induction false} RemoveAllAppended<C>(ls: seq<Listener<C>>, xs: seq<Listener<C>>)
    requires forall x :: x in xs ==> x !in ls
    ensures RemoveAll(ls + xs, xs) == ls
    decreases |xs|
  {
    if xs == [] {
      assert ls + xs == ls;
    } else {
      RemoveAfter(ls, xs, xs[0]);
      assert Remove(xs, xs[0]) == xs[1..];
      assert forall x :: x in xs[1..] ==> x in xs;
      RemoveAllAppended(ls, xs[1..]);
    }
  }

  /** What `RemoveAll` leaves in a registry without duplicates: exactly what is not removed. */
  lemma {:induction false} RemoveAllMembers<C>(ls: seq<Listener<C>>, xs: seq<Listener<C>>)
    requires NoDup(ls)
    ensures NoDup(RemoveAll(ls, xs))
    ensures forall l :: l in RemoveAll(ls, xs) <==> l in ls && l !in xs
    decreases |xs|
  {
    if xs != [] {
      var ls' := Remove(ls, xs[0]);
      RemoveNoDup(ls, xs[0]);
      RemoveAllMembers(ls', xs[1..]);
      assert forall l :: l in xs <==> l == xs[0] || l in xs[1..];
    }
  }

  /**
   * Mounting then unmounting a fresh set of handlers gives back the registry
   * it started from, order included.
   */
  lemma MountUnmountRoundTrip<C>(ls: seq<Listener<C>>, h: Handlers<C>)
    requires forall l :: l in MountListeners(h) ==> l !in ls
    ensures AddAll(ls, MountListeners(h)) == ls + MountListeners(h)
    ensures RemoveAll(AddAll(ls, MountListeners(h)), MountListeners(h)) == ls
  {
    MountListenersDistinct(h);
    AddAllFresh(ls, MountListeners(h));
    RemoveAllAppended(ls, MountListeners(h));
  }

  lemma {:induction false} ReachedAppend<C>(a: seq<Listener<C>>, b: seq<Listener<C>>, event: EventType)
    ensures Reached(a + b, event) == Reached(a, event) + Reached(b, event)
    decreases |a|
  {
    if a == [] {
      assert a + b == b;
    } else {
      var x, tail := a[0], a[1..];
      assert a == [x] + tail;
      assert a + b == [x] + (tail + b);
      ReachedCons(x, tail, event);
      ReachedCons(x, tail + b, event);
      ReachedAppend(tail, b, event);
    }
  }

  /** The handlers of `h` that an event of type `event` reaches, as the seven registrations dictate. */
  function Route<C>(h: Handlers<C>, event: EventType): seq<Handler<C>> {
    match event
    case MouseDown | TouchStart => [h.onStartPress]
    case MouseUp | MouseLeave | TouchEnd | TouchCancel => [h.onStopPress]
    case Click => [h.onClick]
    case Other(_) => []
  }

  /** One registration and the registrations after it. */
  lemma ReachedCons<C>(l: Listener<C>, rest: seq<Listener<C>>, event: EventType)
    ensures Reached([l] + rest, event) == (if l.event == event then [l.handler] else []) + Reached(rest, event)
  {
    assert ([l] + rest)[1..] == rest;
  }

  /** The seven listeners on their own: each event type reaches its `Route`. */
  lemma ReachedMount<C>(h: Handlers<C>, event: EventType)
    ensures Reached(MountListeners(h), event) == Route(h, event)
  {
    var m := MountListeners(h);
    ReachedCons(m[6], [], event);
    assert m[6..] == [m[6]] + [];
    ReachedCons(m[5], m[6..], event);
    assert m[5..] == [m[5]] + m[6..];
    ReachedCons(m[4], m[5..], event);
    assert m[4..] == [m[4]] + m[5..];
    ReachedCons(m[3], m[4..], event);
    assert m[3..] == [m[3]] + m[4..];
    ReachedCons(m[2], m[3..], event);
    assert m[2..] == [m[2]] + m[3..];
    ReachedCons(m[1], m[2..], event);
    assert m[1..] == [m[1]] + m[2..];
    ReachedCons(m[0], m[1..], event);
    assert m == [m[0]] + m[1..];
    match event {
      case MouseDown =>
      case TouchStart =>
      case MouseUp =>
      case MouseLeave =>
      case TouchEnd =>
      case TouchCancel =>
      case Click =>
      case Other(_) =>
    }
  }

  /**
   * Which handler each event type reaches once the seven listeners are
   * appended: the two start events reach `onStartPress`, the four end events
   * `onStopPress`, `click` reaches `onClick`, and no other type reaches any.
   */
  lemma ReachedAfterMount<C>(ls: seq<Listener<C>>, h: Handlers<C>, event: EventType)
    ensures Reached(ls + MountListeners(h), event) == Reached(ls, event) + Route(h, event)
  {
    ReachedAppend(ls, MountListeners(h), event);
    ReachedMount(h, event);
  }
}
