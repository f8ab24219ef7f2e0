/**
 * The listener registry that FilePickerManager, EnvironmentManager and UIManager
 * each carry (an `eventListeners` Map from event name to an array of callbacks,
 * with identical `on` and `emit`). Callbacks are opaque: a callback is known by
 * its identity, and running it is recorded as a delivery.
 */
module Events {

  /** Identity of a registered callback. */
  type Listener = nat

  /** One call of `emit(event, payload)`. */
  datatype Emission<P> = Emission(event: string, payload: P)

  /** One invocation of a callback with the emitted payload. */
  datatype Delivery<P> = Delivery(listener: Listener, event: string, payload: P)

  /** The registry after `on(e, cb)`: `cb` appended to `e`'s list, the list created when absent. */
  function Register(listeners: map<string, seq<Listener>>, e: string, cb: Listener): map<string, seq<Listener>>
  {
    listeners[e := (if e in listeners then listeners[e] else []) + [cb]]
  }

  /** The invocations `emit(e, d)` performs: each callback registered for `e`, in registration order. */
  function Dispatch<P>(listeners: map<string, seq<Listener>>, e: string, d: P): seq<Delivery<P>>
  {
    if e in listeners then Deliveries(listeners[e], e, d) else []
  }

  function Deliveries<P>(cbs: seq<Listener>, e: string, d: P): (r: seq<Delivery<P>>)
    ensures |r| == |cbs|
    ensures forall i :: 0 <= i < |cbs| ==> r[i] == Delivery(cbs[i], e, d)
    decreases |cbs|
  {
    if cbs == [] then [] else Deliveries(cbs[..|cbs| - 1], e, d) + [Delivery(cbs[|cbs| - 1], e, d)]
  }

  /** After `on(e, cb)`, emitting `e` runs the earlier callbacks of `e` and then `cb`. */
  lemma DispatchAfterRegister<P>(listeners: map<string, seq<Listener>>, e: string, cb: Listener, d: P)
    ensures Dispatch(Register(listeners, e, cb), e, d) == Dispatch(listeners, e, d) + [Delivery(cb, e, d)]
  {
    var old_cbs := if e in listeners then listeners[e] else [];
    assert (old_cbs + [cb])[..|old_cbs + [cb]| - 1] == old_cbs;
  }

  /** `on(e, cb)` leaves what every other event runs unchanged. */
  lemma DispatchOtherEvent<P>(listeners: map<string, seq<Listener>>, e: string, cb: Listener, e': string, d: P)
    requires e' != e
    ensures Dispatch(Register(listeners, e, cb), e', d) == Dispatch(listeners, e', d)
  {
  }

  /** An event nobody registered for runs nothing. */
  lemma DispatchUnregistered<P>(listeners: map<string, seq<Listener>>, e: string, d: P)
    requires e !in listeners
    ensures Dispatch(listeners, e, d) == []
  {
  }

  /** Every invocation of an emit belongs to that event and carries its payload, one per registration. */
  lemma DispatchShape<P>(listeners: map<string, seq<Listener>>, e: string, d: P)
    ensures forall x :: x in Dispatch(listeners, e, d) ==> x.event == e && x.payload == d
    ensures |Dispatch(listeners, e, d)| == if e in listeners then |listeners[e]| else 0
  {
  }

  class EventBus<P> {
    /** The `eventListeners` Map. */
    var listeners: map<string, seq<Listener>>
    /** Every call of `emit`, in order. */
    var emitted: seq<Emission<P>>
    /** Every callback invocation, in order. */
    var delivered: seq<Delivery<P>>

    constructor ()
      ensures listeners == map[] && emitted == [] && delivered == []
    {
      listeners := map[];
      emitted := [];
      delivered := [];
    }

    /** `on(event, callback)`. */
    method On(e: string, cb: Listener)
      modifies this
      ensures listeners == Register(old(listeners), e, cb)
      ensures emitted == old(emitted) && delivered == old(delivered)
    {
      if e !in listeners {
        listeners := listeners[e := []];
      }
      listeners := listeners[e := listeners[e] + [cb]];
    }

    /** `emit(event, data)`: runs `event`'s callbacks one after the other (`forEach`). */
    method Emit(e: string, d: P)
      modifies this
      ensures listeners == old(listeners)
      ensures emitted == old(emitted) + [Emission(e, d)]
      ensures delivered == old(delivered) + Dispatch(old(listeners), e, d)
    {
      emitted := emitted + [Emission(e, d)];
      if e in listeners {
        var cbs := listeners[e];
        var i := 0;
        while i < |cbs|
          invariant 0 <= i <= |cbs|
          invariant listeners == old(listeners)
          invariant emitted == old(emitted) + [Emission(e, d)]
          invariant delivered == old(delivered) + Deliveries(cbs[..i], e, d)
        {
          assert cbs[..i + 1][..i] == cbs[..i];
          delivered := delivered + [Delivery(cbs[i], e, d)];
          i := i + 1;
        }
        assert cbs[..|cbs|] == cbs;
      }
    }
  }
}
