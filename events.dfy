/**
 * The publish/subscribe registry (app/components/events.py): a dictionary
 * from event type to the callbacks subscribed to it, in subscription order.
 * Callbacks are identified by number; posting an event returns the calls it
 * makes, in order, instead of making them.
 */
module Events {

  datatype EventType = DataPointsUpdated | LabelsUpdated

  type CallbackId = nat

  /** One call `fn(data)` made by `post_event`. */
  datatype Call<D> = Call(callback: CallbackId, data: D)

  /** The list a `defaultdict(list)` yields for a type: its entry, or empty. */
  function Subscribers(registry: map<EventType, seq<CallbackId>>, eventType: EventType): (fns: seq<CallbackId>)
    ensures eventType in registry ==> fns == registry[eventType]
    ensures eventType !in registry ==> fns == []
  {
    if eventType in registry then registry[eventType] else []
  }

  /** One call per callback, in order, each with data. */
  function CallsOf<D>(fns: seq<CallbackId>, data: D): (calls: seq<Call<D>>)
    ensures |calls| == |fns|
    ensures forall i :: 0 <= i < |calls| ==> calls[i] == Call(fns[i], data)
  {
    seq(|fns|, i requires 0 <= i < |fns| => Call(fns[i], data))
  }

  /** The calls posting eventType with data makes. */
  function Invocations<D>(registry: map<EventType, seq<CallbackId>>, eventType: EventType, data: D): (calls: seq<Call<D>>)
    ensures |calls| == |Subscribers(registry, eventType)|
    ensures forall i :: 0 <= i < |calls| ==> calls[i].callback == Subscribers(registry, eventType)[i] && calls[i].data == data
  {
    CallsOf(Subscribers(registry, eventType), data)
  }

  /** The registry after `subscribe(eventType, fn)`. */
  function Subscribed(registry: map<EventType, seq<CallbackId>>, eventType: EventType, fn: CallbackId): (r: map<EventType, seq<CallbackId>>)
    ensures Subscribers(r, eventType) == Subscribers(registry, eventType) + [fn]
    ensures forall other :: other != eventType ==> Subscribers(r, other) == Subscribers(registry, other)
  {
    registry[eventType := Subscribers(registry, eventType) + [fn]]
  }

  /**
   * After a subscription, posting that type makes the calls it made before
   * and then one to the new callback; posting any other type makes the same
   * calls as before.
   */
  lemma SubscribeThenPost<D>(registry: map<EventType, seq<CallbackId>>, eventType: EventType, fn: CallbackId, other: EventType, data: D)
    ensures Invocations(Subscribed(registry, eventType, fn), eventType, data) == Invocations(registry, eventType, data) + [Call(fn, data)]
    ensures other != eventType ==> Invocations(Subscribed(registry, eventType, fn), other, data) == Invocations(registry, other, data)
  {
    var before := Invocations(registry, eventType, data);
    var after := Invocations(Subscribed(registry, eventType, fn), eventType, data);
    assert |after| == |before| + 1;
    forall i | 0 <= i < |after|
      ensures after[i] == (before + [Call(fn, data)])[i]
    {
    }
  }

  /** A callback subscribed k times is called k times. */
  lemma {:induction false} CallsPerSubscription<D>(fns: seq<CallbackId>, fn: CallbackId, data: D)
    ensures CallsTo(CallsOf(fns, data), fn) == CountIds(fns, fn)
  {
    if |fns| > 0 {
      var init := fns[..|fns| - 1];
      CallsPerSubscription(init, fn, data);
      var calls := CallsOf(fns, data);
      assert calls[..|calls| - 1] == CallsOf(init, data);
    }
  }

  /** How many of the calls go to fn. */
  function CallsTo<D>(calls: seq<Call<D>>, fn: CallbackId): nat {
    if |calls| == 0 then 0 else CallsTo(calls[..|calls| - 1], fn) + if calls[|calls| - 1].callback == fn then 1 else 0
  }

  /** How many times fn occurs in the list. */
  function CountIds(fns: seq<CallbackId>, fn: CallbackId): nat {
    if |fns| == 0 then 0 else CountIds(fns[..|fns| - 1], fn) + if fns[|fns| - 1] == fn then 1 else 0
  }

  /** The module-level `subscribers` dictionary. */
  class Registry {
    var subscribers: map<EventType, seq<CallbackId>>

    /** The dictionary starts empty. */
    constructor()
      ensures subscribers == map[]
    {
      subscribers := map[];
    }

    /** `subscribe`: fn goes at the end of its type's list; every other type's list is unchanged. */
    method Subscribe(eventType: EventType, fn: CallbackId)
      modifies this
      ensures subscribers == Subscribed(old(subscribers), eventType, fn)
      ensures Subscribers(subscribers, eventType) == Subscribers(old(subscribers), eventType) + [fn]
      ensures forall e :: e != eventType ==> Subscribers(subscribers, e) == Subscribers(old(subscribers), e)
    {
      var fns := if eventType in subscribers then subscribers[eventType] else [];
      subscribers := subscribers[eventType := fns + [fn]];
    }

    /**
     * `post_event`: nothing for a type that has no entry; otherwise every
     * subscriber in order, each with the same data.  The registry is only
     * read, so no entry is added.
     */
    method PostEvent<D>(eventType: EventType, data: D) returns (calls: seq<Call<D>>)
      ensures calls == Invocations(subscribers, eventType, data)
      ensures eventType !in subscribers ==> calls == []
    {
      calls := [];
      if eventType !in subscribers {
        return;
      }
      var fns := subscribers[eventType];
      for i := 0 to |fns|
        invariant calls == CallsOf(fns[..i], data)
      {
        calls := calls + [Call(fns[i], data)];
      }
      assert fns[..|fns|] == fns;
    }
  }
}
