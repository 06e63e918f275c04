/** The event bus of src/events.js (`makeEventHandler`).

    Callbacks are opaque tokens.  A `once` subscription registers a fresh
    wrapper closure; closures are compared by identity, so a wrapper is
    identified by the subscription id it unsubscribes.  `emit` is modelled
    as returning the invocations it performs, in order; the only way a
    callback acts back on the bus is the `off` a once-wrapper performs
    before calling its callback. */
module Events {
  import opened Results

  type Token = nat

  /** The `callback` argument: a function (identified by its token) or any other value. */
  datatype Callback = Function(token: Token) | NotFunction(typeName: string)

  /** What is stored in a handler list: the caller's function itself, or the wrapper `once` made. */
  datatype Handler = Plain(token: Token) | OnceWrapper(subscription: nat, token: Token)

  datatype Subscription = Subscription(eventName: string, handler: Handler)

  /** `id` counter, `subscriptions` (id -> {eventName, callback}) and `eventHandlers`. */
  datatype Bus = Bus(nextId: nat, subscriptions: map<nat, Subscription>, handlers: map<string, seq<Handler>>)

  /** A call of callback `token` with the emitted payload. */
  datatype Invocation = Invocation(token: Token, payload: real)

  function NotFunctionMessage(typeName: string): string {
    "callback must be a function, get " + typeName
  }

  const FilterOfUndefined: string := "TypeError: Cannot read properties of undefined (reading 'filter')"

  /** `makeEventHandler()`. */
  function Make(): (b: Bus)
    ensures Valid(b) && b.nextId == 1
    ensures b.subscriptions == map[] && b.handlers == map[]
  {
    Bus(1, map[], map[])
  }

  /** `eventHandlers.get(eventName) || []`. */
  function HandlersOf(b: Bus, eventName: string): seq<Handler> {
    if eventName in b.handlers then b.handlers[eventName] else []
  }

  /** The bus invariant every operation keeps: ids below the counter, no
      empty handler lists, and each once-wrapper registered under exactly
      the subscription it removes. */
  ghost predicate Valid(b: Bus) {
    && b.nextId >= 1
    && (forall id :: id in b.subscriptions ==> 1 <= id < b.nextId)
    && (forall e :: e in b.handlers ==> |b.handlers[e]| > 0)
    && (forall id :: id in b.subscriptions && b.subscriptions[id].handler.OnceWrapper? ==>
          b.subscriptions[id].handler.subscription == id)
    && (forall e, h :: e in b.handlers && h in b.handlers[e] && h.OnceWrapper? ==>
          h.subscription in b.subscriptions && b.subscriptions[h.subscription] == Subscription(e, h))
    && (forall id :: id in b.subscriptions && b.subscriptions[id].handler.OnceWrapper? ==>
          b.subscriptions[id].handler in HandlersOf(b, b.subscriptions[id].eventName))
  }

  /** The registration both `on` and `once` perform after the type check. */
  function Register(b: Bus, eventName: string, h: Handler): (r: (Bus, nat))
    ensures r.1 == b.nextId && r.0.nextId == b.nextId + 1
    ensures r.0.subscriptions == b.subscriptions[b.nextId := Subscription(eventName, h)]
    ensures HandlersOf(r.0, eventName) == HandlersOf(b, eventName) + [h]
    ensures forall e :: e != eventName ==> HandlersOf(r.0, e) == HandlersOf(b, e)
    ensures r.0.handlers.Keys == b.handlers.Keys + {eventName}
  {
    var handlers := HandlersOf(b, eventName) + [h];
    (Bus(b.nextId + 1, b.subscriptions[b.nextId := Subscription(eventName, h)], b.handlers[eventName := handlers]), b.nextId)
  }

  /** `on(eventName, callback)`: returns the new bus and the subscription id. */
  function On(b: Bus, eventName: string, callback: Callback): (r: Result<(Bus, nat)>)
    ensures r.Err? <==> callback.NotFunction?
    ensures r.Err? ==> r.thrown == NotFunctionMessage(callback.typeName)
    ensures r.Ok? ==> r.value.1 == b.nextId && r.value.0.nextId == b.nextId + 1
    ensures r.Ok? ==> r.value.0.subscriptions == b.subscriptions[b.nextId := Subscription(eventName, Plain(callback.token))]
    ensures r.Ok? ==> HandlersOf(r.value.0, eventName) == HandlersOf(b, eventName) + [Plain(callback.token)]
    ensures r.Ok? ==> forall e :: e != eventName ==> HandlersOf(r.value.0, e) == HandlersOf(b, e)
    ensures r.Ok? ==> r.value.0.handlers.Keys == b.handlers.Keys + {eventName}
  {
    match callback
    case NotFunction(t) => Err(NotFunctionMessage(t))
    case Function(t) => Ok(Register(b, eventName, Plain(t)))
  }

  /** `once(eventName, callback)`: registers a wrapper that unsubscribes itself, then calls `callback`. */
  function Once(b: Bus, eventName: string, callback: Callback): (r: Result<(Bus, nat)>)
    ensures r.Err? <==> callback.NotFunction?
    ensures r.Err? ==> r.thrown == NotFunctionMessage(callback.typeName)
    ensures r.Ok? ==> r.value.1 == b.nextId && r.value.0.nextId == b.nextId + 1
    ensures r.Ok? ==> r.value.0.subscriptions == b.subscriptions[b.nextId := Subscription(eventName, OnceWrapper(b.nextId, callback.token))]
    ensures r.Ok? ==> HandlersOf(r.value.0, eventName) == HandlersOf(b, eventName) + [OnceWrapper(b.nextId, callback.token)]
    ensures r.Ok? ==> forall e :: e != eventName ==> HandlersOf(r.value.0, e) == HandlersOf(b, e)
    ensures r.Ok? ==> r.value.0.handlers.Keys == b.handlers.Keys + {eventName}
  {
    match callback
    case NotFunction(t) => Err(NotFunctionMessage(t))
    case Function(t) => Ok(Register(b, eventName, OnceWrapper(b.nextId, t)))
  }

  /** `handlers.filter(handler => handler !== callback)`. */
  function Without(hs: seq<Handler>, h: Handler): (r: seq<Handler>)
    ensures forall x :: x in r <==> x in hs && x != h
    ensures |r| <= |hs|
    ensures h !in hs ==> r == hs
    ensures multiset(r) == multiset(hs)[h := 0]
  {
    if hs == [] then []
    else
      assert hs == [hs[0]] + hs[1..];
      assert multiset(hs) == multiset{hs[0]} + multiset(hs[1..]);
      if hs[0] == h then Without(hs[1..], h)
      else [hs[0]] + Without(hs[1..], h)
  }

  /** The filter keeps the survivors in their order: filtering a concatenation
      filters each part. */
  lemma {:induction false} WithoutDistributes(a: seq<Handler>, c: seq<Handler>, h: Handler)
    ensures Without(a + c, h) == Without(a, h) + Without(c, h)
    decreases |a|
  {
    if a == [] {
      assert a + c == c;
    } else {
      assert (a + c)[0] == a[0] && (a + c)[1..] == a[1..] + c;
      WithoutDistributes(a[1..], c, h);
    }
  }

  /** The handlers of `hs` not in `gone`, in their order: what a run of
      identity filters leaves. */
  function Drop(hs: seq<Handler>, gone: set<Handler>): (r: seq<Handler>)
    ensures forall x :: x in r <==> x in hs && x !in gone
  {
    if hs == [] then []
    else if hs[0] in gone then Drop(hs[1..], gone)
    else [hs[0]] + Drop(hs[1..], gone)
  }

  /** The plain handlers of a list, in order, duplicates kept. */
  function Plains(hs: seq<Handler>): (r: seq<Handler>)
    ensures forall x :: x in r <==> x in hs && x.Plain?
  {
    if hs == [] then []
    else if hs[0].Plain? then [hs[0]] + Plains(hs[1..])
    else Plains(hs[1..])
  }

  /** The once-wrappers of a list. */
  function Wrappers(hs: seq<Handler>): set<Handler> {
    set h | h in hs && h.OnceWrapper?
  }

  /** One identity filter is a `Drop` of that handler. */
  lemma {:induction false} WithoutIsDrop(hs: seq<Handler>, h: Handler)
    ensures Without(hs, h) == Drop(hs, {h})
    decreases |hs|
  {
    if hs != [] {
      WithoutIsDrop(hs[1..], h);
    }
  }

  /** Filtering twice is filtering by the union. */
  lemma {:induction false} DropDrop(hs: seq<Handler>, a: set<Handler>, c: set<Handler>)
    ensures Drop(Drop(hs, a), c) == Drop(hs, a + c)
    decreases |hs|
  {
    if hs != [] {
      DropDrop(hs[1..], a, c);
      if hs[0] !in a {
        assert Drop(hs, a) == [hs[0]] + Drop(hs[1..], a);
        assert Drop(hs, a)[1..] == Drop(hs[1..], a);
      }
    }
  }

  /** Dropping handlers that do not occur changes nothing. */
  lemma {:induction false} DropAbsent(hs: seq<Handler>, gone: set<Handler>)
    requires forall x :: x in hs ==> x !in gone
    ensures Drop(hs, gone) == hs
    decreases |hs|
  {
    if hs != [] {
      DropAbsent(hs[1..], gone);
      assert hs == [hs[0]] + hs[1..];
    }
  }

  /** Dropping exactly the wrappers of a list leaves its plain handlers. */
  lemma {:induction false} DropWrappersIsPlains(hs: seq<Handler>, gone: set<Handler>)
    requires forall x :: x in hs ==> (x in gone <==> x.OnceWrapper?)
    ensures Drop(hs, gone) == Plains(hs)
    decreases |hs|
  {
    if hs != [] {
      assert forall x :: x in hs[1..] ==> x in hs;
      DropWrappersIsPlains(hs[1..], gone);
    }
  }

  /** The handler list of `eventName` after removing `h`: set when non-empty, deleted otherwise. */
  function ReplaceHandlers(handlers: map<string, seq<Handler>>, eventName: string, remaining: seq<Handler>): map<string, seq<Handler>> {
    if |remaining| > 0 then handlers[eventName := remaining] else handlers - {eventName}
  }

  /** `off(subscriptionId)`, with a missing handler entry read as an empty list. */
  function Off(b: Bus, id: nat): (r: Bus)
    ensures id !in b.subscriptions ==> r == b
    ensures r.nextId == b.nextId
    ensures r.subscriptions == b.subscriptions - {id}
    ensures id in b.subscriptions ==>
      var s := b.subscriptions[id];
      && HandlersOf(r, s.eventName) == Without(HandlersOf(b, s.eventName), s.handler)
      && (s.eventName in r.handlers <==> s.eventName in b.handlers && exists x :: x in b.handlers[s.eventName] && x != s.handler)
    ensures id in b.subscriptions ==> forall e :: e != b.subscriptions[id].eventName ==> HandlersOf(r, e) == HandlersOf(b, e)
    ensures forall e, x :: x in HandlersOf(r, e) ==> x in HandlersOf(b, e)
  {
    if id !in b.subscriptions then b
    else
      var s := b.subscriptions[id];
      var remaining := Without(HandlersOf(b, s.eventName), s.handler);
      assert |remaining| > 0 <==> exists x :: x in HandlersOf(b, s.eventName) && x != s.handler by {
        if |remaining| > 0 { assert remaining[0] in remaining; }
      }
      Bus(b.nextId, b.subscriptions - {id}, ReplaceHandlers(b.handlers, s.eventName, remaining))
  }

  /** `off` exactly as written: `eventHandlers.get(eventName).filter(...)`
      throws when the subscription's event has no handler list any more
      (another `off` of the same callback already emptied it). */
  function OffAsWritten(b: Bus, id: nat): (r: Result<Bus>)
    ensures r.Err? <==> id in b.subscriptions && b.subscriptions[id].eventName !in b.handlers
    ensures r.Err? ==> r.thrown == FilterOfUndefined
    ensures r.Ok? ==> r.value == Off(b, id)
  {
    if id in b.subscriptions && b.subscriptions[id].eventName !in b.handlers then Err(FilterOfUndefined)
    else Ok(Off(b, id))
  }

  /** Runs a snapshot of handlers in order; a once-wrapper first performs its `off`. */
  /** The subscriptions the once-wrappers of a handler list remove. */
  function WrapperIds(hs: seq<Handler>): set<nat> {
    set h | h in hs && h.OnceWrapper? :: h.subscription
  }

  function RunHandlers(b: Bus, snapshot: seq<Handler>, payload: real): (r: (Bus, seq<Invocation>))
    ensures |r.1| == |snapshot|
    ensures forall i :: 0 <= i < |snapshot| ==> r.1[i] == Invocation(snapshot[i].token, payload)
    ensures r.0.nextId == b.nextId
    ensures r.0.subscriptions.Keys <= b.subscriptions.Keys
    ensures forall e, x :: x in HandlersOf(r.0, e) ==> x in HandlersOf(b, e)
    ensures (forall i :: 0 <= i < |snapshot| ==> snapshot[i].Plain?) ==> r.0 == b
    decreases |snapshot|
  {
    if snapshot == [] then (b, [])
    else
      var h := snapshot[0];
      var b' := if h.OnceWrapper? then Off(b, h.subscription) else b;
      var (b'', calls) := RunHandlers(b', snapshot[1..], payload);
      (b'', [Invocation(h.token, payload)] + calls)
  }

  /** `emit(eventName, payload)`: every handler registered for the event at
      the time of the call runs, in registration order, with the payload. */
  function Emit(b: Bus, eventName: string, payload: real): (r: (Bus, seq<Invocation>))
    ensures |r.1| == |HandlersOf(b, eventName)|
    ensures forall i :: 0 <= i < |r.1| ==> r.1[i] == Invocation(HandlersOf(b, eventName)[i].token, payload)
    ensures eventName !in b.handlers ==> r == (b, [])
    ensures r.0.nextId == b.nextId
  {
    RunHandlers(b, HandlersOf(b, eventName), payload)
  }

  /** `clear()`: drops every subscription and handler; the id counter is kept. */
  function Clear(b: Bus): (r: Bus)
    ensures r.nextId == b.nextId && r.subscriptions == map[] && r.handlers == map[]
  {
    Bus(b.nextId, map[], map[])
  }

  // ---------------------------------------------------------------------
  // The invariant is kept by every operation.

  lemma RegisterKeepsValid(b: Bus, eventName: string, h: Handler)
    requires Valid(b)
    requires h.OnceWrapper? ==> h.subscription == b.nextId
    ensures Valid(Register(b, eventName, h).0)
    ensures b.nextId !in b.subscriptions
  {
    var r := Register(b, eventName, h).0;
    RegisterKeepsWrappersRegistered(b, eventName, h);
    RegisterKeepsWrappersListed(b, eventName, h);
    forall e | e in r.handlers
      ensures |r.handlers[e]| > 0
    {
      assert r.handlers[e] == HandlersOf(r, e);
    }
  }

  /** After a registration every once-subscription's wrapper is still in its event's list. */
  lemma RegisterKeepsWrappersListed(b: Bus, eventName: string, h: Handler)
    requires Valid(b)
    ensures var r := Register(b, eventName, h).0;
      forall id :: id in r.subscriptions && r.subscriptions[id].handler.OnceWrapper? ==>
        r.subscriptions[id].handler in HandlersOf(r, r.subscriptions[id].eventName)
  {
    var r := Register(b, eventName, h).0;
    forall id | id in r.subscriptions && r.subscriptions[id].handler.OnceWrapper?
      ensures r.subscriptions[id].handler in HandlersOf(r, r.subscriptions[id].eventName)
    {
      var s := r.subscriptions[id];
      if id == b.nextId {
        assert HandlersOf(r, eventName) == HandlersOf(b, eventName) + [h];
      } else if s.eventName == eventName {
        assert s.handler in HandlersOf(b, eventName);
        assert HandlersOf(r, eventName) == HandlersOf(b, eventName) + [h];
      } else {
        assert s.handler in HandlersOf(b, s.eventName);
      }
    }
  }

  /** After a registration every once-wrapper in a list is still owned by its subscription. */
  lemma RegisterKeepsWrappersRegistered(b: Bus, eventName: string, h: Handler)
    requires Valid(b)
    requires h.OnceWrapper? ==> h.subscription == b.nextId
    ensures var r := Register(b, eventName, h).0;
      forall e, x :: e in r.handlers && x in r.handlers[e] && x.OnceWrapper? ==>
        x.subscription in r.subscriptions && r.subscriptions[x.subscription] == Subscription(e, x)
  {
    var r := Register(b, eventName, h).0;
    forall e, x | e in r.handlers && x in r.handlers[e] && x.OnceWrapper?
      ensures x.subscription in r.subscriptions && r.subscriptions[x.subscription] == Subscription(e, x)
    {
      if e != eventName {
        assert x in HandlersOf(b, e);
      } else if x != h {
        assert x in HandlersOf(b, eventName) + [h];
        assert x in HandlersOf(b, e);
      }
    }
  }

  /** `on` and `once` keep the invariant, and the id they return is fresh. */
  lemma OnOnceKeepValid(b: Bus, eventName: string, callback: Callback)
    requires Valid(b) && callback.Function?
    ensures Valid(On(b, eventName, callback).value.0)
    ensures Valid(Once(b, eventName, callback).value.0)
    ensures b.nextId !in b.subscriptions
  {
    RegisterKeepsValid(b, eventName, Plain(callback.token));
    RegisterKeepsValid(b, eventName, OnceWrapper(b.nextId, callback.token));
  }

  lemma OffKeepsValid(b: Bus, id: nat)
    requires Valid(b)
    ensures Valid(Off(b, id))
  {
    if id in b.subscriptions {
      var r := Off(b, id);
      var s := b.subscriptions[id];
      forall e | e in r.handlers ensures |r.handlers[e]| > 0 {
        if e == s.eventName {
          assert r.handlers[e] == Without(HandlersOf(b, s.eventName), s.handler);
          var x :| x in b.handlers[s.eventName] && x != s.handler;
          assert x in r.handlers[e];
        } else {
          assert r.handlers[e] == HandlersOf(b, e);
        }
      }
      forall e, x | e in r.handlers && x in r.handlers[e] && x.OnceWrapper?
        ensures x.subscription in r.subscriptions && r.subscriptions[x.subscription] == Subscription(e, x)
      {
        assert x in HandlersOf(r, e);
        assert x in b.handlers[e];
      }
      forall id' | id' in r.subscriptions && r.subscriptions[id'].handler.OnceWrapper?
        ensures r.subscriptions[id'].handler in HandlersOf(r, r.subscriptions[id'].eventName)
      {
        var w := r.subscriptions[id'].handler;
        assert w != s.handler;
        assert w in HandlersOf(b, r.subscriptions[id'].eventName);
      }
    }
  }

  /** After `off` of a once-wrapper's subscription the wrapper is in no handler list. */
  lemma OffRemovesWrapper(b: Bus, h: Handler)
    requires Valid(b) && h.OnceWrapper?
    ensures forall e :: h !in HandlersOf(Off(b, h.subscription), e)
    ensures h.subscription !in Off(b, h.subscription).subscriptions
  {
    var r := Off(b, h.subscription);
    forall e
      ensures h !in HandlersOf(r, e)
    {
      if h in HandlersOf(b, e) {
        assert e in b.handlers && h in b.handlers[e];
        assert b.subscriptions[h.subscription] == Subscription(e, h);
        assert HandlersOf(r, e) == Without(HandlersOf(b, e), h);
      }
    }
  }

  lemma {:induction false} RunHandlersKeepsValid(b: Bus, snapshot: seq<Handler>, payload: real)
    requires Valid(b)
    ensures Valid(RunHandlers(b, snapshot, payload).0)
    ensures forall h :: h in snapshot && h.OnceWrapper? ==>
      h.subscription !in RunHandlers(b, snapshot, payload).0.subscriptions
      && forall e :: h !in HandlersOf(RunHandlers(b, snapshot, payload).0, e)
    decreases |snapshot|
  {
    if snapshot != [] {
      var h := snapshot[0];
      var b' := if h.OnceWrapper? then Off(b, h.subscription) else b;
      if h.OnceWrapper? {
        OffKeepsValid(b, h.subscription);
        OffRemovesWrapper(b, h);
      }
      RunHandlersKeepsValid(b', snapshot[1..], payload);
      var r := RunHandlers(b, snapshot, payload);
      assert r == (RunHandlers(b', snapshot[1..], payload).0, [Invocation(h.token, payload)] + RunHandlers(b', snapshot[1..], payload).1);
      forall x | x in snapshot && x.OnceWrapper?
        ensures x.subscription !in r.0.subscriptions && forall e :: x !in HandlersOf(r.0, e)
      {
        if x != h {
          assert x in snapshot[1..];
        }
      }
    }
  }

  lemma EmitKeepsValid(b: Bus, eventName: string, payload: real)
    requires Valid(b)
    ensures Valid(Emit(b, eventName, payload).0)
  {
    RunHandlersKeepsValid(b, HandlersOf(b, eventName), payload);
  }

  /** Running a snapshot deletes exactly the subscriptions of its once-wrappers. */
  lemma {:induction false} RunHandlersSubscriptions(b: Bus, snapshot: seq<Handler>, payload: real)
    ensures RunHandlers(b, snapshot, payload).0.subscriptions == b.subscriptions - WrapperIds(snapshot)
    decreases |snapshot|
  {
    if snapshot != [] {
      var h := snapshot[0];
      var b' := if h.OnceWrapper? then Off(b, h.subscription) else b;
      var own: set<nat> := if h.OnceWrapper? then {h.subscription} else {};
      assert b'.subscriptions == b.subscriptions - own;
      RunHandlersSubscriptions(b', snapshot[1..], payload);
      WrapperIdsCons(snapshot);
    }
  }

  lemma WrapperIdsCons(hs: seq<Handler>)
    requires hs != []
    ensures WrapperIds(hs) == (if hs[0].OnceWrapper? then {hs[0].subscription} else {}) + WrapperIds(hs[1..])
  {
    assert hs == [hs[0]] + hs[1..];
  }

  /** Running a snapshot leaves the list of event `e` alone when no wrapper
      in it belongs to a live subscription of `e`. */
  lemma {:induction false} RunHandlersFrame(b: Bus, snapshot: seq<Handler>, payload: real, e: string)
    requires forall h :: h in snapshot && h.OnceWrapper? && h.subscription in b.subscriptions ==>
      b.subscriptions[h.subscription].eventName != e
    ensures HandlersOf(RunHandlers(b, snapshot, payload).0, e) == HandlersOf(b, e)
    decreases |snapshot|
  {
    if snapshot != [] {
      var h := snapshot[0];
      var b' := if h.OnceWrapper? then Off(b, h.subscription) else b;
      forall x | x in snapshot[1..] && x.OnceWrapper? && x.subscription in b'.subscriptions
        ensures b'.subscriptions[x.subscription].eventName != e
      {
        assert x in snapshot;
      }
      RunHandlersFrame(b', snapshot[1..], payload, e);
    }
  }

  /** Running a snapshot never removes a plain handler, as long as each of its
      live wrappers' subscriptions owns a wrapper. */
  lemma {:induction false} RunHandlersKeepsPlain(b: Bus, snapshot: seq<Handler>, payload: real, e: string, x: Handler)
    requires x.Plain? && x in HandlersOf(b, e)
    requires forall h :: h in snapshot && h.OnceWrapper? && h.subscription in b.subscriptions ==>
      b.subscriptions[h.subscription].handler.OnceWrapper?
    ensures x in HandlersOf(RunHandlers(b, snapshot, payload).0, e)
    decreases |snapshot|
  {
    if snapshot != [] {
      var h := snapshot[0];
      var b' := if h.OnceWrapper? then Off(b, h.subscription) else b;
      if h.OnceWrapper? && h.subscription in b.subscriptions {
        var s := b.subscriptions[h.subscription];
        if s.eventName == e {
          assert HandlersOf(b', e) == Without(HandlersOf(b, e), s.handler);
        }
      }
      assert x in HandlersOf(b', e);
      forall y | y in snapshot[1..] && y.OnceWrapper? && y.subscription in b'.subscriptions
        ensures b'.subscriptions[y.subscription].handler.OnceWrapper?
      {
        assert y in snapshot;
      }
      RunHandlersKeepsPlain(b', snapshot[1..], payload, e, x);
    }
  }

  /** What `emit` leaves behind on a consistent bus: exactly the subscriptions
      of the once-handlers that fired are gone, the event's list is its plain
      handlers in their order, and every other event's list is untouched. */
  lemma EmitEffect(b: Bus, eventName: string, payload: real)
    requires Valid(b)
    ensures var r := Emit(b, eventName, payload).0;
      && r.subscriptions == b.subscriptions - WrapperIds(HandlersOf(b, eventName))
      && (forall x :: x in HandlersOf(b, eventName) && x.Plain? ==> x in HandlersOf(r, eventName))
      && (forall e :: e != eventName ==> HandlersOf(r, e) == HandlersOf(b, e))
      && HandlersOf(r, eventName) == Plains(HandlersOf(b, eventName))
  {
    EmitLeavesPlains(b, eventName, payload);
    var hs := HandlersOf(b, eventName);
    RunHandlersSubscriptions(b, hs, payload);
    forall h | h in hs && h.OnceWrapper? && h.subscription in b.subscriptions
      ensures b.subscriptions[h.subscription] == Subscription(eventName, h)
    {
    }
    forall e | e != eventName
      ensures HandlersOf(Emit(b, eventName, payload).0, e) == HandlersOf(b, e)
    {
      RunHandlersFrame(b, hs, payload, e);
    }
    forall x | x in hs && x.Plain?
      ensures x in HandlersOf(Emit(b, eventName, payload).0, eventName)
    {
      RunHandlersKeepsPlain(b, hs, payload, eventName, x);
    }
  }

  /** Running a snapshot whose live wrappers are all subscribed to `e` drops
      exactly the snapshot's wrappers from `e`'s list, keeping the rest in order. */
  lemma {:induction false} RunHandlersDropsWrappers(b: Bus, snapshot: seq<Handler>, payload: real, e: string)
    requires Valid(b)
    requires forall h :: h in snapshot && h.OnceWrapper? && h.subscription in b.subscriptions ==>
      b.subscriptions[h.subscription] == Subscription(e, h)
    ensures HandlersOf(RunHandlers(b, snapshot, payload).0, e) == Drop(HandlersOf(b, e), Wrappers(snapshot))
    decreases |snapshot|
  {
    var l := HandlersOf(b, e);
    if snapshot == [] {
      assert Wrappers(snapshot) == {};
      DropAbsent(l, {});
    } else {
      var h := snapshot[0];
      var b' := if h.OnceWrapper? then Off(b, h.subscription) else b;
      var own: set<Handler> := if h.OnceWrapper? then {h} else {};
      assert Wrappers(snapshot) == own + Wrappers(snapshot[1..]) by {
        assert snapshot == [h] + snapshot[1..];
      }
      assert HandlersOf(b', e) == Drop(l, own) by {
        if h.OnceWrapper? {
          OffKeepsValid(b, h.subscription);
          if h.subscription in b.subscriptions {
            WithoutIsDrop(l, h);
          } else {
            assert h !in l;
            DropAbsent(l, {h});
          }
        } else {
          DropAbsent(l, {});
        }
      }
      if h.OnceWrapper? {
        OffKeepsValid(b, h.subscription);
      }
      forall x | x in snapshot[1..] && x.OnceWrapper? && x.subscription in b'.subscriptions
        ensures b'.subscriptions[x.subscription] == Subscription(e, x)
      {
        assert x in snapshot;
      }
      RunHandlersDropsWrappers(b', snapshot[1..], payload, e);
      DropDrop(l, own, Wrappers(snapshot[1..]));
    }
  }

  /** After `emit` on a consistent bus, the event's list is exactly its plain
      handlers, in registration order and with their repetitions: every
      once-handler has fired and gone, and nothing else moved. */
  lemma EmitLeavesPlains(b: Bus, eventName: string, payload: real)
    requires Valid(b)
    ensures HandlersOf(Emit(b, eventName, payload).0, eventName) == Plains(HandlersOf(b, eventName))
  {
    var l := HandlersOf(b, eventName);
    forall h | h in l && h.OnceWrapper? && h.subscription in b.subscriptions
      ensures b.subscriptions[h.subscription] == Subscription(eventName, h)
    {
      assert eventName in b.handlers && h in b.handlers[eventName];
    }
    RunHandlersDropsWrappers(b, l, payload, eventName);
    DropWrappersIsPlains(l, Wrappers(l));
  }

  // ---------------------------------------------------------------------
  // Properties of the bus.

  /** A `once` handler fires at most once: the `emit` that runs it invokes
      it (after every earlier handler), and afterwards its subscription is
      gone and the handlers a later `emit` can run are all older ones. */
  lemma OnceFiresAtMostOnce(b: Bus, eventName: string, token: Token, payload: real)
    requires Valid(b)
    ensures
      var (b1, id) := Once(b, eventName, Function(token)).value;
      var (b2, calls) := Emit(b1, eventName, payload);
      && |calls| == |HandlersOf(b, eventName)| + 1
      && calls[|calls| - 1] == Invocation(token, payload)
      && id !in b2.subscriptions
      && forall h :: h in HandlersOf(b2, eventName) ==> h in HandlersOf(b, eventName)
  {
    OnOnceKeepValid(b, eventName, Function(token));
    var (b1, id) := Once(b, eventName, Function(token)).value;
    var w := OnceWrapper(id, token);
    assert HandlersOf(b1, eventName) == HandlersOf(b, eventName) + [w];
    RunHandlersKeepsValid(b1, HandlersOf(b1, eventName), payload);
    var b2 := Emit(b1, eventName, payload).0;
    forall h | h in HandlersOf(b2, eventName) ensures h in HandlersOf(b, eventName) {
      assert h in HandlersOf(b1, eventName);
      assert h != w;
    }
  }

  /** Subscription ids are handed out in sequence: `off`, `emit` and `clear`
      never move the counter, so the next registration gets the next id. */
  lemma IdsAreSequential(b: Bus, e1: string, e2: string, t1: Token, t2: Token, payload: real)
    ensures
      var (b1, id1) := On(b, e1, Function(t1)).value;
      var b2 := Clear(Emit(Off(b1, id1), e2, payload).0);
      Once(b2, e2, Function(t2)).value.1 == id1 + 1
  {
  }

  /** From a fresh bus, the first ids are 1 and 2. */
  lemma FirstIds(e: string, t: Token)
    ensures On(Make(), e, Function(t)).value.1 == 1
    ensures On(On(Make(), e, Function(t)).value.0, e, Function(t)).value.1 == 2
  {
  }

  /** `off` removes every handler identical to the subscription's callback,
      including the ones other subscriptions of the same callback added. */
  lemma OffRemovesEveryOccurrence(b: Bus, id: nat)
    requires id in b.subscriptions
    ensures b.subscriptions[id].handler !in HandlersOf(Off(b, id), b.subscriptions[id].eventName)
    ensures forall x :: x in HandlersOf(b, b.subscriptions[id].eventName) && x != b.subscriptions[id].handler ==>
      x in HandlersOf(Off(b, id), b.subscriptions[id].eventName)
  {
  }

  /** The defect of `off` as written: two subscriptions of the same callback,
      then `off` of each.  The first `off` removes both handler entries and
      deletes the event; the second reads `.filter` of `undefined` and throws,
      leaving subscription 2 behind.  The corrected `Off` deletes it. */
  lemma OffAsWrittenThrowsOnSharedCallback()
    ensures
      var b1 := On(Make(), "tick", Function(7)).value.0;
      var b2 := On(b1, "tick", Function(7)).value.0;
      && OffAsWritten(b2, 1) == Ok(Off(b2, 1))
      && "tick" !in Off(b2, 1).handlers
      && OffAsWritten(Off(b2, 1), 2) == Err(FilterOfUndefined)
      && Off(Off(b2, 1), 2).subscriptions == map[]
  {
    var b1 := On(Make(), "tick", Function(7)).value.0;
    var b2 := On(b1, "tick", Function(7)).value.0;
    assert b2.handlers["tick"] == [Plain(7), Plain(7)];
    assert Without([Plain(7), Plain(7)], Plain(7)) == [];
  }

  /** Off as corrected agrees with the source whenever the source does not throw,
      and on a valid bus it throws only for a plain subscription. */
  lemma OffAsWrittenThrowsOnlyForPlain(b: Bus, id: nat)
    requires Valid(b)
    ensures OffAsWritten(b, id).Err? ==> b.subscriptions[id].handler.Plain?
  {
    if OffAsWritten(b, id).Err? {
      var s := b.subscriptions[id];
      assert HandlersOf(b, s.eventName) == [];
    }
  }
}
