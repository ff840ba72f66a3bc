/**
 * EventMonitor: records every event a publisher raises.
 *
 * The publisher's events are an explicit list of declarations (name,
 * delegate type) instead of a reflective type scan, and each event keeps its
 * invocation list: the handlers subscribed to it, in subscription order.  A
 * monitor subscribes one capture handler per event; raising an event runs
 * the handlers subscribed at that moment, and a capture handler appends one
 * (sender, arguments) record to its monitor's list.
 */
module Events {

  /** The argument payload of a raised event. */
  datatype EventArgs = EmptyArgs | PropertyChangedArgs(propertyName: string) | OtherArgs(description: string)

  /** One recorded firing.  Immutable: `sender` and `eventArgs` are the constructor arguments. */
  datatype EventData = EventData(sender: object, eventArgs: EventArgs)

  /**
   * A delegate in an invocation list.  `Capture(m, t)` is a monitor's
   * AddEventDetails bound to monitor `m` as a delegate of type `t`; two of
   * them are equal exactly when target and delegate type are, as .NET
   * delegate equality has it.  `External` stands for every other subscriber.
   */
  datatype Handler =
    | Capture(monitor: EventMonitor, delegateType: string)
    | External(id: nat, delegateType: string)

  /** A public instance event of the publisher's type. */
  datatype EventDecl = EventDecl(name: string, delegateType: string, bindable: bool)

  // ---------------------------------------------------------------------------
  // Invocation lists

  /** `Delegate.Remove` for a single delegate: drops its last occurrence, if any. */
  function RemoveLast(s: seq<Handler>, h: Handler): seq<Handler> {
    if |s| == 0 then s
    else if s[|s| - 1] == h then s[..|s| - 1]
    else RemoveLast(s[..|s| - 1], h) + [s[|s| - 1]]
  }

  /** Occurrences of `h` in `s`. */
  function Count(s: seq<Handler>, h: Handler): nat {
    if |s| == 0 then 0 else Count(s[..|s| - 1], h) + (if s[|s| - 1] == h then 1 else 0)
  }

  /** The subscribers of `s` other than `h`, in order. */
  function Others(s: seq<Handler>, h: Handler): seq<Handler> {
    if |s| == 0 then [] else Others(s[..|s| - 1], h) + (if s[|s| - 1] == h then [] else [s[|s| - 1]])
  }

  /** How many handlers of `s` deliver to monitor `m`. */
  function Deliveries(s: seq<Handler>, m: EventMonitor): nat {
    if |s| == 0 then 0
    else Deliveries(s[..|s| - 1], m) + (if s[|s| - 1].Capture? && s[|s| - 1].monitor == m then 1 else 0)
  }

  /** The monitors that a raise of an event with invocation list `s` reaches. */
  function Listeners(s: seq<Handler>): set<EventMonitor> {
    set h | h in s && h.Capture? :: h.monitor
  }

  function Repeat(d: EventData, n: nat): seq<EventData> {
    if n == 0 then [] else Repeat(d, n - 1) + [d]
  }

  /** The names carried by the property-change records of `events`, in firing order. */
  function PropertyNames(events: seq<EventData>): seq<string> {
    if |events| == 0 then []
    else PropertyNames(events[..|events| - 1])
         + (if events[|events| - 1].eventArgs.PropertyChangedArgs?
            then [events[|events| - 1].eventArgs.propertyName] else [])
  }

  /** One delivery appends one record. */
  lemma RepeatOnce(d: EventData)
    ensures Repeat(d, 1) == [d]
  {
    assert Repeat(d, 0) == [];
  }

  /** A new property-change record adds its name at the end; other records add nothing. */
  lemma PropertyNamesAppend(events: seq<EventData>, d: EventData)
    ensures PropertyNames(events + [d]) ==
            PropertyNames(events) + (if d.eventArgs.PropertyChangedArgs? then [d.eventArgs.propertyName] else [])
  {
    assert (events + [d])[..|events|] == events;
  }

  /**
   * Removing a delegate takes away exactly one occurrence of it (none if it
   * is absent) and leaves every other subscriber where it was.
   */
  lemma {:induction false} RemoveLastEffect(s: seq<Handler>, h: Handler)
    ensures Count(RemoveLast(s, h), h) == if Count(s, h) > 0 then Count(s, h) - 1 else 0
    ensures Others(RemoveLast(s, h), h) == Others(s, h)
    ensures Count(s, h) == 0 ==> RemoveLast(s, h) == s
  {
    if |s| > 0 {
      var init, last := s[..|s| - 1], s[|s| - 1];
      if last != h {
        RemoveLastEffect(init, h);
        var r := RemoveLast(init, h);
        assert RemoveLast(s, h) == r + [last];
        assert (r + [last])[..|r + [last]| - 1] == r;
      }
    }
  }

  /** A delegate appended last is the one removal takes away again. */
  lemma RemoveLastOfAppended(s: seq<Handler>, h: Handler)
    ensures RemoveLast(s + [h], h) == s
  {
    assert (s + [h])[..|s|] == s;
  }

  /** Removing a capture handler of `m` that is subscribed cuts `m`'s deliveries by one. */
  lemma {:induction false} RemoveLastDeliveries(s: seq<Handler>, h: Handler, m: EventMonitor)
    requires h.Capture? && h.monitor == m && Count(s, h) > 0
    ensures Deliveries(RemoveLast(s, h), m) + 1 == Deliveries(s, m)
  {
    var init, last := s[..|s| - 1], s[|s| - 1];
    if last != h {
      RemoveLastDeliveries(init, h, m);
      var r := RemoveLast(init, h);
      assert (r + [last])[..|r + [last]| - 1] == r;
    }
  }

  /** A list holding no capture handler of `m` delivers nothing to `m`. */
  lemma {:induction false} NoDeliveriesWithoutCaptures(s: seq<Handler>, m: EventMonitor)
    requires forall k :: 0 <= k < |s| ==> !(s[k].Capture? && s[k].monitor == m)
    ensures Deliveries(s, m) == 0
  {
    if |s| > 0 {
      NoDeliveriesWithoutCaptures(s[..|s| - 1], m);
    }
  }

  /** A list holding no capture handler of `m` holds no copy of any of them. */
  lemma {:induction false} NoCountWithoutCaptures(s: seq<Handler>, h: Handler, m: EventMonitor)
    requires h.Capture? && h.monitor == m
    requires forall k :: 0 <= k < |s| ==> !(s[k].Capture? && s[k].monitor == m)
    ensures Count(s, h) == 0
  {
    if |s| > 0 {
      NoCountWithoutCaptures(s[..|s| - 1], h, m);
    }
  }

  lemma {:induction false} DeliveriesAppend(s: seq<Handler>, h: Handler, m: EventMonitor)
    ensures Deliveries(s + [h], m) == Deliveries(s, m) + (if h.Capture? && h.monitor == m then 1 else 0)
  {
    assert (s + [h])[..|s|] == s;
  }

  /** Only a monitor among the listeners receives anything. */
  lemma {:induction false} DeliveriesOutsideListeners(s: seq<Handler>, m: EventMonitor)
    requires m !in Listeners(s)
    ensures Deliveries(s, m) == 0
  {
    forall k | 0 <= k < |s|
      ensures !(s[k].Capture? && s[k].monitor == m)
    {
      assert s[k] in s;
    }
    NoDeliveriesWithoutCaptures(s, m);
  }

  // ---------------------------------------------------------------------------
  // Dispose as written: every registered handler is removed from every event

  /**
   * The inner loop of UnregisterHandlers for one event: the state of its
   * invocation list after handlers `hs[..n]` have been passed to
   * RemoveEventHandler, and whether all of them were accepted.  A handler of
   * another delegate type makes the reflective call throw ArgumentException.
   * Each handler passed takes away at most one delegate, and a subscriber
   * that is not passed keeps every occurrence.
   */
  function RemoveEach(s: seq<Handler>, decl: EventDecl, hs: seq<Handler>, n: nat): (r: (seq<Handler>, bool))
    requires n <= |hs|
    ensures |s| - n <= |r.0| <= |s|
    ensures forall k :: 0 <= k < |s| && s[k] !in hs[..n] ==> Count(r.0, s[k]) == Count(s, s[k])
  {
    if n == 0 then (s, true)
    else
      var (c, ok) := RemoveEach(s, decl, hs, n - 1);
      assert hs[..n] == hs[..n - 1] + [hs[n - 1]];
      if !ok then (c, false)
      else if hs[n - 1].delegateType != decl.delegateType then (c, false)
      else
        RemoveLastKeepsOthers(c, hs[n - 1]);
        (RemoveLast(c, hs[n - 1]), true)
  }

  /** Removing `x` shortens the list by at most one and leaves every other delegate's count alone. */
  lemma {:induction false} RemoveLastKeepsOthers(s: seq<Handler>, x: Handler)
    ensures |s| - 1 <= |RemoveLast(s, x)| <= |s|
    ensures forall h :: h != x ==> Count(RemoveLast(s, x), h) == Count(s, h)
  {
    if |s| > 0 && s[|s| - 1] != x {
      var init, last := s[..|s| - 1], s[|s| - 1];
      RemoveLastKeepsOthers(init, x);
      var r := RemoveLast(init, x);
      assert (r + [last])[..|r + [last]| - 1] == r;
    }
  }

  /** The outer loop: the state of all invocation lists after events `0 .. n - 1`. */
  function UnregisterUpTo(subs: seq<seq<Handler>>, decls: seq<EventDecl>, hs: seq<Handler>, n: nat)
    : (r: (seq<seq<Handler>>, bool))
    requires |subs| == |decls| && n <= |decls|
    ensures |r.0| == |subs|
  {
    if n == 0 then (subs, true)
    else
      var (st, ok) := UnregisterUpTo(subs, decls, hs, n - 1);
      if !ok then (st, false)
      else
        var (c, ok2) := RemoveEach(st[n - 1], decls[n - 1], hs, |hs|);
        (st[n - 1 := c], ok2)
  }

  predicate AllOfType(hs: seq<Handler>, t: string) {
    forall j :: 0 <= j < |hs| ==> hs[j].delegateType == t
  }

  lemma {:induction false} RemoveEachSucceedsIff(s: seq<Handler>, decl: EventDecl, hs: seq<Handler>, n: nat)
    requires n <= |hs|
    ensures RemoveEach(s, decl, hs, n).1 <==> AllOfType(hs[..n], decl.delegateType)
  {
    if n > 0 {
      RemoveEachSucceedsIff(s, decl, hs, n - 1);
      assert hs[..n - 1] == hs[..n][..n - 1];
      assert hs[..n][n - 1] == hs[n - 1];
    }
  }

  /** Once a removal has thrown, the later handlers change nothing. */
  lemma {:induction false} RemoveEachStopsAtFailure(s: seq<Handler>, decl: EventDecl, hs: seq<Handler>, n: nat, m: nat)
    requires n <= m <= |hs|
    requires !RemoveEach(s, decl, hs, n).1
    ensures RemoveEach(s, decl, hs, m) == RemoveEach(s, decl, hs, n)
    decreases m - n
  {
    if n < m {
      RemoveEachStopsAtFailure(s, decl, hs, n, m - 1);
    }
  }

  /** Once a removal has thrown, the later events are not visited. */
  lemma {:induction false} UnregisterStopsAtFailure(subs: seq<seq<Handler>>, decls: seq<EventDecl>, hs: seq<Handler>, n: nat, m: nat)
    requires |subs| == |decls| && n <= m <= |decls|
    requires !UnregisterUpTo(subs, decls, hs, n).1
    ensures UnregisterUpTo(subs, decls, hs, m) == UnregisterUpTo(subs, decls, hs, n)
    decreases m - n
  {
    if n < m {
      UnregisterStopsAtFailure(subs, decls, hs, n, m - 1);
    }
  }

  /**
   * Dispose as written completes exactly when every registered handler has
   * the delegate type of every event; otherwise it throws part-way.
   */
  lemma {:induction false} UnregisterSucceedsIff(subs: seq<seq<Handler>>, decls: seq<EventDecl>, hs: seq<Handler>, n: nat)
    requires |subs| == |decls| && n <= |decls|
    ensures UnregisterUpTo(subs, decls, hs, n).1 <==>
              forall i :: 0 <= i < n ==> AllOfType(hs, decls[i].delegateType)
  {
    if n > 0 {
      UnregisterSucceedsIff(subs, decls, hs, n - 1);
      var (st, ok) := UnregisterUpTo(subs, decls, hs, n - 1);
      RemoveEachSucceedsIff(st[n - 1], decls[n - 1], hs, |hs|);
      assert hs[..|hs|] == hs;
    }
  }

  /**
   * For a monitor's own handlers (handler j has event j's delegate type),
   * Dispose as written completes exactly when all events share one delegate type.
   */
  lemma DisposeSucceedsIffOneDelegateType(subs: seq<seq<Handler>>, decls: seq<EventDecl>, hs: seq<Handler>)
    requires |subs| == |decls| == |hs|
    requires forall j :: 0 <= j < |hs| ==> hs[j].delegateType == decls[j].delegateType
    ensures UnregisterUpTo(subs, decls, hs, |decls|).1 <==>
              forall i, j :: 0 <= i < |decls| && 0 <= j < |decls| ==> decls[i].delegateType == decls[j].delegateType
  {
    UnregisterSucceedsIff(subs, decls, hs, |decls|);
    if forall i :: 0 <= i < |decls| ==> AllOfType(hs, decls[i].delegateType) {
      forall i, j | 0 <= i < |decls| && 0 <= j < |decls|
        ensures decls[i].delegateType == decls[j].delegateType
      {
        assert AllOfType(hs, decls[i].delegateType);
      }
    }
    if forall i, j :: 0 <= i < |decls| && 0 <= j < |decls| ==> decls[i].delegateType == decls[j].delegateType {
      forall i | 0 <= i < |decls|
        ensures AllOfType(hs, decls[i].delegateType)
      {
        forall j | 0 <= j < |hs|
          ensures hs[j].delegateType == decls[i].delegateType
        {
          assert decls[i].delegateType == decls[j].delegateType;
        }
      }
    }
  }

  /**
   * When all handlers are one and the same delegate `h` (a monitor whose
   * events share one delegate type), each event loses min(n, its count) copies
   * of `h` and keeps every other subscriber in order.
   */
  lemma {:induction false} RemoveEachUniform(s: seq<Handler>, decl: EventDecl, hs: seq<Handler>, h: Handler, n: nat)
    requires n <= |hs| && h.delegateType == decl.delegateType
    requires forall j :: 0 <= j < |hs| ==> hs[j] == h
    ensures RemoveEach(s, decl, hs, n).1
    ensures Count(RemoveEach(s, decl, hs, n).0, h) == if Count(s, h) >= n then Count(s, h) - n else 0
    ensures Others(RemoveEach(s, decl, hs, n).0, h) == Others(s, h)
  {
    if n > 0 {
      RemoveEachUniform(s, decl, hs, h, n - 1);
      RemoveLastEffect(RemoveEach(s, decl, hs, n - 1).0, h);
    }
  }

  /** With `h` absent, the uniform removal changes nothing: a second Dispose removes nothing more. */
  lemma {:induction false} RemoveEachAbsent(s: seq<Handler>, decl: EventDecl, hs: seq<Handler>, h: Handler, n: nat)
    requires n <= |hs| && h.delegateType == decl.delegateType
    requires forall j :: 0 <= j < |hs| ==> hs[j] == h
    requires Count(s, h) == 0
    ensures RemoveEach(s, decl, hs, n) == (s, true)
  {
    if n > 0 {
      RemoveEachAbsent(s, decl, hs, h, n - 1);
      RemoveLastEffect(s, h);
    }
  }

  /** On a list that got `h` appended once, the uniform removal gives back the list from before. */
  lemma RemoveEachRestores(s: seq<Handler>, decl: EventDecl, hs: seq<Handler>, h: Handler, n: nat)
    requires 1 <= n <= |hs| && h.delegateType == decl.delegateType
    requires forall j :: 0 <= j < |hs| ==> hs[j] == h
    requires Count(s, h) == 0
    ensures RemoveEach(s + [h], decl, hs, n) == (s, true)
    decreases n
  {
    if n == 1 {
      RemoveLastOfAppended(s, h);
    } else {
      RemoveEachRestores(s, decl, hs, h, n - 1);
      RemoveLastEffect(s, h);
    }
  }

  /** What the outer loop did to event i, once it has completed. */
  lemma {:induction false} UnregisterPerEvent(subs: seq<seq<Handler>>, decls: seq<EventDecl>, hs: seq<Handler>, n: nat, i: nat)
    requires |subs| == |decls| && n <= |decls| && i < |decls|
    requires UnregisterUpTo(subs, decls, hs, n).1
    ensures i < n ==> UnregisterUpTo(subs, decls, hs, n).0[i] == RemoveEach(subs[i], decls[i], hs, |hs|).0
    ensures n <= i ==> UnregisterUpTo(subs, decls, hs, n).0[i] == subs[i]
  {
    if n > 0 {
      UnregisterPerEvent(subs, decls, hs, n - 1, i);
      if i == n - 1 {
        UnregisterPerEvent(subs, decls, hs, n - 1, n - 1);
      }
    }
  }

  /**
   * Subscribe-then-dispose is the identity: when all events share one
   * delegate type and each got the monitor's handler `h` appended to a list
   * that did not hold it, Dispose as written restores every list exactly.
   */
  lemma {:induction false} DisposeRestoresSubscribers(before: seq<seq<Handler>>, after: seq<seq<Handler>>,
                                                      decls: seq<EventDecl>, hs: seq<Handler>, h: Handler)
    requires |before| == |after| == |decls| == |hs|
    requires forall j :: 0 <= j < |hs| ==> hs[j] == h
    requires forall i :: 0 <= i < |decls| ==> decls[i].delegateType == h.delegateType
    requires forall i :: 0 <= i < |before| ==> Count(before[i], h) == 0 && after[i] == before[i] + [h]
    ensures UnregisterUpTo(after, decls, hs, |decls|) == (before, true)
  {
    UnregisterSucceedsIff(after, decls, hs, |decls|);
    var r := UnregisterUpTo(after, decls, hs, |decls|);
    forall i | 0 <= i < |decls|
      ensures r.0[i] == before[i]
    {
      UnregisterPerEvent(after, decls, hs, |decls|, i);
      RemoveEachRestores(before[i], decls[i], hs, h, |hs|);
    }
    assert r.0 == before;
  }

  /** Disposing again, once the monitor's handler is gone from every list, changes nothing. */
  lemma {:induction false} DisposeTwiceRemovesNothing(before: seq<seq<Handler>>, decls: seq<EventDecl>,
                                                      hs: seq<Handler>, h: Handler)
    requires |before| == |decls| == |hs|
    requires forall j :: 0 <= j < |hs| ==> hs[j] == h
    requires forall i :: 0 <= i < |decls| ==> decls[i].delegateType == h.delegateType
    requires forall i :: 0 <= i < |before| ==> Count(before[i], h) == 0
    ensures UnregisterUpTo(before, decls, hs, |decls|) == (before, true)
  {
    UnregisterSucceedsIff(before, decls, hs, |decls|);
    var r := UnregisterUpTo(before, decls, hs, |decls|);
    forall i | 0 <= i < |decls|
      ensures r.0[i] == before[i]
    {
      UnregisterPerEvent(before, decls, hs, |decls|, i);
      RemoveEachAbsent(before[i], decls[i], hs, h, |hs|);
    }
    assert r.0 == before;
  }

  /**
   * For a monitor's own handlers on lists that held none of them before:
   * whenever Dispose as written completes, it restores every invocation list
   * to what it was before the monitor subscribed, other subscribers included.
   */
  lemma {:induction false} DisposeAfterRegisterRestores(before: seq<seq<Handler>>, after: seq<seq<Handler>>,
                                     decls: seq<EventDecl>, hs: seq<Handler>, m: EventMonitor)
    requires |before| == |after| == |decls| == |hs|
    requires forall j :: 0 <= j < |hs| ==> hs[j] == Capture(m, decls[j].delegateType)
    requires forall i :: 0 <= i < |before| ==> Count(before[i], hs[i]) == 0 && after[i] == before[i] + [hs[i]]
    requires UnregisterUpTo(after, decls, hs, |decls|).1
    ensures UnregisterUpTo(after, decls, hs, |decls|).0 == before
  {
    if |decls| > 0 {
      DisposeSucceedsIffOneDelegateType(after, decls, hs);
      var h := hs[0];
      forall j | 0 <= j < |hs|
        ensures hs[j] == h
      {
        assert decls[j].delegateType == decls[0].delegateType;
      }
      DisposeRestoresSubscribers(before, after, decls, hs, h);
    }
  }

  // ---------------------------------------------------------------------------
  // The publisher

  class Publisher {
    const declared: seq<EventDecl>
    var subscribers: seq<seq<Handler>>

    predicate Valid()
      reads this
    {
      |subscribers| == |declared|
    }

    /** A publisher whose events have no subscribers yet. */
    constructor (declared: seq<EventDecl>)
      ensures this.declared == declared && Valid()
      ensures forall i :: 0 <= i < |declared| ==> subscribers[i] == []
    {
      this.declared := declared;
      subscribers := seq(|declared|, _ => []);
    }

    /** Monitors reached when event `i` is raised now. */
    function ListenersOf(i: nat): set<EventMonitor>
      requires Valid() && i < |declared|
      reads this
    {
      Listeners(subscribers[i])
    }

    /**
     * `EventInfo.AddEventHandler`: appends the delegate to the event's
     * invocation list; a delegate of another type is rejected (the reflective
     * call throws ArgumentException and nothing changes).
     */
    method AddEventHandler(i: nat, h: Handler) returns (ok: bool)
      requires Valid() && i < |declared|
      modifies this
      ensures Valid()
      ensures ok == (h.delegateType == declared[i].delegateType)
      ensures subscribers == if ok then old(subscribers)[i := old(subscribers)[i] + [h]] else old(subscribers)
    {
      ok := h.delegateType == declared[i].delegateType;
      if ok {
        subscribers := subscribers[i := subscribers[i] + [h]];
      }
    }

    /**
     * `EventInfo.RemoveEventHandler`: `Delegate.Remove` on the event's
     * invocation list; a delegate of another type is rejected.
     */
    method RemoveEventHandler(i: nat, h: Handler) returns (ok: bool)
      requires Valid() && i < |declared|
      modifies this
      ensures Valid()
      ensures ok == (h.delegateType == declared[i].delegateType)
      ensures subscribers == if ok then old(subscribers)[i := RemoveLast(old(subscribers)[i], h)] else old(subscribers)
    {
      ok := h.delegateType == declared[i].delegateType;
      if ok {
        subscribers := subscribers[i := RemoveLast(subscribers[i], h)];
      }
    }

    /**
     * Raising event `i`: the handlers subscribed at this moment run in order;
     * each capture handler appends one record to its monitor.  What external
     * subscribers do is outside the model.
     */
    method Raise(i: nat, sender: object, e: EventArgs)
      requires Valid() && i < |declared|
      modifies ListenersOf(i)`events
      ensures forall m :: m in old(ListenersOf(i)) ==>
                m.events == old(m.events) + Repeat(EventData(sender, e), Deliveries(subscribers[i], m))
    {
      var list := subscribers[i];
      var k := 0;
      while k < |list|
        invariant 0 <= k <= |list|
        invariant forall m :: m in Listeners(list) ==>
                    m.events == old(m.events) + Repeat(EventData(sender, e), Deliveries(list[..k], m))
      {
        assert list[..k + 1] == list[..k] + [list[k]];
        forall m | m in Listeners(list) {
          DeliveriesAppend(list[..k], list[k], m);
        }
        match list[k] {
          case Capture(m, _) =>
            assert list[k] in list;
            m.AddEventDetails(sender, e);
          case External(_, _) =>
        }
        k := k + 1;
      }
      assert list[..k] == list;
    }
  }

  // ---------------------------------------------------------------------------
  // The monitor

  class EventMonitor {
    const publisher: Publisher
    var events: seq<EventData>
    var registeredHandlers: seq<Handler>

    /** One handler per declared event, in declaration order, each bound to this monitor. */
    predicate Registered()
      reads this
    {
      && |registeredHandlers| == |publisher.declared|
      && forall i :: 0 <= i < |registeredHandlers| ==>
           registeredHandlers[i] == Capture(this, publisher.declared[i].delegateType)
    }

    /**
     * `new EventMonitor(publisher)`: starts with no records and subscribes one
     * fresh capture handler to every event (every event's delegate type must
     * be bindable to AddEventDetails).
     */
    constructor (publisher: Publisher)
      requires publisher.Valid()
      requires forall i :: 0 <= i < |publisher.declared| ==> publisher.declared[i].bindable
      modifies publisher
      ensures this.publisher == publisher && publisher.Valid()
      ensures events == [] && Registered()
      ensures forall i :: 0 <= i < |publisher.declared| ==>
                publisher.subscribers[i] == old(publisher.subscribers[i]) + [registeredHandlers[i]]
      ensures forall i :: 0 <= i < |publisher.declared| ==>
                Count(old(publisher.subscribers[i]), registeredHandlers[i]) == 0
                && Deliveries(publisher.subscribers[i], this) == 1
    {
      this.publisher := publisher;
      events := [];
      registeredHandlers := [];
      new;
      var i := 0;
      while i < |publisher.declared|
        invariant 0 <= i <= |publisher.declared| && publisher.Valid()
        invariant events == []
        invariant |registeredHandlers| == i
        invariant forall j :: 0 <= j < i ==> registeredHandlers[j] == Capture(this, publisher.declared[j].delegateType)
        invariant forall j :: 0 <= j < i ==>
                    publisher.subscribers[j] == old(publisher.subscribers[j]) + [registeredHandlers[j]]
        invariant forall j :: i <= j < |publisher.declared| ==> publisher.subscribers[j] == old(publisher.subscribers[j])
      {
        var h := Capture(this, publisher.declared[i].delegateType);
        var ok := publisher.AddEventHandler(i, h);
        registeredHandlers := registeredHandlers + [h];
        i := i + 1;
      }
      forall i | 0 <= i < |publisher.declared|
        ensures Count(old(publisher.subscribers[i]), registeredHandlers[i]) == 0
        ensures Deliveries(publisher.subscribers[i], this) == 1
      {
        var before := old(publisher.subscribers[i]);
        NoDeliveriesWithoutCaptures(before, this);
        NoCountWithoutCaptures(before, registeredHandlers[i], this);
        DeliveriesAppend(before, registeredHandlers[i], this);
      }
    }

    /** `Events`: the records so far, in firing order (a live view: later firings extend it). */
    function Events(): seq<EventData>
      reads this
    {
      events
    }

    /** The capture handler's body: append one record. */
    method AddEventDetails(sender: object, e: EventArgs)
      modifies this`events
      ensures events == old(events) + [EventData(sender, e)]
    {
      events := events + [EventData(sender, e)];
    }

    /**
     * `Dispose` as written: for every event, passes every registered handler
     * to RemoveEventHandler.  `ok` is false when one of those calls threw
     * ArgumentException; the removals made before it stay.
     */
    method Dispose() returns (ok: bool)
      requires publisher.Valid()
      modifies publisher
      ensures publisher.Valid()
      ensures (publisher.subscribers, ok)
              == UnregisterUpTo(old(publisher.subscribers), publisher.declared, registeredHandlers, |publisher.declared|)
    {
      ghost var subs0 := publisher.subscribers;
      var decls := publisher.declared;
      var hs := registeredHandlers;
      var i := 0;
      ok := true;
      while i < |decls| && ok
        invariant 0 <= i <= |decls| && publisher.Valid()
        invariant (publisher.subscribers, ok) == UnregisterUpTo(subs0, decls, hs, i)
      {
        ghost var st := publisher.subscribers;
        var j := 0;
        while j < |hs| && ok
          invariant 0 <= j <= |hs| && publisher.Valid()
          invariant (publisher.subscribers[i], ok) == RemoveEach(st[i], decls[i], hs, j)
          invariant publisher.subscribers == st[i := publisher.subscribers[i]]
          invariant !ok ==> RemoveEach(st[i], decls[i], hs, j) == RemoveEach(st[i], decls[i], hs, |hs|)
        {
          ok := publisher.RemoveEventHandler(i, hs[j]);
          j := j + 1;
          if !ok {
            RemoveEachStopsAtFailure(st[i], decls[i], hs, j, |hs|);
          }
        }
        i := i + 1;
      }
      if !ok {
        UnregisterStopsAtFailure(subs0, decls, hs, i, |decls|);
      }
    }

    /**
     * The evidently intended cleanup: each registered handler is removed from
     * the event it was registered on, which never throws.
     */
    method DisposePaired()
      requires publisher.Valid() && Registered()
      modifies publisher
      ensures publisher.Valid()
      ensures forall i :: 0 <= i < |publisher.declared| ==>
                publisher.subscribers[i] == RemoveLast(old(publisher.subscribers[i]), registeredHandlers[i])
    {
      var i := 0;
      while i < |publisher.declared|
        invariant 0 <= i <= |publisher.declared| && publisher.Valid()
        invariant forall j :: 0 <= j < i ==>
                    publisher.subscribers[j] == RemoveLast(old(publisher.subscribers[j]), registeredHandlers[j])
        invariant forall j :: i <= j < |publisher.declared| ==> publisher.subscribers[j] == old(publisher.subscribers[j])
      {
        var ok := publisher.RemoveEventHandler(i, registeredHandlers[i]);
        assert ok;
        i := i + 1;
      }
    }
  }

  /**
   * A publisher without events: the monitor registers no handler, and since
   * there is no event to raise its record list stays empty.
   */
  method NoEventsSample() returns (m: EventMonitor)
    ensures m.publisher.declared == [] && m.registeredHandlers == [] && m.Events() == []
  {
    var p := new Publisher([]);
    m := new EventMonitor(p);
  }

  // ---------------------------------------------------------------------------
  // Dispose on a publisher whose events have different delegate types

  const PropertyChangedDecl := EventDecl("PropertyChanged", "PropertyChangedEventHandler", true)
  const ChangedDecl := EventDecl("Changed", "EventHandler", true)

  /** A monitor on a new publisher with a PropertyChanged event and an EventHandler event. */
  method MonitoredMixedPublisher() returns (p: Publisher, m: EventMonitor)
    ensures fresh(p) && fresh(m) && p.Valid() && m.publisher == p && m.events == []
    ensures p.declared == [PropertyChangedDecl, ChangedDecl]
    ensures m.registeredHandlers == [Capture(m, PropertyChangedDecl.delegateType), Capture(m, ChangedDecl.delegateType)]
    ensures p.subscribers == [[m.registeredHandlers[0]], [m.registeredHandlers[1]]]
  {
    p := new Publisher([PropertyChangedDecl, ChangedDecl]);
    m := new EventMonitor(p);
  }

  /**
   * Dispose as written on that publisher: removing the EventHandler delegate
   * from PropertyChanged throws, so Dispose stops after PropertyChanged and
   * the monitor stays subscribed to Changed, which goes on recording.
   */
  method DisposeMixedTypesSample() returns (ok: bool, p: Publisher, afterDispose: seq<EventData>)
    ensures !ok
    ensures afterDispose == [EventData(p, EmptyArgs)]
  {
    var m;
    p, m := MonitoredMixedPublisher();
    var h0, h1 := m.registeredHandlers[0], m.registeredHandlers[1];
    DisposeSucceedsIffOneDelegateType(p.subscribers, p.declared, m.registeredHandlers);
    assert p.declared[0].delegateType != p.declared[1].delegateType;
    UnregisterStopsAtFailure(p.subscribers, p.declared, m.registeredHandlers, 1, 2);
    assert RemoveEach([h0], PropertyChangedDecl, [h0, h1], 1) == ([], true);
    ok := m.Dispose();
    assert p.subscribers[1] == [h1];
    assert m in p.ListenersOf(1) by {
      assert h1 in p.subscribers[1];
    }
    DeliveriesAppend([], h1, m);
    RepeatOnce(EventData(p, EmptyArgs));
    p.Raise(1, p, EmptyArgs);
    afterDispose := m.Events();
  }

  /** The corrected cleanup on the same publisher: the monitor leaves both events and records nothing more. */
  method DisposePairedMixedTypesSample() returns (p: Publisher, afterDispose: seq<EventData>)
    ensures p.Valid() && p.subscribers == [[], []]
    ensures afterDispose == []
  {
    var m;
    p, m := MonitoredMixedPublisher();
    RemoveLastOfAppended([], m.registeredHandlers[0]);
    RemoveLastOfAppended([], m.registeredHandlers[1]);
    m.DisposePaired();
    assert p.subscribers == [[], []];
    p.Raise(0, p, EmptyArgs);
    p.Raise(1, p, EmptyArgs);
    afterDispose := m.Events();
  }

  /**
   * Subscribe, dispose, raise: on a publisher whose events all share one
   * delegate type, a new monitor's Dispose completes and puts every
   * invocation list back as it was, so a later firing of any event records
   * nothing for that monitor, and the other monitors receive exactly what
   * they would have received without it.
   */
  method DisposedMonitorRecordsNothing(p: Publisher, i: nat, sender: object, e: EventArgs)
    returns (m: EventMonitor, ok: bool)
    requires p.Valid() && i < |p.declared|
    requires forall k :: 0 <= k < |p.declared| ==> p.declared[k].bindable
    requires forall k :: 0 <= k < |p.declared| ==> p.declared[k].delegateType == p.declared[0].delegateType
    modifies p, p.ListenersOf(i)`events
    ensures fresh(m) && ok
    ensures p.subscribers == old(p.subscribers)
    ensures m.events == []
    ensures forall o :: o in old(p.ListenersOf(i)) ==>
              o.events == old(o.events) + Repeat(EventData(sender, e), Deliveries(old(p.subscribers[i]), o))
  {
    ghost var before := p.subscribers;
    m := new EventMonitor(p);
    ghost var after := p.subscribers;
    DisposeSucceedsIffOneDelegateType(after, p.declared, m.registeredHandlers);
    DisposeAfterRegisterRestores(before, after, p.declared, m.registeredHandlers, m);
    ok := m.Dispose();
    assert p.subscribers == before;
    p.Raise(i, sender, e);
  }

  /**
   * The corrected cleanup in general: on any publisher whose events are all
   * bindable, mixed delegate types included, subscribing a new monitor and
   * then running DisposePaired puts every invocation list back exactly as it
   * was, other subscribers included.
   */
  method DisposePairedRestores(p: Publisher) returns (m: EventMonitor)
    requires p.Valid()
    requires forall k :: 0 <= k < |p.declared| ==> p.declared[k].bindable
    modifies p
    ensures fresh(m) && m.publisher == p && m.events == []
    ensures p.subscribers == old(p.subscribers)
  {
    ghost var before := p.subscribers;
    m := new EventMonitor(p);
    forall i | 0 <= i < |p.declared|
      ensures RemoveLast(p.subscribers[i], m.registeredHandlers[i]) == before[i]
    {
      RemoveLastOfAppended(before[i], m.registeredHandlers[i]);
    }
    m.DisposePaired();
    assert p.subscribers == before;
  }
}
