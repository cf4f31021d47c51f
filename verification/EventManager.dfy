// The event manager of src/event/eventmanager.cpp as it runs: its fields, and the loops that update them.
module EventManager {
  import opened Events
  import opened EventSteps
  import opened Sequences
  import EventRuns

  class EventManager {
    const world: World
    var listenerMap: map<int, seq<int>>
    var eventQueue: seq<seq<Event>>
    var dispatchType: int
    var activeQueue: int
    var dispatchInvalid: bool
    var readings: nat
    var callCount: nat

    // History.
    ghost var calls: seq<Call>
    ghost var sent: seq<Sent>
    ghost var queued: multiset<Event>
    ghost var dequeued: multiset<Event>

    constructor (w: World)
      ensures Valid() && world == w && Now() == FRESH
    {
      world := w;
      listenerMap, eventQueue := map[], [[], []];
      dispatchType, activeQueue, dispatchInvalid := NULL_TYPE, 0, true;
      readings, callCount := 0, 0;
      calls, sent, queued, dequeued := [], [], multiset{}, multiset{};
    }

    ghost predicate Valid()
      reads this
    {
      && |eventQueue| == 2 && 0 <= activeQueue < 2
      && callCount == |calls|
      && EventRuns.ListsDistinct(Now())
    }

    /** The state of the manager; which of the two queues is the active one does not show. */
    ghost function Now(): State
      reads this
      requires |eventQueue| == 2 && 0 <= activeQueue < 2
    {
      State(listenerMap, eventQueue[activeQueue], eventQueue[1 - activeQueue], dispatchType, dispatchInvalid, readings,
            calls, sent, queued, dequeued)
    }

    method Connect(handler: int, kind: int) returns (connected: bool)
      requires Valid()
      modifies this`listenerMap, this`dispatchInvalid
      ensures Valid() && Now() == Connected(old(Now()), handler, kind)
      ensures connected == !IsConnected(old(Now()), handler, kind)
      ensures kind in listenerMap && handler in listenerMap[kind]
      ensures connected && kind in old(listenerMap) ==> listenerMap[kind] == old(listenerMap)[kind] + [handler]
    {
      EventRuns.ActedKeepsLists(Now(), DoConnect(handler, kind));
      if kind !in listenerMap {
        listenerMap := listenerMap[kind := []];
      }
      var listeners := listenerMap[kind];
      if handler !in listeners {
        listenerMap := listenerMap[kind := listeners + [handler]];
      } else {
        return false;
      }
      dispatchInvalid := dispatchInvalid || dispatchType == kind;
      return true;
    }

    method Disconnect(handler: int, kind: int) returns (known: bool)
      requires Valid()
      modifies this`listenerMap, this`dispatchInvalid
      ensures Valid() && Now() == Disconnected(old(Now()), handler, kind)
      ensures known == (kind in old(listenerMap))
      ensures known ==> kind in listenerMap && handler !in listenerMap[kind]
    {
      EventRuns.ActedKeepsLists(Now(), DoDisconnect(handler, kind));
      if kind !in listenerMap { return false; }
      listenerMap := listenerMap[kind := Without(listenerMap[kind], handler)];
      dispatchInvalid := dispatchInvalid || dispatchType == kind;
      return true;
    }

    method Queue(e: Event) returns (ok: bool)
      requires Valid()
      modifies this`eventQueue, this`queued
      ensures ok && Valid() && Now() == Queued(old(Now()), e)
      ensures eventQueue[1 - activeQueue] == old(eventQueue[1 - activeQueue]) + [e]
      ensures eventQueue[activeQueue] == old(eventQueue[activeQueue])
    {
      var other := 1 - activeQueue;
      eventQueue := eventQueue[other := eventQueue[other] + [e]];
      queued := queued + multiset{e};
      return true;
    }

    method Dequeue(e: Event, all: bool) returns (ok: bool)
      requires Valid()
      modifies this`eventQueue, this`dequeued
      ensures ok && Valid() && Now() == Dequeued(old(Now()), e, all)
    {
      var other := 1 - activeQueue;
      var q := Removed(eventQueue[other], e, all);
      Refill(q, multiset(Gone(eventQueue[other], e, all)));
      return true;
    }

    method Refill(q: seq<Event>, ghost gone: multiset<Event>)
      requires Valid()
      modifies this`eventQueue, this`dequeued
      ensures Valid() && Now() == old(Now()).(waiting := q, dequeued := old(dequeued) + gone)
    {
      dequeued := dequeued + gone;
      eventQueue := eventQueue[1 - activeQueue := q];
    }

    /** One action of a listener on the manager. */
    method Perform(a: Action)
      requires Valid()
      modifies this
      ensures activeQueue == old(activeQueue)
      ensures Valid() && Now() == Acted(old(Now()), a)
    {
      match a {
        case DoQueue(e) => var _ := Queue(e);
        case DoDequeue(e, all) => var _ := Dequeue(e, all);
        case DoConnect(l, kind) => var _ := Connect(l, kind);
        case DoDisconnect(l, kind) => var _ := Disconnect(l, kind);
      }
    }

    method PerformAll(actions: seq<Action>)
      requires Valid()
      modifies this
      ensures activeQueue == old(activeQueue)
      ensures Valid() && Now() == Performed(old(Now()), actions)
      decreases |actions|
    {
      if actions != [] {
        Perform(actions[0]);
        PerformAll(actions[1..]);
      }
    }

    /** A listener handles an event, acting on the manager meanwhile. */
    method HandleEvent(listener: int, e: Event) returns (handled: bool)
      requires Valid()
      modifies this
      ensures activeQueue == old(activeQueue)
      ensures Valid() && Now() == Called(old(Now()), listener, e, world)
      ensures handled == calls[|calls| - 1].handled
    {
      var reaction := world.react(listener, e, callCount);
      EventRuns.PerformedKeepsLists(Now(), reaction.actions);
      PerformedInTurn(Now(), reaction.actions);
      PerformAll(reaction.actions);
      callCount := callCount + 1;
      calls := calls + [Call(listener, e, reaction.handled, dispatchInvalid)];
      return reaction.handled;
    }

    /** One turn of the walk: the listener under the iterator is called, or erased when it is null. */
    method Visit(i: nat, e: Event, ghost start: State, ghost done: seq<int>, ghost todo: seq<int>)
      returns (handled: bool, j: nat, ghost behind: seq<int>)
      requires Valid() && OnWalk(start, Now(), false, i, done, todo, e, world) && !dispatchInvalid
      requires i < |listenerMap[e.kind]|
      modifies this
      ensures activeQueue == old(activeQueue)
      ensures Valid() && todo != [] && OnWalk(start, Now(), handled, j, behind, todo[1..], e, world)
    {
      assert todo[0] == listenerMap[e.kind][i];
      if listenerMap[e.kind][i] != NULL_LISTENER {
        var listener := listenerMap[e.kind][i];
        CallOnWalk(start, Now(), i, done, todo, e, world);
        j := i + 1;
        handled := HandleEvent(listener, e);
        behind := done + [todo[0]];
      } else {
        EventRuns.EraseKeepsWalking(Now(), done, todo, e.kind);
        assert done + todo[1..] == listenerMap[e.kind][..i] + listenerMap[e.kind][i + 1..];
        listenerMap := listenerMap[e.kind := listenerMap[e.kind][..i] + listenerMap[e.kind][i + 1..]];
        handled, j, behind := false, i, done;
      }
    }

    /** The walk over the listeners of the event's type. The iterator is the index i of the next listener: it is only
        followed while the list has not been touched, so it never points at a listener that is gone. */
    method Walk(e: Event) returns (handled: bool)
      requires Valid() && e.kind in listenerMap && dispatchType == e.kind && !dispatchInvalid
      modifies this
      ensures activeQueue == old(activeQueue)
      ensures Valid() && Now() == Delivered(old(Now()), [], old(listenerMap[e.kind]), e, world)
      ensures handled == Handled(old(Now()), Now())
    {
      handled := false;
      var i: nat := 0;
      ghost var start := Now();
      ghost var done, todo: seq<int> := [], listenerMap[e.kind];
      assert [] + todo == todo;
      while !handled && !dispatchInvalid && i < |listenerMap[e.kind]|
        invariant Valid() && activeQueue == old(activeQueue)
        invariant OnWalk(start, Now(), handled, i, done, todo, e, world)
        decreases |todo|
      {
        handled, i, done := Visit(i, e, start, done, todo);
        todo := todo[1..];
      }
    }

    method Dispatch(e: Event) returns (handled: bool)
      requires Valid()
      modifies this
      ensures activeQueue == old(activeQueue)
      ensures Valid() && Now() == Dispatched(old(Now()), e, world)
      ensures handled == Handled(old(Now()), Now())
    {
      if e.kind !in listenerMap { return false; }
      dispatchInvalid := false;
      dispatchType := e.kind;
      handled := Walk(e);
      dispatchType := NULL_TYPE;
    }

    /** The queue being drained while its head is due; the head is dispatched first and removed after. */
    method Drain()
      requires Valid()
      modifies this
      ensures activeQueue == old(activeQueue)
      ensures Valid() && Now() == Drained(old(Now()), world)
    {
      ghost var start := Now();
      var over := false;
      while !over && eventQueue[activeQueue] != []
        invariant Valid() && activeQueue == old(activeQueue)
        invariant if over then Now() == Drained(start, world) else Drained(Now(), world) == Drained(start, world)
        decreases !over, |Now().active|
      {
        over := TakeTurn();
      }
    }

    /** Reads the clock; when the head is due it is dispatched and removed. */
    method TakeTurn() returns (over: bool)
      requires Valid() && Now().active != []
      modifies this
      ensures activeQueue == old(activeQueue)
      ensures Valid()
      ensures over == (old(Now()).active[0].time > world.clock(old(readings)))
      ensures Now() == if over then old(Now()).(readings := old(readings) + 1) else Turn(old(Now()), world)
    {
      var now := world.clock(readings);
      readings := readings + 1;
      var event := eventQueue[activeQueue][0];
      if event.time > now { return true; }
      DispatchedInTurn(Now(), event, world);
      var _ := Dispatch(event);
      PopFront(now);
      return false;
    }

    method PopFront(ghost now: real)
      requires Valid() && Now().active != []
      modifies this`eventQueue, this`sent
      ensures Valid()
      ensures
        Now() == old(Now()).(active := old(Now()).active[1..], sent := old(sent) + [Sent(old(Now()).active[0], now)])
    {
      sent := sent + [Sent(eventQueue[activeQueue][0], now)];
      eventQueue := eventQueue[activeQueue := eventQueue[activeQueue][1..]];
    }

    method Execute() returns (emptied: bool)
      requires Valid()
      modifies this
      ensures Valid() && Now() == Executed(old(Now()), world)
      ensures emptied == (activeQueue != old(activeQueue))
    {
      Sort();
      Drain();
      emptied := eventQueue[activeQueue] == [];
      if emptied { Flip(); }
    }

    method Flip()
      requires Valid() && Now().active == []
      modifies this`activeQueue
      ensures Valid() && Now() == old(Now()).(active := old(Now()).waiting, waiting := [])
      ensures activeQueue == 1 - old(activeQueue)
    {
      activeQueue := if activeQueue == 0 then 1 else 0;
    }

    method Sort()
      requires Valid()
      modifies this`eventQueue
      ensures Valid() && Now() == old(Now()).(active := Sorted(old(Now()).active))
    {
      eventQueue := eventQueue[activeQueue := Sorted(eventQueue[activeQueue])];
    }

    method Take(op: Op)
      requires Valid()
      modifies this
      ensures Valid() && Now() == Step(old(Now()), op, world)
    {
      match op {
        case Act(a) => Perform(a);
        case Dispatch(e) => var _ := Dispatch(e);
        case Execute => var _ := Execute();
      }
    }

    /** A whole run by its callers. */
    method RunAll(ops: seq<Op>)
      requires Valid()
      modifies this
      ensures Valid() && Now() == Run(old(Now()), ops, world)
      decreases |ops|
    {
      if ops != [] {
        Take(ops[0]);
        RunAll(ops[1..]);
      }
    }
  }

  /** The walk that began in the start state has come to state s: it is over, or stands before listener i. */
  predicate OnWalk(start: State, s: State, handled: bool, i: nat, done: seq<int>, todo: seq<int>, e: Event, w: World)
  {
    && e.kind in start.listeners && |start.calls| <= |s.calls|
    && handled == Handled(start, s)
    && var whole := Delivered(start, [], start.listeners[e.kind], e, w);
       if handled || s.invalid then s == whole
       else EventRuns.Walking(s, done, todo, e.kind) && i == |done| && Delivered(s, done, todo, e, w) == whole
  }

  lemma CallOnWalk(start: State, s: State, i: nat, done: seq<int>, todo: seq<int>, e: Event, w: World)
    requires OnWalk(start, s, false, i, done, todo, e, w) && !s.invalid && todo != [] && todo[0] != NULL_LISTENER
    ensures
      var t := Called(s, todo[0], e, w);
      OnWalk(start, t, t.calls[|t.calls| - 1].handled, i + 1, done + [todo[0]], todo[1..], e, w)
  {
    EventRuns.CallKeepsWalking(s, done, todo, e, w);
  }

  method Removed(queue: seq<Event>, e: Event, all: bool) returns (q: seq<Event>)
    ensures q == Left(queue, e, all)
  {
    if all {
      q := RemoveKind(queue, e);
    } else {
      q := Left(queue, e, false);
    }
  }

  /** Erases the events of e's type, walking the queue from its end to its front. */
  method RemoveKind(queue: seq<Event>, e: Event) returns (q: seq<Event>)
    ensures q == Left(queue, e, true)
  {
    q := queue;
    var i := |q|;
    while i != 0
      invariant 0 <= i <= |q| && i <= |queue|
      invariant q[..i] == queue[..i]
      invariant q[i..] == Left(queue[i..], e, true)
    {
      ghost var was := q;
      if q[i - 1].kind == e.kind {
        q := q[..i - 1] + q[i..];
      }
      i := i - 1;
      assert queue[i..][1..] == queue[i + 1..];
      assert q[i..] == (if was[i].kind == e.kind then [] else [was[i]]) + was[i + 1..];
    }
    assert queue[0..] == queue;
  }
}
