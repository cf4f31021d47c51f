// The order in which listeners are kept and events pass through the queues.
module EventOrder {
  import opened Events
  import opened EventSteps
  import opened EventRuns
  import opened Sequences

  // ---------- One operation ----------

  /** A new listener is called after those already connected to the type; no other type's listeners change. */
  lemma ConnectsLast(s: State, listener: int, kind: int)
    requires !IsConnected(s, listener, kind)
    ensures
      var t := Connected(s, listener, kind);
      var q := if kind in s.listeners then s.listeners[kind] else [];
      && t.listeners.Keys == s.listeners.Keys + {kind}
      && |t.listeners[kind]| == |q| + 1 && q <= t.listeners[kind] && t.listeners[kind][|q|] == listener
      && (forall k :: k in s.listeners && k != kind ==> t.listeners[k] == s.listeners[k])
  {
  }

  /** A connection can be taken back: disconnecting the listener again leaves every list as it was. */
  lemma DisconnectUndoesConnect(s: State, listener: int, kind: int)
    requires kind in s.listeners && !IsConnected(s, listener, kind)
    ensures Disconnected(Connected(s, listener, kind), listener, kind).listeners == s.listeners
  {
    var q := s.listeners[kind];
    WithoutOne(q, listener, []);
    assert q + [listener] + [] == q + [listener] && q + [] == q;
  }

  /** Disconnecting takes the listener out from between the others and touches no other type. */
  lemma DisconnectTakesOut(s: State, a: seq<int>, listener: int, b: seq<int>, kind: int)
    requires kind in s.listeners && s.listeners[kind] == a + [listener] + b && listener !in a && listener !in b
    ensures Disconnected(s, listener, kind).listeners == s.listeners[kind := a + b]
  {
    WithoutOne(a, listener, b);
  }

  /** A dequeue of one event removes it wherever it stands, one of a type every event of that type; the others keep
      their order. */
  lemma {:induction false} LeftJoin(a: seq<Event>, b: seq<Event>, e: Event, all: bool)
    ensures Left(a + b, e, all) == Left(a, e, all) + Left(b, e, all)
    ensures Gone(a + b, e, all) == Gone(a, e, all) + Gone(b, e, all)
  {
    if a == [] {
      assert a + b == b;
    } else {
      assert (a + b)[1..] == a[1..] + b;
      LeftJoin(a[1..], b, e, all);
    }
  }

  lemma LeftOne(x: Event, e: Event)
    ensures Left([x], e, false) == (if x.id == e.id then [] else [x])
    ensures Gone([x], e, false) == (if x.id == e.id then [x] else [])
    ensures Left([x], e, true) == (if x.kind == e.kind then [] else [x])
    ensures Gone([x], e, true) == (if x.kind == e.kind then [x] else [])
  {
    assert [x][1..] == [];
  }

  // ---------- The line of events ----------

  /** The events on their way: those sent, those being drained, and those waiting, in this order. */
  function Line(s: State): seq<Event>
  {
    EventsOf(s.sent) + s.active + s.waiting
  }

  lemma HeadPlaces(head: Event, q: seq<Event>, x: Event, y: Event)
    ensures Precedes([head] + q, x, y) <==> Precedes(q, x, y) || (head == x && y in q)
  {
    if Precedes([head] + q, x, y) {
      PrecedesTail([head] + q, x, y);
      assert ([head] + q)[1..] == q;
    } else if Precedes(q, x, y) || (head == x && y in q) {
      PrecedesBehind(head, q, x, y);
    }
  }

  lemma {:induction false} TiesKeepPlaces(q: seq<Event>, k: Event, x: Event, y: Event)
    requires SameKey(x, k) && SameKey(y, k)
    ensures y in q <==> y in Ties(q, k)
    ensures Precedes(q, x, y) <==> Precedes(Ties(q, k), x, y)
  {
    if q != [] {
      var rest := Ties(q[1..], k);
      TiesKeepPlaces(q[1..], k, x, y);
      assert q == [q[0]] + q[1..];
      HeadPlaces(q[0], q[1..], x, y);
      if SameKey(q[0], k) {
        assert Ties(q, k) == [q[0]] + rest;
        HeadPlaces(q[0], rest, x, y);
      } else {
        assert Ties(q, k) == [] + rest == rest;
      }
    }
  }

  /** Queues with the same ties keep the order of ties. */
  lemma SameTiesSamePlaces(p: seq<Event>, q: seq<Event>, x: Event, y: Event)
    requires SameKey(x, y) && Ties(p, x) == Ties(q, x)
    ensures Precedes(p, x, y) <==> Precedes(q, x, y)
  {
    TiesKeepPlaces(p, x, x, y);
    TiesKeepPlaces(q, x, x, y);
  }

  // ---------- What an operation keeps of the line ----------

  /** The records of events queued and dequeued only grow; x stays before y unless one of them is dequeued. */
  ghost predicate Keeps(s: State, t: State, x: Event, y: Event)
  {
    && s.queued <= t.queued && s.dequeued <= t.dequeued
    && (Precedes(Line(s), x, y) && x !in t.dequeued && y !in t.dequeued ==> Precedes(Line(t), x, y))
  }

  lemma KeepsOn(s: State, t: State, u: State, x: Event, y: Event)
    requires Keeps(s, t, x, y) && Keeps(t, u, x, y)
    ensures Keeps(s, u, x, y)
  {
  }

  lemma SameLine(s: State, t: State, x: Event, y: Event)
    requires Line(t) == Line(s) && t.queued == s.queued && t.dequeued == s.dequeued
    ensures Keeps(s, t, x, y)
  {
  }

  lemma {:induction false} LeftPlaces(p: seq<Event>, q: seq<Event>, e: Event, all: bool, x: Event, y: Event)
    requires Precedes(p + q, x, y) && x !in Gone(q, e, all) && y !in Gone(q, e, all)
    ensures Precedes(p + Left(q, e, all), x, y)
    decreases |q|
  {
    if q == [] {
    } else {
      var head, more := q[0], q[1..];
      assert p + q == (p + [head]) + more;
      if Matches(head, e, all) {
        assert Gone(q, e, all) == [head] + Gone(more, e, all);
        Skip(p, head, more, x, y);
        LeftPlaces(p, more, e, all, x, y);
        assert Left(q, e, all) == [] + Left(more, e, all) == Left(more, e, all);
      } else {
        LeftPlaces(p + [head], more, e, all, x, y);
        assert (p + [head]) + Left(more, e, all) == p + Left(q, e, all);
      }
    }
  }

  lemma Skip(p: seq<Event>, head: Event, more: seq<Event>, x: Event, y: Event)
    requires Precedes(p + [head] + more, x, y) && x != head && y != head
    ensures Precedes(p + more, x, y)
  {
    var q, r := p + [head] + more, p + more;
    var i, j :| 0 <= i < j < |q| && q[i] == x && q[j] == y;
    var i', j' := if i < |p| then i else i - 1, if j < |p| then j else j - 1;
    assert r[i'] == x && r[j'] == y;
  }

  lemma PlacesAhead(q: seq<Event>, more: seq<Event>, x: Event, y: Event)
    requires Precedes(q, x, y)
    ensures Precedes(q + more, x, y)
  {
    var i, j :| 0 <= i < j < |q| && q[i] == x && q[j] == y;
    assert (q + more)[i] == x && (q + more)[j] == y;
  }

  lemma ActedKeeps(s: State, a: Action, x: Event, y: Event)
    ensures Keeps(s, Acted(s, a), x, y)
  {
    var t := Acted(s, a);
    match a
    case DoQueue(e) =>
      assert Line(t) == Line(s) + [e];
      if Precedes(Line(s), x, y) { PlacesAhead(Line(s), [e], x, y); }
    case DoDequeue(e, all) =>
      if Precedes(Line(s), x, y) && x !in t.dequeued && y !in t.dequeued {
        assert forall z :: z in Gone(s.waiting, e, all) ==> z in t.dequeued;
        LeftPlaces(EventsOf(s.sent) + s.active, s.waiting, e, all, x, y);
      }
    case DoConnect(_, _) =>
    case DoDisconnect(_, _) =>
  }

  lemma {:induction false} PerformedKeeps(s: State, actions: seq<Action>, x: Event, y: Event)
    ensures Keeps(s, Performed(s, actions), x, y)
    decreases |actions|
  {
    if actions != [] {
      var t := Acted(s, actions[0]);
      ActedKeeps(s, actions[0], x, y);
      PerformedKeeps(t, actions[1..], x, y);
      KeepsOn(s, t, Performed(s, actions), x, y);
    }
  }

  lemma CalledKeeps(s: State, listener: int, e: Event, w: World, x: Event, y: Event)
    ensures Keeps(s, Called(s, listener, e, w), x, y)
  {
    var t := Performed(s, w.react(listener, e, |s.calls|).actions);
    PerformedKeeps(s, w.react(listener, e, |s.calls|).actions, x, y);
    SameLine(t, Called(s, listener, e, w), x, y);
    KeepsOn(s, t, Called(s, listener, e, w), x, y);
  }

  lemma {:induction false} DeliveredKeeps(s: State, done: seq<int>, todo: seq<int>, e: Event, w: World,
                                          x: Event, y: Event)
    ensures Keeps(s, Delivered(s, done, todo, e, w), x, y)
    decreases |todo|
  {
    if todo != [] {
      var u := Delivered(s, done, todo, e, w);
      if todo[0] == NULL_LISTENER {
        var t := s.(listeners := s.listeners[e.kind := done + todo[1..]]);
        SameLine(s, t, x, y);
        DeliveredKeeps(t, done, todo[1..], e, w, x, y);
        KeepsOn(s, t, u, x, y);
      } else {
        var t := Called(s, todo[0], e, w);
        CalledKeeps(s, todo[0], e, w, x, y);
        if !Stops(t.calls[|t.calls| - 1]) {
          DeliveredKeeps(t, done + [todo[0]], todo[1..], e, w, x, y);
          KeepsOn(s, t, u, x, y);
        }
      }
    }
  }

  lemma DispatchedKeeps(s: State, e: Event, w: World, x: Event, y: Event)
    ensures Keeps(s, Dispatched(s, e, w), x, y)
  {
    if e.kind in s.listeners {
      var t := s.(invalid := false, dispatchType := e.kind);
      var u := Delivered(t, [], s.listeners[e.kind], e, w);
      SameLine(s, t, x, y);
      DeliveredKeeps(t, [], s.listeners[e.kind], e, w, x, y);
      KeepsOn(s, t, u, x, y);
      SameLine(u, Dispatched(s, e, w), x, y);
      KeepsOn(s, u, Dispatched(s, e, w), x, y);
    }
  }

  lemma MovedLine(t: State, now: real)
    requires t.active != []
    ensures Line(t.(active := t.active[1..], sent := t.sent + [Sent(t.active[0], now)])) == Line(t)
  {
    MoveHead(t.active, t.sent, now);
    HeadAcross(EventsOf(t.sent), t.active);
  }

  lemma HeadAcross(sent: seq<Event>, q: seq<Event>)
    requires q != []
    ensures (sent + [q[0]]) + q[1..] == sent + q
  {
  }

  lemma TurnKeeps(s: State, w: World, x: Event, y: Event)
    requires s.active != []
    ensures Keeps(s, Turn(s, w), x, y)
  {
    var read := s.(readings := s.readings + 1);
    var t := Dispatched(read, s.active[0], w);
    SameLine(s, read, x, y);
    DispatchedKeeps(read, s.active[0], w, x, y);
    DispatchedInTurn(read, s.active[0], w);
    KeepsOn(s, read, t, x, y);
    MovedLine(t, w.clock(s.readings));
    SameLine(t, Turn(s, w), x, y);
    KeepsOn(s, t, Turn(s, w), x, y);
  }

  lemma {:induction false} DrainedKeeps(s: State, w: World, x: Event, y: Event)
    ensures Keeps(s, Drained(s, w), x, y)
    decreases |s.active|
  {
    if s.active != [] && s.active[0].time <= w.clock(s.readings) {
      var t := Turn(s, w);
      TurnKeeps(s, w, x, y);
      DrainedKeeps(t, w, x, y);
      KeepsOn(s, t, Drained(s, w), x, y);
    }
  }

  /** Sorting keeps the order of ties in the whole line. */
  lemma SortKeeps(s: State, x: Event, y: Event)
    requires NoConflict(s.active) && SameKey(x, y)
    ensures Keeps(s, s.(active := Sorted(s.active)), x, y)
  {
    var t := s.(active := Sorted(s.active));
    SortedStable(s.active, x);
    TiesJoin(EventsOf(s.sent) + s.active, s.waiting, x);
    TiesJoin(EventsOf(s.sent), s.active, x);
    TiesJoin(EventsOf(s.sent) + t.active, s.waiting, x);
    TiesJoin(EventsOf(s.sent), t.active, x);
    SameTiesSamePlaces(Line(s), Line(t), x, y);
  }

  lemma ExecutedKeeps(s: State, w: World, x: Event, y: Event)
    requires NoConflict(s.active) && SameKey(x, y)
    ensures Keeps(s, Executed(s, w), x, y)
  {
    var sorted := s.(active := Sorted(s.active));
    var t := Drained(sorted, w);
    SortKeeps(s, x, y);
    DrainedKeeps(sorted, w, x, y);
    KeepsOn(s, sorted, t, x, y);
    assert EventsOf(t.sent) + [] + t.waiting == EventsOf(t.sent) + t.waiting + [];
    SameLine(t, Executed(s, w), x, y);
    KeepsOn(s, t, Executed(s, w), x, y);
  }

  // ---------- Over every run ----------

  /** No two of the events are in conflict. */
  ghost predicate Calm(m: multiset<Event>)
  {
    forall a, b :: a in m && b in m ==> !Conflict(a, b)
  }

  lemma CalmQueue(s: State)
    requires Conserved(s) && Calm(s.queued)
    ensures NoConflict(s.active)
  {
    forall i, j | 0 <= i < |s.active| && 0 <= j < |s.active|
      ensures !Conflict(s.active[i], s.active[j])
    {
      assert s.active[i] in multiset(s.active) && s.active[j] in multiset(s.active);
      assert s.active[i] in s.queued && s.active[j] in s.queued;
    }
  }

  lemma {:induction false} QueuedGrows(s: State, ops: seq<Op>, w: World)
    ensures s.queued <= Run(s, ops, w).queued
    decreases |ops|
  {
    if ops != [] {
      var t := Step(s, ops[0], w);
      var e := Event(0, 0, 0, 0.0);
      match ops[0] {
        case Act(a) => ActedKeeps(s, a, e, e);
        case Dispatch(d) => DispatchedKeeps(s, d, w, e, e);
        case Execute => DrainedKeeps(s.(active := Sorted(s.active)), w, e, e);
      }
      QueuedGrows(t, ops[1..], w);
    }
  }

  lemma StepKeepsOrder(s: State, op: Op, w: World, x: Event, y: Event)
    requires Conserved(s) && SameKey(x, y) && NoConflict(s.active)
    ensures Keeps(s, Step(s, op, w), x, y) && Conserved(Step(s, op, w))
  {
    match op {
      case Act(a) =>
        ActedKeeps(s, a, x, y);
        ActedConserves(s, a);
      case Dispatch(d) =>
        DispatchedKeeps(s, d, w, x, y);
        DispatchedConserves(s, d, w);
      case Execute =>
        ExecutedKeeps(s, w, x, y);
        ExecutedConserves(s, w);
    }
  }

  /** Over every run in which no queued events are in conflict, an event keeps its place before another of the same
      priority and time, unless one of them is dequeued. */
  lemma {:induction false} RunKeepsOrder(s: State, ops: seq<Op>, w: World, x: Event, y: Event)
    requires Conserved(s) && SameKey(x, y) && Calm(Run(s, ops, w).queued)
    ensures Keeps(s, Run(s, ops, w), x, y)
    decreases |ops|
  {
    if ops != [] {
      var t := Step(s, ops[0], w);
      QueuedGrows(s, ops, w);
      CalmQueue(s);
      StepKeepsOrder(s, ops[0], w, x, y);
      RunKeepsOrder(t, ops[1..], w, x, y);
      KeepsOn(s, t, Run(s, ops, w), x, y);
    }
  }

  /** First in, first out: an event queued behind another of the same priority and time is not sent before it,
      whatever the listeners do, as long as neither is dequeued and no queued events are in conflict. */
  lemma FirstInFirstOut(s: State, ops: seq<Op>, w: World, x: Event, y: Event)
    requires Conserved(s) && SameKey(x, y) && x in Line(s)
    ensures
      var u := Run(Queued(s, y), ops, w);
      Calm(u.queued) && x !in u.dequeued && y !in u.dequeued ==> Precedes(Line(u), x, y)
  {
    var t := Queued(s, y);
    assert Line(t) == Line(s) + [y];
    var i :| 0 <= i < |Line(s)| && Line(s)[i] == x;
    assert Line(t)[i] == x && Line(t)[|Line(s)|] == y;
    if Calm(Run(t, ops, w).queued) { RunKeepsOrder(t, ops, w, x, y); }
  }

  // ---------- Between dispatches ----------

  lemma {:induction false} DrainedBetween(s: State, w: World)
    requires s.dispatchType == NULL_TYPE
    ensures Drained(s, w).dispatchType == NULL_TYPE
    decreases |s.active|
  {
    if s.active != [] && s.active[0].time <= w.clock(s.readings) { DrainedBetween(Turn(s, w), w); }
  }

  /** Between the operations of a run no type is being dispatched, so connecting or disconnecting then disturbs none. */
  lemma {:induction false} NoDispatchBetween(s: State, ops: seq<Op>, w: World)
    requires s.dispatchType == NULL_TYPE
    ensures Run(s, ops, w).dispatchType == NULL_TYPE
    decreases |ops|
  {
    if ops != [] {
      match ops[0] {
        case Act(a) => ActedInTurn(s, a);
        case Dispatch(_) =>
        case Execute => DrainedBetween(s.(active := Sorted(s.active)), w);
      }
      NoDispatchBetween(Step(s, ops[0], w), ops[1..], w);
    }
  }
}
