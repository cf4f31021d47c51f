// What each operation of the event manager does to its listeners and queues, with the history it leaves behind.
module EventSteps {
  import opened Events
  import opened Sequences

  const NULL_TYPE := 0
  const NULL_LISTENER := 0

  /** What a listener may do to the manager while it handles an event. */
  datatype Action =
    | DoQueue(event: Event)
    | DoDequeue(event: Event, all: bool)
    | DoConnect(listener: int, kind: int)
    | DoDisconnect(listener: int, kind: int)

  datatype Reaction = Reaction(actions: seq<Action>, handled: bool)

  /** The clock by its successive readings, and the listeners by what they do when called; the number given to react
      counts the calls made before. */
  datatype World = World(clock: nat -> real, react: (int, Event, nat) -> Reaction)

  /** One call of a listener; changed says whether the listeners of the event's type were touched. */
  datatype Call = Call(listener: int, event: Event, handled: bool, changed: bool)

  /** An event taken off the active queue, and the clock reading that let it go. */
  datatype Sent = Sent(event: Event, at: real)

  /** The manager, with its history: clock readings, listener calls, events sent, queued and dequeued. */
  datatype State = State(
    listeners: map<int, seq<int>>,
    active: seq<Event>,
    waiting: seq<Event>,
    dispatchType: int,
    invalid: bool,
    readings: nat,
    calls: seq<Call>,
    sent: seq<Sent>,
    queued: multiset<Event>,
    dequeued: multiset<Event>)

  const FRESH := State(map[], [], [], NULL_TYPE, true, 0, [], [], multiset{}, multiset{})

  // ---------- Lists ----------

  predicate Matches(e: Event, other: Event, all: bool)
  {
    if all then e.kind == other.kind else e.id == other.id
  }

  /** The events a dequeue leaves in the queue. */
  function Left(q: seq<Event>, e: Event, all: bool): seq<Event>
  {
    if q == [] then [] else (if Matches(q[0], e, all) then [] else [q[0]]) + Left(q[1..], e, all)
  }

  /** The events a dequeue takes out of the queue. */
  function Gone(q: seq<Event>, e: Event, all: bool): seq<Event>
  {
    if q == [] then [] else (if Matches(q[0], e, all) then [q[0]] else []) + Gone(q[1..], e, all)
  }

  lemma {:induction false} LeftOrGone(q: seq<Event>, e: Event, all: bool)
    ensures multiset(q) == multiset(Left(q, e, all)) + multiset(Gone(q, e, all))
    ensures forall x :: x in Left(q, e, all) ==> if all then x.kind != e.kind else x.id != e.id
    ensures forall x :: x in Gone(q, e, all) ==> if all then x.kind == e.kind else x.id == e.id
  {
    if q != [] {
      LeftOrGone(q[1..], e, all);
      assert q == [q[0]] + q[1..];
    }
  }

  // ---------- Operations ----------

  predicate IsConnected(s: State, listener: int, kind: int)
  {
    kind in s.listeners && listener in s.listeners[kind]
  }

  function Connected(s: State, listener: int, kind: int): State
  {
    if IsConnected(s, listener, kind) then s
    else
      var before := if kind in s.listeners then s.listeners[kind] else [];
      s.(listeners := s.listeners[kind := before + [listener]], invalid := s.invalid || s.dispatchType == kind)
  }

  function Disconnected(s: State, listener: int, kind: int): State
  {
    if kind !in s.listeners then s
    else s.(listeners := s.listeners[kind := Without(s.listeners[kind], listener)],
            invalid := s.invalid || s.dispatchType == kind)
  }

  function Queued(s: State, e: Event): State
  {
    s.(waiting := s.waiting + [e], queued := s.queued + multiset{e})
  }

  function Dequeued(s: State, e: Event, all: bool): State
  {
    s.(waiting := Left(s.waiting, e, all), dequeued := s.dequeued + multiset(Gone(s.waiting, e, all)))
  }

  function Acted(s: State, a: Action): State
  {
    match a
    case DoQueue(e) => Queued(s, e)
    case DoDequeue(e, all) => Dequeued(s, e, all)
    case DoConnect(l, kind) => Connected(s, l, kind)
    case DoDisconnect(l, kind) => Disconnected(s, l, kind)
  }

  function Performed(s: State, actions: seq<Action>): State
    decreases |actions|
  {
    if actions == [] then s else Performed(Acted(s, actions[0]), actions[1..])
  }

  /** One listener handles one event. */
  function Called(s: State, listener: int, e: Event, w: World): State
  {
    var reaction := w.react(listener, e, |s.calls|);
    var t := Performed(s, reaction.actions);
    t.(calls := s.calls + [Call(listener, e, reaction.handled, t.invalid)])
  }

  predicate Stops(c: Call)
  {
    c.handled || c.changed
  }

  /** The walk over a type's listeners: those before the iterator are done, null ones are erased on the way. */
  function Delivered(s: State, done: seq<int>, todo: seq<int>, e: Event, w: World): State
    decreases |todo|
  {
    if todo == [] then s
    else if todo[0] == NULL_LISTENER then
      Delivered(s.(listeners := s.listeners[e.kind := done + todo[1..]]), done, todo[1..], e, w)
    else
      var t := Called(s, todo[0], e, w);
      if Stops(t.calls[|t.calls| - 1]) then t else Delivered(t, done + [todo[0]], todo[1..], e, w)
  }

  function Dispatched(s: State, e: Event, w: World): State
  {
    if e.kind !in s.listeners then s
    else
      Delivered(s.(invalid := false, dispatchType := e.kind), [], s.listeners[e.kind], e, w)
        .(dispatchType := NULL_TYPE)
  }

  /** What a dispatch reports: whether the last listener it called handled the event. */
  predicate Handled(s: State, t: State)
  {
    |t.calls| > |s.calls| && t.calls[|t.calls| - 1].handled
  }

  // ---------- What an operation leaves alone ----------

  /** t differs from s at most in listeners, waiting queue, and the records of calls, queued and dequeued events. */
  predicate SameTurn(s: State, t: State)
  {
    t.active == s.active && t.sent == s.sent && t.readings == s.readings && t.dispatchType == s.dispatchType
  }

  lemma ActedInTurn(s: State, a: Action)
    ensures SameTurn(s, Acted(s, a)) && Acted(s, a).calls == s.calls
  {
  }

  lemma {:induction false} PerformedInTurn(s: State, actions: seq<Action>)
    ensures SameTurn(s, Performed(s, actions)) && Performed(s, actions).calls == s.calls
    decreases |actions|
  {
    if actions != [] {
      var t := Acted(s, actions[0]);
      ActedInTurn(s, actions[0]);
      PerformedInTurn(t, actions[1..]);
    }
  }

  lemma {:induction false} DeliveredInTurn(s: State, done: seq<int>, todo: seq<int>, e: Event, w: World)
    ensures SameTurn(s, Delivered(s, done, todo, e, w))
    decreases |todo|
  {
    if todo != [] {
      if todo[0] == NULL_LISTENER {
        DeliveredInTurn(s.(listeners := s.listeners[e.kind := done + todo[1..]]), done, todo[1..], e, w);
      } else {
        PerformedInTurn(s, w.react(todo[0], e, |s.calls|).actions);
        DeliveredInTurn(Called(s, todo[0], e, w), done + [todo[0]], todo[1..], e, w);
      }
    }
  }

  /** Whatever the listeners queue, dequeue, connect or disconnect, the queue being drained stays as it is. */
  lemma DispatchedInTurn(s: State, e: Event, w: World)
    ensures Dispatched(s, e, w).active == s.active && Dispatched(s, e, w).sent == s.sent
    ensures Dispatched(s, e, w).readings == s.readings
  {
    if e.kind in s.listeners {
      DeliveredInTurn(s.(invalid := false, dispatchType := e.kind), [], s.listeners[e.kind], e, w);
    }
  }

  /** One turn of the execute loop: the clock is read, the event at the head of the active queue is dispatched, then
      the head is removed. Whatever the listeners do, the head removed is the event that was dispatched. */
  function Turn(s: State, w: World): (t: State)
    requires s.active != []
    ensures t.active == s.active[1..] && t.sent == s.sent + [Sent(s.active[0], w.clock(s.readings))]
    ensures t.readings == s.readings + 1
  {
    var read := s.(readings := s.readings + 1);
    DispatchedInTurn(read, s.active[0], w);
    var t := Dispatched(read, s.active[0], w);
    t.(active := t.active[1..], sent := t.sent + [Sent(s.active[0], w.clock(s.readings))])
  }

  /** The loop of an execute call over the sorted active queue. */
  function Drained(s: State, w: World): State
    decreases |s.active|
  {
    if s.active == [] then s
    else if s.active[0].time > w.clock(s.readings) then s.(readings := s.readings + 1)
    else Drained(Turn(s, w), w)
  }

  /** A call of execute: the active queue is sorted and drained; once it is empty the queues change places. */
  function Executed(s: State, w: World): State
  {
    var t := Drained(s.(active := Sorted(s.active)), w);
    if t.active == [] then t.(active := t.waiting, waiting := []) else t
  }

  // ---------- Runs ----------

  datatype Op = Act(action: Action) | Dispatch(event: Event) | Execute

  function Step(s: State, op: Op, w: World): State
  {
    match op
    case Act(a) => Acted(s, a)
    case Dispatch(e) => Dispatched(s, e, w)
    case Execute => Executed(s, w)
  }

  function Run(s: State, ops: seq<Op>, w: World): State
    decreases |ops|
  {
    if ops == [] then s else Run(Step(s, ops[0], w), ops[1..], w)
  }
}
