// What holds of the event manager over every run, whatever its listeners do.
module EventRuns {
  import opened Events
  import opened EventSteps
  import opened Sequences

  // ---------- Every queued event is in exactly one place ----------

  function EventsOf(q: seq<Sent>): (r: seq<Event>)
    ensures |r| == |q|
  {
    if q == [] then [] else [q[0].event] + EventsOf(q[1..])
  }

  lemma {:induction false} EventsOfJoin(a: seq<Sent>, b: seq<Sent>)
    ensures EventsOf(a + b) == EventsOf(a) + EventsOf(b)
  {
    if a == [] {
      assert a + b == b;
    } else {
      assert (a + b)[1..] == a[1..] + b;
      EventsOfJoin(a[1..], b);
    }
  }

  /** The events ever queued are those in the two queues, those sent and those dequeued, each counted once. */
  predicate Conserved(s: State)
  {
    s.queued == multiset(s.active) + multiset(s.waiting) + multiset(EventsOf(s.sent)) + s.dequeued
  }

  lemma Exchange(a: multiset<Event>, b: multiset<Event>, c: multiset<Event>, d: multiset<Event>,
                 x: multiset<Event>, y: multiset<Event>)
    requires x + y == a + c
    ensures x + b + y + d == a + b + c + d
  {
    assert x + b + y + d == (x + y) + b + d;
    assert a + b + c + d == (a + c) + b + d;
  }

  lemma DequeuedConserves(s: State, e: Event, all: bool)
    requires Conserved(s)
    ensures Conserved(Dequeued(s, e, all))
  {
    var left, gone := multiset(Left(s.waiting, e, all)), multiset(Gone(s.waiting, e, all));
    LeftOrGone(s.waiting, e, all);
    Exchange(multiset(s.waiting), multiset(s.active) + multiset(EventsOf(s.sent)), s.dequeued, multiset{},
             left, gone + s.dequeued);
  }

  lemma ActedConserves(s: State, a: Action)
    requires Conserved(s)
    ensures Conserved(Acted(s, a))
  {
    match a
    case DoQueue(e) =>
    case DoDequeue(e, all) => DequeuedConserves(s, e, all);
    case DoConnect(_, _) =>
    case DoDisconnect(_, _) =>
  }

  lemma {:induction false} PerformedConserves(s: State, actions: seq<Action>)
    requires Conserved(s)
    ensures Conserved(Performed(s, actions))
    decreases |actions|
  {
    if actions != [] {
      ActedConserves(s, actions[0]);
      PerformedConserves(Acted(s, actions[0]), actions[1..]);
    }
  }

  lemma {:induction false} DeliveredConserves(s: State, done: seq<int>, todo: seq<int>, e: Event, w: World)
    requires Conserved(s)
    ensures Conserved(Delivered(s, done, todo, e, w))
    decreases |todo|
  {
    if todo != [] {
      if todo[0] == NULL_LISTENER {
        DeliveredConserves(s.(listeners := s.listeners[e.kind := done + todo[1..]]), done, todo[1..], e, w);
      } else {
        PerformedConserves(s, w.react(todo[0], e, |s.calls|).actions);
        DeliveredConserves(Called(s, todo[0], e, w), done + [todo[0]], todo[1..], e, w);
      }
    }
  }

  lemma DispatchedConserves(s: State, e: Event, w: World)
    requires Conserved(s)
    ensures Conserved(Dispatched(s, e, w))
  {
    if e.kind in s.listeners {
      DeliveredConserves(s.(invalid := false, dispatchType := e.kind), [], s.listeners[e.kind], e, w);
    }
  }

  lemma MoveHead(q: seq<Event>, sent: seq<Sent>, now: real)
    requires q != []
    ensures EventsOf(sent + [Sent(q[0], now)]) == EventsOf(sent) + [q[0]]
    ensures multiset(q[1..]) + multiset(EventsOf(sent + [Sent(q[0], now)])) == multiset(q) + multiset(EventsOf(sent))
  {
    EventsOfJoin(sent, [Sent(q[0], now)]);
    assert EventsOf([Sent(q[0], now)]) == [q[0]];
    assert q == [q[0]] + q[1..];
  }

  /** Moving the head of the active queue to the events sent keeps the count. */
  lemma MoveConserves(t: State, now: real)
    requires Conserved(t) && t.active != []
    ensures Conserved(t.(active := t.active[1..], sent := t.sent + [Sent(t.active[0], now)]))
  {
    var h := t.(active := t.active[1..], sent := t.sent + [Sent(t.active[0], now)]);
    MoveHead(t.active, t.sent, now);
    Exchange(multiset(t.active), multiset(t.waiting), multiset(EventsOf(t.sent)), t.dequeued,
             multiset(h.active), multiset(EventsOf(h.sent)));
  }

  lemma TurnConserves(s: State, w: World)
    requires Conserved(s) && s.active != []
    ensures Conserved(Turn(s, w))
  {
    var read := s.(readings := s.readings + 1);
    DispatchedConserves(read, s.active[0], w);
    DispatchedInTurn(read, s.active[0], w);
    MoveConserves(Dispatched(read, s.active[0], w), w.clock(s.readings));
  }

  lemma {:induction false} DrainedConserves(s: State, w: World)
    requires Conserved(s)
    ensures Conserved(Drained(s, w))
    decreases |s.active|
  {
    if s.active != [] && s.active[0].time <= w.clock(s.readings) {
      TurnConserves(s, w);
      DrainedConserves(Turn(s, w), w);
    }
  }

  lemma ExecutedConserves(s: State, w: World)
    requires Conserved(s)
    ensures Conserved(Executed(s, w))
  {
    SortedKeeps(s.active);
    DrainedConserves(s.(active := Sorted(s.active)), w);
  }

  // ---------- What one execute call sends ----------

  /** From s to t the first k events of the active queue were sent; the next one, if any, is ahead of the last clock
      reading. */
  predicate SendsFirst(s: State, t: State, k: nat, w: World)
  {
    && k <= |s.active|
    && t.active == s.active[k..]
    && EventsOf(t.sent) == EventsOf(s.sent) + s.active[..k]
    && (k < |s.active| ==> t.readings > 0 && s.active[k].time > w.clock(t.readings - 1))
  }

  lemma SendsOneMore(s: State, u: State, t: State, k: nat, w: World, now: real)
    requires s.active != [] && u.active == s.active[1..] && u.sent == s.sent + [Sent(s.active[0], now)]
    requires SendsFirst(u, t, k, w)
    ensures SendsFirst(s, t, k + 1, w)
  {
    PrefixGrows(s.sent, s.active, now, k);
  }

  /** The loop sends a prefix of the queue it drains and leaves the rest; it ends early only at an event whose time is
      ahead of the last clock reading. */
  lemma {:induction false} DrainedPrefix(s: State, w: World) returns (k: nat)
    ensures SendsFirst(s, Drained(s, w), k, w)
    decreases |s.active|
  {
    if s.active == [] || s.active[0].time > w.clock(s.readings) {
      k := 0;
    } else {
      var u := Turn(s, w);
      k := DrainedPrefix(u, w);
      SendsOneMore(s, u, Drained(s, w), k, w, w.clock(s.readings));
      k := k + 1;
    }
  }

  lemma PrefixGrows(sent: seq<Sent>, q: seq<Event>, now: real, k: nat)
    requires q != [] && k <= |q[1..]|
    ensures q[1..][k..] == q[k + 1..]
    ensures EventsOf(sent + [Sent(q[0], now)]) + q[1..][..k] == EventsOf(sent) + q[..k + 1]
  {
    MoveHead(q, sent, now);
    HeadFirst(q, k);
    Assoc(EventsOf(sent), [q[0]], q[1..][..k]);
  }

  lemma HeadFirst(q: seq<Event>, k: nat)
    requires q != [] && k <= |q[1..]|
    ensures q[1..][k..] == q[k + 1..] && q[..k + 1] == [q[0]] + q[1..][..k]
  {
  }

  /** The events sent by an execute call are a prefix, in the order of the criterion, of the events that were in the
      active queue when it began. So nothing queued during the call is sent by it. The queues change places exactly
      when the whole queue was sent. */
  lemma ExecutedPrefix(s: State, w: World) returns (k: nat)
    ensures
      var t, q := Executed(s, w), Sorted(s.active);
      && k <= |q|
      && EventsOf(t.sent) == EventsOf(s.sent) + q[..k]
      && (k < |q| ==> t.active == q[k..] && t.readings > 0 && q[k].time > w.clock(t.readings - 1))
      && (k == |q| ==> t.waiting == [])
  {
    k := DrainedPrefix(s.(active := Sorted(s.active)), w);
  }

  lemma NotInPrefix(q: seq<Event>, k: nat, e: Event)
    requires k <= |q| && e !in multiset(q)
    ensures e !in q[..k]
  {
    assert q == q[..k] + q[k..];
  }

  /** An event that is not in the active queue when an execute call begins is not sent by it, however long it has been
      due: it waits in the other queue until the active one is empty, and for the call after that. */
  lemma OtherQueueWaits(s: State, w: World, e: Event)
    requires e !in s.active
    ensures multiset(EventsOf(Executed(s, w).sent))[e] == multiset(EventsOf(s.sent))[e]
  {
    var q := Sorted(s.active);
    var k := ExecutedPrefix(s, w);
    SortedKeeps(s.active);
    assert e !in multiset(q);
    NotInPrefix(q, k, e);
    assert multiset(EventsOf(s.sent) + q[..k])[e] == multiset(EventsOf(s.sent))[e] + multiset(q[..k])[e];
  }

  /** Without conflicts the events come out by descending priority, then ascending time, ties first in first out; and
      an execute call that stops early leaves no event in the active queue that is due at its last clock reading. */
  lemma ExecutedInOrder(s: State, w: World) returns (k: nat)
    requires NoConflict(s.active)
    ensures
      var t := Executed(s, w);
      && k <= |s.active|
      && EventsOf(t.sent) == EventsOf(s.sent) + Sorted(s.active)[..k]
      && InOrder(Sorted(s.active)) && SameTies(Sorted(s.active), s.active)
      && (k < |s.active| ==>
            && t.active == Sorted(s.active)[k..] && t.readings > 0
            && forall i :: 0 <= i < |t.active| ==> t.active[i].time > w.clock(t.readings - 1))
  {
    var q := Sorted(s.active);
    k := ExecutedPrefix(s, w);
    AnyStableSort(s.active, q);
    if k < |q| {
      NothingDueBehind(s.active, k, w.clock(Executed(s, w).readings - 1));
    }
  }

  // ---------- No event is sent before its time ----------

  /** Every event sent was due at the clock reading that let it go. */
  predicate Punctual(s: State)
  {
    forall i :: 0 <= i < |s.sent| ==> s.sent[i].event.time <= s.sent[i].at
  }

  lemma {:induction false} DrainedPunctual(s: State, w: World)
    requires Punctual(s)
    ensures Punctual(Drained(s, w))
    decreases |s.active|
  {
    if s.active != [] && s.active[0].time <= w.clock(s.readings) {
      DrainedPunctual(Turn(s, w), w);
    }
  }

  // ---------- Listeners ----------

  predicate ListsDistinct(s: State)
  {
    forall kind :: kind in s.listeners ==> Distinct(s.listeners[kind])
  }

  lemma ActedKeepsLists(s: State, a: Action)
    requires ListsDistinct(s)
    ensures ListsDistinct(Acted(s, a))
  {
    match a
    case DoQueue(e) =>
    case DoDequeue(e, all) =>
    case DoConnect(_, _) =>
    case DoDisconnect(l, kind) =>
      if kind in s.listeners { WithoutKeepsDistinct(s.listeners[kind], l); }
  }

  lemma {:induction false} PerformedKeepsLists(s: State, actions: seq<Action>)
    requires ListsDistinct(s)
    ensures ListsDistinct(Performed(s, actions))
    decreases |actions|
  {
    if actions != [] {
      ActedKeepsLists(s, actions[0]);
      PerformedKeepsLists(Acted(s, actions[0]), actions[1..]);
    }
  }

  /** An action that touches the listeners of a type: a connection that succeeds, or a disconnection from a type that
      ever had a listener, even when it removes nothing. */
  predicate Touches(s: State, a: Action, kind: int)
  {
    match a
    case DoQueue(_) => false
    case DoDequeue(_, _) => false
    case DoConnect(l, k) => k == kind && !IsConnected(s, l, k)
    case DoDisconnect(_, k) => k == kind && k in s.listeners
  }

  predicate Touched(s: State, actions: seq<Action>, kind: int)
    decreases |actions|
  {
    actions != [] && (Touches(s, actions[0], kind) || Touched(Acted(s, actions[0]), actions[1..], kind))
  }

  /** Disconnecting a listener that was not connected changes no list, and still ends the dispatch of that type. */
  lemma StrangerEndsDispatch(s: State, listener: int, kind: int)
    requires kind in s.listeners && listener !in s.listeners[kind]
    ensures Disconnected(s, listener, kind).listeners == s.listeners
    ensures Touches(s, DoDisconnect(listener, kind), kind)
  {
    WithoutStranger(s.listeners[kind], listener);
  }

  /** A call invalidates the dispatch exactly when it touches the listeners of the type being dispatched; otherwise
      the list under the iterator is as it was. */
  lemma {:induction false} InvalidWhenTouched(s: State, actions: seq<Action>)
    ensures
      var t := Performed(s, actions);
      && (t.invalid <==> s.invalid || Touched(s, actions, s.dispatchType))
      && (!Touched(s, actions, s.dispatchType) && s.dispatchType in s.listeners ==>
            s.dispatchType in t.listeners && t.listeners[s.dispatchType] == s.listeners[s.dispatchType])
    decreases |actions|
  {
    if actions != [] { InvalidWhenTouched(Acted(s, actions[0]), actions[1..]); }
  }

  /** The walk stands between done and todo, and nothing but the walk has changed the list. */
  predicate Walking(s: State, done: seq<int>, todo: seq<int>, kind: int)
  {
    && !s.invalid && s.dispatchType == kind
    && kind in s.listeners && s.listeners[kind] == done + todo
  }

  /** A call that neither handles the event nor touches the list leaves the iterator on the next listener. */
  lemma CallKeepsWalking(s: State, done: seq<int>, todo: seq<int>, e: Event, w: World)
    requires Walking(s, done, todo, e.kind) && todo != []
    ensures
      var t := Called(s, todo[0], e, w);
      var c := t.calls[|t.calls| - 1];
      && (c.changed <==> Touched(s, w.react(todo[0], e, |s.calls|).actions, e.kind))
      && (!Stops(c) ==> Walking(t, done + [todo[0]], todo[1..], e.kind))
  {
    var actions := w.react(todo[0], e, |s.calls|).actions;
    InvalidWhenTouched(s, actions);
    PerformedInTurn(s, actions);
    OneOn(done, todo);
  }

  lemma OneOn(done: seq<int>, todo: seq<int>)
    requires todo != []
    ensures done + todo == (done + [todo[0]]) + todo[1..]
  {
  }

  lemma EraseKeepsWalking(s: State, done: seq<int>, todo: seq<int>, kind: int)
    requires Walking(s, done, todo, kind) && todo != [] && ListsDistinct(s)
    ensures
      var t := s.(listeners := s.listeners[kind := done + todo[1..]]);
      Walking(t, done, todo[1..], kind) && ListsDistinct(t)
  {
    var q := s.listeners[kind];
    var r := done + todo[1..];
    forall i, j | 0 <= i < j < |r|
      ensures r[i] != r[j]
    {
      var x, y := if i < |done| then i else i + 1, if j < |done| then j else j + 1;
      assert r[i] == q[x] && r[j] == q[y];
    }
  }

  lemma {:induction false} DeliveredKeepsLists(s: State, done: seq<int>, todo: seq<int>, e: Event, w: World)
    requires Walking(s, done, todo, e.kind) && ListsDistinct(s)
    ensures ListsDistinct(Delivered(s, done, todo, e, w))
    decreases |todo|
  {
    if todo != [] {
      if todo[0] == NULL_LISTENER {
        EraseKeepsWalking(s, done, todo, e.kind);
        DeliveredKeepsLists(s.(listeners := s.listeners[e.kind := done + todo[1..]]), done, todo[1..], e, w);
      } else {
        var t := Called(s, todo[0], e, w);
        PerformedKeepsLists(s, w.react(todo[0], e, |s.calls|).actions);
        CallKeepsWalking(s, done, todo, e, w);
        if !Stops(t.calls[|t.calls| - 1]) { DeliveredKeepsLists(t, done + [todo[0]], todo[1..], e, w); }
      }
    }
  }

  lemma DispatchedKeepsLists(s: State, e: Event, w: World)
    requires ListsDistinct(s)
    ensures ListsDistinct(Dispatched(s, e, w))
  {
    if e.kind in s.listeners {
      DeliveredKeepsLists(s.(invalid := false, dispatchType := e.kind), [], s.listeners[e.kind], e, w);
    }
  }

  // ---------- What one dispatch calls ----------

  /** cs are calls with the event e of the leading non-null listeners of q, in order; only the last may end the walk,
      and if it does not, all of them were called. */
  predicate Prefix(cs: seq<Call>, q: seq<int>, e: Event)
    decreases |q|
  {
    if q == [] then cs == []
    else if q[0] == NULL_LISTENER then Prefix(cs, q[1..], e)
    else
      && cs != [] && cs[0].listener == q[0] && cs[0].event == e
      && (if Stops(cs[0]) then |cs| == 1 else Prefix(cs[1..], q[1..], e))
  }

  lemma {:induction false} DeliveredPrefix(s: State, done: seq<int>, todo: seq<int>, e: Event, w: World)
    ensures
      var t := Delivered(s, done, todo, e, w);
      s.calls <= t.calls && Prefix(t.calls[|s.calls|..], todo, e)
    decreases |todo|
  {
    if todo != [] {
      if todo[0] == NULL_LISTENER {
        DeliveredPrefix(s.(listeners := s.listeners[e.kind := done + todo[1..]]), done, todo[1..], e, w);
      } else {
        var t := Called(s, todo[0], e, w);
        var c := t.calls[|s.calls|];
        if Stops(c) {
          assert t.calls[|s.calls|..] == [c];
        } else {
          DeliveredPrefix(t, done + [todo[0]], todo[1..], e, w);
          var u := Delivered(t, done + [todo[0]], todo[1..], e, w);
          assert u.calls[|s.calls|..][1..] == u.calls[|t.calls|..];
        }
      }
    }
  }

  /** A dispatch calls a prefix of the event type's listeners in the order of their connection, each at most once,
      ending at the first that handles the event or touches that type's listeners. */
  lemma DispatchedPrefix(s: State, e: Event, w: World)
    requires ListsDistinct(s)
    ensures
      var t := Dispatched(s, e, w);
      var q := if e.kind in s.listeners then s.listeners[e.kind] else [];
      && s.calls <= t.calls && Prefix(t.calls[|s.calls|..], q, e)
      && (forall i, j :: |s.calls| <= i < j < |t.calls| ==> t.calls[i].listener != t.calls[j].listener)
      && (forall i :: |s.calls| <= i < |t.calls| - 1 ==> !Stops(t.calls[i]))
  {
    var t := Dispatched(s, e, w);
    var q := if e.kind in s.listeners then s.listeners[e.kind] else [];
    if e.kind in s.listeners {
      DeliveredPrefix(s.(invalid := false, dispatchType := e.kind), [], q, e, w);
    }
    var cs := t.calls[|s.calls|..];
    PrefixOnce(cs, q, e);
    forall i, j | |s.calls| <= i < j < |t.calls|
      ensures t.calls[i].listener != t.calls[j].listener
    {
      assert cs[i - |s.calls|].listener != cs[j - |s.calls|].listener;
    }
    forall i | |s.calls| <= i < |t.calls| - 1
      ensures !Stops(t.calls[i])
    {
      assert !Stops(cs[i - |s.calls|]);
    }
  }

  lemma {:induction false} PrefixOnce(cs: seq<Call>, q: seq<int>, e: Event)
    requires Prefix(cs, q, e) && Distinct(q)
    ensures forall i :: 0 <= i < |cs| ==> cs[i].listener in q
    ensures forall i, j :: 0 <= i < j < |cs| ==> cs[i].listener != cs[j].listener
    ensures forall i :: 0 <= i < |cs| - 1 ==> !Stops(cs[i])
    decreases |q|
  {
    if q != [] {
      if q[0] == NULL_LISTENER {
        PrefixOnce(cs, q[1..], e);
      } else if !Stops(cs[0]) {
        PrefixOnce(cs[1..], q[1..], e);
        forall i | 0 < i < |cs|
          ensures cs[i].listener in q[1..] && cs[i].listener != q[0]
        {
          assert cs[i] == cs[1..][i - 1];
        }
      }
    }
  }

  // ---------- Whole runs ----------

  predicate Good(s: State)
  {
    Conserved(s) && Punctual(s) && ListsDistinct(s)
  }

  lemma {:induction false} DrainedKeepsLists(s: State, w: World)
    requires ListsDistinct(s)
    ensures ListsDistinct(Drained(s, w))
    decreases |s.active|
  {
    if s.active != [] && s.active[0].time <= w.clock(s.readings) {
      DispatchedKeepsLists(s.(readings := s.readings + 1), s.active[0], w);
      DrainedKeepsLists(Turn(s, w), w);
    }
  }

  lemma ActKeeps(s: State, a: Action)
    requires Good(s)
    ensures Good(Acted(s, a))
  {
    ActedConserves(s, a);
    ActedKeepsLists(s, a);
  }

  lemma DispatchKeeps(s: State, e: Event, w: World)
    requires Good(s)
    ensures Good(Dispatched(s, e, w))
  {
    DispatchedConserves(s, e, w);
    DispatchedKeepsLists(s, e, w);
    DispatchedInTurn(s, e, w);
  }

  lemma ExecuteKeeps(s: State, w: World)
    requires Good(s)
    ensures Good(Executed(s, w))
  {
    var sorted := s.(active := Sorted(s.active));
    ExecutedConserves(s, w);
    DrainedPunctual(sorted, w);
    DrainedKeepsLists(sorted, w);
  }

  /** Over every run: each event queued is in exactly one place (sent, dequeued, or in one of the two queues), no
      event is sent before its time, and no listener is connected twice to one type. */
  lemma {:induction false} RunKeeps(s: State, ops: seq<Op>, w: World)
    requires Good(s)
    ensures Good(Run(s, ops, w))
    decreases |ops|
  {
    if ops != [] {
      StepKeeps(s, ops[0], w);
      RunKeeps(Step(s, ops[0], w), ops[1..], w);
    }
  }

  lemma StepKeeps(s: State, op: Op, w: World)
    requires Good(s)
    ensures Good(Step(s, op, w))
  {
    match op {
      case Act(a) => ActKeeps(s, a);
      case Dispatch(e) => DispatchKeeps(s, e, w);
      case Execute => ExecuteKeeps(s, w);
    }
  }

  /** In a run of a new manager, an event is sent at most as often as it was queued; one that was queued once and
      never dequeued has either been sent once or is still in one queue. */
  lemma SentAtMostOnce(ops: seq<Op>, w: World, e: Event)
    ensures
      var t := Run(FRESH, ops, w);
      && multiset(EventsOf(t.sent))[e] <= t.queued[e]
      && (t.queued[e] == 1 && e !in t.dequeued ==>
            1 == multiset(EventsOf(t.sent))[e] + multiset(t.active)[e] + multiset(t.waiting)[e])
  {
    RunKeeps(FRESH, ops, w);
  }
}
