// Events, their sorting criterion and the sort of a queue: the pure side of src/event/eventmanager.cpp.
module Events {
  import opened Sequences

  /** An event; id stands for its address. */
  datatype Event = Event(id: int, kind: int, priority: int, time: real)

  /** The criterion handed to the list's sort. */
  predicate SortEvent(lhs: Event, rhs: Event)
  {
    lhs.priority > rhs.priority || lhs.time < rhs.time
  }

  /** Higher priority but later timestamp: the criterion orders such a pair both ways. */
  predicate Conflict(a: Event, b: Event)
  {
    a.priority > b.priority && a.time > b.time
  }

  predicate NoConflict(q: seq<Event>)
  {
    forall i, j {:trigger Conflict(q[i], q[j])} :: 0 <= i < |q| && 0 <= j < |q| ==> !Conflict(q[i], q[j])
  }

  /** The order the criterion is meant to be: priority descending, then time ascending. */
  predicate Before(a: Event, b: Event)
  {
    a.priority > b.priority || (a.priority == b.priority && a.time < b.time)
  }

  predicate SameKey(a: Event, b: Event)
  {
    a.priority == b.priority && a.time == b.time
  }

  /** The criterion is a strict order on a queue exactly when the queue has no conflict; it is then the intended one. */
  lemma CriterionIsOrder(q: seq<Event>)
    ensures (forall i, j :: 0 <= i < |q| && 0 <= j < |q| ==> !(SortEvent(q[i], q[j]) && SortEvent(q[j], q[i])))
            <==> NoConflict(q)
    ensures NoConflict(q) ==>
      forall i, j :: 0 <= i < |q| && 0 <= j < |q| ==> (SortEvent(q[i], q[j]) <==> Before(q[i], q[j]))
  {
    if !NoConflict(q) {
      var i, j :| 0 <= i < |q| && 0 <= j < |q| && Conflict(q[i], q[j]);
      assert SortEvent(q[i], q[j]) && SortEvent(q[j], q[i]);
    }
    forall i, j | 0 <= i < |q| && 0 <= j < |q| && SortEvent(q[i], q[j]) && SortEvent(q[j], q[i])
      ensures Conflict(q[i], q[j]) || Conflict(q[j], q[i])
    {
    }
  }

  // ---------- The sort: a stable merge sort by the criterion ----------

  function Merged(a: seq<Event>, b: seq<Event>): (r: seq<Event>)
    ensures |r| == |a| + |b|
    decreases |a| + |b|
  {
    if a == [] then b
    else if b == [] then a
    else if SortEvent(b[0], a[0]) then [b[0]] + Merged(a, b[1..])
    else [a[0]] + Merged(a[1..], b)
  }

  function Sorted(q: seq<Event>): (r: seq<Event>)
    ensures |r| == |q|
    decreases |q|
  {
    if |q| <= 1 then q else Merged(Sorted(q[..|q| / 2]), Sorted(q[|q| / 2..]))
  }

  lemma HeadCounted(q: seq<Event>, rest: seq<Event>, e: Event)
    requires q == [e] + rest
    ensures multiset(q) == multiset{e} + multiset(rest)
  {
  }

  lemma {:induction false} MergedKeeps(a: seq<Event>, b: seq<Event>)
    ensures multiset(Merged(a, b)) == multiset(a) + multiset(b)
    decreases |a| + |b|
  {
    if a != [] && b != [] {
      if SortEvent(b[0], a[0]) {
        MergedKeeps(a, b[1..]);
        HeadCounted(b, b[1..], b[0]);
        HeadCounted(Merged(a, b), Merged(a, b[1..]), b[0]);
      } else {
        MergedKeeps(a[1..], b);
        HeadCounted(a, a[1..], a[0]);
        HeadCounted(Merged(a, b), Merged(a[1..], b), a[0]);
      }
    }
  }

  lemma HalvesMakeWhole(q: seq<Event>, m: nat)
    requires m <= |q|
    ensures multiset(q) == multiset(q[..m]) + multiset(q[m..])
  {
    assert q == q[..m] + q[m..];
  }

  /** Sorting loses and adds nothing, conflict or not. */
  lemma {:induction false} SortedKeeps(q: seq<Event>)
    ensures multiset(Sorted(q)) == multiset(q)
    decreases |q|
  {
    if |q| > 1 {
      var m := |q| / 2;
      SortedKeeps(q[..m]);
      SortedKeeps(q[m..]);
      MergedKeeps(Sorted(q[..m]), Sorted(q[m..]));
      HalvesMakeWhole(q, m);
    }
  }

  predicate InOrder(q: seq<Event>)
  {
    forall i, j {:trigger Before(q[j], q[i])} :: 0 <= i < j < |q| ==> !Before(q[j], q[i])
  }

  /** No event of q comes before e. */
  predicate Behind(q: seq<Event>, e: Event)
  {
    forall i :: 0 <= i < |q| ==> !Before(q[i], e)
  }

  /** No event of a is in conflict with an event of b. */
  predicate Agree(a: seq<Event>, b: seq<Event>)
  {
    forall i, j :: 0 <= i < |a| && 0 <= j < |b| ==> !Conflict(a[i], b[j]) && !Conflict(b[j], a[i])
  }

  lemma TailInOrder(q: seq<Event>, e: Event)
    requires InOrder(q) && q != [] && !Before(q[0], e)
    ensures InOrder(q[1..]) && Behind(q[1..], q[0]) && Behind(q, e)
  {
    forall i | 0 <= i < |q|
      ensures !Before(q[i], e)
    {
      if i > 0 { assert !Before(q[i], q[0]); }
    }
  }

  lemma BehindMerged(a: seq<Event>, b: seq<Event>, e: Event)
    requires Behind(a, e) && Behind(b, e)
    ensures Behind(Merged(a, b), e)
  {
    var r := Merged(a, b);
    MergedKeeps(a, b);
    forall j | 0 <= j < |r|
      ensures !Before(r[j], e)
    {
      assert r[j] in multiset(r);
      assert r[j] in multiset(a) || r[j] in multiset(b);
      assert r[j] in a || r[j] in b;
    }
  }

  lemma {:induction false} MergedInOrder(a: seq<Event>, b: seq<Event>)
    requires InOrder(a) && InOrder(b) && Agree(a, b)
    ensures InOrder(Merged(a, b))
    decreases |a| + |b|
  {
    if a != [] && b != [] {
      assert !Conflict(a[0], b[0]) && !Conflict(b[0], a[0]);
      if SortEvent(b[0], a[0]) {
        TailInOrder(a, b[0]);
        TailInOrder(b, b[0]);
        MergedInOrder(a, b[1..]);
        BehindMerged(a, b[1..], b[0]);
      } else {
        TailInOrder(a, a[0]);
        TailInOrder(b, a[0]);
        MergedInOrder(a[1..], b);
        BehindMerged(a[1..], b, a[0]);
      }
    }
  }

  /** Where an event of the sorted queue was queued. */
  lemma Origin(q: seq<Event>, i: nat) returns (x: nat)
    requires i < |q|
    ensures x < |q| && Sorted(q)[i] == q[x]
  {
    SortedKeeps(q);
    assert Sorted(q)[i] in multiset(Sorted(q));
    assert Sorted(q)[i] in q;
    x :| x < |q| && q[x] == Sorted(q)[i];
  }

  /** Sorted halves of a queue without conflicts agree. */
  lemma HalvesAgree(q: seq<Event>, m: nat)
    requires NoConflict(q) && m <= |q|
    ensures NoConflict(q[..m]) && NoConflict(q[m..])
    ensures Agree(Sorted(q[..m]), Sorted(q[m..]))
  {
    var a, b := Sorted(q[..m]), Sorted(q[m..]);
    forall i, j | 0 <= i < |a| && 0 <= j < |b|
      ensures !Conflict(a[i], b[j]) && !Conflict(b[j], a[i])
    {
      var x := Origin(q[..m], i);
      var y := Origin(q[m..], j);
    }
  }

  /** Without conflicts the sort puts a queue in order. */
  lemma {:induction false} SortedInOrder(q: seq<Event>)
    requires NoConflict(q)
    ensures InOrder(Sorted(q))
    decreases |q|
  {
    if |q| > 1 {
      var m := |q| / 2;
      HalvesAgree(q, m);
      SortedInOrder(q[..m]);
      SortedInOrder(q[m..]);
      MergedInOrder(Sorted(q[..m]), Sorted(q[m..]));
    }
  }

  /** The event at the head of a queue, if it ties with k. */
  function Tie(e: Event, k: Event): seq<Event>
  {
    if SameKey(e, k) then [e] else []
  }

  /** The events with the same priority and time as k, in queue order. */
  function Ties(q: seq<Event>, k: Event): seq<Event>
  {
    if q == [] then [] else Tie(q[0], k) + Ties(q[1..], k)
  }

  lemma {:induction false} TiesJoin(a: seq<Event>, b: seq<Event>, k: Event)
    ensures Ties(a + b, k) == Ties(a, k) + Ties(b, k)
  {
    if a == [] {
      assert a + b == b;
    } else {
      assert (a + b)[1..] == a[1..] + b;
      TiesJoin(a[1..], b, k);
    }
  }

  lemma TiesSplit(q: seq<Event>, m: nat, k: Event)
    requires m <= |q|
    ensures Ties(q, k) == Ties(q[..m], k) + Ties(q[m..], k)
  {
    TiesJoin(q[..m], q[m..], k);
    assert q == q[..m] + q[m..];
  }

  lemma {:induction false} NoTies(q: seq<Event>, k: Event)
    requires forall i :: 0 <= i < |q| ==> !SameKey(q[i], k)
    ensures Ties(q, k) == []
  {
    if q != [] { NoTies(q[1..], k); }
  }

  /** An event that goes ahead of a whole ordered queue has no tie in it. */
  lemma NoTiesBehind(a: seq<Event>, e: Event, k: Event)
    requires InOrder(a) && a != [] && Before(e, a[0]) && SameKey(e, k)
    ensures Ties(a, k) == []
  {
    forall i | 0 <= i < |a|
      ensures !SameKey(a[i], k)
    {
      if i > 0 { assert !Before(a[i], a[0]); }
    }
    NoTies(a, k);
  }

  lemma TiesAhead(e: Event, q: seq<Event>, k: Event)
    ensures Ties([e] + q, k) == Tie(e, k) + Ties(q, k)
  {
    assert ([e] + q)[1..] == q;
  }

  lemma TakeLeft(a: seq<Event>, b: seq<Event>, m: seq<Event>, k: Event)
    requires a != [] && Ties(m, k) == Ties(a[1..], k) + Ties(b, k)
    ensures Ties([a[0]] + m, k) == Ties(a, k) + Ties(b, k)
  {
    TiesAhead(a[0], m, k);
    Assoc(Tie(a[0], k), Ties(a[1..], k), Ties(b, k));
  }

  lemma TakeRight(a: seq<Event>, b: seq<Event>, m: seq<Event>, k: Event)
    requires b != [] && (SameKey(b[0], k) ==> Ties(a, k) == [])
    requires Ties(m, k) == Ties(a, k) + Ties(b[1..], k)
    ensures Ties([b[0]] + m, k) == Ties(a, k) + Ties(b, k)
  {
    TiesAhead(b[0], m, k);
    if !SameKey(b[0], k) {
      assert Ties(b, k) == Ties(b[1..], k);
    } else {
      assert Ties(m, k) == Ties(b[1..], k);
    }
  }

  lemma {:induction false} MergedTies(a: seq<Event>, b: seq<Event>, k: Event)
    requires InOrder(a) && InOrder(b) && Agree(a, b)
    ensures Ties(Merged(a, b), k) == Ties(a, k) + Ties(b, k)
    decreases |a| + |b|
  {
    if a != [] && b != [] {
      assert !Conflict(a[0], b[0]) && !Conflict(b[0], a[0]);
      if SortEvent(b[0], a[0]) {
        TailInOrder(b, b[0]);
        MergedTies(a, b[1..], k);
        if SameKey(b[0], k) { NoTiesBehind(a, b[0], k); }
        TakeRight(a, b, Merged(a, b[1..]), k);
      } else {
        TailInOrder(a, a[0]);
        MergedTies(a[1..], b, k);
        TakeLeft(a, b, Merged(a[1..], b), k);
      }
    }
  }

  /** Without conflicts, events of equal priority and time keep the order in which they were queued. */
  lemma {:induction false} SortedStable(q: seq<Event>, k: Event)
    requires NoConflict(q)
    ensures Ties(Sorted(q), k) == Ties(q, k)
    decreases |q|
  {
    if |q| > 1 {
      var m := |q| / 2;
      HalvesAgree(q, m);
      SortedStable(q[..m], k);
      SortedStable(q[m..], k);
      SortedInOrder(q[..m]);
      SortedInOrder(q[m..]);
      MergedTies(Sorted(q[..m]), Sorted(q[m..]), k);
      TiesSplit(q, m, k);
    }
  }

  lemma {:induction false} TieIn(q: seq<Event>, k: Event) returns (i: nat)
    requires Ties(q, k) != []
    ensures i < |q| && SameKey(q[i], k)
  {
    if SameKey(q[0], k) {
      i := 0;
    } else {
      i := TieIn(q[1..], k);
      i := i + 1;
    }
  }

  lemma FirstIsFirst(a: seq<Event>, b: seq<Event>)
    requires InOrder(a) && b != [] && Ties(a, b[0]) == Ties(b, b[0])
    ensures a != [] && !Before(b[0], a[0])
  {
    assert Ties(b, b[0])[0] == b[0];
    var i := TieIn(a, b[0]);
    if i > 0 { assert !Before(a[i], a[0]); }
  }

  lemma TiesTail(e: Event, a: seq<Event>, b: seq<Event>, k: Event)
    requires Ties([e] + a, k) == Ties([e] + b, k)
    ensures Ties(a, k) == Ties(b, k)
  {
    TiesAhead(e, a, k);
    TiesAhead(e, b, k);
    if SameKey(e, k) {
      assert ([e] + Ties(a, k))[1..] == Ties(a, k) && ([e] + Ties(b, k))[1..] == Ties(b, k);
    }
  }

  ghost predicate SameTies(a: seq<Event>, b: seq<Event>)
  {
    forall k :: Ties(a, k) == Ties(b, k)
  }

  lemma {:induction false} OrderAndTiesDecide(a: seq<Event>, b: seq<Event>)
    requires InOrder(a) && InOrder(b) && SameTies(a, b)
    ensures a == b
  {
    if a != [] || b != [] {
      if b != [] { FirstIsFirst(a, b); }
      if a != [] { FirstIsFirst(b, a); }
      assert Ties(a, a[0])[0] == a[0] && Ties(b, a[0])[0] == b[0];
      assert a == [a[0]] + a[1..] && b == [a[0]] + b[1..];
      forall k
        ensures Ties(a[1..], k) == Ties(b[1..], k)
      {
        assert Ties(a, k) == Ties(b, k);
        TiesTail(a[0], a[1..], b[1..], k);
      }
      OrderAndTiesDecide(a[1..], b[1..]);
    }
  }

  /** Without conflicts every stable sort gives the same queue, however it divides the work. */
  lemma AnyStableSort(q: seq<Event>, r: seq<Event>)
    requires NoConflict(q)
    ensures InOrder(r) && SameTies(r, q) <==> r == Sorted(q)
  {
    SortedInOrder(q);
    forall k
      ensures Ties(Sorted(q), k) == Ties(q, k)
    {
      SortedStable(q, k);
    }
    if InOrder(r) && SameTies(r, q) {
      OrderAndTiesDecide(r, Sorted(q));
    }
  }

  lemma SameEventsNoConflict(q: seq<Event>, r: seq<Event>)
    requires NoConflict(q) && multiset(r) == multiset(q)
    ensures NoConflict(r)
  {
    forall i, j | 0 <= i < |r| && 0 <= j < |r|
      ensures !Conflict(r[i], r[j])
    {
      assert r[i] in multiset(r) && r[j] in multiset(r);
      var x :| 0 <= x < |q| && q[x] == r[i];
      var y :| 0 <= y < |q| && q[y] == r[j];
      assert !Conflict(q[x], q[y]);
    }
  }

  lemma LateRest(q: seq<Event>, k: nat, now: real)
    requires InOrder(q) && NoConflict(q) && k < |q| && q[k].time > now
    ensures forall i :: k <= i < |q| ==> q[i].time > now
  {
    forall i | k < i < |q|
      ensures q[i].time > now
    {
      assert !Before(q[i], q[k]) && !Conflict(q[k], q[i]);
    }
  }

  /** Without conflicts, nothing behind an event that is not due is due. */
  lemma NothingDueBehind(q: seq<Event>, k: nat, now: real)
    requires NoConflict(q) && k < |q| && Sorted(q)[k].time > now
    ensures forall i :: k <= i < |q| ==> Sorted(q)[i].time > now
  {
    SortedInOrder(q);
    SortedKeeps(q);
    SameEventsNoConflict(q, Sorted(q));
    LateRest(Sorted(q), k, now);
  }

  /** Two events in conflict are sorted the wrong way round exactly when the later one was queued behind the other: then
      the one that is due first waits for the one that is not. */
  lemma ConflictBlocksDue(a: Event, b: Event)
    ensures Sorted([b, a])[0].time > Sorted([b, a])[1].time <==> Conflict(a, b)
    ensures Conflict(a, b) ==> Sorted([b, a]) == [a, b]
  {
    SortedPairIs(b, a);
  }

  lemma SortedPairIs(a: Event, b: Event)
    ensures Sorted([a, b]) == if SortEvent(b, a) then [b, a] else [a, b]
  {
    var q := [a, b];
    assert q[..1] == [a] && q[1..] == [b];
    assert Sorted([a]) == [a] && Sorted([b]) == [b];
    assert [a][1..] == [] && [b][1..] == [];
    assert Sorted(q) == Merged([a], [b]);
    assert Merged([a], []) == [a] && Merged([], [b]) == [b];
    assert [b] + [a] == [b, a] && [a] + [b] == [a, b];
  }

  // ---------- Which queues are safe in any order ----------

  /** Nothing due ever stands behind something that is not. */
  predicate TimesAscend(q: seq<Event>)
  {
    forall i, j :: 0 <= i < j < |q| ==> q[i].time <= q[j].time
  }

  /** x stands before y. */
  predicate Precedes(q: seq<Event>, x: Event, y: Event)
  {
    exists i, j :: 0 <= i < j < |q| && q[i] == x && q[j] == y
  }

  lemma InMerged(a: seq<Event>, b: seq<Event>, e: Event) returns (p: nat)
    requires e in a || e in b
    ensures p < |Merged(a, b)| && Merged(a, b)[p] == e
  {
    MergedKeeps(a, b);
    assert e in multiset(a) || e in multiset(b);
    assert e in multiset(Merged(a, b));
    p :| p < |Merged(a, b)| && Merged(a, b)[p] == e;
  }

  lemma PrecedesBehind(head: Event, q: seq<Event>, x: Event, y: Event)
    requires Precedes(q, x, y) || (head == x && y in q)
    ensures Precedes([head] + q, x, y)
  {
    var r := [head] + q;
    if Precedes(q, x, y) {
      var i, j :| 0 <= i < j < |q| && q[i] == x && q[j] == y;
      assert r[i + 1] == x && r[j + 1] == y;
    } else {
      var j :| 0 <= j < |q| && q[j] == y;
      assert r[0] == x && r[j + 1] == y;
    }
  }

  lemma PrecedesTail(q: seq<Event>, x: Event, y: Event)
    requires Precedes(q, x, y)
    ensures Precedes(q[1..], x, y) || (q[0] == x && y in q[1..])
  {
    var i, j :| 0 <= i < j < |q| && q[i] == x && q[j] == y;
    assert q[1..][j - 1] == y;
    if i > 0 { assert q[1..][i - 1] == x; }
  }

  /** A merge keeps the order of two events that come from the same side. */
  lemma {:induction false} MergedPrecedes(a: seq<Event>, b: seq<Event>, x: Event, y: Event)
    requires Precedes(a, x, y) || Precedes(b, x, y)
    ensures Precedes(Merged(a, b), x, y)
    decreases |a| + |b|
  {
    if a != [] && b != [] {
      if SortEvent(b[0], a[0]) {
        if Precedes(b, x, y) { PrecedesTail(b, x, y); }
        if Precedes(a, x, y) || Precedes(b[1..], x, y) {
          MergedPrecedes(a, b[1..], x, y);
        } else {
          var p := InMerged(a, b[1..], y);
        }
        PrecedesBehind(b[0], Merged(a, b[1..]), x, y);
      } else {
        if Precedes(a, x, y) { PrecedesTail(a, x, y); }
        if Precedes(a[1..], x, y) || Precedes(b, x, y) {
          MergedPrecedes(a[1..], b, x, y);
        } else {
          var p := InMerged(a[1..], b, y);
        }
        PrecedesBehind(a[0], Merged(a[1..], b), x, y);
      }
    }
  }

  /** A place in a queue of n events where the sort compares two neighbours with each other first. */
  function Neighbours(n: nat): (k: nat)
    requires n >= 2
    ensures k + 1 < n
  {
    if n == 2 then 0 else if n == 3 then 1 else Neighbours(n / 2)
  }

  /** Events in conflict at that place stay the wrong way round whatever else is in the queue. */
  lemma {:induction false} ConflictSurvives(q: seq<Event>)
    requires |q| >= 2
    ensures
      var k := Neighbours(|q|);
      Conflict(q[k + 1], q[k]) ==> Precedes(Sorted(q), q[k + 1], q[k])
    decreases |q|
  {
    var k, m := Neighbours(|q|), |q| / 2;
    var x, y := q[k + 1], q[k];
    if Conflict(x, y) {
      if |q| == 2 {
        assert q == [y, x];
        ConflictBlocksDue(x, y);
        assert Sorted(q)[0] == x && Sorted(q)[1] == y;
      } else {
        if |q| == 3 {
          assert q[m..] == [y, x];
          ConflictBlocksDue(x, y);
          assert Sorted(q[m..])[0] == x && Sorted(q[m..])[1] == y;
        } else {
          ConflictSurvives(q[..m]);
        }
        MergedPrecedes(Sorted(q[..m]), Sorted(q[m..]), x, y);
      }
    }
  }

  /** The events of a queue with two of them at the place where they meet first. */
  lemma PutTogether(q: seq<Event>, i: nat, j: nat) returns (r: seq<Event>)
    requires i < |q| && j < |q| && i != j
    ensures multiset(r) == multiset(q) && |r| == |q|
    ensures r[Neighbours(|q|)] == q[i] && r[Neighbours(|q|) + 1] == q[j]
  {
    var others := AllBut(q, i, j);
    var k := Neighbours(|q|);
    r := others[..k] + [q[i], q[j]] + others[k..];
    assert others == others[..k] + others[k..];
    assert multiset(r) == multiset(others[..k]) + multiset{q[i], q[j]} + multiset(others[k..]);
    assert multiset(others) == multiset(others[..k]) + multiset(others[k..]);
  }

  lemma AllBut(q: seq<Event>, i: nat, j: nat) returns (others: seq<Event>)
    requires i < |q| && j < |q| && i != j
    ensures |others| + 2 == |q| && multiset(others) + multiset{q[i], q[j]} == multiset(q)
  {
    var lo, hi := if i < j then i else j, if i < j then j else i;
    var most := AllButOne(q, hi);
    others := AllButOne(most, lo);
    assert most[lo] == q[lo];
  }

  lemma AllButOne(q: seq<Event>, k: nat) returns (others: seq<Event>)
    requires k < |q|
    ensures |others| + 1 == |q| && multiset(others) + multiset{q[k]} == multiset(q) && others[..k] == q[..k]
  {
    others := q[..k] + q[k + 1..];
    assert q == q[..k] + [q[k]] + q[k + 1..];
  }

  /** The times of the sorted queue never descend, in whatever order its events were queued. */
  ghost predicate AscendsInAnyOrder(q: seq<Event>) {
    forall r :: multiset(r) == multiset(q) ==> TimesAscend(Sorted(r))
  }

  /** Exactly the queues without conflicts can never keep a due event waiting behind one that is not, in whatever order
      their events were queued. */
  lemma SafeInAnyOrder(q: seq<Event>)
    ensures AscendsInAnyOrder(q) <==> NoConflict(q)
  {
    if NoConflict(q) {
      forall r | multiset(r) == multiset(q)
        ensures TimesAscend(Sorted(r))
      {
        SameEventsNoConflict(q, r);
        CalmAscends(r);
      }
    } else {
      var r := ConflictWaits(q);
    }
  }

  /** The events of a queue with a conflict, queued so that one of them waits behind a later one. */
  lemma ConflictWaits(q: seq<Event>) returns (r: seq<Event>)
    requires !NoConflict(q)
    ensures multiset(r) == multiset(q) && !TimesAscend(Sorted(r))
  {
    var j, i :| 0 <= i < |q| && 0 <= j < |q| && Conflict(q[j], q[i]);
    r := PutTogether(q, i, j);
    ConflictSurvives(r);
    NotAscending(Sorted(r), q[j], q[i]);
  }

  lemma CalmAscends(q: seq<Event>)
    requires NoConflict(q)
    ensures TimesAscend(Sorted(q))
  {
    SortedInOrder(q);
    SortedKeeps(q);
    SameEventsNoConflict(q, Sorted(q));
    OrderedAscends(Sorted(q));
  }

  lemma OrderedAscends(q: seq<Event>)
    requires InOrder(q) && NoConflict(q)
    ensures TimesAscend(q)
  {
    forall i, j | 0 <= i < j < |q|
      ensures q[i].time <= q[j].time
    {
      assert !Before(q[j], q[i]) && !Conflict(q[i], q[j]);
    }
  }

  lemma NotAscending(q: seq<Event>, x: Event, y: Event)
    requires Precedes(q, x, y) && x.time > y.time
    ensures !TimesAscend(q)
  {
    var i, j :| 0 <= i < j < |q| && q[i] == x && q[j] == y;
    assert q[i].time > q[j].time;
  }
}
