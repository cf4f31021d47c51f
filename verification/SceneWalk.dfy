// The walk over the layers of a scene (src/game/scene.cpp): which layers it visits, and what is left of the list.
module SceneWalk {
  import opened Sequences

  /** What a layer may do to its scene while it is updated: push a new layer on the front, or mark a layer to be
      removed. */
  datatype Deed = Push | Kill(layer: nat)

  /** The layers, by what they do when updated (the number counts the visits made before) and by their flags. */
  datatype Cast = Cast(deeds: (nat, nat) -> seq<Deed>, rendersAlone: nat -> bool, updatesAlone: nat -> bool)

  datatype Visit = Visit(layer: nat, removed: bool)

  /** The list of layers, front first; the number the next new layer gets; the layers marked; the visits made. */
  datatype Stage = Stage(layers: seq<nat>, next: nat, zombies: set<nat>, visits: seq<Visit>)

  function Did(s: Stage, d: Deed): Stage
  {
    match d
    case Push => s.(layers := [s.next] + s.layers, next := s.next + 1)
    case Kill(l) => s.(zombies := s.zombies + {l})
  }

  function DidAll(s: Stage, ds: seq<Deed>): Stage
    decreases |ds|
  {
    if ds == [] then s else DidAll(Did(s, ds[0]), ds[1..])
  }

  /** A layer marked is removed, any other is updated. */
  function Visited(s: Stage, l: nat, c: Cast): Stage
  {
    var t := if l in s.zombies then s.(layers := Without(s.layers, l)) else DidAll(s, c.deeds(l, |s.visits|));
    t.(visits := s.visits + [Visit(l, l in s.zombies)])
  }

  /** The layers of q are visited from the last to the first. */
  function Walked(s: Stage, q: seq<nat>, c: Cast): Stage
    decreases |q|
  {
    if q == [] then s else Walked(Visited(s, q[|q| - 1], c), q[..|q| - 1], c)
  }

  /** The number of layers down to the first that blocks those behind it; all of them when none does. */
  function Depth(q: seq<nat>, blocks: nat -> bool): (n: nat)
    ensures n <= |q| && (q != [] ==> n > 0)
  {
    if q == [] then 0 else if blocks(q[0]) then 1 else 1 + Depth(q[1..], blocks)
  }

  /** The depth ends at the first blocking layer, or at the last layer. */
  lemma {:induction false} DepthIsFirst(q: seq<nat>, blocks: nat -> bool)
    ensures
      var n := Depth(q, blocks);
      && (forall i :: 0 <= i < n - 1 ==> !blocks(q[i]))
      && (n == |q| || blocks(q[n - 1]))
  {
    if q != [] && !blocks(q[0]) {
      DepthIsFirst(q[1..], blocks);
      forall i | 0 < i < Depth(q, blocks) - 1
        ensures !blocks(q[i])
      {
        assert q[1..][i - 1] == q[i];
      }
    }
  }

  function Updated(s: Stage, c: Cast): Stage
  {
    Walked(s, s.layers[..Depth(s.layers, c.updatesAlone)], c)
  }

  // ---------- What an update does ----------

  /** Each layer is in the list once, and new layers will be new. */
  predicate Sound(s: Stage)
  {
    Distinct(s.layers) && forall i :: 0 <= i < |s.layers| ==> s.layers[i] < s.next
  }

  /** The layers visited and not removed, in list order. */
  function Survivors(vs: seq<Visit>): seq<nat>
  {
    if vs == [] then [] else Survivors(vs[1..]) + (if vs[0].removed then [] else [vs[0].layer])
  }

  lemma {:induction false} DeedsPushInFront(s: Stage, ds: seq<Deed>) returns (news: seq<nat>)
    requires Sound(s)
    ensures
      var t := DidAll(s, ds);
      && Sound(t) && t.layers == news + s.layers && (forall i :: 0 <= i < |news| ==> s.next <= news[i] < t.next)
      && s.next <= t.next && s.zombies <= t.zombies && t.visits == s.visits
    decreases |ds|
  {
    if ds == [] {
      news := [];
    } else {
      var u := Did(s, ds[0]);
      DeedKeeps(s, ds[0]);
      news := DeedsPushInFront(u, ds[1..]);
      if ds[0].Push? {
        assert news + ([s.next] + s.layers) == (news + [s.next]) + s.layers;
        news := news + [s.next];
      }
    }
  }

  lemma DeedKeeps(s: Stage, d: Deed)
    requires Sound(s)
    ensures Sound(Did(s, d))
  {
  }

  /** Removing a layer from a list that has it once leaves the others in their order. */
  lemma {:induction false} WithoutOne(p: seq<nat>, x: nat, q: seq<nat>)
    requires Distinct(p + [x] + q)
    ensures Without(p + [x] + q, x) == p + q
  {
    var all := p + [x] + q;
    if p == [] {
      assert all == [x] + q && all[1..] == q;
      forall i | 0 <= i < |q|
        ensures q[i] != x
      {
        assert all[i + 1] == q[i] && all[0] == x;
      }
      WithoutStranger(q, x);
    } else {
      assert all[1..] == p[1..] + [x] + q;
      assert all[0] == p[0] && all[|p|] == x;
      TailDistinct(all);
      WithoutOne(p[1..], x, q);
      assert p + q == [p[0]] + (p[1..] + q);
    }
  }

  lemma TailDistinct(q: seq<nat>)
    requires Distinct(q) && q != []
    ensures Distinct(q[1..])
  {
  }

  lemma WithoutKeepsSound(s: Stage, x: nat)
    requires Sound(s)
    ensures Sound(s.(layers := Without(s.layers, x)))
  {
    WithoutKeepsDistinct(s.layers, x);
    var r := Without(s.layers, x);
    forall i | 0 <= i < |r|
      ensures r[i] < s.next
    {
      assert r[i] in r;
    }
  }

  /** One visit, of the layer x between those to come (front, q) and those behind it. */
  lemma VisitResult(s: Stage, p: seq<nat>, x: nat, behind: seq<nat>, c: Cast) returns (news: seq<nat>)
    requires Sound(s) && s.layers == p + [x] + behind
    ensures
      var t := Visited(s, x, c);
      && Sound(t) && s.next <= t.next && s.zombies <= t.zombies
      && t.visits == s.visits + [Visit(x, x in s.zombies)]
      && t.layers == news + p + (if x in s.zombies then [] else [x]) + behind
      && (forall i :: 0 <= i < |news| ==> s.next <= news[i] < t.next)
  {
    if x in s.zombies {
      news := [];
      WithoutKeepsSound(s, x);
      WithoutOne(p, x, behind);
      assert [] + p + [] + behind == p + behind;
    } else {
      news := DeedsPushInFront(s, c.deeds(x, |s.visits|));
      assert news + (p + [x] + behind) == news + p + [x] + behind;
    }
  }

  lemma {:induction false} KillsMark(s: Stage, ds: seq<Deed>, x: nat)
    ensures x in DidAll(s, ds).zombies <==> x in s.zombies || Kill(x) in ds
    decreases |ds|
  {
    if ds != [] {
      KillsMark(Did(s, ds[0]), ds[1..], x);
      assert ds == [ds[0]] + ds[1..];
    }
  }

  /** An update of v's layer, with n visits before it, marks layer x. */
  predicate Marks(v: Visit, n: nat, x: nat, c: Cast)
  {
    !v.removed && Kill(x) in c.deeds(v.layer, n)
  }

  /** One of the first k visits of vs, with n visits before them, marks layer x. */
  predicate MarkedOnTheWay(vs: seq<Visit>, k: nat, n: nat, x: nat, c: Cast)
    requires k <= |vs|
  {
    exists j :: 0 <= j < k && Marks(vs[j], n + j, x, c)
  }

  /** Whether layer x was marked before visit k of the walk that began at s: already then, or by a layer updated on the
      way. */
  predicate Marked(s: Stage, c: Cast, vs: seq<Visit>, k: nat, x: nat)
    requires k <= |vs|
  {
    x in s.zombies || MarkedOnTheWay(vs, k, |s.visits|, x, c)
  }

  /** The visits of a walk over q: its layers from last to first, each once. A layer is removed exactly when it was
      marked before its visit. */
  ghost predicate Visits(vs: seq<Visit>, q: seq<nat>, s: Stage, t: Stage, c: Cast)
  {
    && |vs| == |q| && t.visits == s.visits + vs
    && (forall k :: 0 <= k < |vs| ==> vs[k].layer == q[|q| - 1 - k])
    && (forall k :: 0 <= k < |vs| ==> (vs[k].removed <==> Marked(s, c, vs, k, vs[k].layer)))
  }

  lemma MarksShift(v: Visit, more: seq<Visit>, k: nat, n: nat, x: nat, c: Cast)
    requires k <= |more|
    ensures MarkedOnTheWay([v] + more, k + 1, n, x, c) <==> Marks(v, n, x, c) || MarkedOnTheWay(more, k, n + 1, x, c)
  {
    var vs := [v] + more;
    if MarkedOnTheWay(vs, k + 1, n, x, c) && !Marks(v, n, x, c) {
      var j :| 0 <= j < k + 1 && Marks(vs[j], n + j, x, c);
      assert j > 0 && vs[j] == more[j - 1] && Marks(more[j - 1], (n + 1) + (j - 1), x, c);
    }
    if Marks(v, n, x, c) { assert Marks(vs[0], n + 0, x, c); }
    if MarkedOnTheWay(more, k, n + 1, x, c) {
      var j :| 0 <= j < k && Marks(more[j], (n + 1) + j, x, c);
      assert vs[j + 1] == more[j] && Marks(vs[j + 1], n + (j + 1), x, c);
    }
  }

  lemma VisitMarks(s: Stage, x: nat, c: Cast, y: nat)
    ensures y in Visited(s, x, c).zombies <==> y in s.zombies || Marks(Visit(x, x in s.zombies), |s.visits|, y, c)
  {
    if x !in s.zombies { KillsMark(s, c.deeds(x, |s.visits|), y); }
  }

  /** The marks before the visits that follow a first one. */
  lemma MarkedLater(s: Stage, x: nat, c: Cast, more: seq<Visit>, k: nat, y: nat)
    requires k <= |more|
    ensures Marked(Visited(s, x, c), c, more, k, y) <==> Marked(s, c, [Visit(x, x in s.zombies)] + more, k + 1, y)
  {
    DeedsKeepVisits(s, x, c);
    VisitMarks(s, x, c, y);
    MarksShift(Visit(x, x in s.zombies), more, k, |s.visits|, y, c);
  }

  lemma {:induction false} WalkResult(s: Stage, front: seq<nat>, q: seq<nat>, behind: seq<nat>, c: Cast)
    returns (news: seq<nat>, vs: seq<Visit>)
    requires Sound(s) && s.layers == front + q + behind
    ensures
      var t := Walked(s, q, c);
      && Sound(t) && s.next <= t.next && s.zombies <= t.zombies && Visits(vs, q, s, t, c)
      && t.layers == news + front + Survivors(vs) + behind
      && (forall i :: 0 <= i < |news| ==> s.next <= news[i] < t.next)
    decreases |q|
  {
    if q == [] {
      news, vs := [], [];
      assert [] + front + [] + behind == front + [] + behind;
      assert s.visits + [] == s.visits;
    } else {
      var n := |q| - 1;
      var x := q[n];
      var u := Visited(s, x, c);
      var kept := if x in s.zombies then [] else [x];
      LastAhead(front, q, behind);
      var first := VisitResult(s, front + q[..n], x, behind, c);
      Visiting(first, front, q[..n], kept, behind);
      var rest, more := WalkResult(u, first + front, q[..n], kept + behind, c);
      news, vs := rest + first, [Visit(x, x in s.zombies)] + more;
      VisitsGrow(more, q, s, Walked(s, q, c), c);
      Regroup(rest, first, front, Survivors(more), kept, behind);
      assert vs[1..] == more;
    }
  }

  lemma VisitsGrow(more: seq<Visit>, q: seq<nat>, s: Stage, t: Stage, c: Cast)
    requires q != [] && Visits(more, q[..|q| - 1], Visited(s, q[|q| - 1], c), t, c)
    ensures Visits([Visit(q[|q| - 1], q[|q| - 1] in s.zombies)] + more, q, s, t, c)
  {
    var x := q[|q| - 1];
    var v, u := Visit(x, x in s.zombies), Visited(s, x, c);
    var vs := [v] + more;
    DeedsKeepVisits(s, x, c);
    assert (s.visits + [v]) + more == s.visits + vs;
    forall k | 0 <= k < |vs|
      ensures vs[k].layer == q[|q| - 1 - k]
      ensures vs[k].removed <==> Marked(s, c, vs, k, vs[k].layer)
    {
      if k > 0 {
        assert vs[k] == more[k - 1];
        MarkedLater(s, x, c, more, k - 1, vs[k].layer);
      }
    }
  }

  lemma DeedsKeepVisits(s: Stage, x: nat, c: Cast)
    ensures Visited(s, x, c).visits == s.visits + [Visit(x, x in s.zombies)]
  {
  }

  /** The last of the layers ahead, taken out. */
  lemma LastAhead(front: seq<nat>, ahead: seq<nat>, behind: seq<nat>)
    requires ahead != []
    ensures
      var n := |ahead| - 1;
      front + ahead + behind == (front + ahead[..n]) + [ahead[n]] + behind
  {
  }

  lemma Visiting(news: seq<nat>, front: seq<nat>, ahead: seq<nat>, kept: seq<nat>, behind: seq<nat>)
    ensures news + (front + ahead) + kept + behind == (news + front) + ahead + (kept + behind)
  {
  }

  lemma Regroup(a: seq<nat>, b: seq<nat>, c: seq<nat>, d: seq<nat>, e: seq<nat>, f: seq<nat>)
    ensures a + (b + c) + d + (e + f) == (a + b) + c + (d + e) + f
  {
  }

  /** An update visits the layers from the first that blocks (or the last) up to the front, back to front and each
      once. It removes exactly those marked before their visit, be it by a layer updated on the way; the others keep
      their order, and so do the layers behind. Layers pushed on the front meanwhile stay in front and are not
      visited. */
  lemma UpdateResult(s: Stage, c: Cast) returns (news: seq<nat>, vs: seq<Visit>)
    requires Sound(s)
    ensures
      var n, t := Depth(s.layers, c.updatesAlone), Updated(s, c);
      && Sound(t) && Visits(vs, s.layers[..n], s, t, c)
      && t.layers == news + Survivors(vs) + s.layers[n..]
      && (forall i :: 0 <= i < |news| ==> s.next <= news[i] < t.next)
  {
    var n := Depth(s.layers, c.updatesAlone);
    NothingInFront(s.layers[..n], s.layers[n..]);
    assert s.layers == s.layers[..n] + s.layers[n..];
    news, vs := WalkResult(s, [], s.layers[..n], s.layers[n..], c);
    assert news + [] == news;
  }

  lemma NothingInFront(q: seq<nat>, behind: seq<nat>)
    ensures [] + q + behind == q + behind
  {
    assert [] + q == q;
  }
}
