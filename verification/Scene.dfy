// The scene of src/game/scene.cpp as it runs: its list of layers and the loops over it.
module Scene {
  import opened SceneWalk
  import opened Sequences

  class Scene {
    const cast: Cast
    var layers: seq<nat>
    var nextLayer: nat
    var zombies: set<nat>
    var visitCount: nat

    // History.
    ghost var visits: seq<Visit>
    var rendered: seq<nat>

    constructor (c: Cast)
      ensures Valid() && Now() == Stage([], 0, {}, []) && rendered == []
    {
      cast := c;
      layers, nextLayer, zombies, visitCount := [], 0, {}, 0;
      visits, rendered := [], [];
    }

    ghost predicate Valid()
      reads this
    {
      Sound(Now()) && visitCount == |visits|
    }

    ghost function Now(): Stage
      reads this
    {
      Stage(layers, nextLayer, zombies, visits)
    }

    method PushLayer() returns (layer: nat)
      requires Valid()
      modifies this`layers, this`nextLayer
      ensures Valid() && Now() == Did(old(Now()), Push) && layer == old(nextLayer)
    {
      layer := nextLayer;
      layers := [layer] + layers;
      nextLayer := nextLayer + 1;
    }

    method Kill(layer: nat)
      requires Valid()
      modifies this`zombies
      ensures Valid() && Now() == Did(old(Now()), SceneWalk.Kill(layer))
    {
      zombies := zombies + {layer};
    }

    method RemoveLayer(layer: nat)
      requires Valid()
      modifies this`layers
      ensures Valid() && Now() == old(Now()).(layers := Without(old(layers), layer))
    {
      WithoutKeepsSound(Now(), layer);
      layers := Without(layers, layer);
    }

    method DoAll(ds: seq<Deed>)
      requires Valid()
      modifies this`layers, this`nextLayer, this`zombies
      ensures Valid() && Now() == DidAll(old(Now()), ds)
      decreases |ds|
    {
      if ds != [] {
        match ds[0] {
          case Push => var _ := PushLayer();
          case Kill(l) => Kill(l);
        }
        DoAll(ds[1..]);
      }
    }

    method Visit(layer: nat)
      requires Valid()
      modifies this`layers, this`nextLayer, this`zombies, this`visits, this`visitCount
      ensures Valid() && Now() == Visited(old(Now()), layer, cast)
    {
      ghost var v := SceneWalk.Visit(layer, layer in zombies);
      if layer in zombies {
        RemoveLayer(layer);
      } else {
        DoAll(cast.deeds(layer, visitCount));
      }
      Count(v);
    }

    method Count(ghost v: Visit)
      requires Valid()
      modifies this`visits, this`visitCount
      ensures Valid() && Now() == old(Now()).(visits := old(visits) + [v])
    {
      visits := visits + [v];
      visitCount := visitCount + 1;
    }

    /** The index of the layer an iterator stops at: the first that blocks, or the last. */
    method FirstBlocking(blocks: nat -> bool) returns (i: nat)
      requires layers != []
      ensures i == Depth(layers, blocks) - 1
    {
      i := 0;
      while i != |layers| - 1
        invariant i < |layers| && i + Depth(layers[i..], blocks) == Depth(layers, blocks)
      {
        assert layers[i..][1..] == layers[i + 1..];
        if blocks(layers[i]) { break; }
        i := i + 1;
      }
      assert layers[i..][0] == layers[i];
      if i == |layers| - 1 { assert layers[i..][1..] == []; }
    }

    /** The loop of an update. The iterators of the list stay with their layers when others are pushed on the front, so
        both indices grow by the number pushed: b marks the layer that was first when the update began. */
    method Update()
      requires Valid()
      modifies this`layers, this`nextLayer, this`zombies, this`visits, this`visitCount
      ensures Valid() && Now() == Updated(old(Now()), cast)
    {
      if layers == [] { return; }
      ghost var start := Now();
      var i := FirstBlocking(cast.updatesAlone);
      var b: nat := 0;
      var finished := false;
      ghost var front: seq<nat> := [];
      ghost var behind := layers[i + 1..];
      ghost var ahead := layers[..i + 1];
      ghost var all := ahead;
      assert layers == front + ahead + behind;
      while !finished
        invariant Valid() && finished == (ahead == [])
        invariant !finished ==> layers == front + ahead + behind && b == |front| && i == b + |ahead| - 1
        invariant Walked(Now(), ahead, cast) == Walked(start, all, cast)
        decreases |ahead|
      {
        front, behind, finished, i, b := Turn(i, b, front, ahead, behind);
        ahead := ahead[..|ahead| - 1];
      }
    }

    /** One turn: the iterator moves on before the layer it was at is updated or removed. */
    method Turn(i: nat, b: nat, ghost front: seq<nat>, ghost ahead: seq<nat>, ghost behind: seq<nat>)
      returns (ghost front': seq<nat>, ghost behind': seq<nat>, finished: bool, i': nat, b': nat)
      requires Valid() && layers == front + ahead + behind && ahead != [] && b == |front| && i == b + |ahead| - 1
      modifies this`layers, this`nextLayer, this`zombies, this`visits, this`visitCount
      ensures Valid() && Now() == Visited(old(Now()), ahead[|ahead| - 1], cast)
      ensures finished == (|ahead| == 1)
      ensures !finished ==>
        layers == front' + ahead[..|ahead| - 1] + behind' && b' == |front'| && i' == b' + |ahead| - 2
    {
      var layer := layers[i];
      finished := i == b;
      i', b' := if finished then i else i - 1, b;
      ghost var q := ahead[..|ahead| - 1];
      ghost var kept := if layer in zombies then [] else [layer];
      LastAhead(front, ahead, behind);
      ghost var news := VisitResult(Now(), front + q, layer, behind, cast);
      var size := |layers|;
      var zombie := layer in zombies;
      Visit(layer);
      var pushed := |layers| - size + (if zombie then 1 else 0);
      i', b' := i' + pushed, b' + pushed;
      front', behind' := news + front, kept + behind;
      Visiting(news, front, q, kept, behind);
    }

    /** A rendering visits the same way, and changes no list. */
    method Render()
      modifies this`rendered
      ensures rendered == old(rendered) + Reversed(layers[..Depth(layers, cast.rendersAlone)])
    {
      if layers == [] { return; }
      var i: nat := FirstBlocking(cast.rendersAlone);
      var finished := false;
      ghost var todo := layers[..i + 1];
      ghost var all := todo;
      while !finished
        invariant finished == (todo == []) && (!finished ==> i < |layers| && todo == layers[..i + 1])
        invariant rendered + Reversed(todo) == old(rendered) + Reversed(all)
        decreases |todo|
      {
        ghost var last, rest := todo[|todo| - 1], todo[..|todo| - 1];
        assert rendered + ([last] + Reversed(rest)) == (rendered + [last]) + Reversed(rest);
        rendered := rendered + [layers[i]];
        todo := rest;
        if i == 0 {
          finished := true;
        } else {
          i := i - 1;
        }
      }
    }
  }

  function Reversed(q: seq<nat>): seq<nat>
  {
    if q == [] then [] else [q[|q| - 1]] + Reversed(q[..|q| - 1])
  }

  /** Back to front, each once: position k of a rendering shows the k-th layer from the end. */
  lemma {:induction false} ReversedAt(q: seq<nat>, k: nat)
    requires k < |q|
    ensures |Reversed(q)| == |q| && Reversed(q)[k] == q[|q| - 1 - k]
  {
    if |q| > 1 { ReversedAt(q[..|q| - 1], if k > 0 then k - 1 else 0); }
  }
}
