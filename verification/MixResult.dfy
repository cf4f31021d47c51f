// What the mix buffer holds after a tick, sample by sample.
module MixResult {
  import opened Bytes
  import opened Playback

  /** Storing samples byte by byte gives back the mixed samples, and leaves the others alone. */
  lemma MixInSample(mix: seq<byte>, c: seq<byte>, gain: real, k: nat)
    requires |c| <= |mix| && 2 * k + 1 < |mix|
    ensures SampleAt(MixIn(mix, c, 16, gain), k)
         == if k < |c| / 2 then Mix16(SampleAt(mix, k), SampleAt(c, k), gain) else SampleAt(mix, k)
  {
    var r := MixIn(mix, c, 16, gain);
    assert r[2 * k] == MixedByte(mix, c, 16, gain, 2 * k);
    assert r[2 * k + 1] == MixedByte(mix, c, 16, gain, 2 * k + 1);
    assert (2 * k) / 2 == k && (2 * k + 1) / 2 == k;
    if k < |c| / 2 { Store16(Mix16(SampleAt(mix, k), SampleAt(c, k), gain)); }
  }

  /** The saturating mixer folded over the playing tracks, in key order, at sample k. */
  function FoldSamples(es: seq<Entry>, vs: map<int, Voice>, want: nat, k: nat, acc: int): (r: int)
    requires AllPlayable(es, vs)
    ensures -0x8000 <= acc < 0x8000 ==> -0x8000 <= r < 0x8000
  {
    if es == [] then acc
    else
      var c := Contribution(es[0], vs[es[0].id], want);
      FoldSamples(es[1..], vs, want, k, if k < |c| / 2 then Mix16(acc, SampleAt(c, k), es[0].gain) else acc)
  }

  /** What entry e adds to sample k when nothing clips. */
  function Share(e: Entry, v: Voice, want: nat, k: nat): int
    requires Playable(e, v)
  {
    var c := Contribution(e, v, want);
    if k < |c| / 2 then Scaled(SampleAt(c, k), e.gain) else 0
  }

  /** The same fold without saturation. */
  function PlainSum(es: seq<Entry>, vs: map<int, Voice>, want: nat, k: nat, acc: int): int
    requires AllPlayable(es, vs)
  {
    if es == [] then acc else PlainSum(es[1..], vs, want, k, acc + Share(es[0], vs[es[0].id], want, k))
  }

  /** No sum over the first few tracks leaves the 16-bit range. */
  predicate NeverClips(es: seq<Entry>, vs: map<int, Voice>, want: nat, k: nat, acc: int)
    requires AllPlayable(es, vs)
  {
    && -0x8000 <= acc < 0x8000
    && (es != [] ==> NeverClips(es[1..], vs, want, k, acc + Share(es[0], vs[es[0].id], want, k)))
  }

  predicate All16(es: seq<Entry>, vs: map<int, Voice>)
    requires AllPlayable(es, vs)
  {
    forall i :: 0 <= i < |es| ==> vs[es[i].id].depth == 16
  }

  /** With 16-bit tracks, every whole sample of the mix is the fold of the mixer over the tracks in key order. */
  lemma {:induction false} MixedSample(es: seq<Entry>, vs: map<int, Voice>, want: nat, k: nat, acc: seq<byte>)
    requires AllPlayable(es, vs) && All16(es, vs) && |acc| == want && 2 * k + 1 < want
    ensures SampleAt(MixAll(es, vs, want, acc), k) == FoldSamples(es, vs, want, k, SampleAt(acc, k))
  {
    if es != [] {
      var c := Contribution(es[0], vs[es[0].id], want);
      MixInSample(acc, c, es[0].gain, k);
      MixedSample(es[1..], vs, want, k, MixIn(acc, c, 16, es[0].gain));
    }
  }

  /** When no partial sum clips, mixing is plain addition. */
  lemma {:induction false} NoClippingIsPlainSum(es: seq<Entry>, vs: map<int, Voice>, want: nat, k: nat, acc: int)
    requires AllPlayable(es, vs) && NeverClips(es, vs, want, k, acc)
    ensures FoldSamples(es, vs, want, k, acc) == PlainSum(es, vs, want, k, acc)
  {
    if es != [] {
      NoClippingIsPlainSum(es[1..], vs, want, k, acc + Share(es[0], vs[es[0].id], want, k));
    }
  }

  /** Other depths are mixed byte by byte: the fold of the 8-bit mixer. */
  function FoldBytes(es: seq<Entry>, vs: map<int, Voice>, want: nat, j: nat, acc: int): (r: int)
    requires AllPlayable(es, vs)
    ensures -0x80 <= acc < 0x80 ==> -0x80 <= r < 0x80
  {
    if es == [] then acc
    else
      var c := Contribution(es[0], vs[es[0].id], want);
      FoldBytes(es[1..], vs, want, j, if j < |c| then Mix8(acc, Signed8(c[j]), es[0].gain) else acc)
  }

  lemma {:induction false} MixedByteIsFold(es: seq<Entry>, vs: map<int, Voice>, want: nat, j: nat, acc: seq<byte>)
    requires AllPlayable(es, vs) && |acc| == want && j < want
    requires forall i :: 0 <= i < |es| ==> vs[es[i].id].depth != 16
    ensures Signed8(MixAll(es, vs, want, acc)[j]) == FoldBytes(es, vs, want, j, Signed8(acc[j]))
  {
    if es != [] {
      var v := vs[es[0].id];
      MixedByteIsFold(es[1..], vs, want, j, MixIn(acc, Contribution(es[0], v, want), v.depth, es[0].gain));
    }
  }

  // ---------- Any depths together ----------

  /** Two neighbouring bytes of the mix: one sample to a 16-bit track, two to another. */
  datatype Pair = Pair(lo: byte, hi: byte)

  function MixedByte8(b: byte, c: seq<byte>, gain: real, j: nat): byte
  {
    if j < |c| then Store8(Mix8(Signed8(b), Signed8(c[j]), gain)) else b
  }

  /** The pair of bytes 2k and 2k + 1 after one track of any depth went in. */
  function MixedPair(p: Pair, c: seq<byte>, depth: byte, gain: real, k: nat): Pair
  {
    if depth == 16 then
      if k < |c| / 2 then
        var m := Mix16(Signed16(p.lo, p.hi), SampleAt(c, k), gain);
        Pair(Lo16(m), Hi16(m))
      else p
    else Pair(MixedByte8(p.lo, c, gain, 2 * k), MixedByte8(p.hi, c, gain, 2 * k + 1))
  }

  function FoldPairs(es: seq<Entry>, vs: map<int, Voice>, want: nat, k: nat, p: Pair): Pair
    requires AllPlayable(es, vs)
  {
    if es == [] then p
    else
      var v := vs[es[0].id];
      FoldPairs(es[1..], vs, want, k, MixedPair(p, Contribution(es[0], v, want), v.depth, es[0].gain, k))
  }

  function PairAt(mix: seq<byte>, k: nat): Pair
    requires 2 * k + 1 < |mix|
  {
    Pair(mix[2 * k], mix[2 * k + 1])
  }

  lemma MixInPair(mix: seq<byte>, c: seq<byte>, depth: byte, gain: real, k: nat)
    requires |c| <= |mix| && 2 * k + 1 < |mix|
    ensures PairAt(MixIn(mix, c, depth, gain), k) == MixedPair(PairAt(mix, k), c, depth, gain, k)
  {
    var r := MixIn(mix, c, depth, gain);
    assert r[2 * k] == MixedByte(mix, c, depth, gain, 2 * k);
    assert r[2 * k + 1] == MixedByte(mix, c, depth, gain, 2 * k + 1);
    assert (2 * k) / 2 == k && (2 * k + 1) / 2 == k;
  }

  /** Whatever depths play together, each pair of bytes of the mix is the fold of the tracks' mixers, each of its own
      depth, over the tracks in key order. */
  lemma {:induction false} MixedPairIsFold(es: seq<Entry>, vs: map<int, Voice>, want: nat, k: nat, acc: seq<byte>)
    requires AllPlayable(es, vs) && |acc| == want && 2 * k + 1 < want
    ensures PairAt(MixAll(es, vs, want, acc), k) == FoldPairs(es, vs, want, k, PairAt(acc, k))
  {
    if es != [] {
      var v := vs[es[0].id];
      var c := Contribution(es[0], v, want);
      MixInPair(acc, c, v.depth, es[0].gain, k);
      MixedPairIsFold(es[1..], vs, want, k, MixIn(acc, c, v.depth, es[0].gain));
    }
  }

  /** The last byte of a mix of odd length: 16-bit tracks leave it alone. */
  function FoldLast(es: seq<Entry>, vs: map<int, Voice>, want: nat, b: byte): byte
    requires AllPlayable(es, vs) && want > 0
  {
    if es == [] then b
    else
      var v := vs[es[0].id];
      var c := Contribution(es[0], v, want);
      FoldLast(es[1..], vs, want, if v.depth == 16 then b else MixedByte8(b, c, es[0].gain, want - 1))
  }

  lemma {:induction false} LastByteIsFold(es: seq<Entry>, vs: map<int, Voice>, want: nat, acc: seq<byte>)
    requires AllPlayable(es, vs) && |acc| == want && want % 2 == 1
    ensures MixAll(es, vs, want, acc)[want - 1] == FoldLast(es, vs, want, acc[want - 1])
  {
    if es != [] {
      var v := vs[es[0].id];
      var c := Contribution(es[0], v, want);
      var r := MixIn(acc, c, v.depth, es[0].gain);
      assert r[want - 1] == MixedByte(acc, c, v.depth, es[0].gain, want - 1);
      assert |c| / 2 <= (want - 1) / 2;
      LastByteIsFold(es[1..], vs, want, r);
    }
  }

  /** A single track at unit gain is heard verbatim, then silence; at depth 16 an odd byte at the end is lost. */
  lemma SoloIsVerbatim(c: seq<byte>, depth: byte, want: nat)
    requires |c| <= want
    ensures MixIn(Silence(want), c, depth, 1.0) == c + Silence(want - |c|)
            <==> depth != 16 || |c| % 2 == 0 || c[|c| - 1] == 0
  {
    var m := MixIn(Silence(want), c, depth, 1.0);
    var r := c + Silence(want - |c|);
    forall j | 0 <= j < want && !(depth == 16 && |c| % 2 == 1 && j == |c| - 1)
      ensures m[j] == r[j]
    {
      if depth == 16 && j / 2 < |c| / 2 {
        var k := j / 2;
        assert SampleAt(Silence(want), k) == 0;
        assert Mix16(0, SampleAt(c, k), 1.0) == SampleAt(c, k);
        assert j == 2 * k || j == 2 * k + 1;
      }
    }
    if depth == 16 && |c| % 2 == 1 {
      assert m[|c| - 1] == 0 && r[|c| - 1] == c[|c| - 1];
    }
  }
}
