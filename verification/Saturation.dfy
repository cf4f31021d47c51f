// What saturation means: every mixed sample is the value of its width nearest to the sum it stands for.
module Saturation {
  import opened Bytes
  import opened Playback
  import opened MixResult

  function Distance(x: int, y: int): nat
  {
    if x < y then y - x else x - y
  }

  /** Of the values from lo to hi, m is the one nearest to s. */
  ghost predicate Nearest(m: int, s: int, lo: int, hi: int)
  {
    lo <= m <= hi && forall x :: lo <= x <= hi ==> Distance(m, s) <= Distance(x, s)
  }

  /** There is one nearest value: s itself when it is in the range, else the bound that it passed. */
  lemma NearestIs(m: int, s: int, lo: int, hi: int)
    requires lo <= hi
    ensures Nearest(m, s, lo, hi) <==> m == if s > hi then hi else if s < lo then lo else s
  {
    var r := if s > hi then hi else if s < lo then lo else s;
    if Nearest(m, s, lo, hi) { assert Distance(m, s) <= Distance(r, s); }
  }

  // ---------- One track ----------

  lemma Mix16IsNearest(a: int, b: int, gain: real)
    ensures Nearest(Mix16(a, b, gain), a + Scaled(b, gain), -0x8000, 0x7FFF)
  {
    NearestIs(Mix16(a, b, gain), a + Scaled(b, gain), -0x8000, 0x7FFF);
  }

  lemma Mix8IsNearest(a: int, b: int, gain: real)
    ensures Nearest(Mix8(a, b, gain), a + Scaled(b, gain), -0x80, 0x7F)
  {
    NearestIs(Mix8(a, b, gain), a + Scaled(b, gain), -0x80, 0x7F);
  }

  /** Mixing in a 16-bit track replaces each whole sample by the 16-bit value nearest to the sum of both. */
  lemma MixedInSampleIsNearest(mix: seq<byte>, c: seq<byte>, gain: real, k: nat)
    requires |c| <= |mix| && k < |c| / 2
    ensures
      Nearest(SampleAt(MixIn(mix, c, 16, gain), k), SampleAt(mix, k) + Scaled(SampleAt(c, k), gain), -0x8000, 0x7FFF)
  {
    MixInSample(mix, c, gain, k);
    Mix16IsNearest(SampleAt(mix, k), SampleAt(c, k), gain);
  }

  /** Mixing in a track of another depth replaces each byte by the 8-bit value nearest to the sum of both. */
  lemma MixedInByteIsNearest(mix: seq<byte>, c: seq<byte>, depth: byte, gain: real, j: nat)
    requires |c| <= |mix| && j < |c| && depth != 16
    ensures
      Nearest(Signed8(MixIn(mix, c, depth, gain)[j]), Signed8(mix[j]) + Scaled(Signed8(c[j]), gain), -0x80, 0x7F)
  {
    assert MixIn(mix, c, depth, gain)[j] == MixedByte(mix, c, depth, gain, j);
    Mix8IsNearest(Signed8(mix[j]), Signed8(c[j]), gain);
  }

  // ---------- The gain ----------

  /** A share is the sample times the gain but for a fraction: never louder than that, and by less than one quieter;
      and a sample and its negative have opposite shares. */
  lemma ScaledIsProduct(b: int, gain: real)
    ensures
      var x, t := b as real * gain, Scaled(b, gain) as real;
      if x >= 0.0 then 0.0 <= t <= x < t + 1.0 else t - 1.0 < x <= t <= 0.0
    ensures Scaled(-b, gain) == -Scaled(b, gain)
  {
    Opposites(b as real, gain);
  }

  lemma Opposites(x: real, gain: real)
    ensures -x * gain == -(x * gain)
  {
  }

  // ---------- A whole tick ----------

  function Total(shares: seq<int>): int
  {
    if shares == [] then 0 else shares[0] + Total(shares[1..])
  }

  /** r is what becomes of acc when the shares are added one by one, each sum replaced by the nearest value. */
  ghost predicate Chain(shares: seq<int>, lo: int, hi: int, acc: int, r: int)
  {
    if shares == [] then r == acc
    else exists m :: Nearest(m, acc + shares[0], lo, hi) && Chain(shares[1..], lo, hi, m, r)
  }

  /** No share is negative, or none is positive. */
  predicate OneSided(shares: seq<int>)
  {
    || (forall i :: 0 <= i < |shares| ==> shares[i] >= 0)
    || (forall i :: 0 <= i < |shares| ==> shares[i] <= 0)
  }

  /** Shares that all pull one way saturate like their sum: a sum above the range gives the highest value, one below
      it the lowest. */
  lemma {:induction false} OneSidedIsNearest(shares: seq<int>, lo: int, hi: int, acc: int, s: int, r: int, up: bool)
    requires Nearest(acc, s, lo, hi) && Chain(shares, lo, hi, acc, r)
    requires if up then s >= lo else s <= hi
    requires forall i :: 0 <= i < |shares| ==> if up then shares[i] >= 0 else shares[i] <= 0
    ensures Nearest(r, s + Total(shares), lo, hi)
  {
    if shares != [] {
      var m :| Nearest(m, acc + shares[0], lo, hi) && Chain(shares[1..], lo, hi, m, r);
      NearestIs(acc, s, lo, hi);
      NearestIs(m, acc + shares[0], lo, hi);
      NearestIs(m, s + shares[0], lo, hi);
      OneSidedIsNearest(shares[1..], lo, hi, m, s + shares[0], r, up);
    }
  }

  lemma SumIsNearest(shares: seq<int>, lo: int, hi: int, r: int)
    requires lo <= 0 <= hi && Chain(shares, lo, hi, 0, r) && OneSided(shares)
    ensures Nearest(r, Total(shares), lo, hi)
  {
    NearestIs(0, 0, lo, hi);
    OneSidedIsNearest(shares, lo, hi, 0, 0, r, forall i :: 0 <= i < |shares| ==> shares[i] >= 0);
  }

  /** What each track adds to sample k. */
  function Shares16(es: seq<Entry>, vs: map<int, Voice>, want: nat, k: nat): (r: seq<int>)
    requires AllPlayable(es, vs)
    ensures |r| == |es|
  {
    if es == [] then [] else [Share(es[0], vs[es[0].id], want, k)] + Shares16(es[1..], vs, want, k)
  }

  /** What each track adds to byte j. */
  function Shares8(es: seq<Entry>, vs: map<int, Voice>, want: nat, j: nat): (r: seq<int>)
    requires AllPlayable(es, vs)
    ensures |r| == |es|
  {
    if es == [] then []
    else
      var c := Contribution(es[0], vs[es[0].id], want);
      [if j < |c| then Scaled(Signed8(c[j]), es[0].gain) else 0] + Shares8(es[1..], vs, want, j)
  }

  lemma {:induction false} TickSampleChain(es: seq<Entry>, vs: map<int, Voice>, want: nat, k: nat, acc: seq<byte>)
    requires AllPlayable(es, vs) && All16(es, vs) && |acc| == want && 2 * k + 1 < want
    ensures
      Chain(Shares16(es, vs, want, k), -0x8000, 0x7FFF, SampleAt(acc, k), SampleAt(MixAll(es, vs, want, acc), k))
  {
    if es != [] {
      var c := Contribution(es[0], vs[es[0].id], want);
      var next := MixIn(acc, c, 16, es[0].gain);
      var shares := Shares16(es, vs, want, k);
      MixInSample(acc, c, es[0].gain, k);
      if k < |c| / 2 {
        MixedInSampleIsNearest(acc, c, es[0].gain, k);
      } else {
        NearestIs(SampleAt(acc, k), SampleAt(acc, k), -0x8000, 0x7FFF);
      }
      TickSampleChain(es[1..], vs, want, k, next);
      assert shares[1..] == Shares16(es[1..], vs, want, k);
      assert Nearest(SampleAt(next, k), SampleAt(acc, k) + shares[0], -0x8000, 0x7FFF);
    }
  }

  lemma {:induction false} TickByteChain(es: seq<Entry>, vs: map<int, Voice>, want: nat, j: nat, acc: seq<byte>)
    requires AllPlayable(es, vs) && |acc| == want && j < want
    requires forall i :: 0 <= i < |es| ==> vs[es[i].id].depth != 16
    ensures
      Chain(Shares8(es, vs, want, j), -0x80, 0x7F, Signed8(acc[j]), Signed8(MixAll(es, vs, want, acc)[j]))
  {
    if es != [] {
      var v := vs[es[0].id];
      var c := Contribution(es[0], v, want);
      var next := MixIn(acc, c, v.depth, es[0].gain);
      var shares := Shares8(es, vs, want, j);
      if j < |c| {
        MixedInByteIsNearest(acc, c, v.depth, es[0].gain, j);
      } else {
        assert next[j] == MixedByte(acc, c, v.depth, es[0].gain, j);
        NearestIs(Signed8(acc[j]), Signed8(acc[j]), -0x80, 0x7F);
      }
      TickByteChain(es[1..], vs, want, j, next);
      assert shares[1..] == Shares8(es[1..], vs, want, j);
      assert Nearest(Signed8(next[j]), Signed8(acc[j]) + shares[0], -0x80, 0x7F);
    }
  }

  /** What a tick writes at sample k, when its 16-bit tracks pull the same way there, is the sample nearest to their
      sum. */
  lemma TickSampleIsNearest(es: seq<Entry>, vs: map<int, Voice>, want: nat, k: nat)
    requires AllPlayable(es, vs) && All16(es, vs) && 2 * k + 1 < want && OneSided(Shares16(es, vs, want, k))
    ensures
      Nearest(SampleAt(MixAll(es, vs, want, Silence(want)), k), Total(Shares16(es, vs, want, k)), -0x8000, 0x7FFF)
  {
    var r := SampleAt(MixAll(es, vs, want, Silence(want)), k);
    TickSampleChain(es, vs, want, k, Silence(want));
    assert SampleAt(Silence(want), k) == 0;
    SumIsNearest(Shares16(es, vs, want, k), -0x8000, 0x7FFF, r);
  }

  lemma TickByteIsNearest(es: seq<Entry>, vs: map<int, Voice>, want: nat, j: nat)
    requires AllPlayable(es, vs) && j < want && OneSided(Shares8(es, vs, want, j))
    requires forall i :: 0 <= i < |es| ==> vs[es[i].id].depth != 16
    ensures Nearest(Signed8(MixAll(es, vs, want, Silence(want))[j]), Total(Shares8(es, vs, want, j)), -0x80, 0x7F)
  {
    var r := Signed8(MixAll(es, vs, want, Silence(want))[j]);
    TickByteChain(es, vs, want, j, Silence(want));
    assert Signed8(Silence(want)[j]) == 0;
    SumIsNearest(Shares8(es, vs, want, j), -0x80, 0x7F, r);
  }
}
