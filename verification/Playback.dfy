// What playing and mixing tracks means: the pure side of src/audio/player.cpp.
module Playback {
  import opened Bytes

  // ---------- Mixing ----------

  /** Conversion of a floating point value to int: towards zero. */
  function Truncate(x: real): (i: int)
    ensures x >= 0.0 ==> i as real <= x < (i + 1) as real
    ensures x <= 0.0 ==> (i - 1) as real < x <= i as real
  {
    if x >= 0.0 then x.Floor else -((-x).Floor)
  }

  function Clip(lo: int, v: int, hi: int): (r: int)
    requires lo <= hi
    ensures lo <= r <= hi
    ensures lo <= v <= hi ==> r == v
  {
    if v < lo then lo else if v > hi then hi else v
  }

  /** A sample times the gain, as an int. */
  function Scaled(b: int, gain: real): int
  {
    Truncate(b as real * gain)
  }

  function Mix16(a: int, b: int, gain: real): (m: int)
    ensures -0x8000 <= m < 0x8000
  {
    Clip(-0x8000, a + Scaled(b, gain), 0x7FFF)
  }

  function Mix8(a: int, b: int, gain: real): (m: int)
    ensures -0x80 <= m < 0x80
  {
    Clip(-0x80, a + Scaled(b, gain), 0x7F)
  }

  function SampleAt(s: seq<byte>, k: nat): (v: int)
    requires 2 * k + 1 < |s|
    ensures -0x8000 <= v < 0x8000
  {
    Signed16(s[2 * k], s[2 * k + 1])
  }

  /** Byte j of the mix after the bytes c of one track went in: whole samples at depth 16, single bytes otherwise. */
  function MixedByte(mix: seq<byte>, c: seq<byte>, depth: byte, gain: real, j: nat): byte
    requires |c| <= |mix| && j < |mix|
  {
    if depth == 16 then
      if j / 2 < |c| / 2 then
        var m := Mix16(SampleAt(mix, j / 2), SampleAt(c, j / 2), gain);
        if j % 2 == 0 then Lo16(m) else Hi16(m)
      else mix[j]
    else if j < |c| then Store8(Mix8(Signed8(mix[j]), Signed8(c[j]), gain)) else mix[j]
  }

  function MixIn(mix: seq<byte>, c: seq<byte>, depth: byte, gain: real): (r: seq<byte>)
    requires |c| <= |mix|
    ensures |r| == |mix|
  {
    seq(|mix|, j requires 0 <= j < |mix| => MixedByte(mix, c, depth, gain, j))
  }

  // ---------- One playing track ----------

  /** A playlist entry: how many more times a track is to be played (negative: without end) and how loud. */
  datatype Entry = Entry(id: int, iterations: int, gain: real)

  /** A track as the player sees it: its bytes, how many of them were played since the last rewind, its bit depth. */
  datatype Voice = Voice(sound: seq<byte>, pos: nat, depth: byte)

  /** An entry that every tick can serve. A silent track played without end would never fill a buffer. */
  predicate Playable(e: Entry, v: Voice)
  {
    v.pos <= |v.sound| && e.iterations != 0 && (e.iterations < 0 ==> v.sound != [])
  }

  /** A sound repeated n times. */
  function Repeat(sound: seq<byte>, n: nat): (r: seq<byte>)
    ensures n > 0 ==> |r| >= |sound|
    ensures sound == [] ==> r == []
  {
    if n == 0 then [] else sound + Repeat(sound, n - 1)
  }

  /** Bytes a counted entry still has to give. */
  function Left(e: Entry, v: Voice): (n: nat)
    requires Playable(e, v) && e.iterations > 0
  {
    |Repeat(v.sound, e.iterations)| - v.pos
  }

  /** Bytes one tick takes from an entry when it wants to fill a buffer of the given size. */
  function Taken(e: Entry, v: Voice, want: nat): (n: nat)
    requires Playable(e, v)
    ensures n <= want
    ensures n > 0 ==> v.sound != []
  {
    if e.iterations < 0 then want else Min(want, Left(e, v))
  }

  /** The entry is dropped by the first tick that wants more than is left. */
  predicate Finishes(e: Entry, v: Voice, want: nat)
    requires Playable(e, v)
  {
    e.iterations > 0 && want > Left(e, v)
  }

  /** The index i wrapped around a sound of the given length. */
  function Wrapped(i: nat, len: nat): (r: nat)
    requires len > 0
    ensures r < len
  {
    if i < len then i else Wrapped(i - len, len)
  }

  /** k bytes of the endless repetition of a sound, from the given position on. */
  function Looped(sound: seq<byte>, pos: nat, k: nat): (r: seq<byte>)
    requires k > 0 ==> sound != []
    ensures |r| == k
  {
    seq(k, i requires 0 <= i < k => sound[Wrapped(pos + i, |sound|)])
  }

  function Contribution(e: Entry, v: Voice, want: nat): (r: seq<byte>)
    requires Playable(e, v)
  {
    Looped(v.sound, v.pos, Taken(e, v, want))
  }

  /** Rewinds while k bytes are taken; a rewind is put off until more is wanted. */
  function Rewinds(sound: seq<byte>, pos: nat, k: nat): nat
    requires pos <= |sound| && (k > 0 ==> sound != [])
    decreases k, pos
  {
    if pos + k <= |sound| then 0 else 1 + Rewinds(sound, 0, k - (|sound| - pos))
  }

  /** Where the track stands after k bytes were taken. */
  function NextPos(sound: seq<byte>, pos: nat, k: nat): (p: nat)
    requires pos <= |sound| && (k > 0 ==> sound != [])
    ensures p <= |sound|
    decreases k, pos
  {
    if pos + k <= |sound| then pos + k else NextPos(sound, 0, k - (|sound| - pos))
  }

  function NextVoice(e: Entry, v: Voice, want: nat): (w: Voice)
    requires Playable(e, v)
    ensures w.sound == v.sound && w.depth == v.depth && w.pos <= |w.sound|
  {
    v.(pos := if Finishes(e, v, want) then 0 else NextPos(v.sound, v.pos, want))
  }

  function NextEntry(e: Entry, v: Voice, want: nat): (f: Entry)
    requires Playable(e, v) && !Finishes(e, v, want)
    ensures f.id == e.id && f.gain == e.gain
  {
    if e.iterations == -1 then e else e.(iterations := e.iterations - Rewinds(v.sound, v.pos, want))
  }

  // ---------- The serving loop, one pass at a time ----------

  /** The entry after one rewind. */
  function OneLess(e: Entry): Entry
  {
    if e.iterations == -1 then e else e.(iterations := e.iterations - 1)
  }

  lemma LoopedWithin(sound: seq<byte>, pos: nat, k: nat)
    requires pos + k <= |sound|
    ensures Looped(sound, pos, k) == sound[pos..pos + k]
  {
    forall i | 0 <= i < k
      ensures Looped(sound, pos, k)[i] == sound[pos + i]
    {
      assert Wrapped(pos + i, |sound|) == pos + i;
    }
  }

  lemma LoopedAround(sound: seq<byte>, pos: nat, k: nat)
    requires pos <= |sound| && (k > 0 ==> sound != [])
    ensures Looped(sound, pos, |sound| - pos + k) == sound[pos..] + Looped(sound, 0, k)
  {
    var n := |sound| - pos;
    forall i | 0 <= i < n + k
      ensures Looped(sound, pos, n + k)[i] == (sound[pos..] + Looped(sound, 0, k))[i]
    {
      assert Wrapped(pos + i, |sound|) == if i < n then pos + i else Wrapped(i - n, |sound|);
    }
  }

  /** A pass that fills the buffer. */
  lemma PassFills(e: Entry, v: Voice, want: nat)
    requires Playable(e, v) && v.pos + want <= |v.sound|
    ensures !Finishes(e, v, want) && NextEntry(e, v, want) == e && NextVoice(e, v, want) == v.(pos := v.pos + want)
    ensures Contribution(e, v, want) == v.sound[v.pos..v.pos + want]
  {
    LoopedWithin(v.sound, v.pos, want);
  }

  /** A pass that runs out, with repeats to come: what follows is the same job on the rewound track. */
  lemma PassRunsOut(e: Entry, v: Voice, want: nat)
    requires Playable(e, v) && v.pos + want > |v.sound| && e.iterations != 1
    ensures
      var f := OneLess(e); var w := v.(pos := 0); var rest := want - (|v.sound| - v.pos);
      Playable(f, w) && Finishes(e, v, want) == Finishes(f, w, rest) &&
      (!Finishes(e, v, want) ==> NextEntry(e, v, want) == NextEntry(f, w, rest)) &&
      NextVoice(e, v, want) == NextVoice(f, w, rest) &&
      Contribution(e, v, want) == v.sound[v.pos..] + Contribution(f, w, rest)
  {
    var f, w, rest := OneLess(e), v.(pos := 0), want - (|v.sound| - v.pos);
    LoopedAround(v.sound, v.pos, Taken(f, w, rest));
  }

  /** A pass that runs out on the last repeat. */
  lemma LastPassRunsOut(e: Entry, v: Voice, want: nat)
    requires Playable(e, v) && v.pos + want > |v.sound| && e.iterations == 1
    ensures Finishes(e, v, want) && NextVoice(e, v, want) == v.(pos := 0)
    ensures Contribution(e, v, want) == v.sound[v.pos..]
  {
    assert Repeat(v.sound, 1) == v.sound + Repeat(v.sound, 0);
    LoopedWithin(v.sound, v.pos, |v.sound| - v.pos);
  }

  /** What is left after a tick that does not drop the entry is what was left less what was taken; the entry stays
      playable, and an endless one stays endless. */
  lemma {:induction false} TickKeepsPlayable(e: Entry, v: Voice, want: nat)
    requires Playable(e, v) && !Finishes(e, v, want)
    ensures Playable(NextEntry(e, v, want), NextVoice(e, v, want))
    ensures e.iterations > 0 ==> NextEntry(e, v, want).iterations > 0
    ensures e.iterations < 0 ==> NextEntry(e, v, want).iterations < 0
    ensures e.iterations > 0 ==> Left(NextEntry(e, v, want), NextVoice(e, v, want)) == Left(e, v) - want
    decreases want, v.pos
  {
    if v.pos + want <= |v.sound| {
      PassFills(e, v, want);
    } else if e.iterations == 1 {
      LastPassRunsOut(e, v, want);
    } else {
      PassRunsOut(e, v, want);
      TickKeepsPlayable(OneLess(e), v.(pos := 0), want - (|v.sound| - v.pos));
    }
  }

  lemma LoopedSplit(sound: seq<byte>, pos: nat, a: nat, b: nat)
    requires a + b > 0 ==> sound != []
    ensures Looped(sound, pos, a) + Looped(sound, pos + a, b) == Looped(sound, pos, a + b)
  {
    var l, r := Looped(sound, pos, a) + Looped(sound, pos + a, b), Looped(sound, pos, a + b);
    forall i | 0 <= i < a + b
      ensures l[i] == r[i]
    {
      if i >= a { assert pos + a + (i - a) == pos + i; }
    }
  }

  /** Going on where a tick stopped continues the same endless repetition. */
  lemma {:induction false} LoopedContinues(sound: seq<byte>, pos: nat, want: nat, k: nat)
    requires pos <= |sound| && (want + k > 0 ==> sound != [])
    ensures Looped(sound, pos, want) + Looped(sound, NextPos(sound, pos, want), k) == Looped(sound, pos, want + k)
    decreases want, pos
  {
    if pos + want <= |sound| {
      LoopedSplit(sound, pos, want, k);
    } else {
      var n := |sound| - pos;
      LoopedAround(sound, pos, want - n);
      LoopedAround(sound, pos, want - n + k);
      LoopedContinues(sound, 0, want - n, k);
      assert (sound[pos..] + Looped(sound, 0, want - n)) + Looped(sound, NextPos(sound, pos, want), k)
          == sound[pos..] + (Looped(sound, 0, want - n) + Looped(sound, NextPos(sound, pos, want), k));
    }
  }

  // ---------- The playlist ----------

  /** The playlist is in key order. */
  predicate KeysAscend(es: seq<Entry>)
  {
    es != [] ==> (forall i :: 1 <= i < |es| ==> es[0].id < es[i].id) && KeysAscend(es[1..])
  }

  lemma {:induction false} KeysDiffer(es: seq<Entry>, i: nat, j: nat)
    requires KeysAscend(es) && i < j < |es|
    ensures es[i].id < es[j].id
  {
    if i > 0 {
      KeysDiffer(es[1..], i - 1, j - 1);
    }
  }

  predicate AllPlayable(es: seq<Entry>, vs: map<int, Voice>)
  {
    forall i :: 0 <= i < |es| ==> es[i].id in vs && Playable(es[i], vs[es[i].id])
  }

  /** What a tick makes of one entry: nothing when it is finished. */
  function Stepped(e: Entry, v: Voice, want: nat): seq<Entry>
    requires Playable(e, v)
  {
    if Finishes(e, v, want) then [] else [NextEntry(e, v, want)]
  }

  /** The playlist after a tick: finished entries are gone, the others counted down, in the same order. */
  function TickEntries(es: seq<Entry>, vs: map<int, Voice>, want: nat): (r: seq<Entry>)
    requires AllPlayable(es, vs)
  {
    if es == [] then [] else Stepped(es[0], vs[es[0].id], want) + TickEntries(es[1..], vs, want)
  }

  /** The tracks after a tick: those on the playlist moved on, on top of ws. */
  function TickVoices(es: seq<Entry>, vs: map<int, Voice>, want: nat, ws: map<int, Voice>): (r: map<int, Voice>)
    requires AllPlayable(es, vs)
  {
    if es == [] then ws
    else TickVoices(es[1..], vs, want, ws[es[0].id := NextVoice(es[0], vs[es[0].id], want)])
  }

  /** All playing tracks mixed on top of acc, in key order. */
  function MixAll(es: seq<Entry>, vs: map<int, Voice>, want: nat, acc: seq<byte>): (r: seq<byte>)
    requires AllPlayable(es, vs) && |acc| == want
    ensures |r| == want
  {
    if es == [] then acc
    else
      var v := vs[es[0].id];
      MixAll(es[1..], vs, want, MixIn(acc, Contribution(es[0], v, want), v.depth, es[0].gain))
  }

  function Silence(want: nat): (r: seq<byte>)
    ensures |r| == want
  {
    seq(want, _ => 0)
  }
}
