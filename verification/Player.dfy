// The audio player of src/audio/player.cpp: tracks, a playlist in key order, and the mixing tick.
module Player {
  import opened Bytes
  import opened WaveTrack
  import opened Playback
  import PlaybackRuns

  /** The sound device; the blocks written to it are its observable behaviour. */
  class Pcm {
    const framesMax: nat
    const frameSize: byte
    var open: bool
    var written: seq<seq<byte>>

    constructor (framesMax: nat, frameSize: byte)
      ensures this.framesMax == framesMax && this.frameSize == frameSize && open && written == []
    {
      this.framesMax, this.frameSize, open, written := framesMax, frameSize, true, [];
    }

    method Write(block: array<byte>, frames: nat)
      requires frames * frameSize <= block.Length
      modifies this`written
      ensures written == old(written) + [block[..frames * frameSize]]
    {
      written := written + [block[..frames * frameSize]];
    }
  }

  type Tracks = map<int, WaveTrack>

  ghost function Dios(tracks: Tracks): (s: set<BufferIO.BufferIO>)
    reads tracks.Values
  {
    set t | t in tracks.Values && t.dio != null :: t.dio
  }

  ghost function Stores(tracks: Tracks): (s: set<array<byte>>)
    reads tracks.Values, Dios(tracks)
  {
    set d | d in Dios(tracks) && d.constBuffer != null :: d.constBuffer
  }

  /** The track is readable and looks like the given voice to the player; its bytes are outside the player's buffers. */
  ghost predicate Sounds(t: WaveTrack, v: Voice, buffer: array?<byte>, mix: array?<byte>)
    reads t, t.dio, if t.dio != null then {t.dio.constBuffer} else {}
  {
    && t.Ready() && v == Voice(t.Sound(), t.Played(), t.depth)
    && t.dio.constBuffer != buffer && t.dio.constBuffer != mix
  }

  /** Assignment through the map's subscript: replaces the entry of that key or inserts one in key order. */
  function Put(es: seq<Entry>, e: Entry): (r: seq<Entry>)
    ensures e in r
    ensures forall f :: f in r ==> f == e || f in es
  {
    if es == [] || e.id < es[0].id then [e] + es
    else if es[0].id == e.id then [e] + es[1..]
    else [es[0]] + Put(es[1..], e)
  }

  lemma {:induction false} PutKeepsOrder(es: seq<Entry>, e: Entry)
    requires KeysAscend(es)
    ensures KeysAscend(Put(es, e))
  {
    if es == [] || e.id < es[0].id {
      assert ([e] + es)[1..] == es;
    } else if es[0].id == e.id {
      assert ([e] + es[1..])[1..] == es[1..];
    } else {
      PutKeepsOrder(es[1..], e);
      var r := Put(es[1..], e);
      assert forall i :: 0 <= i < |r| ==> r[i] in r && (r[i] == e || r[i] in es[1..]);
      assert forall f :: f in es[1..] ==> es[0].id < f.id;
      assert ([es[0]] + r)[1..] == r;
    }
  }

  lemma {:induction false} PutMembers(es: seq<Entry>, e: Entry, f: Entry)
    requires KeysAscend(es)
    ensures f in Put(es, e) <==> f == e || (f in es && f.id != e.id)
  {
    if es != [] {
      assert forall g :: g in es[1..] ==> es[0].id < g.id;
      assert f in es <==> f == es[0] || f in es[1..];
      if es[0].id < e.id { PutMembers(es[1..], e, f); }
    }
  }

  function Erase(es: seq<Entry>, id: int): (r: seq<Entry>)
    ensures forall f :: f in r <==> f in es && f.id != id
  {
    if es == [] then [] else (if es[0].id == id then [] else [es[0]]) + Erase(es[1..], id)
  }

  lemma {:induction false} EraseKeepsOrder(es: seq<Entry>, id: int)
    requires KeysAscend(es)
    ensures KeysAscend(Erase(es, id))
  {
    if es != [] {
      EraseKeepsOrder(es[1..], id);
      var r := Erase(es[1..], id);
      if es[0].id == id {
        assert Erase(es, id) == r;
      } else {
        assert forall i :: 0 <= i < |r| ==> r[i] in r && r[i] in es[1..];
        assert forall f :: f in es[1..] ==> es[0].id < f.id;
        assert ([es[0]] + r)[1..] == r;
      }
    }
  }

  lemma MixNextSample(before: seq<byte>, c: seq<byte>, gain: real, k: nat)
    requires 2 * k + 2 <= |c| <= |before|
    ensures
      var m := Mix16(SampleAt(before, k), SampleAt(c, k), gain);
      MixIn(before, c[..2 * k + 2], 16, gain)
      == MixIn(before, c[..2 * k], 16, gain)[2 * k := Lo16(m)][2 * k + 1 := Hi16(m)]
  {
    assert (2 * k) / 2 == k && (2 * k + 1) / 2 == k && (2 * k + 2) / 2 == k + 1;
    assert forall i :: 0 <= i < k ==> SampleAt(c[..2 * k + 2], i) == SampleAt(c[..2 * k], i);
    assert SampleAt(c[..2 * k + 2], k) == SampleAt(c, k);
    forall j | 0 <= j < |before| && j != 2 * k && j != 2 * k + 1
      ensures MixedByte(before, c[..2 * k + 2], 16, gain, j) == MixedByte(before, c[..2 * k], 16, gain, j)
    {
      assert j / 2 != k;
    }
  }

  lemma OddByteWaits(before: seq<byte>, c: seq<byte>, gain: real)
    requires |c| <= |before|
    ensures MixIn(before, c, 16, gain) == MixIn(before, c[..2 * (|c| / 2)], 16, gain)
  {
  }

  method MixSample(mix: array<byte>, buffer: array<byte>, k: nat, gain: real,
      ghost before: seq<byte>, ghost c: seq<byte>)
    requires buffer != mix && 2 * k + 2 <= |c| <= |before| <= Min(buffer.Length, mix.Length)
    requires mix[..|before|] == MixIn(before, c[..2 * k], 16, gain) && buffer[..|c|] == c
    modifies mix
    ensures mix[..|before|] == MixIn(before, c[..2 * k + 2], 16, gain)
  {
    MixNextSample(before, c, gain, k);
    ghost var was := mix[..|before|];
    assert mix[2 * k] == was[2 * k] == before[2 * k] && mix[2 * k + 1] == was[2 * k + 1] == before[2 * k + 1];
    var m := Mix16(Signed16(mix[2 * k], mix[2 * k + 1]), Signed16(buffer[2 * k], buffer[2 * k + 1]), gain);
    mix[2 * k], mix[2 * k + 1] := Lo16(m), Hi16(m);
    assert mix[..|before|] == was[2 * k := Lo16(m)][2 * k + 1 := Hi16(m)];
  }

  /** Mixes the samples completed between two read positions; a sample split by an underrun waits for its second
      byte. */
  method MixSamples(mix: array<byte>, buffer: array<byte>, offset: nat, read: nat, gain: real, ghost before: seq<byte>)
    requires buffer != mix && offset <= read <= |before| <= Min(buffer.Length, mix.Length)
    requires mix[..|before|] == MixIn(before, buffer[..offset], 16, gain)
    modifies mix
    ensures mix[..|before|] == MixIn(before, buffer[..read], 16, gain)
  {
    ghost var c := buffer[..read];
    assert buffer[..offset] == c[..offset] && c[..offset][..2 * (offset / 2)] == c[..2 * (offset / 2)];
    OddByteWaits(before, c[..offset], gain);
    for k := offset / 2 to read / 2
      invariant mix[..|before|] == MixIn(before, c[..2 * k], 16, gain)
    {
      MixSample(mix, buffer, k, gain, before, c);
    }
    OddByteWaits(before, c, gain);
  }

  method MixBytes(mix: array<byte>, buffer: array<byte>, offset: nat, read: nat, depth: byte, gain: real,
      ghost before: seq<byte>)
    requires depth != 16
    requires buffer != mix && offset <= read <= |before| <= Min(buffer.Length, mix.Length)
    requires mix[..|before|] == MixIn(before, buffer[..offset], depth, gain)
    modifies mix
    ensures mix[..|before|] == MixIn(before, buffer[..read], depth, gain)
  {
    for j := offset to read
      invariant mix[..|before|] == MixIn(before, buffer[..j], depth, gain)
    {
      assert mix[j] == mix[..|before|][j] == before[j];
      mix[j] := Store8(Mix8(Signed8(mix[j]), Signed8(buffer[j]), gain));
    }
  }

  /** One pass of the serving loop up to the underrun test: decodes into the buffer and mixes what arrived. */
  method DecodeAndMix(gain: real, t: WaveTrack, buffer: array<byte>, mix: array<byte>, offset: nat, want: nat,
                      ghost v: Voice, ghost before: seq<byte>)
    returns (read: nat)
    requires Sounds(t, v, buffer, mix)
    requires buffer != mix && offset <= want == |before| <= Min(buffer.Length, mix.Length)
    requires mix[..want] == MixIn(before, buffer[..offset], v.depth, gain)
    modifies buffer, mix, t.dio`cursor, t.dio`reachedEOF
    ensures read == offset + Min(want - offset, |v.sound| - v.pos)
    ensures Sounds(t, v.(pos := v.pos + read - offset), buffer, mix)
    ensures buffer[..read] == old(buffer[..offset]) + v.sound[v.pos..v.pos + read - offset]
    ensures mix[..want] == MixIn(before, buffer[..read], v.depth, gain)
  {
    ghost var filled := buffer[..offset];
    var n := t.Read(buffer, offset, want - offset);
    read := offset + n;
    assert buffer[..offset] == filled;
    assert buffer[..read] == buffer[..offset] + buffer[offset..offset + n];
    if t.depth == 16 {
      MixSamples(mix, buffer, offset, read, gain, before);
    } else {
      MixBytes(mix, buffer, offset, read, t.depth, gain, before);
    }
  }

  /** What serving an entry comes to: the bytes taken, the entry kept (or none), the track afterwards. */
  datatype Outcome = Outcome(bytes: seq<byte>, kept: seq<Entry>, voice: Voice)

  function OutcomeOf(e: Entry, v: Voice, want: nat): Outcome
    requires Playable(e, v)
  {
    Outcome(Contribution(e, v, want), Stepped(e, v, want), NextVoice(e, v, want))
  }

  function After(filled: seq<byte>, o: Outcome): Outcome
  {
    o.(bytes := filled + o.bytes)
  }

  /** A pass that fills the buffer ends the job; one that runs out leaves the same job for the rewound track. */
  lemma PassOutcome(filled: seq<byte>, f: Entry, w: Voice, want: nat)
    requires Playable(f, w)
    ensures
      var n := Min(want, |w.sound| - w.pos);
      var job := After(filled, OutcomeOf(f, w, want));
      var got := filled + w.sound[w.pos..w.pos + n];
      if n == want then job == Outcome(got, [f], w.(pos := w.pos + n))
      else if f.iterations == 1 then job == Outcome(got, [], w.(pos := 0))
      else Playable(OneLess(f), w.(pos := 0)) && job == After(got, OutcomeOf(OneLess(f), w.(pos := 0), want - n))
  {
    var n := Min(want, |w.sound| - w.pos);
    if n == want {
      PassFills(f, w, want);
    } else if f.iterations == 1 {
      LastPassRunsOut(f, w, want);
    } else {
      PassRunsOut(f, w, want);
      var rest := Contribution(OneLess(f), w.(pos := 0), want - n);
      assert filled + (w.sound[w.pos..] + rest) == (filled + w.sound[w.pos..]) + rest;
    }
  }

  /** What a pass leaves: the whole job done, or the same job on the rewound track with one repeat less. */
  ghost predicate Passed(f: Entry, w: Voice, want: nat, filled: seq<byte>, got: seq<byte>, g: Entry, erased: bool,
      x: Voice)
    requires Playable(f, w)
  {
    var job := After(filled, OutcomeOf(f, w, want));
    var n := |got| - |filled|;
    if n >= want || erased then job == Outcome(got, if erased then [] else [g], x)
    else
      && Playable(g, x) && x.pos == 0 && n >= 0
      && job == After(got, OutcomeOf(g, x, want - n))
      && (f.iterations > 0 ==> 0 < g.iterations < f.iterations)
      && (f.iterations < 0 ==> g.iterations < 0 && (n > 0 || w.pos > 0))
  }

  lemma PassLeaves(f: Entry, w: Voice, want: nat, filled: seq<byte>, got: seq<byte>)
    requires Playable(f, w)
    requires got == filled + w.sound[w.pos..w.pos + Min(want, |w.sound| - w.pos)]
    ensures
      var n := Min(want, |w.sound| - w.pos);
      if n == want then Passed(f, w, want, filled, got, f, false, w.(pos := w.pos + n))
      else Passed(f, w, want, filled, got, OneLess(f), f.iterations == 1, w.(pos := 0))
  {
    PassOutcome(filled, f, w, want);
  }

  /** One pass of the serving loop: decode and mix; on underrun rewind the track and count the repeat. */
  method ServePass(f: Entry, t: WaveTrack, buffer: array<byte>, mix: array<byte>, offset: nat, want: nat,
                   ghost w: Voice, ghost before: seq<byte>)
    returns (g: Entry, read: nat, erased: bool, ghost x: Voice)
    requires Sounds(t, w, buffer, mix) && Playable(f, w)
    requires buffer != mix && offset <= want == |before| <= Min(buffer.Length, mix.Length)
    requires mix[..want] == MixIn(before, buffer[..offset], w.depth, f.gain)
    modifies buffer, mix, t.dio`cursor, t.dio`reachedEOF
    ensures offset <= read <= want && Sounds(t, x, buffer, mix)
    ensures x.depth == w.depth && x.sound == w.sound && g.gain == f.gain
    ensures mix[..want] == MixIn(before, buffer[..read], w.depth, f.gain)
    ensures Passed(f, w, want - offset, old(buffer[..offset]), buffer[..read], g, erased, x)
  {
    ghost var filled := buffer[..offset];
    g, erased := f, false;
    read := DecodeAndMix(f.gain, t, buffer, mix, offset, want, w, before);
    PassLeaves(f, w, want - offset, filled, buffer[..read]);
    x := w.(pos := w.pos + read - offset);
    if read < want {
      g, erased := Underrun(f, t, buffer, mix, x);
      x := w.(pos := 0);
    }
  }

  /** An underrun: the track is rewound and the repeat counted; the entry is erased after its last. */
  method Underrun(f: Entry, t: WaveTrack, ghost buffer: array<byte>, ghost mix: array<byte>, ghost w: Voice)
    returns (g: Entry, erased: bool)
    requires Sounds(t, w, buffer, mix)
    modifies t.dio`cursor, t.dio`reachedEOF
    ensures Sounds(t, w.(pos := 0), buffer, mix)
    ensures g == OneLess(f) && erased == (f.iterations == 1)
  {
    g, erased := f, false;
    var ok := t.Rewind();
    if -1 != f.iterations {
      g := f.(iterations := f.iterations - 1);
      erased := 0 == g.iterations;
    }
  }

  /** Serves one playlist entry: fills the buffer from its track, rewinding on underrun and counting repeats down, and
      mixes what was read. */
  method Serve(e: Entry, t: WaveTrack, buffer: array<byte>, mix: array<byte>, want: nat, ghost v: Voice)
    returns (f: Entry, erased: bool)
    requires Sounds(t, v, buffer, mix) && Playable(e, v)
    requires buffer != mix && want <= Min(buffer.Length, mix.Length)
    modifies buffer, mix, t.dio`cursor, t.dio`reachedEOF
    ensures Sounds(t, NextVoice(e, v, want), buffer, mix)
    ensures Stepped(e, v, want) == if erased then [] else [f]
    ensures mix[..want] == MixIn(old(mix[..want]), Contribution(e, v, want), v.depth, e.gain)
  {
    ghost var before := mix[..want];
    ghost var w := v;
    var offset := 0;
    f, erased := e, false;
    var more := true;
    assert buffer[..0] == [] && [] + Contribution(e, v, want) == Contribution(e, v, want);
    while more
      invariant 0 <= offset <= want && Sounds(t, w, buffer, mix) && f.gain == e.gain && w.depth == v.depth
      invariant mix[..want] == MixIn(before, buffer[..offset], v.depth, e.gain)
      // what is left to do, after what was done, is the whole job
      invariant more ==>
        Playable(f, w) && OutcomeOf(e, v, want) == After(buffer[..offset], OutcomeOf(f, w, want - offset))
      invariant !more ==> OutcomeOf(e, v, want) == Outcome(buffer[..offset], if erased then [] else [f], w)
      decreases more, if f.iterations > 0 then 0 else want - offset, if f.iterations > 0 then f.iterations else w.pos
    {
      f, offset, erased, w := ServePass(f, t, buffer, mix, offset, want, w, before);
      more := offset < want && !erased;
    }
  }

  /** What a tick comes to: the playlist, the tracks and the mix afterwards. */
  datatype Ticked = Ticked(playlist: seq<Entry>, voices: map<int, Voice>, mix: seq<byte>)

  /** The tick when the entries in list, the tracks ws and the mix acc are done and the entries in todo are to come. */
  function TickRest(list: seq<Entry>, todo: seq<Entry>, vs: map<int, Voice>, want: nat,
      ws: map<int, Voice>, acc: seq<byte>)
    : Ticked
    requires AllPlayable(todo, vs) && |acc| == want
  {
    Ticked(list + TickEntries(todo, vs, want), TickVoices(todo, vs, want, ws), MixAll(todo, vs, want, acc))
  }

  lemma TickNext(list: seq<Entry>, todo: seq<Entry>, vs: map<int, Voice>, want: nat,
      ws: map<int, Voice>, acc: seq<byte>)
    requires AllPlayable(todo, vs) && |acc| == want && todo != []
    ensures
      var e := todo[0]; var v := vs[e.id];
      TickRest(list, todo, vs, want, ws, acc) == TickRest(list + Stepped(e, v, want), todo[1..], vs, want,
        ws[e.id := NextVoice(e, v, want)], MixIn(acc, Contribution(e, v, want), v.depth, e.gain))
  {
    var step, rest := Stepped(todo[0], vs[todo[0].id], want), TickEntries(todo[1..], vs, want);
    assert list + (step + rest) == (list + step) + rest;
  }

  /** The tick has come to the entries in todo, whose tracks are still untouched, and will end as `whole`. */
  ghost predicate Ticking(list: seq<Entry>, todo: seq<Entry>, vs: map<int, Voice>, want: nat, ws: map<int, Voice>,
                          acc: seq<byte>, whole: Ticked)
  {
    && AllPlayable(todo, vs) && KeysAscend(todo) && |acc| == want
    && (forall i :: 0 <= i < |todo| ==> todo[i].id in ws && ws[todo[i].id] == vs[todo[i].id])
    && TickRest(list, todo, vs, want, ws, acc) == whole
  }

  lemma TickGoesOn(list: seq<Entry>, todo: seq<Entry>, vs: map<int, Voice>, want: nat, ws: map<int, Voice>,
                   acc: seq<byte>, whole: Ticked)
    requires Ticking(list, todo, vs, want, ws, acc, whole) && todo != []
    ensures
      var e := todo[0]; var v := vs[e.id];
      Ticking(list + Stepped(e, v, want), todo[1..], vs, want, ws[e.id := NextVoice(e, v, want)],
              MixIn(acc, Contribution(e, v, want), v.depth, e.gain), whole)
  {
    TickNext(list, todo, vs, want, ws, acc);
    forall i | 0 <= i < |todo[1..]|
      ensures todo[1..][i].id != todo[0].id
    {
      KeysDiffer(todo, 0, i + 1);
    }
  }

  lemma TickEnds(list: seq<Entry>, vs: map<int, Voice>, want: nat, ws: map<int, Voice>, acc: seq<byte>, whole: Ticked)
    requires Ticking(list, [], vs, want, ws, acc, whole)
    ensures whole == Ticked(list, ws, acc)
  {
    assert list + [] == list;
  }

  lemma TickBegins(todo: seq<Entry>, vs: map<int, Voice>, want: nat)
    requires AllPlayable(todo, vs) && KeysAscend(todo)
    ensures
      Ticking([], todo, vs, want, vs, Silence(want),
              Ticked(TickEntries(todo, vs, want), TickVoices(todo, vs, want, vs),
                     MixAll(todo, vs, want, Silence(want))))
  {
    assert [] + TickEntries(todo, vs, want) == TickEntries(todo, vs, want);
  }

  lemma NoBlocks(written: seq<seq<byte>>)
    ensures written + [] == written
  {
  }

  lemma JoinBlocks(written: seq<seq<byte>>, first: seq<seq<byte>>, rest: seq<seq<byte>>)
    ensures (written + first) + rest == written + (first + rest)
  {
  }

  class Player {
    var tracks: Tracks
    var playlist: seq<Entry>
    var pcm: Pcm?
    var buffer: array?<byte>
    var mix: array?<byte>

    constructor ()
      ensures Valid() && tracks == map[] && playlist == [] && pcm == null
    {
      tracks, playlist, pcm, buffer, mix := map[], [], null, null, null;
    }

    ghost predicate Valid()
      reads this
    {
      && KeysAscend(playlist)
      && (buffer == null <==> mix == null)
      && (buffer != null ==>
            pcm != null && buffer != mix && buffer.Length == mix.Length == pcm.framesMax * pcm.frameSize)
    }

    /** The tracks named in vs are loaded, each with its own stream, and look like vs. */
    ghost predicate Shows(vs: map<int, Voice>)
      reads `tracks, `buffer, `mix, tracks.Values, Dios(tracks), Stores(tracks)
    {
      && (forall id {:trigger vs[id]} :: id in vs ==> id in tracks && Sounds(tracks[id], vs[id], buffer, mix))
      && (forall a, b {:trigger tracks[a].dio, tracks[b].dio} ::
            a in vs && b in vs && a != b ==> tracks[a].dio != tracks[b].dio)
    }

    /** Starts (or restarts) a track from its beginning, or stops it when no repeats are asked for. */
    method Play(id: int, iterations: int, gain: real, ghost vs: map<int, Voice>) returns (playing: bool)
      requires Valid() && Shows(vs) && (id in tracks ==> id in vs)
      modifies this`playlist, if id in tracks then {tracks[id].dio} else {}
      ensures Valid() && playing == (iterations != 0)
      ensures playlist == if iterations == 0 then Erase(old(playlist), id)
                          else Put(old(playlist), Entry(id, iterations, gain))
      ensures Shows(if iterations != 0 && id in vs then vs[id := vs[id].(pos := 0)] else vs)
    {
      if 0 == iterations {
        Stop(id);
        return false;
      } else {
        PutKeepsOrder(playlist, Entry(id, iterations, gain));
        playlist := Put(playlist, Entry(id, iterations, gain));
        Rewind(id, vs);
        return true;
      }
    }

    method Stop(id: int)
      requires Valid()
      modifies this`playlist
      ensures Valid() && playlist == Erase(old(playlist), id)
    {
      EraseKeepsOrder(playlist, id);
      playlist := Erase(playlist, id);
    }

    method Rewind(id: int, ghost vs: map<int, Voice>)
      requires Shows(vs) && (id in tracks ==> id in vs)
      modifies if id in tracks then {tracks[id].dio} else {}
      ensures Shows(if id in vs then vs[id := vs[id].(pos := 0)] else vs)
    {
      if id in tracks {
        var ok := tracks[id].Rewind();
      }
    }

    method SetPcm(p: Pcm?)
      requires Valid()
      modifies this`pcm, this`buffer, this`mix
      ensures Valid() && pcm == p
      ensures buffer == old(buffer) || buffer == null || fresh(buffer)
      ensures mix == old(mix) || mix == null || fresh(mix)
    {
      if pcm == p { return; }
      if pcm != null { buffer, mix := null, null; }
      pcm := p;
      if pcm != null && pcm.open { Allocate(); }
    }

    method Allocate()
      requires pcm != null
      modifies this`buffer, this`mix
      ensures buffer != null && fresh(buffer) && mix != null && fresh(mix) && buffer != mix
      ensures buffer.Length == mix.Length == pcm.framesMax * pcm.frameSize
    {
      buffer := new byte[pcm.framesMax * pcm.frameSize](_ => 0);
      mix := new byte[pcm.framesMax * pcm.frameSize](_ => 0);
    }

    /** Serves the entry of one loaded track; every other track stays as it is. */
    method ServeEntry(e: Entry, want: nat, ghost vs: map<int, Voice>) returns (f: Entry, erased: bool)
      requires Shows(vs) && e.id in vs && Playable(e, vs[e.id])
      requires buffer != null && mix != null && buffer != mix && want <= Min(buffer.Length, mix.Length)
      modifies buffer, mix, tracks[e.id].dio`cursor, tracks[e.id].dio`reachedEOF
      ensures Shows(vs[e.id := NextVoice(e, vs[e.id], want)])
      ensures Stepped(e, vs[e.id], want) == if erased then [] else [f]
      ensures mix[..want] == MixIn(old(mix[..want]), Contribution(e, vs[e.id], want), vs[e.id].depth, e.gain)
    {
      f, erased := Serve(e, tracks[e.id], buffer, mix, want, vs[e.id]);
    }

    /** One turn of the loop over the playlist: the entry is served, then kept with its new count or erased. */
    method ServeNext(e: Entry, served: seq<Entry>, want: nat, ghost ws: map<int, Voice>) returns (r: seq<Entry>)
      requires Shows(ws) && e.id in ws && Playable(e, ws[e.id])
      requires buffer != null && mix != null && buffer != mix && want <= Min(buffer.Length, mix.Length)
      modifies buffer, mix, tracks[e.id].dio`cursor, tracks[e.id].dio`reachedEOF
      ensures Shows(ws[e.id := NextVoice(e, ws[e.id], want)])
      ensures r == served + Stepped(e, ws[e.id], want)
      ensures mix[..want] == MixIn(old(mix[..want]), Contribution(e, ws[e.id], want), ws[e.id].depth, e.gain)
    {
      var f, erased := ServeEntry(e, want, ws);
      r := if erased then served else served + [f];
    }

    /** The loop over the playlist: finished entries are erased while iterating. The iterator splits the playlist in
        the entries already served and those to come; the list is stored back by the caller. */
    method ServeAll(want: nat, ghost vs: map<int, Voice>, ghost dios: set<BufferIO.BufferIO>) returns (list: seq<Entry>)
      requires KeysAscend(playlist) && Shows(vs) && AllPlayable(playlist, vs)
      requires forall id :: id in vs ==> tracks[id].dio in dios
      requires buffer != null && mix != null && buffer != mix && want <= Min(buffer.Length, mix.Length)
      requires mix[..want] == Silence(want)
      modifies buffer, mix, dios`cursor, dios`reachedEOF
      ensures Shows(TickVoices(playlist, vs, want, vs))
      ensures list == TickEntries(playlist, vs, want)
      ensures mix[..want] == MixAll(playlist, vs, want, Silence(want))
    {
      list := [];
      var todo := playlist;
      ghost var ws := vs;
      ghost var whole := Ticked(TickEntries(playlist, vs, want), TickVoices(playlist, vs, want, vs),
                                MixAll(playlist, vs, want, Silence(want)));
      TickBegins(playlist, vs, want);
      while todo != []
        invariant Shows(ws) && Ticking(list, todo, vs, want, ws, mix[..want], whole)
      {
        var e := todo[0];
        TickGoesOn(list, todo, vs, want, ws, mix[..want], whole);
        list := ServeNext(e, list, want, ws);
        ws := ws[e.id := NextVoice(e, ws[e.id], want)];
        todo := todo[1..];
      }
      TickEnds(list, vs, want, ws, mix[..want], whole);
    }

    method ClearMix(want: nat, ghost vs: map<int, Voice>)
      requires mix != null && want <= mix.Length && Shows(vs)
      modifies mix
      ensures mix[..want] == Silence(want) && Shows(vs)
    {
      forall j | 0 <= j < want {
        mix[j] := 0;
      }
      assert mix[..want] == Silence(want);
    }

    /** One tick: when the device has room, every playlist entry in key order fills the buffer and is mixed, entries
        that ran out are erased on the way, and the mix goes to the device. */
    method Tick(framesAvailable: nat, ghost vs: map<int, Voice>)
      requires Valid() && Shows(vs) && AllPlayable(playlist, vs)
      modifies this`playlist, this`buffer, this`mix, buffer, mix
      modifies (if pcm != null then {pcm} else {})`written, Dios(tracks)`cursor, Dios(tracks)`reachedEOF
      ensures Valid()
      ensures buffer == old(buffer) || fresh(buffer)
      ensures mix == old(mix) || fresh(mix)
      ensures pcm == null || !pcm.open || Min(pcm.framesMax, framesAvailable) == 0 ==>
        playlist == old(playlist) && Shows(vs) && (pcm != null ==> pcm.written == old(pcm.written))
      ensures pcm != null && pcm.open && Min(pcm.framesMax, framesAvailable) > 0 ==>
        var want := Min(pcm.framesMax, framesAvailable) * pcm.frameSize;
        && playlist == TickEntries(old(playlist), vs, want)
        && Shows(TickVoices(old(playlist), vs, want, vs))
        && pcm.written == old(pcm.written) + [MixAll(old(playlist), vs, want, Silence(want))]
    {
      if pcm == null || !pcm.open { return; }
      if buffer == null || mix == null { Allocate(); }

      var frames := Min(pcm.framesMax, framesAvailable);
      if 0 == frames { return; }
      FillDevice(frames, vs);
    }

    method FillDevice(frames: nat, ghost vs: map<int, Voice>)
      requires Valid() && Shows(vs) && AllPlayable(playlist, vs)
      requires pcm != null && buffer != null && frames <= pcm.framesMax
      modifies this`playlist, buffer, mix, pcm`written, Dios(tracks)`cursor, Dios(tracks)`reachedEOF
      ensures Valid() && Shows(TickVoices(old(playlist), vs, frames * pcm.frameSize, vs))
      ensures playlist == TickEntries(old(playlist), vs, frames * pcm.frameSize)
      ensures pcm.written == old(pcm.written)
        + [MixAll(old(playlist), vs, frames * pcm.frameSize, Silence(frames * pcm.frameSize))]
    {
      var want := frames * pcm.frameSize;
      assert (pcm.framesMax - frames) * pcm.frameSize >= 0;
      ClearMix(want, vs);
      var list := ServeAll(want, vs, Dios(tracks));
      PlaybackRuns.KeysStayAscending(playlist, vs, want);
      Finish(list, frames, TickVoices(playlist, vs, want, vs));
    }

    method Finish(list: seq<Entry>, frames: nat, ghost vs: map<int, Voice>)
      requires Valid() && KeysAscend(list) && Shows(vs)
      requires pcm != null && mix != null && frames * pcm.frameSize <= mix.Length
      modifies this`playlist, pcm`written
      ensures Valid() && Shows(vs)
      ensures playlist == list && pcm.written == old(pcm.written) + [mix[..frames * pcm.frameSize]]
    {
      playlist := list;
      pcm.Write(mix, frames);
    }

    method TickFrom(available: nat, ghost s: PlaybackRuns.State) returns (ghost r: PlaybackRuns.Ran)
      requires Valid() && pcm != null && pcm.open
      requires s.playlist == playlist && PlaybackRuns.Ok(s) && Shows(s.voices)
      modifies this`playlist, this`buffer, this`mix, buffer, mix
      modifies pcm`written, Dios(tracks)`cursor, Dios(tracks)`reachedEOF
      ensures r == PlaybackRuns.TickFor(s, pcm.framesMax, pcm.frameSize, available)
      ensures Valid() && playlist == r.state.playlist && Shows(r.state.voices)
      ensures pcm.written == old(pcm.written) + r.blocks
      ensures buffer == old(buffer) || fresh(buffer)
      ensures mix == old(mix) || fresh(mix)
    {
      Tick(available, s.voices);
      r := PlaybackRuns.TickFor(s, pcm.framesMax, pcm.frameSize, available);
      if Min(pcm.framesMax, available) == 0 { NoBlocks(pcm.written); }
    }

    method TickEach(available: seq<nat>, ghost s: PlaybackRuns.State) returns (ghost r: PlaybackRuns.Ran)
      requires Valid() && pcm != null && pcm.open
      requires s.playlist == playlist && PlaybackRuns.Ok(s) && Shows(s.voices)
      modifies this`playlist, this`buffer, this`mix, buffer, mix
      modifies pcm`written, Dios(tracks)`cursor, Dios(tracks)`reachedEOF
      ensures r == PlaybackRuns.RunFor(s, pcm.framesMax, pcm.frameSize, available)
      ensures Valid() && playlist == r.state.playlist && Shows(r.state.voices)
      ensures pcm.written == old(pcm.written) + r.blocks
      decreases |available|
    {
      r := PlaybackRuns.RunFor(s, pcm.framesMax, pcm.frameSize, available);
      if available == [] {
        NoBlocks(pcm.written);
      } else {
        ghost var first := TickFrom(available[0], s);
        ghost var rest := TickEach(available[1..], first.state);
        JoinBlocks(old(pcm.written), first.blocks, rest.blocks);
      }
    }

    /** A whole run of ticks takes the player to the state that the run of the abstract player reaches, and hands the
        device the mix of every tick of that run. */
    method TickAll(available: seq<nat>, ghost s: PlaybackRuns.State)
      requires Valid() && pcm != null && pcm.open
      requires s.playlist == playlist && PlaybackRuns.Ok(s) && Shows(s.voices)
      modifies this`playlist, this`buffer, this`mix, buffer, mix
      modifies pcm`written, Dios(tracks)`cursor, Dios(tracks)`reachedEOF
      ensures Valid()
      ensures
        var wants := PlaybackRuns.Wants(pcm.framesMax, pcm.frameSize, available);
        var t := PlaybackRuns.Run(s, wants);
        playlist == t.playlist && Shows(t.voices) && pcm.written == old(pcm.written) + PlaybackRuns.Blocks(s, wants)
    {
      PlaybackRuns.RunForIsRun(s, pcm.framesMax, pcm.frameSize, available);
      ghost var r := TickEach(available, s);
    }
  }
}
