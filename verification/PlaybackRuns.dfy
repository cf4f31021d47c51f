// Whole runs of ticks: what every playing track contributes, and what is heard.
module PlaybackRuns {
  import opened Bytes
  import opened Playback
  import opened Sequences

  // ---------- A tick, entry by entry ----------

  /** The bytes the track with the given key contributes to one tick. */
  function PartOf(es: seq<Entry>, vs: map<int, Voice>, want: nat, id: int): seq<byte>
    requires AllPlayable(es, vs)
  {
    if es == [] then []
    else if es[0].id == id then Contribution(es[0], vs[id], want)
    else PartOf(es[1..], vs, want, id)
  }

  predicate Playing(es: seq<Entry>, id: int)
  {
    exists i :: 0 <= i < |es| && es[i].id == id
  }

  /** Every entry of the playlist after a tick continues an entry of the playlist before it. */
  lemma {:induction false} EntriesComeFrom(es: seq<Entry>, vs: map<int, Voice>, want: nat, j: nat) returns (i: nat)
    requires AllPlayable(es, vs) && j < |TickEntries(es, vs, want)|
    ensures i < |es| && !Finishes(es[i], vs[es[i].id], want)
    ensures TickEntries(es, vs, want)[j] == NextEntry(es[i], vs[es[i].id], want)
  {
    var head := Stepped(es[0], vs[es[0].id], want);
    if j < |head| {
      i := 0;
    } else {
      i := EntriesComeFrom(es[1..], vs, want, j - |head|);
      i := i + 1;
    }
  }

  /** Every entry that is not finished is continued. */
  lemma {:induction false} EntriesGoOn(es: seq<Entry>, vs: map<int, Voice>, want: nat, i: nat) returns (j: nat)
    requires AllPlayable(es, vs) && i < |es| && !Finishes(es[i], vs[es[i].id], want)
    ensures j < |TickEntries(es, vs, want)|
    ensures TickEntries(es, vs, want)[j] == NextEntry(es[i], vs[es[i].id], want)
  {
    if i == 0 {
      j := 0;
    } else {
      j := EntriesGoOn(es[1..], vs, want, i - 1);
      j := j + |Stepped(es[0], vs[es[0].id], want)|;
    }
  }

  /** Tracks that are not on the playlist stay as they are. */
  lemma {:induction false} OthersStay(es: seq<Entry>, vs: map<int, Voice>, want: nat, ws: map<int, Voice>, id: int)
    requires AllPlayable(es, vs) && id in ws && !Playing(es, id)
    ensures id in TickVoices(es, vs, want, ws) && TickVoices(es, vs, want, ws)[id] == ws[id]
  {
    if es != [] {
      assert es[0].id != id;
      assert forall i :: 0 <= i < |es[1..]| ==> es[1..][i].id == es[i + 1].id;
      OthersStay(es[1..], vs, want, ws[es[0].id := NextVoice(es[0], vs[es[0].id], want)], id);
    }
  }

  lemma {:induction false} VoiceAdvances(es: seq<Entry>, vs: map<int, Voice>, want: nat, ws: map<int, Voice>, i: nat)
    requires AllPlayable(es, vs) && KeysAscend(es) && i < |es|
    ensures es[i].id in TickVoices(es, vs, want, ws)
    ensures TickVoices(es, vs, want, ws)[es[i].id] == NextVoice(es[i], vs[es[i].id], want)
  {
    var ws' := ws[es[0].id := NextVoice(es[0], vs[es[0].id], want)];
    if i == 0 {
      assert forall j :: 0 <= j < |es[1..]| ==> es[1..][j].id == es[j + 1].id;
      OthersStay(es[1..], vs, want, ws', es[0].id);
    } else {
      VoiceAdvances(es[1..], vs, want, ws', i - 1);
    }
  }

  lemma {:induction false} PartOfAt(es: seq<Entry>, vs: map<int, Voice>, want: nat, i: nat)
    requires AllPlayable(es, vs) && KeysAscend(es) && i < |es|
    ensures PartOf(es, vs, want, es[i].id) == Contribution(es[i], vs[es[i].id], want)
  {
    if i > 0 {
      PartOfAt(es[1..], vs, want, i - 1);
    }
  }

  lemma {:induction false} PartOfNone(es: seq<Entry>, vs: map<int, Voice>, want: nat, id: int)
    requires AllPlayable(es, vs) && !Playing(es, id)
    ensures PartOf(es, vs, want, id) == []
  {
    if es != [] {
      assert es[0].id != id;
      assert forall j :: 0 <= j < |es[1..]| ==> es[1..][j].id == es[j + 1].id;
      PartOfNone(es[1..], vs, want, id);
    }
  }

  lemma {:induction false} KeysStayAscending(es: seq<Entry>, vs: map<int, Voice>, want: nat)
    requires AllPlayable(es, vs) && KeysAscend(es)
    ensures KeysAscend(TickEntries(es, vs, want))
  {
    if es != [] {
      KeysStayAscending(es[1..], vs, want);
      var rest := TickEntries(es[1..], vs, want);
      forall j | 0 <= j < |rest|
        ensures es[0].id < rest[j].id
      {
        var i := EntriesComeFrom(es[1..], vs, want, j);
        assert es[1..][i].id == es[i + 1].id;
      }
      if !Finishes(es[0], vs[es[0].id], want) {
        var next := NextEntry(es[0], vs[es[0].id], want);
        assert TickEntries(es, vs, want) == [next] + rest && ([next] + rest)[1..] == rest;
      } else {
        assert TickEntries(es, vs, want) == rest;
      }
    }
  }

  /** A tick keeps every playlist entry servable. */
  lemma TickKeepsAllPlayable(es: seq<Entry>, vs: map<int, Voice>, want: nat)
    requires AllPlayable(es, vs) && KeysAscend(es)
    ensures AllPlayable(TickEntries(es, vs, want), TickVoices(es, vs, want, vs))
  {
    var r := TickEntries(es, vs, want);
    forall j | 0 <= j < |r|
      ensures r[j].id in TickVoices(es, vs, want, vs) && Playable(r[j], TickVoices(es, vs, want, vs)[r[j].id])
    {
      var i := EntriesComeFrom(es, vs, want, j);
      TickKeepsPlayable(es[i], vs[es[i].id], want);
      VoiceAdvances(es, vs, want, vs, i);
    }
  }

  // ---------- Runs ----------

  datatype State = State(playlist: seq<Entry>, voices: map<int, Voice>)

  predicate Ok(s: State)
  {
    KeysAscend(s.playlist) && AllPlayable(s.playlist, s.voices)
  }

  function Tick(s: State, want: nat): (t: State)
    requires Ok(s)
    ensures Ok(t)
  {
    KeysStayAscending(s.playlist, s.voices, want);
    TickKeepsAllPlayable(s.playlist, s.voices, want);
    State(TickEntries(s.playlist, s.voices, want), TickVoices(s.playlist, s.voices, want, s.voices))
  }

  /** The state after ticks that want the given numbers of bytes. */
  function Run(s: State, wants: seq<nat>): (t: State)
    requires Ok(s)
    ensures Ok(t)
    decreases |wants|
  {
    if wants == [] then s else Run(Tick(s, wants[0]), wants[1..])
  }

  /** The buffer sizes of the ticks that do something, for a device with the given limits. */
  function Wants(framesMax: nat, frameSize: nat, available: seq<nat>): seq<nat>
  {
    if available == [] then []
    else
      var frames := Min(framesMax, available[0]);
      (if frames > 0 then [frames * frameSize] else []) + Wants(framesMax, frameSize, available[1..])
  }

  /** The mixes that the ticks of a run hand to the device. */
  function Blocks(s: State, wants: seq<nat>): seq<seq<byte>>
    requires Ok(s)
    decreases |wants|
  {
    if wants == [] then []
    else [MixAll(s.playlist, s.voices, wants[0], Silence(wants[0]))] + Blocks(Tick(s, wants[0]), wants[1..])
  }

  /** What a run comes to: the state it ends in, and the blocks it wrote. */
  datatype Ran = Ran(state: State, blocks: seq<seq<byte>>)

  /** One tick, when the device has room for n frames. */
  function TickFor(s: State, framesMax: nat, frameSize: nat, n: nat): (r: Ran)
    requires Ok(s)
    ensures Ok(r.state)
  {
    var want := Min(framesMax, n) * frameSize;
    if Min(framesMax, n) > 0 then
      Ran(Tick(s, want), [MixAll(s.playlist, s.voices, want, Silence(want))])
    else Ran(s, [])
  }

  function RunFor(s: State, framesMax: nat, frameSize: nat, available: seq<nat>): Ran
    requires Ok(s)
    decreases |available|
  {
    if available == [] then Ran(s, [])
    else
      var first := TickFor(s, framesMax, frameSize, available[0]);
      var rest := RunFor(first.state, framesMax, frameSize, available[1..]);
      Ran(rest.state, first.blocks + rest.blocks)
  }

  lemma {:induction false} RunForIsRun(s: State, framesMax: nat, frameSize: nat, available: seq<nat>)
    requires Ok(s)
    ensures
      var wants := Wants(framesMax, frameSize, available);
      RunFor(s, framesMax, frameSize, available) == Ran(Run(s, wants), Blocks(s, wants))
    decreases |available|
  {
    if available != [] {
      var rest := Wants(framesMax, frameSize, available[1..]);
      var first := TickFor(s, framesMax, frameSize, available[0]);
      RunForIsRun(first.state, framesMax, frameSize, available[1..]);
      if Min(framesMax, available[0]) > 0 {
        var want := Min(framesMax, available[0]) * frameSize;
        assert ([want] + rest)[1..] == rest;
      } else {
        assert [] + rest == rest && [] + Blocks(s, rest) == Blocks(s, rest);
      }
    }
  }

  /** Everything the track with the given key contributed during a run. */
  function Heard(s: State, wants: seq<nat>, id: int): seq<byte>
    requires Ok(s)
    decreases |wants|
  {
    if wants == [] then []
    else PartOf(s.playlist, s.voices, wants[0], id) + Heard(Tick(s, wants[0]), wants[1..], id)
  }

  lemma {:induction false} NeverAgain(s: State, wants: seq<nat>, id: int)
    requires Ok(s) && !Playing(s.playlist, id)
    ensures Heard(s, wants, id) == [] && !Playing(Run(s, wants).playlist, id)
    decreases |wants|
  {
    if wants != [] {
      PartOfNone(s.playlist, s.voices, wants[0], id);
      var t := Tick(s, wants[0]);
      forall j | 0 <= j < |t.playlist|
        ensures t.playlist[j].id != id
      {
        var i := EntriesComeFrom(s.playlist, s.voices, wants[0], j);
      }
      NeverAgain(t, wants[1..], id);
    }
  }

  /** Over any run, an entry contributes the endless repetition of its sound from where it stands, cut off where
      its count runs out; it is gone at the end exactly when more was wanted than it had left. */
  lemma {:induction false} HeardIsLooped(s: State, wants: seq<nat>, i: nat)
    requires Ok(s) && i < |s.playlist|
    ensures
      var e := s.playlist[i]; var v := s.voices[e.id];
      Heard(s, wants, e.id) == Looped(v.sound, v.pos, Taken(e, v, Sum(wants))) &&
      (Playing(Run(s, wants).playlist, e.id) <==> !Finishes(e, v, Sum(wants)))
    decreases |wants|
  {
    var e := s.playlist[i];
    var v := s.voices[e.id];
    if wants == [] {
      assert s.playlist[i].id == e.id;
    } else {
      var want, rest := wants[0], wants[1..];
      var t := Tick(s, want);
      PartOfAt(s.playlist, s.voices, want, i);
      if Finishes(e, v, want) {
        forall j | 0 <= j < |t.playlist|
          ensures t.playlist[j].id != e.id
        {
          var i' := EntriesComeFrom(s.playlist, s.voices, want, j);
          if i < i' { KeysDiffer(s.playlist, i, i'); } else if i' < i { KeysDiffer(s.playlist, i', i); }
        }
        NeverAgain(t, rest, e.id);
      } else {
        var j := EntriesGoOn(s.playlist, s.voices, want, i);
        VoiceAdvances(s.playlist, s.voices, want, s.voices, i);
        TickKeepsPlayable(e, v, want);
        HeardIsLooped(t, rest, j);
        LoopedContinues(v.sound, v.pos, want, Taken(NextEntry(e, v, want), NextVoice(e, v, want), Sum(rest)));
      }
    }
  }

  lemma {:induction false} RepeatIsLooped(sound: seq<byte>, n: nat, k: nat)
    requires k <= |Repeat(sound, n)| && (k > 0 ==> sound != [])
    ensures Repeat(sound, n)[..k] == Looped(sound, 0, k)
  {
    if k <= |sound| {
      LoopedWithin(sound, 0, k);
    } else {
      RepeatIsLooped(sound, n - 1, k - |sound|);
      LoopedAround(sound, 0, k - |sound|);
    }
  }

  /** The main result for counted tracks. From `play` on (the track rewound, n repeats), whatever frame counts the
      device asks for, the track contributes a prefix of its sound repeated n times: as much as was wanted, or all
      of it. It is dropped exactly when more than all of it was wanted. */
  lemma PlayedTimes(s: State, wants: seq<nat>, i: nat)
    requires Ok(s) && i < |s.playlist|
    requires s.playlist[i].iterations > 0 && s.voices[s.playlist[i].id].pos == 0
    ensures
      var e := s.playlist[i]; var all := Repeat(s.voices[e.id].sound, e.iterations);
      Heard(s, wants, e.id) == all[..Min(Sum(wants), |all|)] &&
      (Playing(Run(s, wants).playlist, e.id) <==> Sum(wants) <= |all|)
  {
    var e := s.playlist[i];
    var v := s.voices[e.id];
    HeardIsLooped(s, wants, i);
    RepeatIsLooped(v.sound, e.iterations, Taken(e, v, Sum(wants)));
  }

  lemma {:induction false} RepeatIsLong(sound: seq<byte>, n: nat)
    requires sound != []
    ensures |Repeat(sound, n)| >= n
  {
    if n > 0 { RepeatIsLong(sound, n - 1); }
  }

  /** A track played without end is never dropped and repeats for as long as the run lasts. */
  lemma PlayedForever(s: State, wants: seq<nat>, i: nat)
    requires Ok(s) && i < |s.playlist|
    requires s.playlist[i].iterations < 0 && s.voices[s.playlist[i].id].pos == 0
    ensures
      var e := s.playlist[i]; var heard := Heard(s, wants, e.id);
      |heard| == Sum(wants) && heard <= Repeat(s.voices[e.id].sound, Sum(wants)) &&
      Playing(Run(s, wants).playlist, e.id)
  {
    var e := s.playlist[i];
    var v := s.voices[e.id];
    HeardIsLooped(s, wants, i);
    RepeatIsLong(v.sound, Sum(wants));
    RepeatIsLooped(v.sound, Sum(wants), Sum(wants));
  }
}
