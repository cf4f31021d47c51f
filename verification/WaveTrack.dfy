// The RIFF WAVE reader of src/audio/wavetrack.cpp over a data stream.
module WaveTrack {
  import opened Bytes
  import opened BufferIO
  import opened Sequences

  const RIFF: seq<byte> := [0x52, 0x49, 0x46, 0x46]
  const WAVE: seq<byte> := [0x57, 0x41, 0x56, 0x45]
  const FMT: seq<byte> := [0x66, 0x6D, 0x74, 0x20]
  const DATA: seq<byte> := [0x64, 0x61, 0x74, 0x61]
  const FMT_SIZE := 16
  const PCM_FORMAT := 1

  predicate RiffWave(s: seq<byte>)
  {
    |s| >= 12 && s[0..4] == RIFF && s[8..12] == WAVE
  }

  /** The format chunk, with its head, stands behind the head of the file. */
  predicate FormatChunk(s: seq<byte>)
  {
    && |s| >= 36 && s[12..16] == FMT && U32(s[16], s[17], s[18], s[19]) == FMT_SIZE
    && U16(s[20], s[21]) == PCM_FORMAT
  }

  /** A 44-byte header as `reset` expects it; the chunk lengths at offsets 4 and 40 are skipped, not checked. */
  predicate CanonicalHeader(s: seq<byte>)
  {
    |s| >= 40 && RiffWave(s) && FormatChunk(s) && s[36..40] == DATA
  }

  /** Where playback starts: after the header, unless nothing follows it. */
  function FirstByte(s: seq<byte>): (start: nat)
    requires CanonicalHeader(s)
    ensures start <= |s|
  {
    if |s| > 44 then 44 else 40
  }

  /** Sample rate, bit depth and channel count; the last two are cut to a byte. */
  function FormatOf(s: seq<byte>): (int, byte, byte)
    requires CanonicalHeader(s)
  {
    (U32(s[24], s[25], s[26], s[27]), U16(s[34], s[35]) % 256, U16(s[22], s[23]) % 256)
  }

  class WaveTrack {
    var start: int
    var dio: BufferIO?
    var rate: int
    var depth: byte
    var channels: byte
    var valid: bool

    constructor ()
      ensures !valid && dio == null && start == 0 && rate == 0 && depth == 0 && channels == 0
    {
      start, dio, rate, depth, channels, valid := 0, null, 0, 0, 0, false;
    }

    predicate IsValid()
      reads this, dio
    {
      valid && dio != null && dio.IsOpen()
    }

    /** The track can be read: its cursor stands between its first byte and the end of the stream. */
    ghost predicate Ready()
      reads this, dio
    {
      IsValid() && dio.Valid() && 0 <= start <= dio.cursor <= dio.size
    }

    /** The sound: everything from the first byte to the end of the stream. */
    ghost function Sound(): (s: seq<byte>)
      requires Ready()
      reads this, dio, dio.constBuffer
    {
      dio.constBuffer[start..]
    }

    ghost function Played(): (p: nat)
      requires Ready()
      reads this, dio
    {
      dio.cursor - start
    }

    /** Points the track at a stream. A stream that is refused leaves the rest of an earlier, valid track in place. */
    method SetData(d: BufferIO)
      requires d.Valid()
      modifies this, d`cursor, d`reachedEOF
      ensures dio == d && d.Valid()
      ensures valid == (old(valid) || CanonicalHeader(d.Contents()))
      ensures CanonicalHeader(d.Contents()) ==>
        && Ready() && Played() == 0
        && start == FirstByte(d.Contents())
        && (rate, depth, channels) == FormatOf(d.Contents())
      ensures !CanonicalHeader(d.Contents()) ==>
        start == old(start) && rate == old(rate) && depth == old(depth) && channels == old(channels)
    {
      dio := d;
      Reset();
    }

    method Reset()
      requires dio != null && dio.Valid()
      modifies this`start, this`rate, this`depth, this`channels, this`valid, dio`cursor, dio`reachedEOF
      ensures dio.Valid()
      ensures valid == (old(valid) || CanonicalHeader(dio.Contents()))
      ensures CanonicalHeader(dio.Contents()) ==>
        && Ready() && Played() == 0
        && start == FirstByte(dio.Contents())
        && (rate, depth, channels) == FormatOf(dio.Contents())
      ensures !CanonicalHeader(dio.Contents()) ==>
        start == old(start) && rate == old(rate) && depth == old(depth) && channels == old(channels)
    {
      var fmt := ReadHeader(dio);
      if fmt.None? { return; }
      var ok := dio.Seek(4, Current);

      rate := U32(fmt.value[4], fmt.value[5], fmt.value[6], fmt.value[7]);
      depth := U16(fmt.value[14], fmt.value[15]) % 256;
      channels := U16(fmt.value[2], fmt.value[3]) % 256;
      start := dio.Tell();
      valid := true;
    }

    method Read(dst: array<byte>, at: nat, k: nat) returns (n: nat)
      requires Ready() && at + k <= dst.Length && dst != dio.constBuffer
      modifies dio`cursor, dio`reachedEOF, dst
      ensures Ready() && Sound() == old(Sound())
      ensures n == Min(k, |Sound()| - old(Played())) && Played() == old(Played()) + n
      ensures dst[at..at + n] == Sound()[old(Played())..Played()]
      ensures forall j :: 0 <= j < dst.Length && !(at <= j < at + n) ==> dst[j] == old(dst[j])
    {
      ghost var p := Played();
      n := dio.Read(dst, at, k);
      SliceOfTail(dio.constBuffer[..], start, p, n);
    }

    method Seek(frame: int) returns (ok: bool)
      requires Ready()
      modifies dio`cursor, dio`reachedEOF
      ensures dio.Valid()
      ensures ok == (0 <= start + frame * (channels * (depth / 8)) <= dio.size)
      ensures ok ==> dio.cursor == start + frame * (channels * (depth / 8))
      ensures !ok ==> dio.cursor == old(dio.cursor)
    {
      ok := dio.Seek(start + frame * (channels * (depth / 8)), Set);
    }

    method Rewind() returns (ok: bool)
      requires Ready()
      modifies dio`cursor, dio`reachedEOF
      ensures ok && Ready() && Sound() == old(Sound()) && Played() == 0
    {
      ok := Seek(0);
    }
  }

  lemma SliceOfTail(s: seq<byte>, start: nat, p: nat, n: nat)
    requires start + p + n <= |s|
    ensures s[start..][p..p + n] == s[start + p..start + p + n]
  {
  }

  /** Reads into a local buffer and hands back what arrived. */
  method ReadLocal(dio: BufferIO, k: nat) returns (got: seq<byte>)
    requires dio.Valid() && dio.constBuffer != null && dio.cursor <= dio.size
    modifies dio`cursor, dio`reachedEOF
    ensures dio.Valid()
    ensures got == ReadAt(dio.Contents(), old(dio.cursor), k)
    ensures dio.cursor == old(dio.cursor) + |got|
  {
    var local := new byte[k](_ => 0);
    var n := dio.Read(local, 0, k);
    got := local[..n];
    assert got == local[0..0 + n];
  }

  method Validate(dio: BufferIO) returns (ok: bool)
    requires dio.Valid()
    modifies dio`cursor, dio`reachedEOF
    ensures dio.Valid()
    ensures ok == RiffWave(dio.Contents())
    ensures ok ==> dio.cursor == 12 && dio.constBuffer != null
  {
    if !dio.IsOpen() { return false; }
    var found := dio.Seek(0, Set);
    if !found { return false; }

    var ident := ReadLocal(dio, 4);
    if |ident| != 4 { return false; }
    if ident != RIFF { return false; }

    found := dio.Seek(4, Current);
    if !found { return false; }

    ident := ReadLocal(dio, 4);
    if |ident| != 4 { return false; }
    if ident != WAVE { return false; }
    ok := true;
  }

  /** Reads the format chunk. */
  method ReadFormat(dio: BufferIO) returns (r: Option<seq<byte>>)
    requires dio.Valid() && dio.constBuffer != null && dio.cursor == 12 <= dio.size
    modifies dio`cursor, dio`reachedEOF
    ensures dio.Valid()
    ensures r.Some? == FormatChunk(dio.Contents())
    ensures r.Some? ==> dio.cursor == 36 && r.value == dio.Contents()[20..36]
  {
    var ident := ReadLocal(dio, 4);
    if |ident| != 4 || ident != FMT { return None; }

    var chunk := ReadLocal(dio, 4);
    if |chunk| != 4 { return None; }
    var chunkSize := U32(chunk[0], chunk[1], chunk[2], chunk[3]);
    if chunkSize != FMT_SIZE { return None; }

    var fmt := ReadLocal(dio, chunkSize);
    if |fmt| != chunkSize || U16(fmt[0], fmt[1]) != PCM_FORMAT { return None; }
    r := Some(fmt);
  }

  /** Reads up to the data chunk's length field and returns the format chunk. */
  method ReadHeader(dio: BufferIO) returns (r: Option<seq<byte>>)
    requires dio.Valid()
    modifies dio`cursor, dio`reachedEOF
    ensures dio.Valid()
    ensures r.Some? == CanonicalHeader(dio.Contents())
    ensures r.Some? ==> dio.constBuffer != null && dio.cursor == 40 && r.value == dio.Contents()[20..36]
  {
    var riff := Validate(dio);
    if !riff { return None; }
    var fmt := ReadFormat(dio);
    if fmt.None? { return None; }

    // a short read leaves the tail of "fmt " behind, which never spells "data"
    var got := ReadLocal(dio, 4);
    var ident := got + FMT[|got|..];
    assert |got| < 4 ==> ident[3] == FMT[3] != DATA[3];
    if ident != DATA { return None; }
    r := fmt;
  }

  /** A track plays exactly the bytes after its 44-byte header, except when one to four bytes follow offset 40:
      the skip over the length field is then refused, and those bytes are played as sound. */
  lemma SoundFollowsHeader(s: seq<byte>)
    requires CanonicalHeader(s)
    ensures s[FirstByte(s)..] == s[Min(44, |s|)..] <==> |s| > 44 || |s| == 40
  {
    assert |s[FirstByte(s)..]| == |s| - FirstByte(s) && |s[Min(44, |s|)..]| == |s| - Min(44, |s|);
  }

  /** The canonical 44-byte header followed by a sound. */
  lemma HeaderThenSound(header: seq<byte>, sound: seq<byte>)
    requires |header| == 44 && CanonicalHeader(header) && sound != []
    ensures CanonicalHeader(header + sound)
    ensures (header + sound)[FirstByte(header + sound)..] == sound
  {
    var s := header + sound;
    assert s[0..4] == header[0..4] && s[8..12] == header[8..12];
    assert s[12..16] == header[12..16] && s[36..40] == header[36..40];
  }

  // ---------- A header written out ----------

  predicate Spells(s: seq<byte>, at: nat, b0: byte, b1: byte, b2: byte, b3: byte)
  {
    at + 4 <= |s| && s[at] == b0 && s[at + 1] == b1 && s[at + 2] == b2 && s[at + 3] == b3
  }

  lemma SliceSpells(s: seq<byte>, at: nat, w: seq<byte>)
    requires |w| == 4 && at + 4 <= |s|
    ensures s[at..at + 4] == w <==> Spells(s, at, w[0], w[1], w[2], w[3])
  {
    var q := s[at..at + 4];
    if Spells(s, at, w[0], w[1], w[2], w[3]) {
      assert q[0] == w[0] && q[1] == w[1] && q[2] == w[2] && q[3] == w[3];
    }
  }

  /** A stream is accepted as a wave file when "RIFF" stands at offset 0 and "WAVE" at 8. */
  lemma RiffLayout(s: seq<byte>)
    ensures RiffWave(s) <==> Spells(s, 0, 0x52, 0x49, 0x46, 0x46) && Spells(s, 8, 0x57, 0x41, 0x56, 0x45)
  {
    if |s| >= 12 {
      SliceSpells(s, 0, RIFF);
      SliceSpells(s, 8, WAVE);
    }
  }

  lemma SmallNumbers(b0: byte, b1: byte, b2: byte, b3: byte, t0: byte, t1: byte)
    ensures U32(b0, b1, b2, b3) == 16 <==> b0 == 16 && b1 == b2 == b3 == 0
    ensures U16(t0, t1) == 1 <==> t0 == 1 && t1 == 0
  {
  }

  /** A header is accepted exactly when it is laid out as the format says: a wave file, "fmt " at offset 12 with a
      length of 16 and the tag 1, and "data" at 36; the lengths at 4 and 40 and the rates behind the frame rate may be
      anything. */
  lemma HeaderLayout(s: seq<byte>)
    ensures CanonicalHeader(s) <==>
      && Spells(s, 0, 0x52, 0x49, 0x46, 0x46) && Spells(s, 8, 0x57, 0x41, 0x56, 0x45)
      && Spells(s, 12, 0x66, 0x6D, 0x74, 0x20) && Spells(s, 16, 16, 0, 0, 0)
      && Spells(s, 36, 0x64, 0x61, 0x74, 0x61) && s[20] == 1 && s[21] == 0
  {
    if |s| >= 40 {
      RiffLayout(s);
      FormatHead(s);
      DataHead(s);
      SmallNumbers(s[16], s[17], s[18], s[19], s[20], s[21]);
    }
  }

  lemma FormatHead(s: seq<byte>)
    requires |s| >= 40
    ensures s[12..16] == FMT <==> Spells(s, 12, 0x66, 0x6D, 0x74, 0x20)
  {
    SliceSpells(s, 12, FMT);
  }

  lemma DataHead(s: seq<byte>)
    requires |s| >= 40
    ensures s[36..40] == DATA <==> Spells(s, 36, 0x64, 0x61, 0x74, 0x61)
  {
    SliceSpells(s, 36, DATA);
  }

  /** Channels, frame rate and bit depth are read from offsets 22, 24 and 34, the first and last as single bytes. */
  lemma FormatLayout(s: seq<byte>)
    requires CanonicalHeader(s)
    ensures FormatOf(s) == (U32(s[24], s[25], s[26], s[27]), s[34], s[22])
  {
    LittleEndian(s[22], s[23], s[34], s[35]);
    LittleEndian(s[34], s[35], s[22], s[23]);
  }
}
