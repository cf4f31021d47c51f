// The in-memory data stream of src/core/bufferio.cpp: a byte buffer with a cursor.
module BufferIO {
  import opened Bytes
  import opened Sequences

  datatype Mode = Invalid | ReadOnly | ReadWrite
  datatype Whence = Set | Current | End

  // ---------- The abstract stream: a byte sequence and a cursor ----------

  /** The bytes a read of k bytes at the cursor delivers. */
  function ReadAt(s: seq<byte>, cursor: nat, k: nat): (r: seq<byte>)
    requires cursor <= |s|
    ensures |r| == Min(k, |s| - cursor)
  {
    s[cursor..cursor + Min(k, |s| - cursor)]
  }

  /** The number of bytes of a k-byte write at the cursor that fit. */
  function Fits(s: seq<byte>, cursor: nat, k: nat): (n: nat)
    requires cursor <= |s|
  {
    Min(k, |s| - cursor)
  }

  /** The stream after a write at the cursor; it never grows. */
  function WriteAt(s: seq<byte>, cursor: nat, src: seq<byte>): (r: seq<byte>)
    requires cursor <= |s|
    ensures |r| == |s|
  {
    var n := Fits(s, cursor, |src|);
    s[..cursor] + src[..n] + s[cursor + n..]
  }

  /** Where a seek puts the cursor, or None when it is refused. */
  function SeekTo(size: nat, cursor: int, offset: int, on: Whence): (r: Option<int>)
  {
    match on
    case Set => if 0 <= offset <= size then Some(offset) else None
    case End => if 0 <= size + offset then Some(size + offset) else None
    case Current => if 0 <= cursor + offset < size then Some(cursor + offset) else None
  }

  /** Reads of the given sizes, one after the other, joined. */
  function ReadInChunks(s: seq<byte>, cursor: nat, ks: seq<nat>): seq<byte>
    requires cursor <= |s|
    decreases |ks|
  {
    if ks == [] then []
    else
      var first := ReadAt(s, cursor, ks[0]);
      first + ReadInChunks(s, cursor + |first|, ks[1..])
  }

  /** Any chunking of reads delivers what one read of the total size delivers. */
  lemma {:induction false} ChunksAreOneRead(s: seq<byte>, cursor: nat, ks: seq<nat>)
    requires cursor <= |s|
    ensures ReadInChunks(s, cursor, ks) == ReadAt(s, cursor, Sum(ks))
    decreases |ks|
  {
    if ks == [] {
    } else {
      ChunksAreOneRead(s, cursor + |ReadAt(s, cursor, ks[0])|, ks[1..]);
      OneMoreRead(s, cursor, ks);
    }
  }

  lemma OneMoreRead(s: seq<byte>, cursor: nat, ks: seq<nat>)
    requires cursor <= |s| && ks != []
    ensures
      var next := cursor + |ReadAt(s, cursor, ks[0])|;
      ReadInChunks(s, next, ks[1..]) == ReadAt(s, next, Sum(ks[1..]))
      ==> ReadInChunks(s, cursor, ks) == ReadAt(s, cursor, Sum(ks))
  {
    TwoReads(s, cursor, ks[0], Sum(ks[1..]));
  }

  lemma TwoReads(s: seq<byte>, cursor: nat, j: nat, k: nat)
    requires cursor <= |s|
    ensures
      var first := ReadAt(s, cursor, j);
      first + ReadAt(s, cursor + |first|, k) == ReadAt(s, cursor, j + k)
  {
  }

  /** Writing, seeking back and reading returns what was written, and every other byte is kept. */
  lemma WriteSeekRead(s: seq<byte>, cursor: nat, src: seq<byte>)
    requires cursor <= |s|
    ensures SeekTo(|s|, cursor + Fits(s, cursor, |src|), cursor, Set) == Some(cursor)
    ensures ReadAt(WriteAt(s, cursor, src), cursor, |src|) == src[..Fits(s, cursor, |src|)]
    ensures ReadAt(WriteAt(s, cursor, src), 0, cursor) == ReadAt(s, 0, cursor)
    ensures forall k :: cursor + |src| <= k < |s| ==> WriteAt(s, cursor, src)[k] == s[k]
  {
    var n := Fits(s, cursor, |src|);
    var w := WriteAt(s, cursor, src);
    assert w[cursor..cursor + n] == src[..n];
    assert w[..cursor] == s[..cursor];
  }

  /** A seek leaves a cursor inside the stream, except exactly a seek past the end with a positive offset. */
  lemma SeekKeepsCursorInside(size: nat, cursor: int, offset: int, on: Whence)
    requires SeekTo(size, cursor, offset, on).Some?
    ensures 0 <= SeekTo(size, cursor, offset, on).value
    ensures SeekTo(size, cursor, offset, on).value <= size <==> !(on == End && offset > 0)
  {
  }

  /** A place in the stream is reached from its beginning, from its end and from the cursor alike; the end itself not
      from the cursor. No place before the stream is ever reached, and one behind it only from the end. */
  lemma ThreeWaysToSeek(size: nat, cursor: nat, p: int)
    ensures
      var fromStart, fromEnd := SeekTo(size, cursor, p, Set), SeekTo(size, cursor, p - size, End);
      var fromCursor := SeekTo(size, cursor, p - cursor, Current);
      if p < 0 then fromStart == fromEnd == fromCursor == None
      else
        && fromEnd == Some(p)
        && fromStart == (if p <= size then Some(p) else None)
        && fromCursor == (if p < size then Some(p) else None)
  {
  }

  /** Seeking relative to the cursor is not seeking to the sum: the end itself is refused. */
  lemma CurrentRefusesOnlyTheEnd(size: nat, cursor: nat, offset: int)
    ensures SeekTo(size, cursor, offset, Current) == SeekTo(size, cursor, cursor + offset, Set)
            <==> cursor + offset != size
  {
  }

  // ---------- The class ----------

  class BufferIO {
    var buffer: array?<byte>       // writable view
    var constBuffer: array?<byte>  // readable view
    var mode: Mode
    var cursor: int
    var size: int
    var reachedEOF: bool
    var freeBuffer: bool

    ghost predicate Valid()
      reads this
    {
      && 0 <= cursor
      && (buffer != null ==> buffer == constBuffer && mode == ReadWrite)
      && (constBuffer != null ==> size == constBuffer.Length && mode != Invalid)
      && (constBuffer == null ==> size == 0 && mode == Invalid)
    }

    ghost function Contents(): (s: seq<byte>)
      reads this, constBuffer
    {
      if constBuffer == null then [] else constBuffer[..]
    }

    constructor Over(b: array<byte>)
      ensures Valid() && IsOpen() && buffer == constBuffer == b && cursor == 0
      ensures !reachedEOF && !freeBuffer
    {
      buffer, constBuffer := b, b;
      mode, cursor, size := ReadWrite, 0, b.Length;
      reachedEOF, freeBuffer := false, false;
    }

    constructor OverConst(b: array<byte>)
      ensures Valid() && IsOpen() && buffer == null && constBuffer == b && cursor == 0
      ensures !reachedEOF && !freeBuffer
    {
      buffer, constBuffer := null, b;
      mode, cursor, size := ReadOnly, 0, b.Length;
      reachedEOF, freeBuffer := false, false;
    }

    /** Copies another stream, through its own seek and read, and puts its cursor back where it was. */
    constructor CopyOf(source: BufferIO)
      requires source.Valid()
      modifies source`cursor, source`reachedEOF
      ensures source.size > 0 ==>
        && Valid() && IsOpen() && buffer == constBuffer && fresh(constBuffer) && cursor == 0
        && freeBuffer && !reachedEOF
        && Contents() == source.Contents()
      ensures source.Valid()
      ensures !source.IsOpen() ==> source.reachedEOF == old(source.reachedEOF)
      ensures source.cursor == if source.IsOpen() then Min(old(source.cursor), source.size) else old(source.cursor)
    {
      if source.IsOpen() {
        var was := source.Tell();
        var ok := source.Seek(0, End);
        var n := source.Tell();
        if n > 0 {
          var copy := source.ReadWhole(n);
          ok := source.Seek(was, Set);
          buffer, constBuffer := copy, copy;
          mode, cursor, size := ReadWrite, 0, n;
          reachedEOF, freeBuffer := false, true;
        }
      }
    }

    /** Reads a stream from its first byte to its end. */
    method ReadWhole(n: nat) returns (copy: array<byte>)
      requires Valid() && IsOpen() && n == size
      modifies this`cursor, this`reachedEOF
      ensures Valid() && fresh(copy) && copy[..] == Contents() && cursor == size
    {
      var ok := Seek(0, Set);
      copy := new byte[n](_ => 0);
      var got := Read(copy, 0, n);
      assert copy[..] == copy[0..0 + n];
    }

    method Close()
      requires Valid()
      modifies this
      ensures Valid() && !IsOpen() && Contents() == []
    {
      buffer, constBuffer := null, null;
      mode, cursor, size := Invalid, 0, 0;
      reachedEOF, freeBuffer := false, false;
    }

    predicate IsOpen()
      reads this
    {
      constBuffer != null && mode != Invalid
    }

    method AtEOF() returns (eof: bool)
      ensures eof == reachedEOF
    {
      eof := reachedEOF;
    }

    method Tell() returns (c: int)
      ensures c == cursor
    {
      c := cursor;
    }

    /** Copies up to k bytes to dst[at..]. A cursor past the end is the caller's fault: the copy length would be
        negative. */
    method Read(dst: array<byte>, at: nat, k: nat) returns (n: nat)
      requires Valid()
      requires constBuffer != null ==> cursor <= size
      requires at + k <= dst.Length && dst != constBuffer
      modifies this`cursor, this`reachedEOF, dst
      ensures Valid()
      ensures constBuffer == null ==> n == 0 && cursor == old(cursor) && reachedEOF == old(reachedEOF)
      ensures constBuffer != null ==>
        var got := ReadAt(Contents(), old(cursor), k);
        n == |got| && cursor == old(cursor) + n && dst[at..at + n] == got &&
        reachedEOF == (old(reachedEOF) || k > size - old(cursor))
      ensures n <= k
      ensures forall j :: 0 <= j < dst.Length && !(at <= j < at + n) ==> dst[j] == old(dst[j])
    {
      if constBuffer == null && (cursor >= 0 || cursor >= size) { return 0; }
      n := if cursor + k < size then k else size - cursor;
      forall j | at <= j < at + n {
        dst[j] := constBuffer[cursor + j - at];
      }
      assert dst[at..at + n] == constBuffer[cursor..cursor + n];
      cursor := cursor + n;
      if k > n { reachedEOF := true; }
    }

    method Write(src: array<byte>, at: nat, k: nat) returns (n: nat)
      requires Valid()
      requires buffer != null ==> cursor <= size
      requires at + k <= src.Length && src != buffer
      modifies this`cursor, this`reachedEOF, buffer
      ensures Valid() && constBuffer == old(constBuffer)
      ensures buffer == null ==> n == 0 && cursor == old(cursor) && reachedEOF == old(reachedEOF)
      ensures buffer != null ==>
        && n == Fits(old(Contents()), old(cursor), k)
        && Contents() == WriteAt(old(Contents()), old(cursor), old(src[at..at + k]))
        && cursor == old(cursor) + n
        && reachedEOF == (old(reachedEOF) || k > n)
    {
      if buffer == null && cursor >= 0 { return 0; }
      n := if cursor + k < size then k else size - cursor;
      forall j | cursor <= j < cursor + n {
        buffer[j] := src[at + j - cursor];
      }
      assert buffer[..] == WriteAt(old(Contents()), cursor, old(src[at..at + k]));
      cursor := cursor + n;
      if k > n { reachedEOF := true; }
    }

    method Seek(offset: int, on: Whence) returns (ok: bool)
      requires Valid()
      modifies this`cursor, this`reachedEOF
      ensures Valid()
      ensures ok == SeekTo(size, old(cursor), offset, on).Some?
      ensures ok ==> cursor == SeekTo(size, old(cursor), offset, on).value && !reachedEOF
      ensures !ok ==> cursor == old(cursor) && reachedEOF == old(reachedEOF)
    {
      var c := -1;
      match on {
        case Set =>
          if offset >= 0 && offset <= size { c := offset; }
        case End =>
          if size + offset >= 0 { c := size + offset; }
        case Current =>
          if cursor + offset >= 0 && cursor + offset < size { c := cursor + offset; }
      }
      if c == -1 { return false; }
      reachedEOF := false;
      cursor := c;
      ok := true;
    }
  }
}
