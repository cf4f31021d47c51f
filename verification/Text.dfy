// Byte text as C handles it: streams written to and read from, NUL-terminated strings in a buffer.
module Text {
  import opened Bytes

  type text = seq<byte>

  const NUL: byte := 0
  const TAB: byte := 9
  const NEWLINE: byte := 10
  const RETURN: byte := 13
  const DQUOTE: byte := 34
  const SQUOTE: byte := 39
  const BACKSLASH: byte := 92

  predicate NulFree(s: text)
  {
    forall i :: 0 <= i < |s| ==> s[i] != NUL
  }

  /** An output stream; what was written is its whole state. */
  class OutFile {
    var written: text

    constructor ()
      ensures written == []
    {
      written := [];
    }

    method Put(c: byte)
      modifies this
      ensures written == old(written) + [c]
    {
      written := written + [c];
    }

    method Puts(s: text)
      modifies this
      ensures written == old(written) + s
    {
      written := written + s;
    }
  }

  /** The C string that starts at the given offset of a buffer. */
  function CString(buffer: text, at: nat): (s: text)
    requires at <= |buffer|
    ensures at + |s| <= |buffer| && s == buffer[at..at + |s|] && NulFree(s)
    ensures at + |s| < |buffer| ==> buffer[at + |s|] == NUL
    decreases |buffer| - at
  {
    if at == |buffer| || buffer[at] == NUL then [] else [buffer[at]] + CString(buffer, at + 1)
  }

  /** A NUL-free stretch followed by a NUL is the C string there. */
  lemma {:induction false} CStringIs(buffer: text, at: nat, s: text)
    requires at + |s| < |buffer| && NulFree(s)
    requires buffer[at..at + |s|] == s && buffer[at + |s|] == NUL
    ensures CString(buffer, at) == s
    decreases |s|
  {
    if s != [] {
      assert buffer[at] == s[0];
      CStringIs(buffer, at + 1, s[1..]);
    }
  }
}
