// C-style quoting in contrib/sqlite3/code/shell.c: output_c_string and resolve_backslashes.
module CEscape {
  import opened Bytes
  import opened Text

  const DIGIT0: byte := 48
  const LOWER_N: byte := 110
  const LOWER_R: byte := 114
  const LOWER_T: byte := 116

  predicate Printable(c: byte)
  {
    32 <= c < 127
  }

  predicate Octal(c: byte)
  {
    DIGIT0 <= c < DIGIT0 + 8
  }

  function Digit(v: int): (c: byte)
    requires 0 <= v < 8
    ensures Octal(c)
  {
    DIGIT0 + v
  }

  // ---------- Escaping ----------

  function EscapedChar(c: byte): (e: text)
    ensures e != []
  {
    if c == BACKSLASH then [BACKSLASH, BACKSLASH]
    else if c == DQUOTE then [BACKSLASH, DQUOTE]
    else if c == TAB then [BACKSLASH, LOWER_T]
    else if c == NEWLINE then [BACKSLASH, LOWER_N]
    else if c == RETURN then [BACKSLASH, LOWER_R]
    else if !Printable(c) then [BACKSLASH, Digit(c / 64), Digit(c / 8 % 8), Digit(c % 8)]
    else [c]
  }

  function Escaped(z: text): text
  {
    if z == [] then [] else EscapedChar(z[0]) + Escaped(z[1..])
  }

  method OutputCString(out: OutFile, z: text)
    modifies out
    ensures out.written == old(out.written) + ([DQUOTE] + Escaped(z) + [DQUOTE])
  {
    out.Put(DQUOTE);
    var i := 0;
    ghost var start := out.written;
    while i < |z|
      invariant 0 <= i <= |z|
      invariant out.written + Escaped(z[i..]) == start + Escaped(z)
    {
      EscapedNext(out.written, z, i);
      OutputCChar(out, z[i]);
      i := i + 1;
    }
    assert out.written == start + Escaped(z);
    out.Put(DQUOTE);
  }

  lemma EscapedNext(done: text, z: text, i: nat)
    requires i < |z|
    ensures done + Escaped(z[i..]) == (done + EscapedChar(z[i])) + Escaped(z[i + 1..])
  {
    assert z[i..][1..] == z[i + 1..];
  }

  method OutputCChar(out: OutFile, c: byte)
    modifies out
    ensures out.written == old(out.written) + EscapedChar(c)
  {
    if c == BACKSLASH {
      out.Put(c);
      out.Put(c);
    } else if c == DQUOTE {
      out.Put(BACKSLASH);
      out.Put(DQUOTE);
    } else if c == TAB {
      out.Put(BACKSLASH);
      out.Put(LOWER_T);
    } else if c == NEWLINE {
      out.Put(BACKSLASH);
      out.Put(LOWER_N);
    } else if c == RETURN {
      out.Put(BACKSLASH);
      out.Put(LOWER_R);
    } else if !Printable(c) {
      out.Puts([BACKSLASH, Digit(c / 64), Digit(c / 8 % 8), Digit(c % 8)]);
    } else {
      out.Put(c);
    }
  }

  // ---------- Resolving ----------

  /** Octal digits at the start of s, three at most. */
  function OctalRun(s: text): (n: nat)
    ensures n <= 3 && n <= |s|
  {
    if s == [] || !Octal(s[0]) then 0
    else if |s| == 1 || !Octal(s[1]) then 1
    else if |s| == 2 || !Octal(s[2]) then 2
    else 3
  }

  /** The value of the octal digits at the start of s, cut to a byte. */
  function OctalValue(s: text): byte
    requires OctalRun(s) > 0
  {
    var d0 := s[0] - DIGIT0;
    if OctalRun(s) == 1 then d0
    else if OctalRun(s) == 2 then 8 * d0 + s[1] - DIGIT0
    else (64 * d0 + 8 * (s[1] - DIGIT0) + s[2] - DIGIT0) % 256
  }

  /** Length of the unit at the start of s: an escape or a plain character. */
  function UnitLength(s: text): (n: nat)
    requires s != []
    ensures 1 <= n && (s != [BACKSLASH] ==> n <= |s|)
  {
    if s[0] != BACKSLASH then 1
    else if |s| == 1 then 2
    else if OctalRun(s[1..]) > 0 then 1 + OctalRun(s[1..])
    else 2
  }

  /** The character a unit stands for. */
  function UnitValue(s: text): byte
    requires s != [] && s != [BACKSLASH]
  {
    if s[0] != BACKSLASH then s[0]
    else if s[1] == LOWER_N then NEWLINE
    else if s[1] == LOWER_T then TAB
    else if s[1] == LOWER_R then RETURN
    else if OctalRun(s[1..]) > 0 then OctalValue(s[1..])
    else s[1]
  }

  /** No lone backslash at the end. With one, the code would read past the end of the string. */
  predicate Complete(s: text)
    decreases |s|
  {
    s != [] ==> s != [BACKSLASH] && Complete(s[UnitLength(s)..])
  }

  function Resolved(s: text): (r: text)
    requires Complete(s)
    ensures |r| <= |s|
    decreases |s|
  {
    if s == [] then [] else [UnitValue(s)] + Resolved(s[UnitLength(s)..])
  }

  /** The string s, ended by a zero, stands in z from index i on. */
  ghost predicate Stands(z: text, i: nat, s: text)
  {
    && i + |s| < |z|
    && (forall k :: i <= k < i + |s| ==> z[k] == s[k - i])
    && z[i + |s|] == NUL
  }

  lemma SliceStands(z: text, i: nat, s: text)
    requires i + |s| < |z| && z[i..i + |s|] == s && z[i + |s|] == NUL
    ensures Stands(z, i, s)
    ensures s != [] ==> Stands(z, i + 1, s[1..])
  {
    forall k | i <= k < i + |s|
      ensures z[k] == s[k - i]
    {
      assert z[i..i + |s|][k - i] == z[k];
    }
  }

  /** The value of the digits, one more digit at a time. */
  lemma OctalSteps(s: text)
    requires OctalRun(s) > 0
    ensures OctalRun(s) > 1 ==> (8 * (s[0] - DIGIT0) + s[1] - DIGIT0) % 256 == 8 * (s[0] - DIGIT0) + s[1] - DIGIT0
    ensures OctalRun(s) > 2 ==> OctalValue(s) == (8 * (8 * (s[0] - DIGIT0) + s[1] - DIGIT0) + s[2] - DIGIT0) % 256
  {
  }

  /** Reads one to three octal digits at index i; i is left on the last one. */
  method ReadOctal(z: array<byte>, i0: nat, ghost s: text) returns (c: byte, i: nat)
    requires Stands(z[..], i0, s) && OctalRun(s) > 0
    ensures i == i0 + OctalRun(s) - 1 && c == OctalValue(s)
  {
    OctalSteps(s);
    i := i0;
    c := z[i] - DIGIT0;
    assert z[..][i + 1] == if |s| > 1 then s[1] else NUL;
    if Octal(z[i + 1]) {
      i := i + 1;
      c := (8 * c + z[i] - DIGIT0) % 256;
      assert z[..][i + 1] == if |s| > 2 then s[2] else NUL;
      if Octal(z[i + 1]) {
        i := i + 1;
        c := (8 * c + z[i] - DIGIT0) % 256;
      }
    }
  }

  /** Reads one unit at index i; i is left on its last character. */
  method ReadUnit(z: array<byte>, i0: nat, ghost s: text) returns (c: byte, i: nat)
    requires s != [] && s != [BACKSLASH] && NulFree(s)
    requires i0 + |s| < z.Length && z[i0..i0 + |s|] == s && z[i0 + |s|] == NUL
    ensures i == i0 + UnitLength(s) - 1 && c == UnitValue(s)
  {
    assert z[..][i0..i0 + |s|] == z[i0..i0 + |s|];
    SliceStands(z[..], i0, s);
    i := i0;
    c := z[i];
    if c == BACKSLASH {
      i := i + 1;
      c := z[i];
      if c == LOWER_N {
        c := NEWLINE;
      } else if c == LOWER_T {
        c := TAB;
      } else if c == LOWER_R {
        c := RETURN;
      } else if Octal(c) {
        c, i := ReadOctal(z, i, s[1..]);
      }
    }
  }

  /** Where the rewriting stands: the first j characters are done, rest is still to be read from index i up to end. */
  ghost predicate MidResolve(z: text, end: nat, goal: text, i: nat, j: nat, rest: text)
  {
    && j <= i && i + |rest| == end < |z| && NulFree(rest) && Complete(rest)
    && z[i..end] == rest && z[end] == NUL
    && z[..j] + Resolved(rest) == goal
  }

  lemma NextUnit(z: text, end: nat, goal: text, i: nat, j: nat, rest: text)
    requires MidResolve(z, end, goal, i, j, rest) && rest != []
    ensures MidResolve(z[j := UnitValue(rest)], end, goal, i + UnitLength(rest), j + 1, rest[UnitLength(rest)..])
  {
    var n, c := UnitLength(rest), UnitValue(rest);
    var after, more := z[j := c], rest[n..];
    assert after[..j + 1] == z[..j] + [c];
    assert (z[..j] + [c]) + Resolved(more) == z[..j] + ([c] + Resolved(more));
    assert after[i + n..end] == z[i..end][n..];
  }

  lemma AtEnd(z: text, end: nat, goal: text, i: nat, j: nat, rest: text)
    requires MidResolve(z, end, goal, i, j, rest) && z[i] == NUL
    ensures rest == [] && z[..j] == goal
  {
    assert z[..j] + [] == z[..j];
  }

  /** One turn of the rewriting loop. */
  method ResolveUnit(z: array<byte>, i0: nat, j0: nat, ghost end: nat, ghost goal: text, ghost rest: text)
    returns (i: nat, j: nat)
    requires MidResolve(z[..], end, goal, i0, j0, rest) && rest != []
    modifies z
    ensures MidResolve(z[..], end, goal, i, j, rest[UnitLength(rest)..]) && j == j0 + 1
    ensures forall k :: 0 <= k < z.Length && k != j0 ==> z[k] == old(z[k])
  {
    assert z[..][i0..end] == z[i0..i0 + |rest|];
    var c;
    c, i := ReadUnit(z, i0, rest);
    NextUnit(z[..], end, goal, i0, j0, rest);
    ghost var was := z[..];
    z[j0] := c;
    assert z[..] == was[j0 := c];
    i, j := i + 1, j0 + 1;
  }

  /** Rewrites a string in place. Nothing behind the new terminator is touched. */
  method ResolveBackslashes(z: array<byte>, ghost s: text)
    requires NulFree(s) && Complete(s) && |s| < z.Length && z[..|s|] == s && z[|s|] == NUL
    modifies z
    ensures z[..|Resolved(s)|] == Resolved(s) && z[|Resolved(s)|] == NUL
    ensures forall k :: |Resolved(s)| < k < z.Length ==> z[k] == old(z[k])
  {
    var i: nat, j: nat := 0, 0;
    ghost var rest := s;
    ghost var goal := Resolved(s);
    assert z[..][..0] + goal == goal && z[..][0..|s|] == s;
    while z[i] != NUL
      invariant MidResolve(z[..], |s|, goal, i, j, rest)
      invariant forall k :: j <= k < z.Length ==> z[k] == old(z[k])
      decreases |rest|
    {
      assert rest != [];
      i, j := ResolveUnit(z, i, j, |s|, goal, rest);
      rest := rest[UnitLength(rest)..];
    }
    AtEnd(z[..], |s|, goal, i, j, rest);
    assert z[..j] == z[..][..j];
    z[j] := NUL;
  }

  // ---------- What the escapes mean ----------

  /** Printable ASCII but for the backslash and the quote is printed as it is; these two, tab, newline and carriage
      return (9, 10, 13) take two characters; every other character takes a backslash and three octal digits. */
  lemma EscapeLengths(c: byte)
    ensures EscapedChar(c) == [c] <==> 32 <= c < 127 && c != 92 && c != 34
    ensures |EscapedChar(c)| == 2 <==> c in {92, 34, 9, 10, 13}
    ensures |EscapedChar(c)| in {1, 2, 4}
  {
  }

  /** A number in base eight; '0' is 48. */
  function OctalNumber(digits: text): int
  {
    if digits == [] then 0
    else 8 * OctalNumber(digits[..|digits| - 1]) + digits[|digits| - 1] - 48
  }

  lemma OctalDigits(digits: text)
    requires digits != []
    ensures |digits| == 1 ==> OctalNumber(digits) == digits[0] as int - 48
    ensures |digits| == 2 ==> OctalNumber(digits) == 8 * (digits[0] as int - 48) + digits[1] - 48
    ensures |digits| == 3 ==>
      OctalNumber(digits) == 64 * (digits[0] as int - 48) + 8 * (digits[1] as int - 48) + digits[2] - 48
  {
    assert digits[..1][..0] == [];
    if |digits| == 1 {
      assert digits[..1] == digits;
    } else if |digits| == 2 {
      assert digits[..2] == digits;
    } else if |digits| == 3 {
      assert digits[..2][..1] == digits[..1];
    }
  }

  lemma RunOf(s: text, n: nat)
    requires 1 <= n <= 3 && n <= |s| && forall i :: 0 <= i < n ==> 48 <= s[i] < 56
    requires n == 3 || n == |s| || !(48 <= s[n] < 56)
    ensures OctalRun(s) == n
  {
  }

  lemma ValueOf(s: text, digits: text)
    requires |digits| == OctalRun(s) > 0 && forall i :: 0 <= i < |digits| ==> s[i] == digits[i]
    ensures OctalValue(s) == OctalNumber(digits) % 256
  {
    OctalDigits(digits);
  }

  lemma OctalReads(digits: text, rest: text)
    requires 1 <= |digits| <= 3 && forall i :: 0 <= i < |digits| ==> 48 <= digits[i] < 56
    requires |digits| == 3 || rest == [] || !(48 <= rest[0] < 56)
    ensures OctalRun(digits + rest) == |digits|
    ensures OctalValue(digits + rest) == OctalNumber(digits) % 256
  {
    RunOf(digits + rest, |digits|);
    ValueOf(digits + rest, digits);
  }

  /** A backslash and one to three octal digits stand for their number, cut to a byte; more digits do not belong to the
      escape. */
  lemma OctalEscape(digits: text, rest: text)
    requires 1 <= |digits| <= 3 && forall i :: 0 <= i < |digits| ==> 48 <= digits[i] < 56
    requires |digits| == 3 || rest == [] || !(48 <= rest[0] < 56)
    ensures
      var s := [92] + (digits + rest);
      s != [BACKSLASH] && UnitLength(s) == 1 + |digits| && UnitValue(s) == OctalNumber(digits) % 256
  {
    OctalReads(digits, rest);
    var tail := digits + rest;
    assert ([92] + tail)[1..] == tail;
    OctalUnit([92] + tail);
  }

  lemma OctalUnit(s: text)
    requires s != [] && s[0] == 92 && OctalRun(s[1..]) > 0
    ensures s != [BACKSLASH] && UnitLength(s) == 1 + OctalRun(s[1..]) && UnitValue(s) == OctalValue(s[1..])
  {
    assert s[1..][0] == s[1];
  }

  /** A backslash and n, t or r (110, 116, 114) stand for newline, tab and carriage return (10, 9, 13); a backslash and
      any other character that is no octal digit for that character. */
  lemma LetterEscape(c: byte, rest: text)
    requires !(48 <= c < 56)
    ensures
      var s := [92, c] + rest;
      s != [BACKSLASH] && UnitLength(s) == 2
      && UnitValue(s) == if c == 110 then 10 else if c == 116 then 9 else if c == 114 then 13 else c
  {
    var s := [92, c] + rest;
    assert s[1..][0] == c;
  }

  // ---------- Round trip ----------

  lemma UnitOfEscaped(c: byte, rest: text)
    ensures
      var s := EscapedChar(c) + rest;
      s != [BACKSLASH] && UnitLength(s) == |EscapedChar(c)| && UnitValue(s) == c
  {
    var s := EscapedChar(c) + rest;
    assert s[0] == EscapedChar(c)[0];
    if !Printable(c) && c != TAB && c != NEWLINE && c != RETURN {
      assert s[1..][0] == Digit(c / 64) && s[1..][1] == Digit(c / 8 % 8) && s[1..][2] == Digit(c % 8);
      assert 64 * (c / 64) + 8 * (c / 8 % 8) + c % 8 == c;
    }
  }

  /** Resolving the escaped text gives the text back, whatever digits follow an octal escape. */
  lemma {:induction false} ResolveUndoesEscape(z: text)
    ensures Complete(Escaped(z)) && Resolved(Escaped(z)) == z
  {
    if z != [] {
      var rest := Escaped(z[1..]);
      UnitOfEscaped(z[0], rest);
      ResolveUndoesEscape(z[1..]);
      assert (EscapedChar(z[0]) + rest)[|EscapedChar(z[0])|..] == rest;
    }
  }

  /** The escaped text is plain printable ASCII, and fits between double quotes: every quote in it follows an unpaired
      backslash. */
  predicate Enclosable(s: text)
    decreases |s|
  {
    s != [] ==>
      s[0] != DQUOTE && s != [BACKSLASH] && Enclosable(s[UnitLength(s)..])
  }

  lemma {:induction false} EscapedIsPrintable(z: text)
    ensures forall i :: 0 <= i < |Escaped(z)| ==> 32 <= Escaped(z)[i] < 127
    ensures Enclosable(Escaped(z))
  {
    if z != [] {
      var rest := Escaped(z[1..]);
      UnitOfEscaped(z[0], rest);
      EscapedIsPrintable(z[1..]);
      assert (EscapedChar(z[0]) + rest)[|EscapedChar(z[0])|..] == rest;
    }
  }
}
