// The reading loops of contrib/sqlite3/code/shell.c: a growing line buffer, and cutting and unquoting in place.
module CsvImport {
  import opened Bytes
  import opened Text
  import opened Csv

  /** How many characters fgets stores: up to and with a newline, at most room. */
  function ChunkLength(s: text, room: nat): (n: nat)
    ensures n <= |s| && n <= room
    ensures s != [] && room > 0 ==> n > 0
    ensures forall i :: 0 <= i < n - 1 ==> s[i] != NEWLINE
    ensures n < |s| && n < room ==> n > 0 && s[n - 1] == NEWLINE
  {
    if s == [] || room == 0 then 0
    else if s[0] == NEWLINE then 1
    else 1 + ChunkLength(s[1..], room - 1)
  }

  /** An input file: the text still to be read. */
  class InFile {
    var rest: text

    constructor (data: text)
      ensures rest == data
    {
      rest := data;
    }

    /** fgets: a chunk of at most size - 1 characters, NUL-terminated; false at the end of the file. */
    method Fgets(dst: array<byte>, at: nat, size: nat) returns (ok: bool)
      requires size >= 2 && at + size <= dst.Length
      modifies this, dst
      ensures ok == (old(rest) != [])
      ensures !ok ==> rest == [] && dst[..at] == old(dst[..at])
      ensures ok ==>
        var n := ChunkLength(old(rest), size - 1);
        rest == old(rest)[n..] && dst[..at + n] == old(dst[..at]) + old(rest)[..n] && dst[at + n] == NUL
    {
      var n := ChunkLength(rest, size - 1);
      if n == 0 { return false; }
      forall j | at <= j < at + n {
        dst[j] := rest[j - at];
      }
      dst[at + n] := NUL;
      rest := rest[n..];
      ok := true;
    }
  }

  method Realloc(a: array<byte>, length: nat, keep: nat) returns (b: array<byte>)
    requires keep <= length && keep <= a.Length
    ensures fresh(b) && b.Length == length && b[..keep] == a[..keep]
  {
    b := new byte[length](i requires 0 <= i reads a => if i < keep && i < a.Length then a[i] else NUL);
  }

  /** Scanning a chunk whose only newline may be its last character. */
  lemma {:induction false} ChunkScan(c: text, rest: text, q: bool, csv: bool)
    requires c != [] && forall i :: 0 <= i < |c| - 1 ==> c[i] != NEWLINE
    ensures
      var accepted := c[|c| - 1] == NEWLINE && (!QuoteState(c, q) || !csv);
      LineLength(c + rest, q, csv) == |c| + if accepted then 0 else LineLength(rest, QuoteState(c, q), csv)
  {
    assert (c + rest)[1..] == c[1..] + rest;
    if |c| == 1 {
      assert c[1..] + rest == rest;
    } else {
      ChunkScan(c[1..], rest, Toggled(q, c[0]), csv);
    }
  }

  lemma {:induction false} QuoteStateJoin(a: text, b: text, q: bool)
    ensures QuoteState(a + b, q) == QuoteState(b, QuoteState(a, q))
  {
    if a == [] {
      assert a + b == b;
    } else {
      assert (a + b)[1..] == a[1..] + b;
      QuoteStateJoin(a[1..], b, Toggled(q, a[0]));
    }
  }

  /** The quote loop over the freshly read part of the buffer. */
  method ScanQuotes(zLine: array<byte>, start: nat, inQuote0: bool, ghost chunk: text) returns (n: nat, inQuote: bool)
    requires start + |chunk| < zLine.Length && NulFree(chunk)
    requires zLine[start..start + |chunk|] == chunk && zLine[start + |chunk|] == NUL
    ensures n == start + |chunk| && inQuote == QuoteState(chunk, inQuote0)
  {
    n, inQuote := start, inQuote0;
    assert forall i :: 0 <= i < |chunk| ==> zLine[start..start + |chunk|][i] == chunk[i];
    while zLine[n] != NUL
      invariant start <= n <= start + |chunk|
      invariant n < start + |chunk| ==> zLine[n] == chunk[n - start]
      invariant QuoteState(chunk, inQuote0) == QuoteState(chunk[n - start..], inQuote)
      decreases start + |chunk| - n
    {
      assert chunk[n - start..][1..] == chunk[n + 1 - start..];
      if zLine[n] == DQUOTE { inQuote := !inQuote; }
      n := n + 1;
      if n < start + |chunk| { assert zLine[n] == zLine[start..start + |chunk|][n - start]; }
    }
  }

  /** A line is over after a newline that (in csv mode) is outside quotes. */
  predicate Accepted(c: byte, inQuote: bool, csv: bool)
  {
    c == NEWLINE && (!inQuote || !csv)
  }

  /** One turn of the reading loop: a chunk c from the file, and the quotes in it. */
  method ReadChunk(input: InFile, buffer: array<byte>, n0: nat, q0: bool)
    returns (got: bool, n: nat, inQuote: bool, ghost c: text)
    requires NulFree(input.rest) && n0 + 2 <= buffer.Length
    modifies input, buffer
    ensures got == (old(input.rest) != []) && old(input.rest) == c + input.rest && NulFree(input.rest)
    ensures n == n0 + |c| <= buffer.Length && buffer[..n] == old(buffer[..n0]) + c && inQuote == QuoteState(c, q0)
    ensures got ==> c != [] && forall i :: 0 <= i < |c| - 1 ==> c[i] != NEWLINE
  {
    n, inQuote, c := n0, q0, [];
    ghost var s := input.rest;
    got := input.Fgets(buffer, n, buffer.Length - n);
    if got {
      c := s[..ChunkLength(s, buffer.Length - n - 1)];
      assert buffer[n0..n0 + |c|] == c;
      n, inQuote := ScanQuotes(buffer, n, inQuote, c);
    }
  }

  /** A line without its accepted newline and a carriage return before it. */
  method Chomp(buffer: array<byte>, n: nat, ghost raw: text, csv: bool) returns (m: nat)
    requires 0 < n == |raw| <= buffer.Length && buffer[..n] == raw
    requires Accepted(raw[n - 1], QuoteState(raw, false), csv)
    ensures m <= n && buffer[..m] == Chomped(raw, csv)
  {
    m := n - 1;
    assert forall i :: 0 <= i < n ==> buffer[i] == buffer[..n][i] == raw[i];
    if m > 0 && buffer[m - 1] == RETURN { m := m - 1; }
  }

  /** What was read and what is still in the file make up the input, and nothing read so far ended the line. */
  ghost predicate MidLine(s: text, read: text, rest: text, inQuote: bool, csv: bool)
  {
    && s == read + rest && inQuote == QuoteState(read, false)
    && LineLength(s, false, csv) == |read| + LineLength(rest, inQuote, csv)
    && (read != [] ==> !Accepted(read[|read| - 1], inQuote, csv))
  }

  lemma NextChunk(s: text, read: text, c: text, rest: text, q: bool, csv: bool)
    requires MidLine(s, read, c + rest, q, csv) && c != []
    requires forall i :: 0 <= i < |c| - 1 ==> c[i] != NEWLINE
    ensures s == (read + c) + rest && QuoteState(read + c, false) == QuoteState(c, q)
    ensures (read + c)[|read + c| - 1] == c[|c| - 1]
    ensures if Accepted(c[|c| - 1], QuoteState(c, q), csv) then LineLength(s, false, csv) == |read + c|
            else MidLine(s, read + c, rest, QuoteState(c, q), csv)
  {
    QuoteStateJoin(read, c, false);
    ChunkScan(c, rest, q, csv);
  }

  /** Where the reading loop stands: in the middle of a line, or at its end. */
  ghost predicate Reading(s: text, read: text, rest: text, inQuote: bool, ended: bool, csv: bool)
  {
    && NulFree(rest) && s == read + rest && inQuote == QuoteState(read, false)
    && (if ended then read != [] && |read| == LineLength(s, false, csv) && Accepted(read[|read| - 1], inQuote, csv)
        else MidLine(s, read, rest, inQuote, csv))
  }

  /** One turn of the reading loop; ended says whether its chunk ended the line. */
  method Continue(input: InFile, buffer: array<byte>, n0: nat, q0: bool, csv: bool, ghost s: text, ghost before: text)
    returns (got: bool, n: nat, inQuote: bool, ended: bool, ghost read: text)
    requires Reading(s, before, input.rest, q0, false, csv)
    requires n0 == |before| && n0 + 2 <= buffer.Length && buffer[..n0] == before
    modifies input, buffer
    ensures Reading(s, read, input.rest, inQuote, ended, csv) && n == |read| <= buffer.Length && buffer[..n] == read
    ensures if got then |input.rest| < |old(input.rest)| else input.rest == []
  {
    ghost var c;
    got, n, inQuote, c := ReadChunk(input, buffer, n0, q0);
    read, ended := before + c, false;
    if got {
      NextChunk(s, before, c, input.rest, q0, csv);
      assert buffer[n - 1] == buffer[..n][n - 1];
      ended := buffer[n - 1] == NEWLINE && (!inQuote || !csv);
    } else {
      assert read == before;
    }
  }

  /** The reading loop: chunks are collected in a buffer that grows as needed, up to an accepted newline or the end of
      the file. */
  method Collect(input: InFile, csvFlag: bool) returns (buffer: array<byte>, n: nat, ended: bool, ghost read: text)
    requires NulFree(input.rest)
    modifies input
    ensures fresh(buffer) && n == |read| <= buffer.Length && buffer[..n] == read && NulFree(input.rest)
    ensures old(input.rest) == read + input.rest && n == LineLength(old(input.rest), false, csvFlag)
    ensures n == 0 ==> !ended
    ensures n > 0 ==> ended == Accepted(read[n - 1], QuoteState(read, false), csvFlag)
    ensures !ended ==> input.rest == []
  {
    ghost var s := input.rest;
    read := [];
    var nLine := 100;
    buffer := new byte[nLine](_ => NUL);
    n, ended := 0, false;
    var inQuote, got := false, true;
    while got && !ended
      invariant fresh(buffer) && buffer.Length == nLine && n == |read| <= nLine && buffer[..n] == read
      invariant Reading(s, read, input.rest, inQuote, ended, csvFlag) && (!got ==> input.rest == [])
      decreases got, |input.rest|
    {
      if n + 100 > nLine {
        nLine := nLine * 2 + 100;
        buffer := Realloc(buffer, nLine, n);
      }
      got, n, inQuote, ended, read := Continue(input, buffer, n, inQuote, csvFlag, s, read);
    }
  }

  /** Reads one line; in csv mode newlines inside quotes belong to the line. Null at the end of the file. */
  method LocalGetline(input: InFile, csvFlag: bool) returns (zLine: array?<byte>)
    requires NulFree(input.rest)
    modifies input
    ensures zLine == null <==> old(input.rest) == []
    ensures zLine == null ==> input.rest == []
    ensures NulFree(input.rest)
    ensures zLine != null ==>
      var n := LineLength(old(input.rest), false, csvFlag);
      fresh(zLine) && input.rest == old(input.rest)[n..] && zLine[..] == Chomped(old(input.rest)[..n], csvFlag) + [NUL]
  {
    ghost var s := input.rest;
    var buffer, n, ended; ghost var read;
    buffer, n, ended, read := Collect(input, csvFlag);
    assert s[..n] == read && s[n..] == input.rest;
    if n == 0 { return null; }
    if ended {
      n := Chomp(buffer, n, read, csvFlag);
    }
    zLine := Realloc(buffer, n + 1, n);
    zLine[n] := NUL;
  }

  // ---------- Cutting a line in place ----------

  /** The fields stand in the buffer as C strings, one behind the other, at the given offsets. */
  ghost predicate InPlace(buffer: text, at: seq<nat>, fields: seq<text>)
  {
    && |at| == |fields|
    && (forall k :: 0 <= k < |at| ==>
          at[k] + |fields[k]| < |buffer| && buffer[at[k]..at[k] + |fields[k]|] == fields[k]
          && buffer[at[k] + |fields[k]|] == NUL)
    && (forall k, l :: 0 <= k < l < |at| ==> at[k] + |fields[k]| < at[l])
  }

  /** One more field behind those already cut; what follows in the buffer is replaced. */
  lemma InPlaceNext(old_: text, new_: text, at: seq<nat>, fields: seq<text>, start: nat, field: text)
    requires InPlace(old_, at, fields)
    requires forall k :: 0 <= k < |at| ==> at[k] + |fields[k]| < start
    requires start + |field| < |new_| && start <= |old_| && new_[..start] == old_[..start]
    requires new_[start..start + |field|] == field && new_[start + |field|] == NUL
    ensures InPlace(new_, at + [start], fields + [field])
  {
    forall k | 0 <= k < |at|
      ensures new_[at[k]..at[k] + |fields[k]|] == fields[k] && new_[at[k] + |fields[k]|] == NUL
    {
      SameStart(old_, new_, start, at[k], at[k] + |fields[k]|);
    }
  }

  lemma SameStart(was: text, now: text, start: nat, lo: nat, hi: nat)
    requires lo <= hi < start <= |was| && start <= |now| && now[..start] == was[..start]
    ensures now[lo..hi] == was[lo..hi] && now[hi] == was[hi]
  {
    forall k | 0 <= k < start
      ensures now[k] == was[k]
    {
      assert now[..start][k] == was[..start][k];
    }
  }

  /** Where the cutting loop stands: pre is the part of the buffer already walked over, rest what is to come; the
      fields cut so far stand in pre, and the current one started at `start`. */
  ghost predicate MidCut(line: text, sep: text, pre: text, rest: text, inQuote: bool, at: seq<nat>,
      fields: seq<text>, start: nat)
    requires sep != []
  {
    && start <= |pre| && InPlace(pre, at, fields)
    && (forall k :: 0 <= k < |at| ==> at[k] + |fields[k]| < start)
    && Cut(line, sep, false, []) == fields + Cut(rest, sep, inQuote, pre[start..])
  }

  lemma NextPlain(line: text, sep: text, pre: text, rest: text, q: bool, at: seq<nat>, fields: seq<text>, start: nat)
    requires sep != [] && rest != [] && MidCut(line, sep, pre, rest, q, at, fields, start)
    requires !(!Toggled(q, rest[0]) && sep <= rest)
    ensures MidCut(line, sep, pre + [rest[0]], rest[1..], Toggled(q, rest[0]), at, fields, start)
  {
    assert (pre + [rest[0]])[start..] == pre[start..] + [rest[0]];
    forall k | 0 <= k < |at|
      ensures (pre + [rest[0]])[at[k]..at[k] + |fields[k]|] == fields[k]
    {
      assert (pre + [rest[0]])[at[k]..at[k] + |fields[k]|] == pre[at[k]..at[k] + |fields[k]|];
    }
  }

  lemma NextCut(line: text, sep: text, pre: text, rest: text, q: bool, at: seq<nat>, fields: seq<text>, start: nat)
    requires sep != [] && rest != [] && MidCut(line, sep, pre, rest, q, at, fields, start)
    requires !Toggled(q, rest[0]) && sep <= rest
    ensures
      var after := pre + [NUL] + sep[1..];
      MidCut(line, sep, after, rest[|sep|..], false, at + [start], fields + [pre[start..]], |after|)
    ensures |Cut(line, sep, false, [])| > |fields| + 1
  {
    var after := pre + [NUL] + sep[1..];
    assert after[..start] == pre[..start] && after[start..start + |pre[start..]|] == pre[start..];
    InPlaceNext(pre, after, at, fields, start, pre[start..]);
    assert after[|after|..] == [];
    var more := Cut(rest[|sep|..], sep, false, []);
    assert fields + ([pre[start..]] + more) == (fields + [pre[start..]]) + more;
  }

  /** strncmp against the separator at index z. */
  method SeparatorHere(zLine: array<byte>, z: nat, sep: text, ghost rest: text) returns (b: bool)
    requires NulFree(sep) && z + |rest| < zLine.Length
    requires zLine[z..z + |rest|] == rest && zLine[z + |rest|] == NUL
    ensures b == (sep <= rest)
  {
    var k := 0;
    while k < |sep|
      invariant 0 <= k <= |sep| && k <= |rest| && rest[..k] == sep[..k]
    {
      assert k < |rest| ==> zLine[z..z + |rest|][k] == rest[k];
      if zLine[z + k] != sep[k] {
        assert k < |rest| ==> rest[k] != sep[k];
        return false;
      }
      k := k + 1;
    }
    b := true;
  }

  /** Ends a field: a NUL over the character at z, with the next k - 1 characters counted as walked over. */
  method EndField(zLine: array<byte>, z: nat, ghost pre: text, ghost rest: text, ghost k: nat)
    requires zLine[..] == pre + rest + [NUL] && z == |pre| && 1 <= k <= |rest|
    modifies zLine
    ensures zLine[..] == (pre + [NUL] + rest[1..k]) + rest[k..] + [NUL]
  {
    zLine[z] := NUL;
  }

  /** The loop state: as in MidCut while columns are left; beyond that only the excess matters. */
  ghost predicate CutState(line: text, sep: text, nCol: nat, pre: text, rest: text, q: bool, i: nat,
      azCol: seq<nat>, fields: seq<text>)
    requires sep != []
  {
    && NulFree(rest)
    && (i < nCol ==>
          i == |fields| && |azCol| == i + 1 && MidCut(line, sep, pre, rest, q, azCol[..i], fields, azCol[i]))
    && (i >= nCol ==> |Cut(line, sep, false, [])| > nCol)
  }

  lemma PlainStep(line: text, sep: text, nCol: nat, pre: text, rest: text, q: bool, i: nat,
      azCol: seq<nat>, fields: seq<text>)
    requires sep != [] && rest != [] && CutState(line, sep, nCol, pre, rest, q, i, azCol, fields)
    requires !(!Toggled(q, rest[0]) && sep <= rest)
    ensures CutState(line, sep, nCol, pre + [rest[0]], rest[1..], Toggled(q, rest[0]), i, azCol, fields)
  {
    if i < nCol { NextPlain(line, sep, pre, rest, q, azCol[..i], fields, azCol[i]); }
  }

  lemma CutStep(line: text, sep: text, nCol: nat, pre: text, rest: text, q: bool, i: nat,
      azCol: seq<nat>, fields: seq<text>)
    requires sep != [] && rest != [] && CutState(line, sep, nCol, pre, rest, q, i, azCol, fields)
    requires !Toggled(q, rest[0]) && sep <= rest
    ensures i + 1 < nCol ==>
      var after := pre + [NUL] + rest[1..|sep|];
      CutState(line, sep, nCol, after, rest[|sep|..], false, i + 1, azCol + [|pre| + |sep|], fields + [pre[azCol[i]..]])
    ensures i + 1 >= nCol ==>
      CutState(line, sep, nCol, pre + [NUL] + rest[1..1], rest[1..], false, i + 1, azCol, fields)
  {
    assert rest[1..|sep|] == sep[1..];
    if i < nCol {
      NextCut(line, sep, pre, rest, q, azCol[..i], fields, azCol[i]);
      assert (azCol + [|pre| + |sep|])[..i + 1] == azCol[..i] + [azCol[i]];
    }
  }

  /** One turn of the cutting loop. */
  method SplitStep(zLine: array<byte>, sep: text, nCol: nat, z0: nat, i0: nat, azCol0: seq<nat>, q0: bool,
                   ghost line: text, ghost pre0: text, ghost rest0: text, ghost fields0: seq<text>)
    returns (z: nat, i: nat, azCol: seq<nat>, inQuote: bool, ghost pre: text, ghost rest: text, ghost fields: seq<text>)
    requires sep != [] && NulFree(sep)
    requires zLine[..] == pre0 + rest0 + [NUL] && z0 == |pre0| && rest0 != []
    requires CutState(line, sep, nCol, pre0, rest0, q0, i0, azCol0, fields0)
    modifies zLine
    ensures zLine[..] == pre + rest + [NUL] && z == |pre| && |rest| < |rest0|
    ensures CutState(line, sep, nCol, pre, rest, inQuote, i, azCol, fields)
  {
    z, i, azCol, fields := z0, i0, azCol0, fields0;
    assert zLine[z..z + |rest0|] == rest0 && zLine[z + |rest0|] == zLine[..][z + |rest0|];
    var c := zLine[z];
    assert c == zLine[z..z + |rest0|][0];
    inQuote := Toggled(q0, c);
    var here := SeparatorHere(zLine, z, sep, rest0);
    if !inQuote && here {
      CutStep(line, sep, nCol, pre0, rest0, q0, i, azCol, fields);
      ghost var k := if i + 1 < nCol then |sep| else 1;
      EndField(zLine, z, pre0, rest0, k);
      if i + 1 < nCol { fields := fields + [pre0[azCol[i]..]]; }
      pre, rest := pre0 + [NUL] + rest0[1..k], rest0[k..];
      i := i + 1;
      if i < nCol {
        azCol := azCol + [z + |sep|];
        z := z + |sep| - 1;
      }
    } else {
      PlainStep(line, sep, nCol, pre0, rest0, q0, i, azCol, fields);
      pre, rest := pre0 + [c], rest0[1..];
    }
    z := z + 1;
  }

  /** Cuts a line into C strings by overwriting separators outside quotes. When there are more fields than columns only
      their number matters. */
  method SplitLine(zLine: array<byte>, sep: text, nCol: nat, ghost line: text) returns (found: nat, azCol: seq<nat>)
    requires sep != [] && NulFree(sep) && nCol > 0
    requires NulFree(line) && zLine[..] == line + [NUL]
    modifies zLine
    ensures found == nCol <==> |Cut(line, sep, false, [])| == nCol
    ensures found == nCol ==> InPlace(zLine[..], azCol, Cut(line, sep, false, []))
  {
    var i, z := 0, 0;
    azCol := [0];
    var inQuote := false;
    ghost var pre: text, rest := [], line;
    ghost var fields: seq<text> := [];
    Started(line, sep, nCol);
    while zLine[z] != NUL
      invariant zLine[..] == pre + rest + [NUL] && z == |pre|
      invariant CutState(line, sep, nCol, pre, rest, inQuote, i, azCol, fields)
      decreases |rest|
    {
      assert zLine[z] == zLine[..][z];
      z, i, azCol, inQuote, pre, rest, fields :=
        SplitStep(zLine, sep, nCol, z, i, azCol, inQuote, line, pre, rest, fields);
    }
    assert zLine[z] == zLine[..][z];
    found := i + 1;
    Ended(line, sep, nCol, pre, rest, inQuote, i, azCol, fields);
  }

  lemma Started(line: text, sep: text, nCol: nat)
    requires sep != [] && nCol > 0 && NulFree(line)
    ensures CutState(line, sep, nCol, [], line, false, 0, [0], [])
  {
    assert [] + Cut(line, sep, false, [][0..]) == Cut(line, sep, false, []);
  }

  lemma Ended(line: text, sep: text, nCol: nat, pre: text, rest: text, q: bool, i: nat,
      azCol: seq<nat>, fields: seq<text>)
    requires sep != [] && CutState(line, sep, nCol, pre, rest, q, i, azCol, fields)
    requires rest != [] ==> rest[0] == NUL
    ensures i + 1 == nCol <==> |Cut(line, sep, false, [])| == nCol
    ensures i + 1 == nCol ==> InPlace(pre + rest + [NUL], azCol, Cut(line, sep, false, []))
  {
    assert rest == [];
    if i < nCol {
      assert Cut(line, sep, false, []) == fields + [pre[azCol[i]..]];
      assert azCol == azCol[..i] + [azCol[i]];
      InPlaceNext(pre, pre + rest + [NUL], azCol[..i], fields, azCol[i], pre[azCol[i]..]);
    }
  }

  // ---------- Unquoting in place ----------

  /** Where the unquoting loop stands: k characters written from `at` on, the text from index j on still to come. */
  ghost predicate MidUnquote(buffer: text, at: nat, s: text, k: nat, j: nat)
  {
    && k < j <= |s| && at + |s| < |buffer| && buffer[at + |s|] == NUL && NulFree(s)
    && buffer[at + j..at + |s|] == s[j..]
    && buffer[at..at + k] + Unescaped(s[j..]) == Unescaped(s[1..])
  }

  lemma UnquoteStep(buffer: text, at: nat, s: text, k: nat, j: nat)
    requires MidUnquote(buffer, at, s, k, j) && j < |s|
    ensures buffer[at + j] == s[j] != NUL
    ensures s[j] == DQUOTE && j + 1 == |s| ==> buffer[at + j + 1] == NUL && buffer[at..at + k] == Unescaped(s[1..])
    ensures s[j] == DQUOTE && j + 1 < |s| ==>
      buffer[at + j + 1] == s[j + 1] != NUL && MidUnquote(buffer[at + k := s[j + 1]], at, s, k + 1, j + 2)
    ensures s[j] != DQUOTE ==> MidUnquote(buffer[at + k := s[j]], at, s, k + 1, j + 1)
  {
    assert buffer[at + j] == buffer[at + j..at + |s|][0] == s[j..][0];
    var n := if s[j] == DQUOTE then j + 1 else j;
    if n < |s| {
      assert buffer[at + n] == buffer[at + j..at + |s|][n - j] == s[j..][n - j] == s[n];
      var after := buffer[at + k := s[n]];
      assert s[j..][1..] == s[j + 1..] && (n > j ==> s[j..][2..] == s[j + 2..]);
      assert after[at..at + k + 1] == buffer[at..at + k] + [s[n]];
      assert buffer[at..at + k] + ([s[n]] + Unescaped(s[n + 1..])) == after[at..at + k + 1] + Unescaped(s[n + 1..]);
      assert after[at + n + 1..at + |s|] == buffer[at + j..at + |s|][n + 1 - j..] == s[j..][n + 1 - j..];
    }
  }

  method Store(zLine: array<byte>, at: nat, c: byte)
    requires at < zLine.Length
    modifies zLine
    ensures zLine[..] == old(zLine[..])[at := c]
    ensures forall x :: 0 <= x < zLine.Length && x != at ==> zLine[x] == old(zLine[x])
  {
    zLine[at] := c;
  }

  /** One turn of the unquoting loop; false when the closing quote was met. */
  method UnquoteTurn(zLine: array<byte>, at: nat, k0: nat, j0: nat, ghost s: text) returns (more: bool, k: nat, j: nat)
    requires MidUnquote(zLine[..], at, s, k0, j0) && j0 < |s|
    modifies zLine
    ensures more ==> MidUnquote(zLine[..], at, s, k, j) && j > j0
    ensures !more ==> k == k0 && zLine[at..at + k] == Unescaped(s[1..]) && k < |s|
    ensures zLine[at + |s|] == NUL
    ensures forall x :: 0 <= x < zLine.Length && !(at <= x < at + |s|) ==> zLine[x] == old(zLine[x])
  {
    ghost var was := zLine[..];
    UnquoteStep(was, at, s, k0, j0);
    k := k0;
    j := SkipQuote(zLine, at, j0, s);
    if j > j0 && zLine[at + j] == NUL {
      assert zLine[at..at + k] == was[at..at + k];
      return false, k, j;
    }
    Store(zLine, at + k, zLine[at + j]);
    more, k, j := true, k + 1, j + 1;
  }

  /** A quote stands for the character behind it, or closes the field. */
  method SkipQuote(zLine: array<byte>, at: nat, j0: nat, ghost s: text) returns (j: nat)
    requires j0 < |s| && at + |s| < zLine.Length && zLine[at + j0] == s[j0] && NulFree(s)
    requires if j0 + 1 < |s| then s[j0] == DQUOTE ==> zLine[at + j0 + 1] == s[j0 + 1] else zLine[at + |s|] == NUL
    ensures j == (if s[j0] == DQUOTE then j0 + 1 else j0) && (zLine[at + j] == NUL <==> j == |s|)
    ensures j < |s| ==> zLine[at + j] == s[j]
  {
    j := j0;
    if zLine[at + j] == DQUOTE { j := j + 1; }
  }

  /** Removes the quotes around a field, and one of each two inside, by moving characters down. */
  method UnquoteInPlace(zLine: array<byte>, at: nat, ghost s: text)
    requires s != [] && s[0] == DQUOTE && NulFree(s) && at + |s| < zLine.Length
    requires zLine[at..at + |s|] == s && zLine[at + |s|] == NUL
    modifies zLine
    ensures |Unquoted(s)| < |s|
    ensures zLine[at..at + |Unquoted(s)|] == Unquoted(s) && zLine[at + |Unquoted(s)|] == NUL
    ensures forall x :: 0 <= x < zLine.Length && !(at <= x < at + |s|) ==> zLine[x] == old(zLine[x])
  {
    var j: nat, k: nat := 1, 0;
    var more := true;
    StartUnquote(zLine[..], at, s);
    while more && zLine[at + j] != NUL
      invariant more ==> MidUnquote(zLine[..], at, s, k, j)
      invariant !more ==> k < |s| && zLine[at..at + k] == Unescaped(s[1..])
      invariant zLine[at + |s|] == NUL
      invariant forall x :: 0 <= x < zLine.Length && !(at <= x < at + |s|) ==> zLine[x] == old(zLine[x])
      decreases more, |s| - j
    {
      more, k, j := UnquoteTurn(zLine, at, k, j, s);
    }
    if more { EndUnquote(zLine[..], at, s, k, j); }
    assert zLine[at..at + k] == zLine[..][at..at + k];
    zLine[at + k] := NUL;
  }

  lemma StartUnquote(buffer: text, at: nat, s: text)
    requires s != [] && NulFree(s) && at + |s| < |buffer| && buffer[at..at + |s|] == s && buffer[at + |s|] == NUL
    ensures MidUnquote(buffer, at, s, 0, 1)
  {
    assert buffer[at + 1..at + |s|] == buffer[at..at + |s|][1..];
    assert buffer[at..at] + Unescaped(s[1..]) == Unescaped(s[1..]);
  }

  lemma EndUnquote(buffer: text, at: nat, s: text, k: nat, j: nat)
    requires MidUnquote(buffer, at, s, k, j) && buffer[at + j] == NUL
    ensures buffer[at..at + k] == Unescaped(s[1..]) && k < |s|
  {
    if j < |s| {
      UnquoteStep(buffer, at, s, k, j);
      assert false;
    }
    assert s[j..] == [] && buffer[at..at + k] + [] == buffer[at..at + k];
  }

  // ---------- The import loop ----------

  /** Unquotes the columns of a cut line one by one and binds their values. */
  method BindColumns(zLine: array<byte>, azCol: seq<nat>, ghost fields: seq<text>) returns (values: seq<text>)
    requires InPlace(zLine[..], azCol, fields)
    requires forall k :: 0 <= k < |fields| ==> NulFree(fields[k])
    modifies zLine
    ensures values == UnquotedAll(fields)
  {
    values := [];
    var i := 0;
    while i < |azCol|
      invariant 0 <= i <= |azCol| && values == UnquotedAll(fields)[..i]
      invariant InPlace(zLine[..], azCol[i..], fields[i..])
    {
      var value := BindColumn(zLine, azCol[i..], fields[i..]);
      values := values + [value];
      assert azCol[i..][1..] == azCol[i + 1..] && fields[i..][1..] == fields[i + 1..];
      i := i + 1;
    }
  }

  /** The first of the remaining columns. */
  method BindColumn(zLine: array<byte>, at: seq<nat>, ghost fields: seq<text>) returns (value: text)
    requires InPlace(zLine[..], at, fields) && at != [] && NulFree(fields[0])
    modifies zLine
    ensures value == Unquoted(fields[0])
    ensures InPlace(zLine[..], at[1..], fields[1..])
  {
    ghost var f := fields[0];
    ghost var was := zLine[..];
    assert zLine[at[0]..at[0] + |f|] == was[at[0]..at[0] + |f|] == f && zLine[at[0] + |f|] == NUL;
    assert f != [] ==> zLine[at[0]] == was[at[0]..at[0] + |f|][0] == f[0];
    if zLine[at[0]] == DQUOTE {
      UnquoteInPlace(zLine, at[0], f);
    }
    ghost var u := Unquoted(f);
    UnquotedNulFree(f);
    assert zLine[..][at[0]..at[0] + |u|] == zLine[at[0]..at[0] + |u|];
    CStringIs(zLine[..], at[0], u);
    value := CString(zLine[..], at[0]);
    RestInPlace(was, zLine[..], at, fields);
  }

  /** Changes inside the first field leave the others in place. */
  lemma RestInPlace(was: text, now: text, at: seq<nat>, fields: seq<text>)
    requires at != [] && InPlace(was, at, fields) && |now| == |was|
    requires forall x :: 0 <= x < |now| && !(at[0] <= x < at[0] + |fields[0]|) ==> now[x] == was[x]
    ensures InPlace(now, at[1..], fields[1..])
  {
    forall k | 1 <= k < |at|
      ensures now[at[k]..at[k] + |fields[k]|] == fields[k]
    {
      assert at[0] + |fields[0]| < at[k];
      SameSlice(was, now, at[0] + |fields[0]|, at[k], at[k] + |fields[k]|);
    }
  }

  lemma SameSlice(was: text, now: text, from: nat, lo: nat, hi: nat)
    requires |now| == |was| && from <= lo <= hi <= |was|
    requires forall x :: from <= x < |now| ==> now[x] == was[x]
    ensures now[lo..hi] == was[lo..hi]
  {
  }

  lemma {:induction false} UnescapedNulFree(s: text)
    requires NulFree(s)
    ensures NulFree(Unescaped(s))
    decreases |s|
  {
    if s != [] {
      if s[0] != DQUOTE { UnescapedNulFree(s[1..]); } else if |s| > 1 { UnescapedNulFree(s[2..]); }
    }
  }

  lemma UnquotedNulFree(s: text)
    requires NulFree(s)
    ensures NulFree(Unquoted(s))
  {
    if s != [] { UnescapedNulFree(s[1..]); }
  }

  lemma {:induction false} CutNulFree(s: text, sep: text, q: bool, field: text)
    requires sep != [] && NulFree(s) && NulFree(field)
    ensures forall k :: 0 <= k < |Cut(s, sep, q, field)| ==> NulFree(Cut(s, sep, q, field)[k])
    decreases |s|
  {
    if s != [] {
      var p := Toggled(q, s[0]);
      if !p && sep <= s { CutNulFree(s[|sep|..], sep, p, []); } else { CutNulFree(s[1..], sep, p, field + [s[0]]); }
    }
  }

  function Prepend(rows: seq<seq<text>>, rest: Import): Import
  {
    match rest
    case Imported(more) => Imported(rows + more)
    case RolledBack => RolledBack
  }

  /** .import: reads the file line by line into a table of nCol columns; a line with another number of fields rolls
      everything back. */
  method ImportFile(input: InFile, sep: text, nCol: nat) returns (r: Import)
    requires NulFree(input.rest) && NulFree(sep) && sep != [] && nCol > 0
    modifies input
    ensures r == Imports(old(input.rest), sep, nCol)
  {
    var rows: seq<seq<text>> := [];
    while true
      invariant NulFree(input.rest)
      invariant Prepend(rows, Imports(input.rest, sep, nCol)) == Imports(old(input.rest), sep, nCol)
      decreases |input.rest|
    {
      ghost var s := input.rest;
      var zLine := LocalGetline(input, true);
      if zLine == null { return Imported(rows); }
      var row := ReadRow(zLine, sep, nCol, s);
      if row.RolledBack? { return RolledBack; }
      assert forall more: seq<seq<text>> :: rows + (row.rows + more) == (rows + row.rows) + more;
      rows := rows + row.rows;
    }
  }

  /** One line of the import: the row read from it, or the error that rolls back. */
  method ReadRow(zLine: array<byte>, sep: text, nCol: nat, ghost s: text) returns (r: Import)
    requires NulFree(s) && NulFree(sep) && sep != [] && nCol > 0 && s != []
    requires zLine[..] == Chomped(s[..LineLength(s, false, true)], true) + [NUL]
    modifies zLine
    ensures r.Imported? ==> |r.rows| == 1
    ensures Imports(s, sep, nCol) ==
      if r.RolledBack? then RolledBack else Prepend(r.rows, Imports(s[LineLength(s, false, true)..], sep, nCol))
  {
    ghost var line := Chomped(s[..LineLength(s, false, true)], true);
    var found, azCol := SplitLine(zLine, sep, nCol, line);
    if found != nCol { return RolledBack; }
    CutNulFree(line, sep, false, []);
    var values := BindColumns(zLine, azCol, Cut(line, sep, false, []));
    r := Imported([values]);
  }
}
