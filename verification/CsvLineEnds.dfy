// Line ends: what the line reader makes of lines that end in a newline, in a carriage return and a newline, or with the
// file, and of quotes that are still open at a line end.
module CsvLineEnds {
  import opened Bytes
  import opened Text
  import opened Csv
  import opened CsvLines
  import opened CsvRoundTrip
  import opened Sequences

  const LF: text := [NEWLINE]
  const CRLF: text := [RETURN, NEWLINE]

  /** Lines one after the other, each with its end. */
  function Lines(lines: seq<text>, end: text): text
  {
    if lines == [] then [] else lines[0] + end + Lines(lines[1..], end)
  }

  function Bodies(rows: seq<seq<text>>, sep: text): (r: seq<text>)
    requires sep != []
    ensures |r| == |rows|
    ensures forall i :: 0 <= i < |rows| ==> r[i] == CsvBody(rows[i], sep)
  {
    if rows == [] then [] else [CsvBody(rows[0], sep)] + Bodies(rows[1..], sep)
  }

  // ---------- Printed tables ----------

  lemma {:induction false} LongerEnds(lines: seq<text>)
    ensures |Lines(lines, CRLF)| == |Lines(lines, LF)| + |lines|
  {
    if lines != [] { LongerEnds(lines[1..]); }
  }

  lemma {:induction false} TextIsLines(rows: seq<seq<text>>, sep: text)
    requires sep != []
    ensures CsvText(rows, sep) == Lines(Bodies(rows, sep), LF)
  {
    if rows != [] {
      assert Bodies(rows, sep)[1..] == Bodies(rows[1..], sep);
      TextIsLines(rows[1..], sep);
    }
  }

  /** The lines of a printed table end in a newline where those of RFC 4180 end in a carriage return and a newline: the
      two texts of the same rows agree for the empty table only. */
  lemma LineEndsDiffer(rows: seq<seq<text>>, sep: text)
    requires sep != []
    ensures CsvText(rows, sep) == Lines(Bodies(rows, sep), CRLF) <==> rows == []
  {
    TextIsLines(rows, sep);
    LongerEnds(Bodies(rows, sep));
  }

  // ---------- One line ----------

  /** A line whose quotes balance and whose newlines are all inside them. */
  predicate WholeLine(line: text)
  {
    NoBreak(line, false) && !QuoteState(line, false)
  }

  predicate EndsInReturn(line: text)
  {
    line != [] && line[|line| - 1] == RETURN
  }

  lemma ReturnScan(q: bool)
    ensures NoBreak([RETURN], q) && QuoteState([RETURN], q) == q
  {
    assert [RETURN][1..] == [];
  }

  lemma ReturnJoins(line: text)
    requires WholeLine(line)
    ensures WholeLine(line + [RETURN])
  {
    Scan(line, [RETURN], false);
    ReturnScan(false);
  }

  /** A whole line is read up to its newline, and the newline is taken off with one carriage return before it. */
  lemma NewlineEnds(line: text, rest: text)
    requires WholeLine(line)
    ensures LineLength(line + LF + rest, false, true) == |line| + 1
    ensures Chomped(line + LF, true) == if EndsInReturn(line) then line[..|line| - 1] else line
  {
    assert line + LF + rest == line + (LF + rest);
    Scan(line, LF + rest, false);
    Scan(line, LF, false);
    assert LF[1..] == [];
    LastOff(line, NEWLINE);
  }

  /** A whole line that ends in a carriage return and a newline is read as it is, whatever its own last character. */
  lemma ReturnAndNewlineEnd(line: text, rest: text)
    requires WholeLine(line)
    ensures LineLength(line + CRLF + rest, false, true) == |line| + 2
    ensures Chomped(line + CRLF, true) == line
  {
    ReturnJoins(line);
    assert line + CRLF == (line + [RETURN]) + LF && line + CRLF + rest == (line + [RETURN]) + LF + rest;
    NewlineEnds(line + [RETURN], rest);
    assert (line + [RETURN])[..|line|] == line;
  }

  /** The last line of a file needs no end; without one it is read as it is. */
  lemma LastLineEnds(line: text)
    requires WholeLine(line) && line != []
    ensures LineLength(line, false, true) == |line| && Chomped(line, true) == line
  {
    Scan(line, [], false);
    assert line + [] == line;
    if line[|line| - 1] == NEWLINE { EndBreaks(line); }
  }

  lemma EndBreaks(line: text)
    requires line != [] && line[|line| - 1] == NEWLINE && NoBreak(line, false)
    ensures QuoteState(line, false)
  {
    var init := line[..|line| - 1];
    assert line == init + LF;
    Scan(init, LF, false);
    assert LF[1..] == [];
  }

  /** A quote that is never closed makes one line of the rest of the file, and nothing is taken off its end. */
  lemma OpenQuoteTakesAll(s: text)
    requires NoBreak(s, false) && QuoteState(s, false)
    ensures LineLength(s, false, true) == |s| && Chomped(s, true) == s
  {
    Scan(s, [], false);
    assert s + [] == s;
  }

  /** Outside CSV mode a line ends at its first newline, and the newline is taken off, quotes or not. */
  lemma {:induction false} AnyNewlineEnds(line: text, rest: text, q: bool)
    requires NEWLINE !in line
    ensures LineLength(line + LF + rest, q, false) == |line| + 1
    ensures !EndsInReturn(line) ==> Chomped(line + LF, false) == line
  {
    var s := line + LF + rest;
    LastOff(line, NEWLINE);
    if line == [] {
      assert s[0] == NEWLINE;
    } else {
      assert s[1..] == line[1..] + LF + rest;
      AnyNewlineEnds(line[1..], rest, Toggled(q, line[0]));
    }
  }

  // ---------- Whole files ----------

  /** Every line read by itself; nothing when one of them has the wrong number of fields. */
  function EachRead(lines: seq<text>, sep: text, nCol: nat): Import
    requires sep != []
  {
    if forall i :: 0 <= i < |lines| ==> |ReadFields(lines[i], sep)| == nCol then
      Imported(seq(|lines|, i requires 0 <= i < |lines| => ReadFields(lines[i], sep)))
    else RolledBack
  }

  lemma EachReadFirst(lines: seq<text>, sep: text, nCol: nat)
    requires sep != [] && lines != []
    ensures EachRead(lines, sep, nCol) ==
      var fields := ReadFields(lines[0], sep);
      if |fields| != nCol then RolledBack
      else
        match EachRead(lines[1..], sep, nCol)
        case Imported(rows) => Imported([fields] + rows)
        case RolledBack => RolledBack
  {
    var more := lines[1..];
    assert forall i :: 0 <= i < |more| ==> more[i] == lines[i + 1];
    if forall i :: 0 <= i < |more| ==> |ReadFields(more[i], sep)| == nCol {
      if |ReadFields(lines[0], sep)| == nCol {
        forall i | 0 <= i < |lines|
          ensures |ReadFields(lines[i], sep)| == nCol
        {
          if i > 0 { assert lines[i] == more[i - 1]; }
        }
        assert EachRead(lines, sep, nCol).rows == [ReadFields(lines[0], sep)] + EachRead(more, sep, nCol).rows;
      }
    } else {
      var i :| 0 <= i < |more| && |ReadFields(more[i], sep)| != nCol;
      assert |ReadFields(lines[i + 1], sep)| != nCol;
    }
  }

  lemma ImportsFirst(first: text, line: text, rest: text, sep: text, nCol: nat)
    requires sep != [] && first != []
    requires LineLength(first + rest, false, true) == |first| && Chomped(first, true) == line
    ensures Imports(first + rest, sep, nCol) ==
      var fields := ReadFields(line, sep);
      if |fields| != nCol then RolledBack
      else
        match Imports(rest, sep, nCol)
        case Imported(rows) => Imported([fields] + rows)
        case RolledBack => RolledBack
  {
    assert (first + rest)[..|first|] == first && (first + rest)[|first|..] == rest;
  }

  predicate AllWhole(lines: seq<text>)
  {
    forall i :: 0 <= i < |lines| ==> WholeLine(lines[i])
  }

  lemma WholeRest(lines: seq<text>)
    requires AllWhole(lines) && lines != []
    ensures WholeLine(lines[0]) && AllWhole(lines[1..])
  {
    forall i | 0 <= i < |lines[1..]|
      ensures WholeLine(lines[1..][i])
    {
      assert lines[1..][i] == lines[i + 1];
    }
  }

  /** A file whose lines end in a carriage return and a newline is imported line by line, whatever the lines hold. */
  lemma {:induction false} ReturnFileIsRead(lines: seq<text>, sep: text, nCol: nat)
    requires sep != [] && AllWhole(lines)
    ensures Imports(Lines(lines, CRLF), sep, nCol) == EachRead(lines, sep, nCol)
  {
    if lines != [] {
      var rest := Lines(lines[1..], CRLF);
      WholeRest(lines);
      ReturnFileIsRead(lines[1..], sep, nCol);
      ReturnAndNewlineEnd(lines[0], rest);
      ImportsFirst(lines[0] + CRLF, lines[0], rest, sep, nCol);
      EachReadFirst(lines, sep, nCol);
    }
  }

  /** One whose lines end in a newline alone loses a carriage return that was a line's own last character. */
  function OneReturnOff(lines: seq<text>): (r: seq<text>)
    ensures |r| == |lines|
  {
    if lines == [] then []
    else
      var line := lines[0];
      [if EndsInReturn(line) then line[..|line| - 1] else line] + OneReturnOff(lines[1..])
  }

  lemma {:induction false} NewlineFileIsRead(lines: seq<text>, sep: text, nCol: nat)
    requires sep != [] && AllWhole(lines)
    ensures Imports(Lines(lines, LF), sep, nCol) == EachRead(OneReturnOff(lines), sep, nCol)
  {
    if lines != [] {
      var rest, off := Lines(lines[1..], LF), OneReturnOff(lines);
      WholeRest(lines);
      NewlineFileIsRead(lines[1..], sep, nCol);
      NewlineEnds(lines[0], rest);
      ImportsFirst(lines[0] + LF, off[0], rest, sep, nCol);
      assert off[1..] == OneReturnOff(lines[1..]);
      EachReadFirst(off, sep, nCol);
    }
  }

  lemma {:induction false} NothingOff(lines: seq<text>)
    requires forall i :: 0 <= i < |lines| ==> !EndsInReturn(lines[i])
    ensures OneReturnOff(lines) == lines
  {
    if lines != [] {
      assert forall i :: 0 <= i < |lines[1..]| ==> lines[1..][i] == lines[i + 1];
      NothingOff(lines[1..]);
    }
  }

  /** Lines that do not themselves end in a carriage return are imported alike under both line ends. */
  lemma LineEndsAreAlike(lines: seq<text>, sep: text, nCol: nat)
    requires sep != [] && AllWhole(lines) && forall i :: 0 <= i < |lines| ==> !EndsInReturn(lines[i])
    ensures Imports(Lines(lines, CRLF), sep, nCol) == Imports(Lines(lines, LF), sep, nCol)
  {
    ReturnFileIsRead(lines, sep, nCol);
    NewlineFileIsRead(lines, sep, nCol);
    NothingOff(lines);
  }

  lemma FirstOfMore(lines: seq<text>, last: text)
    requires lines != []
    ensures (lines + [last])[0] == lines[0] && (lines + [last])[1..] == lines[1..] + [last]
  {
  }

  /** The end of the last line may be missing. */
  lemma LastEndMayMiss(lines: seq<text>, last: text, sep: text, nCol: nat)
    requires sep != [] && AllWhole(lines) && WholeLine(last) && last != []
    ensures Imports(Lines(lines, CRLF) + last, sep, nCol) == EachRead(lines + [last], sep, nCol)
    decreases |lines|
  {
    if lines == [] {
      assert [] + last == last && last + [] == last && [last][1..] == [];
      LastLineEnds(last);
      ImportsFirst(last, last, [], sep, nCol);
      EachReadFirst([last], sep, nCol);
      assert lines + [last] == [last];
    } else {
      var rest := Lines(lines[1..], CRLF) + last;
      WholeRest(lines);
      LastEndMayMiss(lines[1..], last, sep, nCol);
      ReturnAndNewlineEnd(lines[0], rest);
      Assoc(lines[0] + CRLF, Lines(lines[1..], CRLF), last);
      ImportsFirst(lines[0] + CRLF, lines[0], rest, sep, nCol);
      FirstOfMore(lines, last);
      EachReadFirst(lines + [last], sep, nCol);
    }
  }

  // ---------- Printed tables under other line ends ----------

  /** A table printed as one line a row is imported alike when its lines are given the ends of RFC 4180. */
  lemma PrintedEndsAreAlike(rows: seq<seq<text>>, sep: text, nCol: nat)
    requires sep != [] && forall i :: 0 <= i < |rows| ==> rows[i] != [] && OneLine(rows[i], sep)
    ensures Imports(Lines(Bodies(rows, sep), CRLF), sep, nCol) == Imports(CsvText(rows, sep), sep, nCol)
  {
    var lines := Bodies(rows, sep);
    TextIsLines(rows, sep);
    forall i | 0 <= i < |lines|
      ensures WholeLine(lines[i]) && !EndsInReturn(lines[i])
    {
      assert lines[i] == CsvBody(rows[i], sep) && OneLine(rows[i], sep);
      BodyEnd(rows[i], sep);
    }
    LineEndsAreAlike(lines, sep, nCol);
  }

  /** The round trip under the line ends of RFC 4180, for every separator without quote and newline. */
  lemma ReturnRoundTrip(rows: seq<seq<text>>, sep: text, nCol: nat)
    requires PlainSeparator(sep) && nCol > 0
    requires forall i :: 0 <= i < |rows| ==> |rows[i]| == nCol
    ensures Imports(Lines(Bodies(rows, sep), CRLF), sep, nCol) == Imported(rows)
            <==> forall i :: 0 <= i < |rows| ==> SafeRow(rows[i], sep)
  {
    forall i | 0 <= i < |rows|
      ensures rows[i] != [] && OneLine(rows[i], sep)
    {
      PlainIsOneLine(rows[i], sep);
    }
    PrintedEndsAreAlike(rows, sep, nCol);
    PlainRoundTrip(rows, sep, nCol);
  }
}
