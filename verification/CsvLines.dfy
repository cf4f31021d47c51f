// The lines of a printed table: when the line reader and the splitter keep printed rows apart, for any separator.
module CsvLines {
  import opened Bytes
  import opened Text
  import opened Csv

  // ---------- Lines ----------

  /** Scanning s from the given quote state meets no newline outside quotes. */
  predicate NoBreak(s: text, inQuote: bool)
  {
    s != [] ==>
      var q := Toggled(inQuote, s[0]);
      !(s[0] == NEWLINE && !q) && NoBreak(s[1..], q)
  }

  lemma {:induction false} Scan(a: text, b: text, q: bool)
    ensures QuoteState(a + b, q) == QuoteState(b, QuoteState(a, q))
    ensures NoBreak(a + b, q) <==> NoBreak(a, q) && NoBreak(b, QuoteState(a, q))
    ensures NoBreak(a, q) ==> LineLength(a + b, q, true) == |a| + LineLength(b, QuoteState(a, q), true)
  {
    if a == [] {
      assert a + b == b;
    } else {
      assert (a + b)[1..] == a[1..] + b;
      Scan(a[1..], b, Toggled(q, a[0]));
    }
  }

  lemma {:induction false} DoubledStaysQuoted(z: text)
    ensures QuoteState(Doubled(z), true) && NoBreak(Doubled(z), true)
  {
    if z != [] {
      DoubledStaysQuoted(z[1..]);
      var head := if z[0] == DQUOTE then [DQUOTE, DQUOTE] else [z[0]];
      assert QuoteState(head, true) && NoBreak(head, true) by {
        assert head[1..] == if z[0] == DQUOTE then [DQUOTE] else [];
        assert [DQUOTE][1..] == [];
      }
      Scan(head, Doubled(z[1..]), true);
    }
  }

  /** A text without quotes and newlines leaves the quote state alone. */
  lemma {:induction false} BareScan(z: text, q: bool)
    requires forall i :: 0 <= i < |z| ==> z[i] != DQUOTE && z[i] != NEWLINE
    ensures QuoteState(z, q) == q && NoBreak(z, q)
  {
    if z != [] { BareScan(z[1..], q); }
  }

  lemma FieldScan(z: text, sep: text)
    requires sep != []
    ensures !QuoteState(CsvField(z, sep), false) && NoBreak(CsvField(z, sep), false)
  {
    if Quoted(z, sep) {
      DoubledStaysQuoted(z);
      assert [DQUOTE][1..] == [];
      Scan([DQUOTE], Doubled(z), false);
      Scan([DQUOTE] + Doubled(z), [DQUOTE], false);
    } else {
      BareScan(z, false);
    }
  }

  /** A printed row never ends in a carriage return, which the line reader would swallow. */
  lemma {:induction false} BodyEnd(row: seq<text>, sep: text)
    requires sep != [] && row != []
    ensures CsvBody(row, sep) != []
    ensures CsvBody(row, sep)[|CsvBody(row, sep)| - 1] != RETURN
  {
    if |row| == 1 {
      var z := row[0];
      if !Quoted(z, sep) { assert !NeedsQuote(z[|z| - 1]); }
    } else {
      BodyEnd(row[1..], sep);
    }
  }

  /** For the line reader the printed row is one line: no newline in it is outside quotes, and they are balanced. */
  predicate OneLine(row: seq<text>, sep: text)
    requires sep != []
  {
    NoBreak(CsvBody(row, sep), false) && !QuoteState(CsvBody(row, sep), false)
  }

  /** The fields read from a line. */
  function ReadFields(line: text, sep: text): seq<text>
    requires sep != []
  {
    UnquotedAll(Cut(line, sep, false, []))
  }

  /** A row printed as one line is the line read, newlines inside quotes included. */
  lemma LineOfRow(row: seq<text>, sep: text, rest: text)
    requires sep != [] && row != [] && OneLine(row, sep)
    ensures
      var body := CsvBody(row, sep); var s := body + [NEWLINE] + rest;
      LineLength(s, false, true) == |body| + 1 && Chomped(s[..|body| + 1], true) == body
  {
    var body := CsvBody(row, sep);
    var s := body + [NEWLINE] + rest;
    BodyEnd(row, sep);
    assert s == body + ([NEWLINE] + rest);
    Scan(body, [NEWLINE] + rest, false);
    assert s[..|body| + 1] == body + [NEWLINE];
    ChompedLine(body);
  }

  lemma ChompedLine(body: text)
    requires body != [] && body[|body| - 1] != RETURN && !QuoteState(body, false)
    ensures Chomped(body + [NEWLINE], true) == body
  {
    Scan(body, [NEWLINE], false);
    assert [NEWLINE][1..] == [];
    LastOff(body, NEWLINE);
  }

  lemma LastOff(s: text, c: byte)
    ensures var t := s + [c]; t[|t| - 1] == c && t[..|t| - 1] == s && (s != [] ==> t[|t| - 2] == s[|s| - 1])
  {
  }

  // ---------- What reading cannot lose ----------

  /** The characters of a text that are not quotes. Cutting removes separators, unquoting removes quotes; nothing else
      is ever lost, so a row can only be read back from a line that holds as many characters as it was printed with. */
  function Weight(s: text): nat
  {
    if s == [] then 0 else (if s[0] == DQUOTE then 0 else 1) + Weight(s[1..])
  }

  lemma {:induction false} WeightJoin(a: text, b: text)
    ensures Weight(a + b) == Weight(a) + Weight(b)
  {
    if a == [] {
      assert a + b == b;
    } else {
      assert (a + b)[1..] == a[1..] + b;
      WeightJoin(a[1..], b);
    }
  }

  lemma WeightOne(c: byte)
    ensures Weight([c]) == if c == DQUOTE then 0 else 1
  {
    assert [c][1..] == [];
  }

  /** The weight of fields with separators between them. */
  function RowWeight(fields: seq<text>, sep: text): nat
  {
    if fields == [] then 0
    else if |fields| == 1 then Weight(fields[0])
    else Weight(fields[0]) + Weight(sep) + RowWeight(fields[1..], sep)
  }

  lemma {:induction false} DoubledWeight(z: text)
    ensures Weight(Doubled(z)) == Weight(z)
  {
    if z != [] {
      var head := if z[0] == DQUOTE then [DQUOTE, DQUOTE] else [z[0]];
      DoubledWeight(z[1..]);
      WeightJoin(head, Doubled(z[1..]));
      assert head[1..] == if z[0] == DQUOTE then [DQUOTE] else [];
      WeightOne(z[0]);
    }
  }

  lemma FieldWeight(z: text, sep: text)
    requires sep != []
    ensures Weight(CsvField(z, sep)) == Weight(z)
  {
    if Quoted(z, sep) {
      DoubledWeight(z);
      WeightOne(DQUOTE);
      WeightJoin([DQUOTE], Doubled(z));
      WeightJoin([DQUOTE] + Doubled(z), [DQUOTE]);
    }
  }

  lemma {:induction false} BodyWeight(row: seq<text>, sep: text)
    requires sep != []
    ensures Weight(CsvBody(row, sep)) == RowWeight(row, sep)
    decreases |row|
  {
    if row != [] {
      FieldWeight(row[0], sep);
      if |row| > 1 {
        BodyWeight(row[1..], sep);
        WeightJoin(CsvField(row[0], sep), sep);
        WeightJoin(CsvField(row[0], sep) + sep, CsvBody(row[1..], sep));
      }
    }
  }

  lemma {:induction false} UnescapedWeight(s: text)
    ensures Weight(Unescaped(s)) == Weight(s)
    decreases |s|
  {
    if s != [] {
      if s[0] != DQUOTE {
        UnescapedWeight(s[1..]);
        assert ([s[0]] + Unescaped(s[1..]))[1..] == Unescaped(s[1..]);
      } else if |s| > 1 {
        UnescapedWeight(s[2..]);
        assert ([s[1]] + Unescaped(s[2..]))[1..] == Unescaped(s[2..]) && s[1..][1..] == s[2..];
      }
    }
  }

  lemma {:induction false} UnquotedWeight(fields: seq<text>, sep: text)
    ensures RowWeight(UnquotedAll(fields), sep) == RowWeight(fields, sep)
    decreases |fields|
  {
    if fields != [] {
      var f := fields[0];
      if f != [] && f[0] == DQUOTE { UnescapedWeight(f[1..]); }
      UnquotedWeight(fields[1..], sep);
      assert UnquotedAll(fields)[1..] == UnquotedAll(fields[1..]);
    }
  }

  lemma {:induction false} CutWeight(s: text, sep: text, q: bool, field: text)
    requires sep != []
    ensures RowWeight(Cut(s, sep, q, field), sep) == Weight(field) + Weight(s)
    decreases |s|
  {
    if s != [] {
      var q' := Toggled(q, s[0]);
      if !q' && sep <= s {
        CutWeight(s[|sep|..], sep, q', []);
        assert s == sep + s[|sep|..];
        WeightJoin(sep, s[|sep|..]);
        assert ([field] + Cut(s[|sep|..], sep, q', []))[1..] == Cut(s[|sep|..], sep, q', []);
      } else {
        CutWeight(s[1..], sep, q', field + [s[0]]);
        WeightJoin(field, [s[0]]);
        WeightOne(s[0]);
      }
    }
  }

  /** A line that reads as the row has the weight of the printed row. */
  lemma ReadWeight(line: text, row: seq<text>, sep: text)
    requires sep != [] && ReadFields(line, sep) == row
    ensures Weight(line) == Weight(CsvBody(row, sep))
  {
    CutWeight(line, sep, false, []);
    UnquotedWeight(Cut(line, sep, false, []), sep);
    BodyWeight(row, sep);
  }

  // ---------- Lines that are not rows ----------

  /** A newline outside quotes ends the line early. */
  lemma {:induction false} EarlyEnd(a: text, b: text, q: bool)
    requires !NoBreak(a, q)
    ensures
      var n := LineLength(a + b, q, true);
      0 < n <= |a| && a[n - 1] == NEWLINE && !QuoteState(a[..n], q)
    decreases |a|
  {
    var q' := Toggled(q, a[0]);
    assert (a + b)[1..] == a[1..] + b;
    if a[0] == NEWLINE && !q' {
      assert a[..1] == [NEWLINE] && [NEWLINE][1..] == [];
    } else {
      EarlyEnd(a[1..], b, q');
      var n := LineLength(a + b, q, true);
      assert a[..n][1..] == a[1..][..n - 1];
    }
  }

  lemma EarlyLineIsLight(body: text, rest: text)
    requires !NoBreak(body, false)
    ensures
      var s := body + [NEWLINE] + rest; var n := LineLength(s, false, true);
      Weight(Chomped(s[..n], true)) < Weight(body)
  {
    assert body + [NEWLINE] + rest == body + ([NEWLINE] + rest);
    EarlyEnd(body, [NEWLINE] + rest, false);
    var n := LineLength(body + [NEWLINE] + rest, false, true);
    var raw := body[..n];
    var line := Chomped(raw, true);
    assert (body + [NEWLINE] + rest)[..n] == raw;
    assert body == line + raw[|line|..n - 1] + [NEWLINE] + body[n..];
    WeightJoin(line, raw[|line|..n - 1]);
    WeightJoin(line + raw[|line|..n - 1], [NEWLINE]);
    WeightJoin(line + raw[|line|..n - 1] + [NEWLINE], body[n..]);
    WeightOne(NEWLINE);
  }

  lemma LateLineIsHeavy(body: text, rest: text)
    requires NoBreak(body, false) && QuoteState(body, false)
    ensures
      var s := body + [NEWLINE] + rest; var n := LineLength(s, false, true);
      Weight(Chomped(s[..n], true)) > Weight(body)
  {
    var s := body + [NEWLINE] + rest;
    assert s == body + ([NEWLINE] + rest);
    Scan(body, [NEWLINE] + rest, false);
    var n := LineLength(s, false, true);
    assert n > |body|;
    var raw := s[..n];
    var line := Chomped(raw, true);
    assert raw[|body|] == NEWLINE;
    if n == |body| + 1 {
      assert raw == body + [NEWLINE];
      Scan(body, [NEWLINE], false);
      assert [NEWLINE][1..] == [];
      assert line == raw;
    }
    assert |line| > |body|;
    assert line == body + [NEWLINE] + line[|body| + 1..];
    WeightJoin(body, [NEWLINE]);
    WeightJoin(body + [NEWLINE], line[|body| + 1..]);
    WeightOne(NEWLINE);
  }

  /** A row that was not printed as one line is not what the reader makes of the line it gets. */
  lemma BrokenRowIsLost(row: seq<text>, sep: text, rest: text)
    requires sep != [] && row != [] && !OneLine(row, sep)
    ensures
      var s := CsvBody(row, sep) + [NEWLINE] + rest; var n := LineLength(s, false, true);
      ReadFields(Chomped(s[..n], true), sep) != row
  {
    var body := CsvBody(row, sep);
    var s := body + [NEWLINE] + rest;
    var line := Chomped(s[..LineLength(s, false, true)], true);
    if NoBreak(body, false) {
      LateLineIsHeavy(body, rest);
    } else {
      EarlyLineIsLight(body, rest);
    }
    if ReadFields(line, sep) == row { ReadWeight(line, row, sep); }
  }

  // ---------- Tables ----------

  /** A row that comes back by itself: printed as one line, and read from it as it was. */
  predicate Kept(row: seq<text>, sep: text)
    requires sep != []
  {
    OneLine(row, sep) && ReadFields(CsvBody(row, sep), sep) == row
  }

  /** For every separator: a table comes back as it was exactly when each of its rows does by itself. No row can make
      up for what another one loses. */
  lemma {:induction false} RoundTripByRows(rows: seq<seq<text>>, sep: text, nCol: nat)
    requires sep != [] && nCol > 0
    requires forall i :: 0 <= i < |rows| ==> |rows[i]| == nCol
    ensures Imports(CsvText(rows, sep), sep, nCol) == Imported(rows)
            <==> forall i :: 0 <= i < |rows| ==> Kept(rows[i], sep)
    decreases |rows|
  {
    if rows != [] {
      FirstRow(rows, sep, nCol);
      RoundTripByRows(rows[1..], sep, nCol);
      KeptRest(rows, sep);
    }
  }

  lemma FirstRow(rows: seq<seq<text>>, sep: text, nCol: nat)
    requires sep != [] && rows != [] && |rows[0]| == nCol > 0
    ensures Imports(CsvText(rows, sep), sep, nCol) == Imported(rows)
            <==> Kept(rows[0], sep) && Imports(CsvText(rows[1..], sep), sep, nCol) == Imported(rows[1..])
  {
    var body := CsvBody(rows[0], sep);
    var rest := CsvText(rows[1..], sep);
    var s := CsvText(rows, sep);
    if OneLine(rows[0], sep) {
      LineOfRow(rows[0], sep, rest);
      assert s[|body| + 1..] == rest;
      var imported := Imports(rest, sep, nCol);
      if imported.Imported? { FirstAndRest(rows, ReadFields(body, sep), imported.rows); }
    } else {
      BrokenRowIsLost(rows[0], sep, rest);
      var n := LineLength(s, false, true);
      var first := ReadFields(Chomped(s[..n], true), sep);
      var imported := Imports(s[n..], sep, nCol);
      if imported.Imported? { FirstAndRest(rows, first, imported.rows); }
    }
  }

  lemma FirstAndRest(rows: seq<seq<text>>, first: seq<text>, rest: seq<seq<text>>)
    requires rows != []
    ensures [first] + rest == rows <==> first == rows[0] && rest == rows[1..]
  {
    assert ([first] + rest)[1..] == rest && rows == [rows[0]] + rows[1..];
  }

  lemma KeptRest(rows: seq<seq<text>>, sep: text)
    requires sep != [] && rows != []
    ensures (forall i :: 0 <= i < |rows| ==> Kept(rows[i], sep))
            <==> Kept(rows[0], sep) && forall i :: 0 <= i < |rows[1..]| ==> Kept(rows[1..][i], sep)
  {
    if Kept(rows[0], sep) && forall i :: 0 <= i < |rows[1..]| ==> Kept(rows[1..][i], sep) {
      forall i | 0 < i < |rows|
        ensures Kept(rows[i], sep)
      {
        assert rows[1..][i - 1] == rows[i];
      }
    }
  }
}
