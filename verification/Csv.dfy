// The CSV writer of contrib/sqlite3/code/shell.c, and the meaning of what its .import command reads.
module Csv {
  import opened Bytes
  import opened Text

  // ---------- Writing ----------

  /** The table needCsvQuote: control characters, space, both quotes, DEL and everything above. */
  predicate NeedsQuote(c: byte)
  {
    c <= 32 || c == DQUOTE || c == SQUOTE || c >= 127
  }

  /** The separator test of the writer. A separator of several characters is only looked for at the start of the
      text. */
  predicate SeparatorAt(z: text, sep: text, i: nat)
    requires i < |z| && sep != []
  {
    z[i] == sep[0] && (|sep| == 1 || sep <= z)
  }

  predicate Quoted(z: text, sep: text)
    requires sep != []
  {
    z == [] || exists i :: 0 <= i < |z| && (NeedsQuote(z[i]) || SeparatorAt(z, sep, i))
  }

  function Doubled(z: text): text
  {
    if z == [] then [] else (if z[0] == DQUOTE then [DQUOTE, DQUOTE] else [z[0]]) + Doubled(z[1..])
  }

  function CsvField(z: text, sep: text): text
    requires sep != []
  {
    if Quoted(z, sep) then [DQUOTE] + Doubled(z) + [DQUOTE] else z
  }

  /** The fields of a row with the separator between them. */
  function CsvBody(row: seq<text>, sep: text): text
    requires sep != []
  {
    if row == [] then []
    else if |row| == 1 then CsvField(row[0], sep)
    else CsvField(row[0], sep) + sep + CsvBody(row[1..], sep)
  }

  function CsvText(rows: seq<seq<text>>, sep: text): text
    requires sep != []
  {
    if rows == [] then [] else CsvBody(rows[0], sep) + [NEWLINE] + CsvText(rows[1..], sep)
  }

  lemma {:induction false} DoubledSnoc(z: text, c: byte)
    ensures Doubled(z + [c]) == Doubled(z) + if c == DQUOTE then [DQUOTE, DQUOTE] else [c]
  {
    if z == [] {
      assert [c][1..] == [];
    } else {
      assert (z + [c])[1..] == z[1..] + [c];
      DoubledSnoc(z[1..], c);
    }
  }

  /** Looks for a reason to quote; the index is put back to 0 when there is one (or nothing to scan). */
  method ScanField(z: text, separator: text) returns (i: nat)
    requires separator != []
    ensures i == 0 <==> Quoted(z, separator)
  {
    i := 0;
    while i < |z|
      invariant 0 <= i <= |z|
      invariant forall k :: 0 <= k < i ==> !NeedsQuote(z[k]) && !SeparatorAt(z, separator, k)
    {
      if NeedsQuote(z[i]) || (z[i] == separator[0] && (|separator| == 1 || separator <= z)) {
        assert SeparatorAt(z, separator, i) || NeedsQuote(z[i]);
        return 0;
      }
      i := i + 1;
    }
  }

  method PutDoubled(out: OutFile, z: text)
    modifies out
    ensures out.written == old(out.written) + Doubled(z)
  {
    var i := 0;
    assert z[..0] == [];
    while i < |z|
      invariant 0 <= i <= |z|
      invariant out.written == old(out.written) + Doubled(z[..i])
    {
      assert z[..i + 1] == z[..i] + [z[i]];
      DoubledSnoc(z[..i], z[i]);
      if z[i] == DQUOTE { out.Put(DQUOTE); }
      out.Put(z[i]);
      i := i + 1;
    }
    assert z[..|z|] == z;
  }

  method PutField(out: OutFile, separator: text, z: text)
    requires separator != []
    modifies out
    ensures out.written == old(out.written) + CsvField(z, separator)
  {
    var i := ScanField(z, separator);
    if i == 0 {
      ghost var was := out.written;
      out.Put(DQUOTE);
      PutDoubled(out, z);
      out.Put(DQUOTE);
      assert out.written == was + ([DQUOTE] + Doubled(z) + [DQUOTE]);
    } else {
      out.Puts(z);
    }
  }

  /** Prints one field, quoted when needed. */
  method OutputCsv(out: OutFile, separator: text, z: text, bSep: bool)
    requires separator != []
    modifies out
    ensures out.written == old(out.written) + CsvField(z, separator) + if bSep then separator else []
  {
    PutField(out, separator, z);
    if bSep {
      out.Puts(separator);
    }
  }

  lemma BodyNext(done: text, row: seq<text>, i: nat, sep: text)
    requires sep != [] && i < |row|
    ensures done + CsvBody(row[i..], sep)
         == (done + CsvField(row[i], sep) + if i < |row| - 1 then sep else []) + CsvBody(row[i + 1..], sep)
  {
    assert row[i..][1..] == row[i + 1..];
  }

  /** Prints one row of a result in CSV mode. */
  method OutputRow(out: OutFile, separator: text, row: seq<text>)
    requires separator != []
    modifies out
    ensures out.written == old(out.written) + CsvBody(row, separator) + [NEWLINE]
  {
    var i := 0;
    while i < |row|
      invariant 0 <= i <= |row|
      invariant out.written + CsvBody(row[i..], separator) == old(out.written) + CsvBody(row, separator)
    {
      BodyNext(out.written, row, i, separator);
      OutputCsv(out, separator, row[i], i < |row| - 1);
      i := i + 1;
    }
    out.Put(NEWLINE);
  }

  lemma TextNext(done: text, rows: seq<seq<text>>, i: nat, sep: text)
    requires sep != [] && i < |rows|
    ensures done + CsvText(rows[i..], sep) == (done + CsvBody(rows[i], sep) + [NEWLINE]) + CsvText(rows[i + 1..], sep)
  {
    assert rows[i..][1..] == rows[i + 1..];
  }

  /** Prints a whole result. */
  method OutputRows(out: OutFile, separator: text, rows: seq<seq<text>>)
    requires separator != []
    modifies out
    ensures out.written == old(out.written) + CsvText(rows, separator)
  {
    var i := 0;
    while i < |rows|
      invariant 0 <= i <= |rows|
      invariant out.written + CsvText(rows[i..], separator) == old(out.written) + CsvText(rows, separator)
    {
      TextNext(out.written, rows, i, separator);
      OutputRow(out, separator, rows[i]);
      i := i + 1;
    }
  }

  // ---------- Reading ----------

  /** The quote state after a character. */
  function Toggled(inQuote: bool, c: byte): bool
  {
    if c == DQUOTE then !inQuote else inQuote
  }

  /** How many characters of s make up its first line: up to and with the first newline that (in csv mode) is
      outside quotes. */
  function LineLength(s: text, inQuote: bool, csv: bool): (n: nat)
    ensures n <= |s|
    ensures s != [] ==> n > 0
  {
    if s == [] then 0
    else
      var q := Toggled(inQuote, s[0]);
      if s[0] == NEWLINE && (!q || !csv) then 1 else 1 + LineLength(s[1..], q, csv)
  }

  /** The quote state after a stretch of text. */
  function QuoteState(s: text, inQuote: bool): bool
  {
    if s == [] then inQuote else QuoteState(s[1..], Toggled(inQuote, s[0]))
  }

  /** A line without its line end; the last line of a file may have none. */
  function Chomped(raw: text, csv: bool): (line: text)
    ensures |line| <= |raw| && line == raw[..|line|]
  {
    if raw != [] && raw[|raw| - 1] == NEWLINE && (!QuoteState(raw, false) || !csv) then
      var line := raw[..|raw| - 1];
      if line != [] && line[|line| - 1] == RETURN then line[..|line| - 1] else line
    else raw
  }

  /** Cuts a line at the separators outside quotes; `field` is what was read of the current field. */
  function Cut(s: text, sep: text, inQuote: bool, field: text): (fields: seq<text>)
    requires sep != []
    ensures |fields| > 0
    decreases |s|
  {
    if s == [] then [field]
    else
      var q := Toggled(inQuote, s[0]);
      if !q && sep <= s then [field] + Cut(s[|sep|..], sep, q, []) else Cut(s[1..], sep, q, field + [s[0]])
  }

  /** The text between the quotes: a quote stands for the character after it. */
  function Unescaped(s: text): text
  {
    if s == [] then []
    else if s[0] == DQUOTE then (if |s| == 1 then [] else [s[1]] + Unescaped(s[2..]))
    else [s[0]] + Unescaped(s[1..])
  }

  function Unquoted(s: text): text
  {
    if s != [] && s[0] == DQUOTE then Unescaped(s[1..]) else s
  }

  function UnquotedAll(fields: seq<text>): (r: seq<text>)
    ensures |r| == |fields|
    ensures forall i :: 0 <= i < |fields| ==> r[i] == Unquoted(fields[i])
  {
    seq(|fields|, i requires 0 <= i < |fields| => Unquoted(fields[i]))
  }

  datatype Import = Imported(rows: seq<seq<text>>) | RolledBack

  /** What importing a file into a table with nCol columns comes to: all rows, or none when a line has the wrong
      number of fields. */
  function Imports(s: text, sep: text, nCol: nat): Import
    requires sep != []
    decreases |s|
  {
    if s == [] then Imported([])
    else
      var n := LineLength(s, false, true);
      var fields := Cut(Chomped(s[..n], true), sep, false, []);
      if |fields| != nCol then RolledBack
      else
        match Imports(s[n..], sep, nCol)
        case Imported(rows) => Imported([UnquotedAll(fields)] + rows)
        case RolledBack => RolledBack
  }
}
