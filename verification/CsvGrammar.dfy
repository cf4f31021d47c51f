// The fields the CSV writer prints (contrib/sqlite3/code/shell.c) against the grammar of section 2 of RFC 4180.
module CsvGrammar {
  import opened Bytes
  import opened Text
  import opened Csv

  const COMMA: byte := 44

  const NONE := seq(16, _ => 0)
  const ALL := seq(16, _ => 1)

  /** The table of characters that ask for quotes, sixteen to a row. */
  const NEED_CSV_QUOTE: seq<seq<nat>> := [
    ALL, ALL,
    [1, 0, 1, 0, 0, 0, 0, 1, 0, 0, 0, 0, 0, 0, 0, 0],
    NONE, NONE, NONE, NONE,
    [0, 0, 0, 0, 0, 0, 0, 0, 0, 0, 0, 0, 0, 0, 0, 1],
    ALL, ALL, ALL, ALL, ALL, ALL, ALL, ALL]

  /** The writer asks for quotes as the table does. */
  lemma QuotesByTable(c: byte)
    ensures |NEED_CSV_QUOTE| == 16 && |NEED_CSV_QUOTE[c / 16]| == 16
    ensures NeedsQuote(c) <==> NEED_CSV_QUOTE[c / 16][c % 16] == 1
  {
    assert c == 16 * (c / 16) + c % 16;
  }

  predicate TextData(c: byte)
  {
    0x20 <= c <= 0x7E && c != 0x22 && c != 0x2C
  }

  /** What follows the opening quote of an escaped field, up to and with the closing one. */
  predicate EscapedRest(s: text)
    decreases |s|
  {
    s != [] &&
    if s[0] == 0x22 then |s| == 1 || (s[1] == 0x22 && EscapedRest(s[2..]))
    else (TextData(s[0]) || s[0] in {0x2C, 0x0D, 0x0A}) && EscapedRest(s[1..])
  }

  predicate Field(s: text)
  {
    (s != [] && s[0] == 0x22 && EscapedRest(s[1..])) || forall i :: 0 <= i < |s| ==> TextData(s[i])
  }

  /** A character the grammar has a place for: printable ASCII, space and line breaks. */
  predicate Allowed(c: byte)
  {
    0x20 <= c <= 0x7E || c == 0x0D || c == 0x0A
  }

  predicate AllAllowed(z: text)
  {
    z != [] ==> Allowed(z[0]) && AllAllowed(z[1..])
  }

  lemma {:induction false} DoubledIsEscaped(z: text)
    ensures EscapedRest(Doubled(z) + [DQUOTE]) <==> AllAllowed(z)
  {
    if z != [] {
      var rest := Doubled(z[1..]) + [DQUOTE];
      var s := Doubled(z) + [DQUOTE];
      DoubledIsEscaped(z[1..]);
      if z[0] == DQUOTE {
        assert s == [DQUOTE, DQUOTE] + rest && s[2..] == rest;
      } else {
        assert s == [z[0]] + rest && s[1..] == rest;
      }
    }
  }

  lemma {:induction false} BareIsAllowed(z: text)
    requires forall i :: 0 <= i < |z| ==> !NeedsQuote(z[i])
    ensures AllAllowed(z)
  {
    if z != [] { BareIsAllowed(z[1..]); }
  }

  /** A field printed with a comma as separator is a field of the grammar exactly when the grammar has a place for all
      its characters. */
  lemma FieldFollowsRfc4180(z: text)
    ensures Field(CsvField(z, [COMMA])) <==> AllAllowed(z)
  {
    var s := CsvField(z, [COMMA]);
    if Quoted(z, [COMMA]) {
      DoubledIsEscaped(z);
      assert s[0] == DQUOTE && s[1..] == Doubled(z) + [DQUOTE];
      assert !TextData(s[0]);
    } else {
      forall i | 0 <= i < |z|
        ensures !NeedsQuote(z[i]) && TextData(z[i])
      {
        assert !NeedsQuote(z[i]) && !SeparatorAt(z, [COMMA], i);
      }
      BareIsAllowed(z);
    }
  }

  // ---------- Records ----------

  function Joined(fields: seq<text>): text
  {
    if fields == [] then [] else if |fields| == 1 then fields[0] else fields[0] + [0x2C] + Joined(fields[1..])
  }

  predicate AllFields(fields: seq<text>)
  {
    forall i :: 0 <= i < |fields| ==> Field(fields[i])
  }

  /** A record: fields with commas between them. */
  ghost predicate Record(s: text)
  {
    exists fields :: fields != [] && AllFields(fields) && s == Joined(fields)
  }

  lemma {:induction false} AllowedJoin(a: text, b: text)
    ensures AllAllowed(a + b) <==> AllAllowed(a) && AllAllowed(b)
  {
    if a == [] {
      assert a + b == b;
    } else {
      assert (a + b)[1..] == a[1..] + b;
      AllowedJoin(a[1..], b);
    }
  }

  lemma {:induction false} EscapedIsAllowed(s: text)
    requires EscapedRest(s)
    ensures AllAllowed(s)
    decreases |s|
  {
    if s[0] != DQUOTE {
      EscapedIsAllowed(s[1..]);
    } else if |s| > 1 {
      EscapedIsAllowed(s[2..]);
      assert s[1..][1..] == s[2..];
    }
  }

  lemma {:induction false} TextIsAllowed(s: text)
    requires forall i :: 0 <= i < |s| ==> TextData(s[i])
    ensures AllAllowed(s)
  {
    if s != [] { TextIsAllowed(s[1..]); }
  }

  lemma {:induction false} JoinedIsAllowed(fields: seq<text>)
    requires AllFields(fields)
    ensures AllAllowed(Joined(fields))
    decreases |fields|
  {
    if fields != [] {
      var f := fields[0];
      if f != [] && f[0] == DQUOTE && EscapedRest(f[1..]) { EscapedIsAllowed(f[1..]); } else { TextIsAllowed(f); }
      if |fields| > 1 {
        JoinedIsAllowed(fields[1..]);
        OneAllowed(COMMA);
        AllowedJoin(f, [COMMA]);
        AllowedJoin(f + [COMMA], Joined(fields[1..]));
      }
    }
  }

  lemma OneAllowed(c: byte)
    ensures AllAllowed([c]) <==> Allowed(c)
  {
    assert [c][1..] == [];
  }

  lemma {:induction false} DoubledIsAllowed(z: text)
    ensures AllAllowed(Doubled(z)) <==> AllAllowed(z)
  {
    if z != [] {
      DoubledIsAllowed(z[1..]);
      var head := if z[0] == DQUOTE then [DQUOTE, DQUOTE] else [z[0]];
      AllowedJoin(head, Doubled(z[1..]));
      assert head[1..] == if z[0] == DQUOTE then [DQUOTE] else [];
      OneAllowed(z[0]);
    }
  }

  lemma FieldAllowed(z: text)
    ensures AllAllowed(CsvField(z, [COMMA])) <==> AllAllowed(z)
  {
    if Quoted(z, [COMMA]) {
      DoubledIsAllowed(z);
      OneAllowed(DQUOTE);
      AllowedJoin([DQUOTE], Doubled(z));
      AllowedJoin([DQUOTE] + Doubled(z), [DQUOTE]);
    }
  }

  predicate RowAllowed(row: seq<text>)
  {
    row != [] ==> AllAllowed(row[0]) && RowAllowed(row[1..])
  }

  lemma {:induction false} BodyAllowed(row: seq<text>)
    ensures AllAllowed(CsvBody(row, [COMMA])) <==> RowAllowed(row)
    decreases |row|
  {
    if row != [] {
      FieldAllowed(row[0]);
      BodyAllowed(row[1..]);
      if |row| > 1 {
        OneAllowed(COMMA);
        AllowedJoin(CsvField(row[0], [COMMA]), [COMMA]);
        AllowedJoin(CsvField(row[0], [COMMA]) + [COMMA], CsvBody(row[1..], [COMMA]));
      }
    }
  }

  lemma {:induction false} FieldsOfRow(row: seq<text>) returns (fields: seq<text>)
    requires row != [] && RowAllowed(row)
    ensures fields != [] && AllFields(fields) && Joined(fields) == CsvBody(row, [COMMA])
    decreases |row|
  {
    var f := CsvField(row[0], [COMMA]);
    FieldFollowsRfc4180(row[0]);
    fields := [f];
    if |row| > 1 {
      var rest := FieldsOfRow(row[1..]);
      fields := [f] + rest;
      assert fields[1..] == rest;
    }
  }

  /** A row printed with commas is a record of the grammar exactly when the grammar has a place for all its
      characters. */
  lemma RowFollowsRfc4180(row: seq<text>)
    requires row != []
    ensures Record(CsvBody(row, [COMMA])) <==> RowAllowed(row)
  {
    BodyAllowed(row);
    if RowAllowed(row) {
      var fields := FieldsOfRow(row);
    } else if Record(CsvBody(row, [COMMA])) {
      var fields :| fields != [] && AllFields(fields) && CsvBody(row, [COMMA]) == Joined(fields);
      JoinedIsAllowed(fields);
    }
  }
}
