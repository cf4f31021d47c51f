// Reading back what the CSV writer printed.
module CsvRoundTrip {
  import opened Bytes
  import opened Text
  import opened Csv
  import opened CsvLines

  /** A separator that cannot be taken for the quote that opens or closes a field. */
  predicate StartsPlain(sep: text)
  {
    sep != [] && sep[0] != DQUOTE
  }

  /** A separator that the quote state and the line reader do not trip over. */
  predicate PlainSeparator(sep: text)
  {
    sep != [] && forall i :: 0 <= i < |sep| ==> sep[i] != DQUOTE && sep[i] != NEWLINE
  }

  // ---------- Fields ----------

  /** Apart from the characters that ask for quotes, a field is quoted when it is empty, when it holds a separator of
      one character, and when it begins with a longer one. */
  lemma QuotedForSeparator(z: text, sep: text)
    requires sep != [] && forall i :: 0 <= i < |z| ==> !NeedsQuote(z[i])
    ensures Quoted(z, sep) <==> z == [] || if |sep| == 1 then sep[0] in z else sep <= z
  {
    if z != [] && |sep| > 1 && sep <= z { assert SeparatorAt(z, sep, 0); }
    if |sep| == 1 && sep[0] in z {
      var i :| 0 <= i < |z| && z[i] == sep[0];
      assert SeparatorAt(z, sep, i);
    }
  }

  /** Cutting a + b at the separators meets none before a is over. */
  predicate NoCut(a: text, b: text, sep: text, inQuote: bool)
  {
    a != [] ==>
      var q := Toggled(inQuote, a[0]);
      !(!q && sep <= a + b) && NoCut(a[1..], b, sep, q)
  }

  lemma {:induction false} CutSkips(a: text, b: text, sep: text, q: bool, field: text)
    requires sep != [] && NoCut(a, b, sep, q)
    ensures Cut(a + b, sep, q, field) == Cut(b, sep, QuoteState(a, q), field + a)
  {
    if a == [] {
      assert a + b == b && field + a == field;
    } else {
      assert (a + b)[1..] == a[1..] + b;
      assert (field + [a[0]]) + a[1..] == field + a;
      CutSkips(a[1..], b, sep, Toggled(q, a[0]), field + [a[0]]);
    }
  }

  lemma {:induction false} NoCutJoin(a: text, b: text, c: text, sep: text, q: bool)
    requires NoCut(a, b + c, sep, q) && NoCut(b, c, sep, QuoteState(a, q))
    ensures NoCut(a + b, c, sep, q)
  {
    if a == [] {
      assert a + b == b;
    } else {
      assert (a + b)[1..] == a[1..] + b && (a + b) + c == a + (b + c);
      NoCutJoin(a[1..], b, c, sep, Toggled(q, a[0]));
    }
  }

  lemma NoCutQuotes(b: text, sep: text, q: bool)
    requires StartsPlain(sep)
    ensures NoCut([DQUOTE], b, sep, q) && NoCut([DQUOTE, DQUOTE], b, sep, q)
  {
    assert [DQUOTE][1..] == [] && [DQUOTE, DQUOTE][1..] == [DQUOTE];
    assert ([DQUOTE] + b)[0] != sep[0] && ([DQUOTE, DQUOTE] + b)[0] != sep[0];
  }

  lemma {:induction false} NoCutInQuotes(z: text, b: text, sep: text)
    requires StartsPlain(sep)
    ensures NoCut(Doubled(z), b, sep, true)
  {
    if z != [] {
      NoCutInQuotes(z[1..], b, sep);
      var head := if z[0] == DQUOTE then [DQUOTE, DQUOTE] else [z[0]];
      NoCutQuotes(Doubled(z[1..]) + b, sep, true);
      assert QuoteState(head, true) by {
        assert head[1..] == if z[0] == DQUOTE then [DQUOTE] else [];
        assert [DQUOTE][1..] == [];
      }
      NoCutJoin(head, Doubled(z[1..]), b, sep, true);
    }
  }

  lemma NoCutQuotedField(z: text, b: text, sep: text)
    requires StartsPlain(sep)
    ensures NoCut([DQUOTE] + Doubled(z) + [DQUOTE], b, sep, false)
  {
    NoCutInQuotes(z, [DQUOTE] + b, sep);
    DoubledStaysQuoted(z);
    assert [DQUOTE][1..] == [];
    NoCutQuotes(b, sep, true);
    NoCutQuotes(Doubled(z) + [DQUOTE] + b, sep, false);
    assert (Doubled(z) + [DQUOTE]) + b == Doubled(z) + [DQUOTE] + b;
    NoCutJoin(Doubled(z), [DQUOTE], b, sep, true);
    NoCutJoin([DQUOTE], Doubled(z) + [DQUOTE], b, sep, false);
    assert [DQUOTE] + Doubled(z) + [DQUOTE] == [DQUOTE] + (Doubled(z) + [DQUOTE]);
  }

  /** No separator starts inside the field, counting the separator that follows it. */
  predicate Intact(z: text, tail: text, sep: text)
  {
    forall i :: 0 <= i < |z| ==> !(sep <= (z + tail)[i..])
  }

  /** A field that is read back as it was written: quoted, or free of (starts of) the separator. */
  predicate SafeField(z: text, sep: text, last: bool)
    requires sep != []
  {
    Quoted(z, sep) || Intact(z, if last then [] else sep, sep)
  }

  predicate QuoteFree(z: text)
  {
    forall i :: 0 <= i < |z| ==> z[i] != DQUOTE
  }

  lemma PrefixOfLonger(sep: text, s: text, rest: text)
    requires |sep| <= |s|
    ensures sep <= s + rest <==> sep <= s
  {
    assert (s + rest)[..|sep|] == s[..|sep|];
  }

  lemma IntactTail(z: text, tail: text, sep: text)
    requires z != [] && Intact(z, tail, sep)
    ensures Intact(z[1..], tail, sep) && !(sep <= z + tail)
  {
    assert (z + tail)[0..] == z + tail;
    forall i | 0 <= i < |z| - 1
      ensures !(sep <= (z[1..] + tail)[i..])
    {
      assert (z[1..] + tail)[i..] == (z + tail)[i + 1..];
    }
  }

  /** An intact bare field is not cut, whatever follows its tail. */
  lemma {:induction false} IntactIsNotCut(z: text, tail: text, rest: text, sep: text)
    requires QuoteFree(z) && Intact(z, tail, sep) && (tail == sep || tail + rest == [])
    ensures NoCut(z, tail + rest, sep, false)
  {
    if z != [] {
      IntactTail(z, tail, sep);
      IntactIsNotCut(z[1..], tail, rest, sep);
      assert z + (tail + rest) == (z + tail) + rest;
      if |sep| <= |z + tail| { PrefixOfLonger(sep, z + tail, rest); }
    }
  }

  /** A bare field that is not intact is cut short. */
  lemma {:induction false} CutShort(z: text, tail: text, rest: text, sep: text, field: text)
    requires sep != [] && QuoteFree(z) && !Intact(z, tail, sep) && (tail == sep || tail + rest == [])
    ensures
      var first := Cut(z + tail + rest, sep, false, field)[0];
      |first| < |field| + |z| && first <= field + z
    decreases |z|
  {
    var s := z + tail + rest;
    if !(sep <= s) {
      assert s[1..] == z[1..] + tail + rest && (field + [z[0]]) + z[1..] == field + z;
      NotIntactLater(z, tail, rest, sep);
      CutShort(z[1..], tail, rest, sep, field + [z[0]]);
    }
  }

  lemma NotIntactLater(z: text, tail: text, rest: text, sep: text)
    requires sep != [] && !Intact(z, tail, sep) && !(sep <= z + tail + rest)
    ensures z != [] && !Intact(z[1..], tail, sep)
  {
    if |sep| <= |z + tail| { PrefixOfLonger(sep, z + tail, rest); }
    assert (z + tail)[0..] == z + tail;
    var i :| 0 <= i < |z| && sep <= (z + tail)[i..];
    assert (z + tail)[i..] == (z[1..] + tail)[i - 1..];
  }

  lemma {:induction false} UnescapedDoubled(z: text)
    ensures Unescaped(Doubled(z) + [DQUOTE]) == z
  {
    if z == [] {
      assert Doubled(z) + [DQUOTE] == [DQUOTE];
    } else {
      UnescapedDoubled(z[1..]);
      var s := Doubled(z) + [DQUOTE];
      var rest := Doubled(z[1..]) + [DQUOTE];
      if z[0] == DQUOTE {
        assert s == [DQUOTE, DQUOTE] + rest && s[2..] == rest;
      } else {
        assert s == [z[0]] + rest && s[1..] == rest;
      }
    }
  }

  /** Unquoting undoes the writer's quoting. */
  lemma UnquotedField(z: text, sep: text)
    requires sep != []
    ensures Unquoted(CsvField(z, sep)) == z
  {
    if Quoted(z, sep) {
      UnescapedDoubled(z);
      assert ([DQUOTE] + Doubled(z) + [DQUOTE])[1..] == Doubled(z) + [DQUOTE];
    } else {
      assert !NeedsQuote(z[0]);
    }
  }

  /** A safe field is cut off whole. */
  lemma SafeFieldIsCut(z: text, sep: text, rest: text)
    requires StartsPlain(sep)
    ensures SafeField(z, sep, true) ==> Cut(CsvField(z, sep), sep, false, []) == [CsvField(z, sep)]
    ensures SafeField(z, sep, false) ==>
      Cut(CsvField(z, sep) + sep + rest, sep, false, []) == [CsvField(z, sep)] + Cut(rest, sep, false, [])
  {
    var f := CsvField(z, sep);
    FieldScan(z, sep);
    assert f + [] == f && [] + f == f;
    if SafeField(z, sep, true) {
      if Quoted(z, sep) { NoCutQuotedField(z, [], sep); } else { IntactIsNotCut(z, [], [], sep); }
      CutSkips(f, [], sep, false, []);
    }
    if SafeField(z, sep, false) {
      if Quoted(z, sep) { NoCutQuotedField(z, sep + rest, sep); } else { IntactIsNotCut(z, sep, rest, sep); }
      assert f + sep + rest == f + (sep + rest) && (sep + rest)[|sep|..] == rest;
      CutSkips(f, sep + rest, sep, false, []);
      assert (sep + rest)[0] == sep[0];
    }
  }

  predicate SafeRow(row: seq<text>, sep: text)
    requires sep != []
  {
    forall i :: 0 <= i < |row| ==> SafeField(row[i], sep, i == |row| - 1)
  }

  lemma SafeRowRest(row: seq<text>, sep: text)
    requires sep != [] && |row| > 1
    ensures SafeRow(row, sep) <==> SafeField(row[0], sep, false) && SafeRow(row[1..], sep)
  {
    if SafeField(row[0], sep, false) && SafeRow(row[1..], sep) {
      forall i | 0 <= i < |row|
        ensures SafeField(row[i], sep, i == |row| - 1)
      {
        if i > 0 { assert row[i] == row[1..][i - 1]; }
      }
    }
    if SafeRow(row, sep) {
      assert forall i :: 0 <= i < |row[1..]| ==> row[1..][i] == row[i + 1];
    }
  }

  lemma UnsafeFieldIsCutShort(row: seq<text>, sep: text)
    requires StartsPlain(sep) && row != [] && !SafeField(row[0], sep, |row| == 1)
    ensures ReadFields(CsvBody(row, sep), sep)[0] != row[0]
  {
    var z := row[0];
    var tail := if |row| == 1 then [] else sep;
    var rest := if |row| == 1 then [] else CsvBody(row[1..], sep);
    assert forall i :: 0 <= i < |z| ==> !NeedsQuote(z[i]);
    assert CsvBody(row, sep) == z + tail + rest && [] + z == z;
    CutShort(z, tail, rest, sep, []);
  }

  lemma UnquotedFirst(f: text, fields: seq<text>)
    ensures UnquotedAll([f] + fields) == [Unquoted(f)] + UnquotedAll(fields)
  {
  }

  lemma SafeFieldComesFirst(row: seq<text>, sep: text)
    requires StartsPlain(sep) && |row| > 1 && SafeField(row[0], sep, false)
    ensures ReadFields(CsvBody(row, sep), sep)
         == [row[0]] + ReadFields(CsvBody(row[1..], sep), sep)
  {
    var rest := CsvBody(row[1..], sep);
    SafeFieldIsCut(row[0], sep, rest);
    UnquotedField(row[0], sep);
    UnquotedFirst(CsvField(row[0], sep), Cut(rest, sep, false, []));
  }

  /** What the splitter and the unquoter make of a printed row is the row, exactly when every field is safe. */
  lemma {:induction false} RowReadBack(row: seq<text>, sep: text)
    requires StartsPlain(sep) && row != []
    ensures ReadFields(CsvBody(row, sep), sep) == row <==> SafeRow(row, sep)
  {
    if !SafeField(row[0], sep, |row| == 1) {
      UnsafeFieldIsCutShort(row, sep);
    } else if |row| == 1 {
      SafeFieldIsCut(row[0], sep, []);
      UnquotedField(row[0], sep);
    } else {
      SafeFieldComesFirst(row, sep);
      RowReadBack(row[1..], sep);
      SafeRowRest(row, sep);
      var others := ReadFields(CsvBody(row[1..], sep), sep);
      assert row == [row[0]] + row[1..] && ([row[0]] + others)[1..] == others;
    }
  }

  // ---------- Tables ----------

  /** Under a plain separator every printed row is one line, whatever newlines its fields hold. */
  lemma {:induction false} PlainIsOneLine(row: seq<text>, sep: text)
    requires PlainSeparator(sep)
    ensures OneLine(row, sep)
  {
    if row != [] {
      FieldScan(row[0], sep);
      if |row| > 1 {
        PlainIsOneLine(row[1..], sep);
        BareScan(sep, false);
        Scan(CsvField(row[0], sep), sep, false);
        Scan(CsvField(row[0], sep) + sep, CsvBody(row[1..], sep), false);
      }
    }
  }

  /** The main result. For every separator that does not begin with a quote, a table comes back from its printed text
      as it was exactly when every row is one line for the reader and every field is safe. */
  lemma RoundTrip(rows: seq<seq<text>>, sep: text, nCol: nat)
    requires StartsPlain(sep) && nCol > 0
    requires forall i :: 0 <= i < |rows| ==> |rows[i]| == nCol
    ensures Imports(CsvText(rows, sep), sep, nCol) == Imported(rows)
            <==> forall i :: 0 <= i < |rows| ==> OneLine(rows[i], sep) && SafeRow(rows[i], sep)
  {
    RoundTripByRows(rows, sep, nCol);
    forall i | 0 <= i < |rows|
      ensures Kept(rows[i], sep) <==> OneLine(rows[i], sep) && SafeRow(rows[i], sep)
    {
      RowReadBack(rows[i], sep);
    }
  }

  /** For every separator without quote and newline the lines take care of themselves: the table comes back exactly
      when every field is safe. */
  lemma PlainRoundTrip(rows: seq<seq<text>>, sep: text, nCol: nat)
    requires PlainSeparator(sep) && nCol > 0
    requires forall i :: 0 <= i < |rows| ==> |rows[i]| == nCol
    ensures Imports(CsvText(rows, sep), sep, nCol) == Imported(rows)
            <==> forall i :: 0 <= i < |rows| ==> SafeRow(rows[i], sep)
  {
    RoundTrip(rows, sep, nCol);
    forall i | 0 <= i < |rows|
      ensures OneLine(rows[i], sep)
    {
      PlainIsOneLine(rows[i], sep);
    }
  }

  /** Under a separator of one character every field is safe. */
  lemma OneCharacterIsSafe(row: seq<text>, sep: text)
    requires |sep| == 1
    ensures SafeRow(row, sep)
  {
    forall j | 0 <= j < |row|
      ensures SafeField(row[j], sep, j == |row| - 1)
    {
      var z := row[j];
      if !Quoted(z, sep) {
        var tail := if j == |row| - 1 then [] else sep;
        forall k | 0 <= k < |z|
          ensures !(sep <= (z + tail)[k..])
        {
          assert !SeparatorAt(z, sep, k);
        }
      }
    }
  }

  /** a||b is printed bare under the separator || and read back as two fields. */
  lemma LongSeparatorBreaks()
    ensures
      var bar: byte := 124; var z: text := [97, bar, bar, 98];
      !SafeField(z, [bar, bar], true) && Imports(CsvText([[z]], [bar, bar]), [bar, bar], 1) != Imported([[z]])
  {
    var bar: byte := 124;
    var z: text := [97, bar, bar, 98];
    var rows := [[z]];
    assert (z + [])[1..] == [bar, bar, 98];
    assert rows[0][0] == z && !SafeField(z, [bar, bar], true);
    PlainRoundTrip(rows, [bar, bar], 1);
  }

  // ---------- Separators with a newline ----------

  predicate HasNewline(sep: text)
  {
    NEWLINE in sep && QuoteFree(sep)
  }

  lemma {:induction false} NewlineBreaks(s: text)
    requires NEWLINE in s && QuoteFree(s)
    ensures !NoBreak(s, false)
  {
    if s[0] != NEWLINE {
      assert s == [s[0]] + s[1..];
      NewlineBreaks(s[1..]);
    }
  }

  lemma NewlineFromSeparator(z: text, sep: text, k: nat)
    requires NEWLINE in sep && k <= |z| && sep <= z[k..]
    ensures exists i :: 0 <= i < |z| && NeedsQuote(z[i])
  {
    var j :| 0 <= j < |sep| && sep[j] == NEWLINE;
    assert z[k..][j] == sep[j] && z[k + j] == z[k..][j];
  }

  lemma NewlineRow(row: seq<text>, sep: text)
    requires HasNewline(sep) && row != []
    ensures OneLine(row, sep) <==> |row| == 1
    ensures |row| == 1 ==> SafeRow(row, sep)
  {
    FieldScan(row[0], sep);
    if |row| == 1 {
      var z := row[0];
      if !Quoted(z, sep) {
        forall k | 0 <= k < |z|
          ensures !(sep <= (z + [])[k..])
        {
          assert z + [] == z;
          if sep <= z[k..] { NewlineFromSeparator(z, sep, k); }
        }
      }
    } else {
      NewlineBreaks(sep);
      Scan(CsvField(row[0], sep), sep, false);
      Scan(CsvField(row[0], sep) + sep, CsvBody(row[1..], sep), false);
    }
  }

  /** A separator with a newline in it, and no quote, ends the line where it stands: such a table comes back exactly
      when it is empty or has one column, so that no separator is printed. */
  lemma NewlineRoundTrip(rows: seq<seq<text>>, sep: text, nCol: nat)
    requires HasNewline(sep) && nCol > 0
    requires forall i :: 0 <= i < |rows| ==> |rows[i]| == nCol
    ensures Imports(CsvText(rows, sep), sep, nCol) == Imported(rows) <==> rows == [] || nCol == 1
  {
    RoundTrip(rows, sep, nCol);
    if rows != [] && nCol > 1 {
      NewlineRow(rows[0], sep);
      assert !OneLine(rows[0], sep);
    } else {
      forall i | 0 <= i < |rows|
        ensures OneLine(rows[i], sep) && SafeRow(rows[i], sep)
      {
        NewlineRow(rows[i], sep);
      }
    }
  }
}
