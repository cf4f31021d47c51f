// The round trip of a printed table under separators that begin with a quote, and under every single character.
module CsvSeparators {
  import opened Bytes
  import opened Text
  import opened Csv
  import opened CsvLines
  import opened CsvRoundTrip
  import opened Sequences

  // ---------- Cutting where the separator begins with a quote ----------

  predicate StartsWithQuote(sep: text)
  {
    sep != [] && sep[0] == DQUOTE
  }

  lemma {:induction false} CutQuoteFree(t: text, rest: text, sep: text, q: bool, field: text)
    requires StartsWithQuote(sep) && QuoteFree(t)
    ensures Cut(t + rest, sep, q, field) == Cut(rest, sep, q, field + t)
    decreases |t|
  {
    if t == [] {
      assert t + rest == rest && field + t == field;
    } else {
      assert (t + rest)[1..] == t[1..] + rest && (field + [t[0]]) + t[1..] == field + t;
      assert (t + rest)[0] != sep[0];
      CutQuoteFree(t[1..], rest, sep, q, field + [t[0]]);
    }
  }

  /** The first field read goes on with what was read of it. */
  lemma {:induction false} FirstExtends(s: text, sep: text, q: bool, field: text)
    requires sep != []
    ensures field <= Cut(s, sep, q, field)[0]
    decreases |s|
  {
    if s != [] {
      var q' := Toggled(q, s[0]);
      if q' || !(sep <= s) { FirstExtends(s[1..], sep, q', field + [s[0]]); }
    }
  }

  /** What is unescaped behind a doubled text. */
  lemma {:induction false} UnescapedJoin(z: text, x: text)
    ensures Unescaped(Doubled(z) + x) == z + Unescaped(x)
    decreases |z|
  {
    if z == [] {
      assert Doubled(z) + x == x && z + Unescaped(x) == Unescaped(x);
    } else {
      var head := if z[0] == DQUOTE then [DQUOTE, DQUOTE] else [z[0]];
      var s, rest := Doubled(z) + x, Doubled(z[1..]) + x;
      UnescapedJoin(z[1..], x);
      Assoc(head, Doubled(z[1..]), x);
      assert s == head + rest && s[|head|..] == rest;
      assert Unescaped(s) == [z[0]] + Unescaped(rest);
      Assoc([z[0]], z[1..], Unescaped(x));
      assert [z[0]] + z[1..] == z;
    }
  }

  lemma {:induction false} UnescapedQuoteFree(t: text)
    requires QuoteFree(t)
    ensures Unescaped(t) == t
  {
    if t != [] { UnescapedQuoteFree(t[1..]); }
  }

  /** A bare field before a separator that begins with a quote runs into it: the quote opens, and nothing is cut. */
  lemma BareRunsOn(z: text, rest: text, sep: text)
    requires StartsWithQuote(sep) && z != [] && QuoteFree(z)
    ensures ReadFields(z + [DQUOTE] + rest, sep)[0] != z
  {
    assert z + [DQUOTE] + rest == z + ([DQUOTE] + rest) && [] + z == z;
    CutQuoteFree(z, [DQUOTE] + rest, sep, false, []);
    assert ([DQUOTE] + rest)[1..] == rest;
    FirstExtends(rest, sep, true, z + [DQUOTE]);
    var first := Cut(rest, sep, true, z + [DQUOTE])[0];
    assert first[0] == z[0] && |first| > |z|;
  }

  // ---------- The quote as separator ----------

  const QUOTE: text := [DQUOTE]

  predicate Bare(z: text)
  {
    !Quoted(z, QUOTE)
  }

  /** An odd number of fields: printed in quotes at even positions, without a quote inside, and bare at odd positions;
      the last one bare. */
  predicate Alternating(row: seq<text>)
    decreases |row|
  {
    if |row| <= 1 then row != [] && Bare(row[0])
    else |row| > 2 && Quoted(row[0], QUOTE) && QuoteFree(row[0]) && Bare(row[1]) && Alternating(row[2..])
  }

  lemma BareIsPlain(z: text)
    requires Bare(z)
    ensures z != [] && QuoteFree(z) && CsvField(z, QUOTE) == z && Unquoted(z) == z
    ensures forall q :: QuoteState(z, q) == q && NoBreak(z, q)
  {
    forall i | 0 <= i < |z|
      ensures z[i] != DQUOTE && z[i] != NEWLINE
    {
      assert !NeedsQuote(z[i]);
    }
    forall q
      ensures QuoteState(z, q) == q && NoBreak(z, q)
    {
      BareScan(z, q);
    }
  }

  /** Every second quote outside quotes cuts. */
  lemma TwoQuotes(t: text, rest: text)
    requires QuoteFree(t)
    ensures Cut([DQUOTE] + t + [DQUOTE] + rest, QUOTE, false, []) == [[DQUOTE] + t] + Cut(rest, QUOTE, false, [])
    ensures Unquoted([DQUOTE] + t) == t
  {
    var s := [DQUOTE] + t + [DQUOTE] + rest;
    var more := [DQUOTE] + rest;
    assert s[1..] == t + more && [] + [DQUOTE] == [DQUOTE];
    CutQuoteFree(t, more, QUOTE, true, [DQUOTE]);
    assert more[1..] == rest && QUOTE <= more;
    assert ([DQUOTE] + t)[1..] == t;
    UnescapedQuoteFree(t);
  }

  function ReadFieldsOf(s: text): seq<text>
  {
    ReadFields(s, QUOTE)
  }

  lemma TwoQuotesRead(t: text, rest: text)
    requires QuoteFree(t)
    ensures ReadFieldsOf([DQUOTE] + t + [DQUOTE] + rest) == [t] + ReadFieldsOf(rest)
  {
    TwoQuotes(t, rest);
    UnquotedFirst([DQUOTE] + t, Cut(rest, QUOTE, false, []));
  }

  /** The text before the first quote of a field. */
  lemma {:induction false} FirstQuote(z: text) returns (t: text, rest: text)
    ensures QuoteFree(t) && Doubled(z) + [DQUOTE] == t + [DQUOTE] + rest
    ensures if QuoteFree(z) then t == z && rest == [] else |t| < |z|
  {
    if z == [] {
      t, rest := [], [];
    } else if z[0] == DQUOTE {
      t, rest := [], [DQUOTE] + Doubled(z[1..]) + [DQUOTE];
      assert [DQUOTE, DQUOTE] + Doubled(z[1..]) + [DQUOTE] == [] + [DQUOTE] + rest;
    } else {
      t, rest := FirstQuote(z[1..]);
      assert [z[0]] + Doubled(z[1..]) + [DQUOTE] == [z[0]] + (Doubled(z[1..]) + [DQUOTE]);
      assert [z[0]] + (t + [DQUOTE] + rest) == ([z[0]] + t) + [DQUOTE] + rest;
      t := [z[0]] + t;
    }
  }

  /** A field in quotes is cut at its second quote, and what is read of it is the text before that. */
  lemma QuotedIsRead(z: text, b: text) returns (t: text, rest: text)
    requires Quoted(z, QUOTE)
    ensures ReadFieldsOf(CsvField(z, QUOTE) + b) == [t] + ReadFieldsOf(rest + b)
    ensures if QuoteFree(z) then t == z && rest == [] else |t| < |z|
  {
    t, rest := FirstQuote(z);
    assert CsvField(z, QUOTE) + b == [DQUOTE] + (Doubled(z) + [DQUOTE]) + b;
    assert [DQUOTE] + (t + [DQUOTE] + rest) + b == [DQUOTE] + t + [DQUOTE] + (rest + b);
    TwoQuotesRead(t, rest + b);
  }

  function Quotes(n: nat): (s: text)
    ensures |s| == n
  {
    seq(n, i => DQUOTE)
  }

  /** A separator and the fields behind it, if there are any. */
  function Next(row: seq<text>): text
  {
    if row == [] then [] else [DQUOTE] + CsvBody(row, QUOTE)
  }

  lemma EmptyField(row: seq<text>)
    requires row != [] && row[0] == []
    ensures Next(row) == Quotes(3) + Next(row[1..])
  {
    assert CsvField([], QUOTE) == [DQUOTE, DQUOTE];
    if |row| > 1 {
      assert CsvBody(row, QUOTE) == [DQUOTE, DQUOTE] + [DQUOTE] + CsvBody(row[1..], QUOTE);
    }
  }

  lemma PairOfQuotes(rest: text)
    ensures ReadFieldsOf([DQUOTE, DQUOTE] + rest) == [[]] + ReadFieldsOf(rest)
  {
    assert [DQUOTE] + [] + [DQUOTE] + rest == [DQUOTE, DQUOTE] + rest;
    TwoQuotesRead([], rest);
  }

  lemma MoreQuotes(n: nat, rest: text)
    ensures Quotes(n) + (Quotes(3) + rest) == [DQUOTE, DQUOTE] + (Quotes(n + 1) + rest)
  {
  }

  lemma PairAhead(n: nat, row: seq<text>) returns (rest: text)
    requires row != [] && (n > 0 || Quoted(row[0], QUOTE))
    ensures Quotes(n) + Next(row) == [DQUOTE, DQUOTE] + rest
  {
    var s := Quotes(n) + Next(row);
    assert s[0] == DQUOTE && s[1] == DQUOTE;
    rest := s[2..];
  }

  /** A pair of quotes is read as an empty field. When the row begins with one, n quotes before it have become n + 1
      before the rest of it. */
  lemma EmptyIsRead(n: nat, row: seq<text>)
    requires row != [] && (n > 0 || Quoted(row[0], QUOTE))
    ensures ReadFieldsOf(Quotes(n) + Next(row)) == row ==> ReadFieldsOf(Quotes(n + 1) + Next(row[1..])) == row[1..]
  {
    var rest := PairAhead(n, row);
    PairOfQuotes(rest);
    HeadAndTail(row, [], ReadFieldsOf(rest));
    if row[0] == [] {
      EmptyField(row);
      MoreQuotes(n, Next(row[1..]));
      assert rest == ([DQUOTE, DQUOTE] + rest)[2..] == Quotes(n + 1) + Next(row[1..]);
    }
  }

  /** Once quotes are left over from the fields already read, only empty fields are read, and more than there are. */
  lemma {:induction false} NeverCatchesUp(n: nat, row: seq<text>)
    requires n > 0
    ensures ReadFieldsOf(Quotes(n) + Next(row)) != row
    decreases |row|
  {
    if row != [] {
      EmptyIsRead(n, row);
      NeverCatchesUp(n + 1, row[1..]);
    }
  }

  /** The field behind a field in quotes is printed in quotes too: the separator and its opening quote are cut as an
      empty field. */
  lemma SecondInQuotes(row: seq<text>)
    requires row != [] && Quoted(row[0], QUOTE)
    ensures ReadFieldsOf(Next(row)) != row
  {
    assert Quotes(0) + Next(row) == Next(row);
    EmptyIsRead(0, row);
    NeverCatchesUp(1, row[1..]);
  }

  /** The first field is kept exactly when it is printed in quotes and has none; then the rest is read from the
      separator on. */
  lemma FirstOfMany(row: seq<text>)
    requires |row| > 1
    ensures ReadFieldsOf(CsvBody(row, QUOTE)) == row
            <==> Quoted(row[0], QUOTE) && QuoteFree(row[0]) && ReadFieldsOf(Next(row[1..])) == row[1..]
  {
    var z := row[0];
    BodyIsNext(row);
    if Bare(z) {
      BareIsLost(z, CsvBody(row[1..], QUOTE));
    } else {
      FirstInQuotes(row, Next(row[1..]));
    }
  }

  lemma BodyIsNext(row: seq<text>)
    requires row != []
    ensures CsvBody(row, QUOTE) == CsvField(row[0], QUOTE) + Next(row[1..])
  {
    if |row| == 1 {
      assert CsvField(row[0], QUOTE) + [] == CsvField(row[0], QUOTE);
    } else {
      Assoc(CsvField(row[0], QUOTE), QUOTE, CsvBody(row[1..], QUOTE));
    }
  }

  lemma FirstInQuotes(row: seq<text>, b: text)
    requires row != [] && Quoted(row[0], QUOTE)
    ensures ReadFieldsOf(CsvField(row[0], QUOTE) + b) == row <==> QuoteFree(row[0]) && ReadFieldsOf(b) == row[1..]
  {
    var t, rest := QuotedIsRead(row[0], b);
    HeadAndTail(row, t, ReadFieldsOf(rest + b));
    if rest == [] { assert rest + b == b; }
  }

  lemma BareIsLost(z: text, rest: text)
    requires Bare(z)
    ensures ReadFieldsOf(CsvField(z, QUOTE) + ([DQUOTE] + rest))[0] != z
  {
    BareIsPlain(z);
    Assoc(z, [DQUOTE], rest);
    BareRunsOn(z, rest, QUOTE);
  }

  lemma HeadAndTail(row: seq<text>, first: text, rest: seq<text>)
    requires row != []
    ensures [first] + rest == row <==> first == row[0] && rest == row[1..]
  {
    assert ([first] + rest)[1..] == rest && row == [row[0]] + row[1..];
  }

  /** The second field is kept exactly when it is bare and another one follows; then the rest is read as a row. */
  lemma SecondOfMany(row: seq<text>)
    requires |row| > 1
    ensures ReadFieldsOf(Next(row)) == row <==> Bare(row[0]) && ReadFieldsOf(CsvBody(row[1..], QUOTE)) == row[1..]
  {
    var z, more := row[0], CsvBody(row[1..], QUOTE);
    if Bare(z) {
      BareIsPlain(z);
      assert Next(row) == [DQUOTE] + z + [DQUOTE] + more;
      TwoQuotesRead(z, more);
      HeadAndTail(row, z, ReadFieldsOf(more));
    } else {
      SecondInQuotes(row);
    }
  }

  lemma QuoteScan(q: bool)
    ensures QuoteState(QUOTE, q) == !q && NoBreak(QUOTE, q)
  {
    assert QUOTE[1..] == [] && QuoteState([], !q) == !q;
  }

  /** The quotes of a row with two fields at its head, the second one bare. */
  lemma LineOfTwo(row: seq<text>)
    requires |row| > 1 && Bare(row[1])
    ensures |row| == 2 ==> !OneLine(row, QUOTE)
    ensures |row| > 2 ==> (OneLine(row, QUOTE) <==> OneLine(row[2..], QUOTE))
  {
    var f, z := CsvField(row[0], QUOTE), row[1];
    FieldScan(row[0], QUOTE);
    BareIsPlain(z);
    QuoteScan(false);
    QuoteScan(true);
    Scan(f, QUOTE, false);
    Scan(f + QUOTE, z, false);
    if |row| == 2 {
      assert CsvBody(row, QUOTE) == f + QUOTE + z;
    } else {
      var more := CsvBody(row[2..], QUOTE);
      assert row[1..][1..] == row[2..];
      assert CsvBody(row, QUOTE) == f + QUOTE + z + QUOTE + more;
      Scan(f + QUOTE + z, QUOTE, false);
      Scan(f + QUOTE + z + QUOTE, more, false);
    }
  }

  lemma SingleField(z: text)
    ensures Kept([z], QUOTE) <==> Bare(z)
  {
    FieldScan(z, QUOTE);
    if Bare(z) {
      BareIsPlain(z);
      assert z + [] == z && [] + z == z;
      CutQuoteFree(z, [], QUOTE, false, []);
    } else {
      assert CsvField(z, QUOTE) + [] == CsvField(z, QUOTE);
      var t, rest := QuotedIsRead(z, []);
    }
  }

  /** Under the quote as separator a row comes back exactly when its fields alternate. */
  lemma {:induction false} KeptIffAlternating(row: seq<text>)
    requires row != []
    ensures Kept(row, QUOTE) <==> Alternating(row)
    decreases |row|
  {
    if |row| == 1 {
      SingleField(row[0]);
      assert row == [row[0]];
    } else {
      FirstOfMany(row);
      if |row| == 2 {
        if Bare(row[1]) {
          LineOfTwo(row);
        } else {
          SecondInQuotes(row[1..]);
        }
      } else {
        SecondOfMany(row[1..]);
        assert row[1..][1..] == row[2..];
        if Bare(row[1]) {
          LineOfTwo(row);
          KeptIffAlternating(row[2..]);
        }
      }
    }
  }

  /** A table separated by quotes comes back as it was exactly when the fields of every row alternate. */
  lemma QuoteRoundTrip(rows: seq<seq<text>>, nCol: nat)
    requires nCol > 0 && forall i :: 0 <= i < |rows| ==> |rows[i]| == nCol
    ensures Imports(CsvText(rows, QUOTE), QUOTE, nCol) == Imported(rows)
            <==> forall i :: 0 <= i < |rows| ==> Alternating(rows[i])
  {
    RoundTripByRows(rows, QUOTE, nCol);
    forall i | 0 <= i < |rows|
      ensures Kept(rows[i], QUOTE) <==> Alternating(rows[i])
    {
      KeptIffAlternating(rows[i]);
    }
  }

  // ---------- Every single character ----------

  /** Every table comes back under every separator of one character, except under a newline, which a table of several
      columns does not survive, and under a quote, where the fields have to alternate. */
  lemma OneCharacterRoundTrip(rows: seq<seq<text>>, c: byte, nCol: nat)
    requires nCol > 0 && forall i :: 0 <= i < |rows| ==> |rows[i]| == nCol
    ensures Imports(CsvText(rows, [c]), [c], nCol) == Imported(rows) <==>
      if c == NEWLINE then rows == [] || nCol == 1
      else if c == DQUOTE then forall i :: 0 <= i < |rows| ==> Alternating(rows[i])
      else true
  {
    if c == NEWLINE {
      assert NEWLINE in [c];
      NewlineRoundTrip(rows, [c], nCol);
    } else if c == DQUOTE {
      QuoteRoundTrip(rows, nCol);
    } else {
      PlainRoundTrip(rows, [c], nCol);
      forall i | 0 <= i < |rows|
        ensures SafeRow(rows[i], [c])
      {
        OneCharacterIsSafe(rows[i], [c]);
      }
    }
  }

  // ---------- A quote and other characters ----------

  /** A separator that begins with a quote and is not made of quotes only. */
  predicate QuoteAndMore(sep: text)
  {
    StartsWithQuote(sep) && exists i :: 0 <= i < |sep| && sep[i] != DQUOTE
  }

  /** The separator is found inside a field in quotes, at the first of two doubled quotes; b is what follows
      the field. */
  predicate FoundInside(z: text, b: text, sep: text)
  {
    z != [] && ((z[0] == DQUOTE && sep <= Doubled(z) + [DQUOTE] + b) || FoundInside(z[1..], b, sep))
  }

  lemma {:induction false} NotOneQuoteOn(sep: text, rest: text, i: nat)
    requires i < |sep| && StartsWithQuote(sep) && sep <= [DQUOTE] + sep + rest
    ensures sep[i] == DQUOTE
    decreases i
  {
    if i > 0 {
      NotOneQuoteOn(sep, rest, i - 1);
      assert ([DQUOTE] + sep + rest)[i] == sep[i - 1];
      assert sep[i] == ([DQUOTE] + sep + rest)[i];
    }
  }

  lemma HeadInside(z: text, b: text)
    requires z != []
    ensures
      var s, rest := Doubled(z) + [DQUOTE] + b, Doubled(z[1..]) + [DQUOTE] + b;
      if z[0] != DQUOTE then s[0] == z[0] && s[1..] == rest
      else s[0] == s[1] == DQUOTE && s[1..] == [DQUOTE] + rest && s[1..][1..] == rest
  {
    var rest := Doubled(z[1..]) + [DQUOTE] + b;
    assert Doubled(z) + [DQUOTE] + b == (if z[0] == DQUOTE then [DQUOTE, DQUOTE] else [z[0]]) + rest;
  }

  /** Reading on inside a field in quotes: it is cut where the separator is found inside, or read to its end. */
  lemma {:induction false} ReadInside(z: text, b: text, sep: text, field: text) returns (i: nat)
    requires StartsWithQuote(sep) && !(sep <= [DQUOTE] + b)
    ensures
      var cut := Cut(Doubled(z) + [DQUOTE] + b, sep, true, field);
      if FoundInside(z, b, sep) then i < |z| && cut[0] == field + Doubled(z[..i])
      else cut == Cut(b, sep, false, field + Doubled(z) + [DQUOTE])
    decreases |z|
  {
    var s := Doubled(z) + [DQUOTE] + b;
    i := 0;
    if z == [] {
      assert s == [DQUOTE] + b && s[1..] == b && field + Doubled(z) + [DQUOTE] == field + [DQUOTE];
    } else {
      HeadInside(z, b);
      if z[0] != DQUOTE {
        i := ReadInside(z[1..], b, sep, field + [z[0]]);
        WholeGrows(z, field, [z[0]]);
        if i < |z[1..]| { CutGrows(z, i, field, [z[0]]); }
        i := i + 1;
      } else if sep <= s {
        assert z[..0] == [] && field + [] == field;
      } else {
        assert (field + [DQUOTE]) + [DQUOTE] == field + [DQUOTE, DQUOTE];
        i := ReadInside(z[1..], b, sep, field + [DQUOTE, DQUOTE]);
        WholeGrows(z, field, [DQUOTE, DQUOTE]);
        if i < |z[1..]| { CutGrows(z, i, field, [DQUOTE, DQUOTE]); }
        i := i + 1;
      }
    }
  }

  lemma CutGrows(z: text, i: nat, field: text, head: text)
    requires z != [] && i < |z[1..]| && head == if z[0] == DQUOTE then [DQUOTE, DQUOTE] else [z[0]]
    ensures (field + head) + Doubled(z[1..][..i]) == field + Doubled(z[..i + 1])
  {
    assert z[..i + 1][1..] == z[1..][..i];
    Assoc(field, head, Doubled(z[1..][..i]));
  }

  lemma WholeGrows(z: text, field: text, head: text)
    requires z != [] && head == if z[0] == DQUOTE then [DQUOTE, DQUOTE] else [z[0]]
    ensures (field + head) + Doubled(z[1..]) == field + Doubled(z)
  {
    Assoc(field, head, Doubled(z[1..]));
  }

  // ---------- The first field under such a separator ----------

  /** What was cut out of a field in quotes is read as a beginning of it. */
  lemma CutFieldIsShort(z: text, i: nat)
    requires i < |z|
    ensures Unquoted([DQUOTE] + Doubled(z[..i])) != z
  {
    UnescapedJoin(z[..i], []);
    assert ([DQUOTE] + Doubled(z[..i]))[1..] == Doubled(z[..i]) + [];
    assert |z[..i] + []| < |z|;
  }

  lemma Behind(t: text, first: text) returns (x: text)
    requires [DQUOTE] + t + [DQUOTE, DQUOTE] <= first
    ensures |x| >= 2 && x[0] == x[1] == DQUOTE && first[0] == DQUOTE && first[1..] == t + x
  {
    var p := [DQUOTE] + t + [DQUOTE, DQUOTE];
    x := [DQUOTE, DQUOTE] + first[|p|..];
    assert first == p + first[|p|..];
  }

  /** What runs on behind the closing quote is read as the field and more. */
  lemma FieldRunsOn(z: text, first: text)
    requires [DQUOTE] + Doubled(z) + [DQUOTE, DQUOTE] <= first
    ensures Unquoted(first) != z
  {
    var x := Behind(Doubled(z), first);
    UnescapedJoin(z, x);
    assert |Unescaped(x)| > 0;
  }

  lemma InQuotes(z: text, b: text, sep: text) returns (i: nat)
    requires StartsWithQuote(sep) && Quoted(z, sep) && !(sep <= [DQUOTE] + b)
    ensures
      var cut := Cut(CsvField(z, sep) + b, sep, false, []);
      if FoundInside(z, b, sep) then i < |z| && cut[0] == [DQUOTE] + Doubled(z[..i])
      else cut == Cut(b, sep, false, CsvField(z, sep))
  {
    var inside := Doubled(z) + [DQUOTE] + b;
    assert CsvField(z, sep) + b == [DQUOTE] + inside;
    assert ([DQUOTE] + inside)[1..] == inside && [] + [DQUOTE] == [DQUOTE];
    i := ReadInside(z, b, sep, [DQUOTE]);
  }

  /** Not cut inside, the field runs on into the quote behind its closing one. */
  lemma PastTheQuote(z: text, more: text, sep: text)
    requires StartsWithQuote(sep) && Quoted(z, sep)
    ensures Unquoted(Cut([DQUOTE] + more, sep, false, CsvField(z, sep))[0]) != z
  {
    var f := CsvField(z, sep);
    assert ([DQUOTE] + more)[1..] == more;
    FirstExtends(more, sep, true, f + [DQUOTE]);
    assert f + [DQUOTE] == [DQUOTE] + Doubled(z) + [DQUOTE, DQUOTE];
    FieldRunsOn(z, Cut(more, sep, true, f + [DQUOTE])[0]);
  }

  lemma OpenedHere(sep: text, rest: text)
    requires StartsWithQuote(sep)
    ensures sep + rest == [DQUOTE] + (sep[1..] + rest)
  {
  }

  lemma QuotedIsLost(z: text, sep: text, rest: text)
    requires QuoteAndMore(sep) && Quoted(z, sep)
    ensures Unquoted(Cut(CsvField(z, sep) + (sep + rest), sep, false, [])[0]) != z
  {
    Assoc([DQUOTE], sep, rest);
    SeparatorIsNotQuoteAndItself(sep, rest);
    var i := InQuotes(z, sep + rest, sep);
    if FoundInside(z, sep + rest, sep) {
      CutFieldIsShort(z, i);
    } else {
      OpenedHere(sep, rest);
      PastTheQuote(z, sep[1..] + rest, sep);
    }
  }

  lemma BareIsLostToo(z: text, sep: text, rest: text)
    requires StartsWithQuote(sep) && !Quoted(z, sep)
    ensures Unquoted(Cut(z + (sep + rest), sep, false, [])[0]) != z
  {
    assert forall i :: 0 <= i < |z| ==> !NeedsQuote(z[i]);
    assert z + [DQUOTE] + (sep[1..] + rest) == z + (sep + rest);
    BareRunsOn(z, sep[1..] + rest, sep);
  }

  /** With a separator behind it, no first field survives. */
  lemma FirstFieldIsLost(row: seq<text>, sep: text)
    requires QuoteAndMore(sep) && |row| > 1
    ensures ReadFields(CsvBody(row, sep), sep) != row
  {
    var z, rest := row[0], CsvBody(row[1..], sep);
    Assoc(CsvField(z, sep), sep, rest);
    if Quoted(z, sep) {
      QuotedIsLost(z, sep, rest);
    } else {
      BareIsLostToo(z, sep, rest);
    }
  }

  lemma SeparatorIsNotQuoteAndItself(sep: text, rest: text)
    requires QuoteAndMore(sep)
    ensures !(sep <= [DQUOTE] + sep + rest)
  {
    if sep <= [DQUOTE] + sep + rest {
      var i :| 0 <= i < |sep| && sep[i] != DQUOTE;
      NotOneQuoteOn(sep, rest, i);
    }
  }

  /** A field printed alone comes back unless it is printed in quotes and the separator is found inside. */
  predicate Whole(z: text, sep: text)
    requires sep != []
  {
    Quoted(z, sep) ==> !FoundInside(z, [], sep)
  }

  lemma KeptIffWhole(z: text, sep: text)
    requires QuoteAndMore(sep)
    ensures Kept([z], sep) <==> Whole(z, sep)
  {
    FieldScan(z, sep);
    if Quoted(z, sep) {
      QuotedAlone(z, sep);
    } else {
      BareAlone(z, sep);
    }
  }

  lemma BareAlone(z: text, sep: text)
    requires StartsWithQuote(sep) && !Quoted(z, sep)
    ensures ReadFields(z, sep) == [z]
  {
    assert forall i :: 0 <= i < |z| ==> !NeedsQuote(z[i]);
    assert z + [] == z && [] + z == z;
    CutQuoteFree(z, [], sep, false, []);
  }

  lemma QuotedAlone(z: text, sep: text)
    requires QuoteAndMore(sep) && Quoted(z, sep)
    ensures ReadFields(CsvField(z, sep), sep) == [z] <==> !FoundInside(z, [], sep)
  {
    var f := CsvField(z, sep);
    assert f + [] == f;
    LongerThanQuote(sep);
    var i := InQuotes(z, [], sep);
    if FoundInside(z, [], sep) {
      CutFieldIsShort(z, i);
    } else {
      UnquotedField(z, sep);
    }
  }

  lemma LongerThanQuote(sep: text)
    requires QuoteAndMore(sep)
    ensures !(sep <= [DQUOTE] + [])
  {
    var i :| 0 <= i < |sep| && sep[i] != DQUOTE;
    assert |sep| > 1;
  }

  /** Under a separator that begins with a quote and has other characters too, a table comes back exactly when it has
      one column, and no field printed in quotes holds the separator where one of its own quotes is doubled. */
  lemma QuoteAndMoreRoundTrip(rows: seq<seq<text>>, sep: text, nCol: nat)
    requires QuoteAndMore(sep) && nCol > 0
    requires forall i :: 0 <= i < |rows| ==> |rows[i]| == nCol
    ensures Imports(CsvText(rows, sep), sep, nCol) == Imported(rows)
            <==> rows == [] || (nCol == 1 && forall i :: 0 <= i < |rows| ==> Whole(rows[i][0], sep))
  {
    RoundTripByRows(rows, sep, nCol);
    forall i | 0 <= i < |rows|
      ensures Kept(rows[i], sep) <==> nCol == 1 && Whole(rows[i][0], sep)
    {
      if nCol == 1 {
        assert rows[i] == [rows[i][0]];
        KeptIffWhole(rows[i][0], sep);
      } else {
        FirstFieldIsLost(rows[i], sep);
      }
    }
    if rows != [] { assert Kept(rows[0], sep) ==> nCol == 1; }
  }
}
