// A table printed to a file and imported from it again (contrib/sqlite3/code/shell.c).
module CsvFiles {
  import opened Text
  import opened Csv
  import CsvImport
  import CsvLines

  lemma {:induction false} DoubledNulFree(z: text)
    requires NulFree(z)
    ensures NulFree(Doubled(z))
  {
    if z != [] { DoubledNulFree(z[1..]); }
  }

  lemma {:induction false} BodyNulFree(row: seq<text>, sep: text)
    requires sep != [] && NulFree(sep) && forall i :: 0 <= i < |row| ==> NulFree(row[i])
    ensures NulFree(CsvBody(row, sep))
    decreases |row|
  {
    if row != [] {
      DoubledNulFree(row[0]);
      BodyNulFree(row[1..], sep);
    }
  }

  lemma {:induction false} TextNulFree(rows: seq<seq<text>>, sep: text)
    requires sep != [] && NulFree(sep) && forall i, j :: 0 <= i < |rows| && 0 <= j < |rows[i]| ==> NulFree(rows[i][j])
    ensures NulFree(CsvText(rows, sep))
    decreases |rows|
  {
    if rows != [] {
      BodyNulFree(rows[0], sep);
      TextNulFree(rows[1..], sep);
    }
  }

  /** The writer's loops, then the reader's, on the file between them, under any separator: the rows come back as they
      were exactly when each of them does by itself. */
  method PrintAndImport(rows: seq<seq<text>>, separator: text, nCol: nat) returns (r: Import)
    requires separator != [] && NulFree(separator) && nCol > 0
    requires forall i :: 0 <= i < |rows| ==> |rows[i]| == nCol
    requires forall i, j :: 0 <= i < |rows| && 0 <= j < |rows[i]| ==> NulFree(rows[i][j])
    ensures r == Imported(rows) <==> forall i :: 0 <= i < |rows| ==> CsvLines.Kept(rows[i], separator)
  {
    var out := new OutFile();
    OutputRows(out, separator, rows);
    TextNulFree(rows, separator);
    assert [] + CsvText(rows, separator) == CsvText(rows, separator);
    var input := new CsvImport.InFile(out.written);
    CsvLines.RoundTripByRows(rows, separator, nCol);
    r := CsvImport.ImportFile(input, separator, nCol);
  }
}
