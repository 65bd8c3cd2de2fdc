/**
 CSV rendering (`convertToCSV` in collectData.js): the cells of each row are
 joined with ",", and the rows are joined with CRLF. There is no quoting or
 escaping.

 How a number becomes text inside `join` is JavaScript's number-to-string
 conversion. It is not part of this model and enters as the parameter `show`.
 */
module Csv {
  import opened Strings
  import opened Collate
  import Prices

  const Comma: string := ","
  const Crlf: string := "\r\n"

  /** The text a cell contributes to its line. */
  function CellText(c: Cell, show: real -> string): string {
    match c
    case Text(t) => t
    case Price(n) => show(Prices.CentsValue(n))
  }

  /** The text of each cell of `row`. */
  function RenderRow(row: Row, show: real -> string): seq<string> {
    seq(|row|, i requires 0 <= i < |row| => CellText(row[i], show))
  }

  /** The text of each cell of `table`, row by row. */
  function Render(table: Table, show: real -> string): seq<seq<string>> {
    seq(|table|, r requires 0 <= r < |table| => RenderRow(table[r], show))
  }

  /** `row.join(',')` */
  function RowLine(row: Row, show: real -> string): string {
    Join(RenderRow(row, show), Comma)
  }

  /** The lines of the CSV text, one per row. */
  function Lines(table: Table, show: real -> string): seq<string> {
    seq(|table|, r requires 0 <= r < |table| => RowLine(table[r], show))
  }

  /** `convertToCSV`: the lines joined with CRLF. */
  function ConvertToCSV(table: Table, show: real -> string): string {
    Join(Lines(table, show), Crlf)
  }

  /** Reading CSV text back: split into lines at CRLF, then each line at ",". */
  function ParseCSV(text: string): (cells: seq<seq<string>>)
    ensures |cells| >= 1
  {
    var lines := Split(text, Crlf);
    seq(|lines|, r requires 0 <= r < |lines| => Split(lines[r], Comma))
  }

  // ---------------------------------------------------------------------
  // Cells that cannot be confused with separators.

  /** `s` has no carriage return immediately followed by a line feed. */
  predicate NoCrlf(s: string) {
    forall i :: 0 <= i < |s| - 1 ==> !(s[i] == '\r' && s[i + 1] == '\n')
  }

  /** A cell text that neither separator can cut. */
  predicate Clean(s: string) {
    ',' !in s && NoCrlf(s)
  }

  /** Every cell of `table` renders to a clean text. */
  predicate TableClean(table: Table, show: real -> string) {
    forall r, i :: 0 <= r < |table| && 0 <= i < |table[r]| ==> Clean(CellText(table[r][i], show))
  }

  /** A line ends right before a following CRLF exactly when it has no CRLF
      of its own: a trailing carriage return cannot pair with the CRLF. */
  lemma NoCrlfIsSepFree(x: string)
    ensures NoCrlf(x) <==> SepFree(x, Crlf)
  {
    if NoCrlf(x) {
      forall i | 0 <= i < |x|
        ensures !OccursAt(x + Crlf, Crlf, i)
      {
        var s := x + Crlf;
        assert s[i..i + 2] == [s[i], s[i + 1]];
        if i + 1 < |x| {
          assert s[i] == x[i] && s[i + 1] == x[i + 1];
        } else {
          assert s[i + 1] == '\r';
        }
      }
    }
    if SepFree(x, Crlf) {
      forall i | 0 <= i < |x| - 1
        ensures !(x[i] == '\r' && x[i + 1] == '\n')
      {
        assert !OccursAt(x + Crlf, Crlf, i);
        assert (x + Crlf)[i..i + 2] == x[i..i + 2];
      }
    }
  }

  /** A single-character separator is cut only where it appears. */
  lemma NoCommaIsSepFree(x: string)
    ensures ',' !in x <==> SepFree(x, Comma)
  {
    if ',' !in x {
      forall i | 0 <= i < |x|
        ensures !OccursAt(x + Comma, Comma, i)
      {
        assert (x + Comma)[i] == x[i];
      }
    }
    if SepFree(x, Comma) {
      forall i | 0 <= i < |x|
        ensures x[i] != ','
      {
        assert !OccursAt(x + Comma, Comma, i);
        assert (x + Comma)[i..i + 1] == [x[i]];
      }
    }
  }

  /** A comma between two CRLF-free texts does not create a CRLF. */
  lemma NoCrlfAroundComma(a: string, b: string)
    requires NoCrlf(a) && NoCrlf(b)
    ensures NoCrlf(a + Comma + b)
  {
    var s := a + Comma + b;
    forall i | 0 <= i < |s| - 1
      ensures !(s[i] == '\r' && s[i + 1] == '\n')
    {
      if i + 1 < |a| {
        assert s[i] == a[i] && s[i + 1] == a[i + 1];
      } else if i + 1 == |a| {
        assert s[i + 1] == ',';
      } else if i == |a| {
        assert s[i] == ',';
      } else {
        assert s[i] == b[i - |a| - 1] && s[i + 1] == b[i - |a|];
      }
    }
  }

  /** Joining CRLF-free cells with commas gives a CRLF-free line. */
  lemma {:induction false} JoinCommaNoCrlf(parts: seq<string>)
    requires forall k :: 0 <= k < |parts| ==> NoCrlf(parts[k])
    ensures NoCrlf(Join(parts, Comma))
    decreases |parts|
  {
    if |parts| > 1 {
      JoinCommaNoCrlf(parts[1..]);
      NoCrlfAroundComma(parts[0], Join(parts[1..], Comma));
    }
  }

  // ---------------------------------------------------------------------
  // Round trip and separator counts.

  /** One line splits back into its cells at the commas. */
  lemma LineRoundTrip(row: Row, show: real -> string)
    requires |row| >= 1
    requires forall i :: 0 <= i < |row| ==> Clean(CellText(row[i], show))
    ensures NoCrlf(RowLine(row, show))
    ensures Split(RowLine(row, show), Comma) == RenderRow(row, show)
  {
    var cells := RenderRow(row, show);
    forall k | 0 <= k < |cells|
      ensures SepFree(cells[k], Comma)
    {
      NoCommaIsSepFree(cells[k]);
    }
    SplitJoin(cells, Comma);
    JoinCommaNoCrlf(cells);
  }

  /** With clean cells and no empty row, reading the CSV text back gives
      every cell of every row, in order. */
  lemma CsvRoundTrip(table: Table, show: real -> string)
    requires |table| >= 1
    requires forall r :: 0 <= r < |table| ==> |table[r]| >= 1
    requires TableClean(table, show)
    ensures ParseCSV(ConvertToCSV(table, show)) == Render(table, show)
  {
    var lines := Lines(table, show);
    forall r | 0 <= r < |table|
      ensures SepFree(lines[r], Crlf)
      ensures Split(lines[r], Comma) == RenderRow(table[r], show)
    {
      LineRoundTrip(table[r], show);
      NoCrlfIsSepFree(lines[r]);
    }
    SplitJoin(lines, Crlf);
  }

  /** A row of `k` cells none of which holds a comma gives a line with
      exactly `k - 1` commas. */
  lemma LineCommaCount(row: Row, show: real -> string)
    requires |row| >= 1
    requires forall i :: 0 <= i < |row| ==> ',' !in CellText(row[i], show)
    ensures Count(RowLine(row, show), ',') == |row| - 1
  {
    var cells := RenderRow(row, show);
    assert forall k :: 0 <= k < |cells| ==> ',' !in cells[k];
    JoinSeparatorCount(cells, ',');
  }

  /** A character absent from every cell is absent from the row's line. */
  lemma LineLacks(row: Row, show: real -> string, c: char)
    requires c != ','
    requires forall i :: 0 <= i < |row| ==> c !in CellText(row[i], show)
    ensures c !in RowLine(row, show)
  {
    var cells := RenderRow(row, show);
    if |cells| >= 1 {
      JoinCount(cells, Comma, c);
      CountAllAbsent(cells, c);
      assert multiset(Comma)[c] == 0;
      assert Count(RowLine(row, show), c) == 0;
    }
  }

  /** An `n`-row table whose cells hold no carriage return and no line feed
      gives a text with exactly `n - 1` of each: the `n - 1` CRLF separators. */
  lemma CsvLineBreakCount(table: Table, show: real -> string)
    requires |table| >= 1
    requires forall r, i :: 0 <= r < |table| && 0 <= i < |table[r]| ==>
               '\r' !in CellText(table[r][i], show) && '\n' !in CellText(table[r][i], show)
    ensures Count(ConvertToCSV(table, show), '\r') == |table| - 1
    ensures Count(ConvertToCSV(table, show), '\n') == |table| - 1
  {
    var lines := Lines(table, show);
    forall r | 0 <= r < |table|
      ensures '\r' !in lines[r] && '\n' !in lines[r]
    {
      LineLacks(table[r], show, '\r');
      LineLacks(table[r], show, '\n');
    }
    JoinCount(lines, Crlf, '\r');
    JoinCount(lines, Crlf, '\n');
    CountAllAbsent(lines, '\r');
    CountAllAbsent(lines, '\n');
    assert multiset(Crlf)['\r'] == 1 && multiset(Crlf)['\n'] == 1;
  }
}
