/**
 The transformation half of collectData.js end to end: the collated table
 of all tickers rendered as CSV text, and the worked examples the collator
 is expected to reproduce.
 */
module Pipeline {
  import opened Wrappers
  import opened Prices
  import opened Strings
  import opened Collate
  import opened Csv

  /** Every cell of the collated table is a ticker, a formatted date, a
      header word or a number, so the table is clean when those are. */
  lemma CollatedTableClean(tickers: seq<string>, allData: map<string, seq<DayRecord>>,
                           formatDate: string -> string, show: real -> string)
    requires AllPresent(tickers, allData)
    requires forall t :: t in tickers ==> Clean(t)
    requires forall d :: Clean(formatDate(d))
    requires forall x :: Clean(show(x))
    ensures CollateAllTickers(tickers, allData, formatDate).Success?
    ensures var table := CollateAllTickers(tickers, allData, formatDate).value;
      && TableClean(table, show)
      && forall r :: 0 <= r < |table| ==> |table[r]| == 6
  {
    var table := CollateAllTickers(tickers, allData, formatDate).value;
    forall r | 0 <= r < |table|
      ensures |table[r]| == 6
      ensures forall i :: 0 <= i < 6 ==> Clean(CellText(table[r][i], show))
    {
      if r == 0 {
        assert NoCrlf("Date") && NoCrlf("Ticker") && NoCrlf("Open");
        assert NoCrlf("High") && NoCrlf("Low") && NoCrlf("Close");
      } else {
        var k, j := CollateAllRowOrigin(tickers, allData, formatDate, r);
        assert tickers[k] in tickers;
      }
    }
  }

  /** Reading the CSV text of the collated table back gives every cell of
      the table: one line for the header plus one per collated day. */
  lemma CollatedCsvRoundTrip(tickers: seq<string>, allData: map<string, seq<DayRecord>>,
                             formatDate: string -> string, show: real -> string)
    requires AllPresent(tickers, allData)
    requires forall t :: t in tickers ==> Clean(t)
    requires forall d :: Clean(formatDate(d))
    requires forall x :: Clean(show(x))
    ensures CollateAllTickers(tickers, allData, formatDate).Success?
    ensures var table := CollateAllTickers(tickers, allData, formatDate).value;
      && ParseCSV(ConvertToCSV(table, show)) == Render(table, show)
      && |ParseCSV(ConvertToCSV(table, show))| == 1 + SumDays(tickers, allData)
  {
    CollatedTableClean(tickers, allData, formatDate, show);
    CollateAllLength(tickers, allData, formatDate);
    var table := CollateAllTickers(tickers, allData, formatDate).value;
    CsvRoundTrip(table, show);
  }

  /** The header row renders as the header line. */
  lemma HeaderLine(show: real -> string)
    ensures RowLine(Header, show) == "Date,Ticker,Open,High,Low,Close"
  {
    HeaderCells(show);
    JoinSix("Date", "Ticker", "Open", "High", "Low", "Close", Comma);
    HeaderText();
  }

  /** The header's cells are all text, so rendering shows the words themselves. */
  lemma HeaderCells(show: real -> string)
    ensures RenderRow(Header, show) == ["Date", "Ticker", "Open", "High", "Low", "Close"]
  {
  }

  /** The header words with commas between them spell the header line. */
  lemma HeaderText()
    ensures "Date" + Comma + "Ticker" + Comma + "Open" + Comma + "High" + Comma + "Low" + Comma + "Close"
         == "Date,Ticker,Open,High,Low,Close"
  {
  }

  /** Six parts joined: five separators between them. */
  lemma JoinSix(a: string, b: string, c: string, d: string, e: string, f: string, sep: string)
    ensures Join([a, b, c, d, e, f], sep) == a + sep + b + sep + c + sep + d + sep + e + sep + f
  {
    JoinCons(e, [f], sep);
    JoinCons(d, [e, f], sep);
    JoinCons(c, [d, e, f], sep);
    JoinCons(b, [c, d, e, f], sep);
    JoinCons(a, [b, c, d, e, f], sep);
  }

  /** The CSV text always opens with the header line. */
  lemma CsvStartsWithHeader(tickers: seq<string>, allData: map<string, seq<DayRecord>>,
                            formatDate: string -> string, show: real -> string)
    requires AllPresent(tickers, allData)
    ensures CollateAllTickers(tickers, allData, formatDate).Success?
    ensures var text := ConvertToCSV(CollateAllTickers(tickers, allData, formatDate).value, show);
      |text| >= 31 && text[..31] == "Date,Ticker,Open,High,Low,Close"
  {
    var table := CollateAllTickers(tickers, allData, formatDate).value;
    HeaderLine(show);
    var lines := Lines(table, show);
    assert lines[0] == "Date,Ticker,Open,High,Low,Close";
    JoinStartsWithFirst(lines, Crlf);
  }

  // ---------------------------------------------------------------------
  // Worked examples.

  /** A high of 10.005 is shown as 10.01, a low of 10.009 as 10.00, and an
      open of 10.005 (an exact half) as 10.01. */
  lemma RoundingExamples()
    ensures CeilCents(10.005) == 1001
    ensures FloorCents(10.009) == 1000
    ensures RoundCents(10.005) == 1001
  {
  }

  /** One Apple trading day, already at two decimals, keeps its prices, and
      the date is whatever the date formatter makes of the upstream date. */
  lemma AppleDayExample(formatDate: string -> string)
    requires formatDate("2019-01-02T00:00:00Z") == "2019-01-02"
    ensures var day := DayRecord("2019-01-02T00:00:00Z", 154.89, 158.85, 154.23, 157.92);
      CollateAllTickers(["AAPL"], map["AAPL" := [day]], formatDate)
        == Success([Header,
                    [Text("2019-01-02"), Text("AAPL"), Price(15489), Price(15885), Price(15423), Price(15792)]])
  {
    var day := DayRecord("2019-01-02T00:00:00Z", 154.89, 158.85, 154.23, 157.92);
    RoundCentsKeepsCents(15489);
    CeilCentsKeepsCents(15885);
    FloorCentsKeepsCents(15423);
    RoundCentsKeepsCents(15792);
    var data := map["AAPL" := [day]];
    var rows := CollateTicker("AAPL", [day], formatDate);
    assert rows == [CollateDay("AAPL", day, formatDate)];
    assert CollateBlocks(["AAPL"], data, formatDate) == Success([rows]) by {
      assert "AAPL" in data && data["AAPL"] == [day];
      assert ["AAPL"][1..] == [];
      assert CollateBlocks([], data, formatDate) == Success([]);
      assert [rows] + [] == [rows];
    }
    assert Flatten([rows]) == rows by {
      assert [rows][1..] == [];
    }
    assert CollateAllTickers(["AAPL"], data, formatDate) == Success([Header] + rows);
    var row := [Text("2019-01-02"), Text("AAPL"), Price(15489), Price(15885), Price(15423), Price(15792)];
    assert CollateDay("AAPL", day, formatDate) == row;
    assert [Header] + rows == [Header, row];
  }

  /** A ticker without data makes the whole collation fail, naming it. */
  lemma MissingTickerExample(formatDate: string -> string)
    ensures CollateAllTickers(["AAPL", "MSFT"], map["AAPL" := []], formatDate) == Failure(MissingTicker("MSFT"))
  {
  }
}
