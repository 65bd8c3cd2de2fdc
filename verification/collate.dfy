/**
 The collator: per-ticker collation (`collateDataForTicker`) and table
 assembly (`collateDataForAllTickers`) of collectData.js.

 The upstream date is reformatted by the `moment` library, which is not part
 of this model: it enters as the parameter `formatDate`.
 */
module Collate {
  import opened Wrappers
  import opened Prices

  /** One day of upstream data for one ticker; other fields are ignored. */
  datatype DayRecord = DayRecord(date: string, open: real, high: real, low: real, close: real)

  /** A table cell: the source's rows mix strings and numbers. Every number
      the collator produces has been rounded to two decimals, so it is kept
      as its whole number of cents. */
  datatype Cell = Text(text: string) | Price(cents: int)

  type Row = seq<Cell>
  type Table = seq<Row>

  /** What the collator does with a missing ticker: `allData[ticker]` is
      undefined and calling `.map` on it throws. */
  datatype CollateError = MissingTicker(ticker: string)

  /** The fixed header row put in front of the table. */
  const Header: Row := [Text("Date"), Text("Ticker"), Text("Open"), Text("High"), Text("Low"), Text("Close")]

  /** `row` is the collated form of `day` for `ticker`: six fields, date,
      ticker, then open, high, low and close under their rounding rules. */
  predicate CollatedFrom(row: Row, ticker: string, day: DayRecord, formatDate: string -> string) {
    && |row| == 6
    && row[0] == Text(formatDate(day.date))
    && row[1] == Text(ticker)
    && row[2].Price? && IsRoundedCents(day.open, row[2].cents)
    && row[3].Price? && IsCeilingCents(day.high, row[3].cents)
    && row[4].Price? && IsFloorCents(day.low, row[4].cents)
    && row[5].Price? && IsRoundedCents(day.close, row[5].cents)
  }

  /** The row built for one day inside `collateDataForTicker`. */
  function CollateDay(ticker: string, day: DayRecord, formatDate: string -> string): (row: Row)
    ensures CollatedFrom(row, ticker, day, formatDate)
  {
    [ Text(formatDate(day.date)),
      Text(ticker),
      Price(RoundCents(day.open)),
      Price(CeilCents(day.high)),
      Price(FloorCents(day.low)),
      Price(RoundCents(day.close)) ]
  }

  /** `collateDataForTicker`: one collated row per day, in the days' order. */
  function CollateTicker(ticker: string, days: seq<DayRecord>, formatDate: string -> string): (rows: Table)
    ensures |rows| == |days|
    ensures forall i :: 0 <= i < |days| ==> CollatedFrom(rows[i], ticker, days[i], formatDate)
    decreases |days|
  {
    if |days| == 0 then []
    else [CollateDay(ticker, days[0], formatDate)] + CollateTicker(ticker, days[1..], formatDate)
  }

  /** Every ticker of the list is a key of the data map. */
  predicate AllPresent(tickers: seq<string>, allData: map<string, seq<DayRecord>>) {
    forall t :: t in tickers ==> t in allData
  }

  /** `tickers.map(ticker => collateDataForTicker(ticker, allData[ticker]))`:
      one block per ticker, or the first ticker that has no data. */
  function CollateBlocks(tickers: seq<string>, allData: map<string, seq<DayRecord>>, formatDate: string -> string)
    : (r: Result<seq<Table>, CollateError>)
    ensures r.Success? <==> AllPresent(tickers, allData)
    ensures r.Success? ==> |r.value| == |tickers|
    ensures r.Success? ==> forall k :: 0 <= k < |tickers| ==>
      tickers[k] in allData && r.value[k] == CollateTicker(tickers[k], allData[tickers[k]], formatDate)
    ensures r.Failure? ==> (exists k :: 0 <= k < |tickers| && r.error == MissingTicker(tickers[k])
                                       && tickers[k] !in allData && AllPresent(tickers[..k], allData))
    decreases |tickers|
  {
    if |tickers| == 0 then Success([])
    else if tickers[0] !in allData then
      assert AllPresent(tickers[..0], allData);
      Failure(MissingTicker(tickers[0]))
    else
      match CollateBlocks(tickers[1..], allData, formatDate)
      case Failure(e) =>
        ghost var k :| 0 <= k < |tickers[1..]| && e == MissingTicker(tickers[1..][k])
          && tickers[1..][k] !in allData && AllPresent(tickers[1..][..k], allData);
        assert tickers[..k + 1] == [tickers[0]] + tickers[1..][..k];
        assert tickers[k + 1] == tickers[1..][k];
        Failure(e)
      case Success(blocks) =>
        assert tickers == [tickers[0]] + tickers[1..];
        Success([CollateTicker(tickers[0], allData[tickers[0]], formatDate)] + blocks)
  }

  /** The blocks of rows laid end to end (`[].concat.apply([], blocks)`). */
  function Flatten(blocks: seq<Table>): Table
    decreases |blocks|
  {
    if |blocks| == 0 then [] else blocks[0] + Flatten(blocks[1..])
  }

  /** `collateDataForAllTickers`: the header, then every ticker's rows in the
      order of the ticker list. */
  function CollateAllTickers(tickers: seq<string>, allData: map<string, seq<DayRecord>>, formatDate: string -> string)
    : (r: Result<Table, CollateError>)
    ensures r.Success? <==> AllPresent(tickers, allData)
    ensures r.Success? ==> |r.value| >= 1 && r.value[0] == Header
    ensures r.Failure? ==> (exists k :: 0 <= k < |tickers| && r.error == MissingTicker(tickers[k])
                                       && tickers[k] !in allData && AllPresent(tickers[..k], allData))
  {
    match CollateBlocks(tickers, allData, formatDate)
    case Failure(e) => Failure(e)
    case Success(blocks) => Success([Header] + Flatten(blocks))
  }

  // ---------------------------------------------------------------------
  // Reference quantities for the table's layout.

  /** The total number of days over `tickers`. */
  function SumDays(tickers: seq<string>, allData: map<string, seq<DayRecord>>): nat
    requires AllPresent(tickers, allData)
    decreases |tickers|
  {
    if |tickers| == 0 then 0 else |allData[tickers[0]]| + SumDays(tickers[1..], allData)
  }

  /** The total number of rows over `blocks`. */
  function SumLengths(blocks: seq<Table>): nat
    decreases |blocks|
  {
    if |blocks| == 0 then 0 else |blocks[0]| + SumLengths(blocks[1..])
  }

  // ---------------------------------------------------------------------
  // One row.

  /** The row contract pins the row down: two rows collated from the same
      day for the same ticker are equal. */
  lemma CollatedFromUnique(r1: Row, r2: Row, ticker: string, day: DayRecord, formatDate: string -> string)
    requires CollatedFrom(r1, ticker, day, formatDate) && CollatedFrom(r2, ticker, day, formatDate)
    ensures r1 == r2
  {
  }

  /** A consistent day (low below open and close, both below high) gives a
      consistent row: the collated low stays below the collated open and
      close, and those stay below the collated high. */
  lemma CollatedPricesOrdered(ticker: string, day: DayRecord, formatDate: string -> string)
    requires day.low <= day.open <= day.high && day.low <= day.close <= day.high
    ensures var row := CollateDay(ticker, day, formatDate);
      && row[4].cents <= row[2].cents <= row[3].cents
      && row[4].cents <= row[5].cents <= row[3].cents
  {
  }

  // ---------------------------------------------------------------------
  // Flattening.

  lemma {:induction false} FlattenLength(blocks: seq<Table>)
    ensures |Flatten(blocks)| == SumLengths(blocks)
    decreases |blocks|
  {
    if |blocks| > 0 {
      FlattenLength(blocks[1..]);
    }
  }

  /** Row `j` of block `k` sits after all rows of the blocks before `k`. */
  lemma {:induction false} FlattenIndex(blocks: seq<Table>, k: nat, j: nat)
    requires k < |blocks| && j < |blocks[k]|
    ensures SumLengths(blocks[..k]) + j < |Flatten(blocks)|
    ensures Flatten(blocks)[SumLengths(blocks[..k]) + j] == blocks[k][j]
    decreases k
  {
    FlattenLength(blocks);
    FlattenLength(blocks[1..]);
    if k > 0 {
      var rest := blocks[1..];
      FlattenIndex(rest, k - 1, j);
      assert blocks[..k][1..] == rest[..k - 1];
      assert SumLengths(blocks[..k]) == |blocks[0]| + SumLengths(rest[..k - 1]);
    } else {
      assert blocks[..0] == [];
    }
  }

  /** Every row of the flattened table is row `j` of some block `k`. */
  lemma {:induction false} FlattenOrigin(blocks: seq<Table>, i: nat) returns (k: nat, j: nat)
    requires i < |Flatten(blocks)|
    ensures k < |blocks| && j < |blocks[k]| && i == SumLengths(blocks[..k]) + j
    decreases |blocks|
  {
    FlattenLength(blocks);
    assert blocks[..0] == [];
    if i < |blocks[0]| {
      k, j := 0, i;
    } else {
      var rest := blocks[1..];
      FlattenLength(rest);
      var k', j' := FlattenOrigin(rest, i - |blocks[0]|);
      assert blocks[..k' + 1][1..] == rest[..k'];
      assert SumLengths(blocks[..k' + 1]) == |blocks[0]| + SumLengths(rest[..k']);
      k, j := k' + 1, j';
    }
  }

  // ---------------------------------------------------------------------
  // The assembled table.

  /** Block lengths add up to day counts when each block has one row per day. */
  lemma {:induction false} SumLengthsIsSumDays(blocks: seq<Table>, tickers: seq<string>, allData: map<string, seq<DayRecord>>)
    requires AllPresent(tickers, allData) && |blocks| == |tickers|
    requires forall k :: 0 <= k < |tickers| ==> |blocks[k]| == |allData[tickers[k]]|
    ensures SumLengths(blocks) == SumDays(tickers, allData)
    decreases |blocks|
  {
    if |blocks| > 0 {
      SumLengthsIsSumDays(blocks[1..], tickers[1..], allData);
    }
  }

  /** The blocks of the first `k` tickers cover exactly their days. */
  lemma BlockPrefixLength(blocks: seq<Table>, tickers: seq<string>, allData: map<string, seq<DayRecord>>,
                          formatDate: string -> string, k: nat)
    requires CollateBlocks(tickers, allData, formatDate) == Success(blocks)
    requires k <= |tickers|
    ensures AllPresent(tickers[..k], allData)
    ensures SumLengths(blocks[..k]) == SumDays(tickers[..k], allData)
  {
    SumLengthsIsSumDays(blocks[..k], tickers[..k], allData);
  }

  /** The table has the header plus one row per day of every listed ticker. */
  lemma CollateAllLength(tickers: seq<string>, allData: map<string, seq<DayRecord>>, formatDate: string -> string)
    requires AllPresent(tickers, allData)
    ensures CollateAllTickers(tickers, allData, formatDate).Success?
    ensures |CollateAllTickers(tickers, allData, formatDate).value| == 1 + SumDays(tickers, allData)
  {
    var blocks := CollateBlocks(tickers, allData, formatDate).value;
    FlattenLength(blocks);
    BlockPrefixLength(blocks, tickers, allData, formatDate, |tickers|);
    assert blocks[..|blocks|] == blocks && tickers[..|tickers|] == tickers;
  }

  /** Day `j` of ticker `k` lands right after the header and the days of the
      tickers listed before `k`, collated for ticker `k`. */
  lemma CollateAllRowAt(tickers: seq<string>, allData: map<string, seq<DayRecord>>, formatDate: string -> string,
                        k: nat, j: nat)
    requires AllPresent(tickers, allData)
    requires k < |tickers| && j < |allData[tickers[k]]|
    ensures AllPresent(tickers[..k], allData)
    ensures var table := CollateAllTickers(tickers, allData, formatDate).value;
      && 1 + SumDays(tickers[..k], allData) + j < |table|
      && CollatedFrom(table[1 + SumDays(tickers[..k], allData) + j], tickers[k], allData[tickers[k]][j], formatDate)
  {
    var blocks := CollateBlocks(tickers, allData, formatDate).value;
    BlockPrefixLength(blocks, tickers, allData, formatDate, k);
    FlattenIndex(blocks, k, j);
  }

  /** Every row after the header is some listed ticker's day, collated:
      six fields, the ticker in the second. */
  lemma CollateAllRowOrigin(tickers: seq<string>, allData: map<string, seq<DayRecord>>, formatDate: string -> string,
                            i: nat) returns (k: nat, j: nat)
    requires AllPresent(tickers, allData)
    requires 1 <= i < |CollateAllTickers(tickers, allData, formatDate).value|
    ensures k < |tickers| && j < |allData[tickers[k]]|
    ensures CollatedFrom(CollateAllTickers(tickers, allData, formatDate).value[i], tickers[k], allData[tickers[k]][j], formatDate)
  {
    var blocks := CollateBlocks(tickers, allData, formatDate).value;
    k, j := FlattenOrigin(blocks, i - 1);
    BlockPrefixLength(blocks, tickers, allData, formatDate, k);
    CollateAllRowAt(tickers, allData, formatDate, k, j);
  }
}
