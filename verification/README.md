# collectData.js: collation and CSV rendering, modelled in Dafny

`collectData.js` downloads daily prices for a list of stock tickers. It then
reshapes them into one table and writes that table as CSV. This project
models the pure middle of that pipeline:

- **Per-ticker collation** (`collateDataForTicker`). Each upstream day record
  becomes a six-field row: date, ticker, open, high, low, close. Each price
  is rounded to two decimals under its own rule. Open and close use
  `Math.round`, so an exact half goes up. High uses `Math.ceil`. Low uses
  `Math.floor`.
- **Table assembly** (`collateDataForAllTickers`). The per-ticker blocks are
  concatenated in ticker-list order, and the fixed header row
  `Date,Ticker,Open,High,Low,Close` goes in front.
- **CSV rendering** (`convertToCSV`). The cells of a row are joined with `,`
  and the rows with CRLF, without quoting.

Modules:

| file | module | contents |
|---|---|---|
| wrappers.dfy | `Wrappers` | `Option`, `Result` |
| prices.dfy | `Prices` | the three rounding rules, their reference definitions, uniqueness and extremal lemmas |
| strings.dfy | `Strings` | `Join` (as `Array.prototype.join`), `Split` (first-occurrence splitting), both round trips, character counts |
| collate.dfy | `Collate` | day records, cells, rows, tables; per-ticker collation; table assembly and its layout lemmas |
| csv.dfy | `Csv` | `ConvertToCSV`, a reader `ParseCSV`, the round trip and separator counts |
| pipeline.dfy | `Pipeline` | collation followed by rendering; the worked examples |

Upstream prices are exact `real`s. The source shifts a price by two
decimal places by editing its decimal string (`x + 'e2'`, `n + 'e-2'`). For
an ordinary price this is an exact multiplication or division by 100, and
that is how the model writes it. After rounding, a price is always a whole
number of hundredths. So a collated price cell is `Price(n)`, holding the
integer `n` that stands for the number n / 100 (`CentsValue(n)`). Each
rounding rule has a reference predicate (`IsRoundedCents`,
`IsCeilingCents`, `IsFloorCents`) that determines the result uniquely, and
each rounding function is proved to meet its predicate.

Two things the source hands to other code enter the model as function
parameters:

- `formatDate`: `moment(day.date).format('YYYY-MM-DD')`.
- `show`: how `join` turns a number into text.

A ticker that is missing from the data map makes `allData[ticker].map`
throw. The model returns `Failure(MissingTicker(t))` for the first such
ticker in list order, instead of forbidding the input.

Two behaviours of the code are worth stating plainly, and the model keeps
both:

- Open and close use `Math.round` (collectData.js:79, 82), which sends an
  exact half towards +infinity rather than to even, so 10.005 becomes 10.01
  and -1.005 becomes -1.00.
- A ticker missing from the map surfaces as JavaScript's `TypeError` from
  `.map` on `undefined` (collectData.js:76, reached from :95), which the top-level handler
  logs (collectData.js:149-151). The model names the ticker in its failure
  value instead.

## Model

| member | source | states |
|---|---|---|
| Prices.MathRound | collectData.js:79 | `Math.round` returns the integer n with x - 0.5 < n <= x + 0.5, so exact halves go up |
| Prices.MathCeil | collectData.js:80 | `Math.ceil` returns the integer n with x <= n < x + 1 |
| Prices.MathFloor | collectData.js:81 | `Math.floor` returns the integer n with x - 1 < n <= x |
| Prices.RoundCents | collectData.js:79 | open and close rule: the result n has n / 100 in (x - 0.005, x + 0.005], so an exact half goes up |
| Prices.CeilCents | collectData.js:80 | high rule: the result n has n / 100 >= x and < x + 0.01 |
| Prices.FloorCents | collectData.js:81 | low rule: the result n has n / 100 <= x and > x - 0.01 |
| Prices.RoundedCentsUnique | collectData.js:79 | at most one whole number of cents lies in (x - 0.005, x + 0.005], so the open/close contract fixes the result |
| Prices.CeilingCentsUnique | collectData.js:80 | at most one whole number of cents lies in [x, x + 0.01), so the high contract fixes the result |
| Prices.FloorCentsUnique | collectData.js:81 | at most one whole number of cents lies in (x - 0.01, x], so the low contract fixes the result |
| Prices.RoundCentsKeepsCents | collectData.js:79 | an open or close that already has two decimals is unchanged |
| Prices.CeilCentsKeepsCents | collectData.js:80 | a high that already has two decimals is unchanged |
| Prices.FloorCentsKeepsCents | collectData.js:81 | a low that already has two decimals is unchanged |
| Prices.CeilCentsIsLeast | collectData.js:80 | the collated high is <= every two-decimal value that is >= the true high |
| Prices.FloorCentsIsGreatest | collectData.js:81 | the collated low is >= every two-decimal value that is <= the true low |
| Prices.RoundCentsIsNearest | collectData.js:79 | no two-decimal value is nearer to x than the rounded open or close, and on a tie the larger value is chosen |
| Prices.RoundCentsMonotonic | collectData.js:79 | a larger input never rounds to a smaller open or close |
| Prices.RoundCentsBetween | collectData.js:79-82 | the rounded value lies between the floor and the ceiling of the same input |
| Collate.CollateDay | collectData.js:76-83 | the row has 6 fields: the formatted date, the ticker, then open, high, low and close, each meeting its rounding rule's reference predicate |
| Collate.CollatedFromUnique | collectData.js:76-83 | two rows that both meet the row contract for the same day and ticker are equal |
| Collate.CollatedPricesOrdered | collectData.js:79-82 | if a day has low <= open, close <= high, then its collated row keeps low <= open, close <= high |
| Collate.CollateTicker | collectData.js:75-86 | one row per input day, and row i is day i collated for the given ticker: same count, same order, ticker in field 2 |
| Collate.CollateBlocks | collectData.js:95 | succeeds iff every ticker is a key; on success, block k is ticker k's collation; on failure, names the first ticker that is not a key |
| Collate.CollateAllTickers | collectData.js:94-109 | succeeds iff every listed ticker is a key of the data; then the header is at index 0; otherwise fails naming the first missing ticker |
| Collate.FlattenLength | collectData.js:96 | the flattened table has as many rows as all the blocks together |
| Collate.FlattenIndex | collectData.js:96 | row j of block k lands at index (rows in blocks before k) + j |
| Collate.FlattenOrigin | collectData.js:96 | every flattened row is row j of some block k, at that same index |
| Collate.CollateAllLength | collectData.js:94-108 | the table has 1 + (sum of the tickers' day counts) rows |
| Collate.CollateAllRowAt | collectData.js:95-106 | day j of ticker k sits at index 1 + (days of tickers before k) + j, collated for ticker k |
| Collate.CollateAllRowOrigin | collectData.js:95-106 | every row after the header is the collated form of some listed ticker's day |
| Strings.JoinSplit | collectData.js:116-117 | joining the pieces of a split gives back the original string, for every string |
| Strings.SplitJoin | collectData.js:116-117 | splitting a join of parts that have no separator inside gives back the parts |
| Strings.JoinStartsWithFirst | collectData.js:117 | a joined string begins with its first part |
| Strings.JoinCount | collectData.js:116-117 | each character count of a join is the sum over the parts plus (parts - 1) times its count in the separator |
| Strings.JoinSeparatorCount | collectData.js:116 | k parts that do not contain the one-character separator give a joined string with exactly k - 1 copies of it |
| Csv.NoCrlfIsSepFree | collectData.js:117 | a line holds no CRLF iff no CRLF can start inside it when the line is followed by CRLF |
| Csv.NoCommaIsSepFree | collectData.js:116 | a cell holds no comma iff no comma can start inside it when the cell is followed by a comma |
| Csv.JoinCommaNoCrlf | collectData.js:116 | joining CRLF-free cells with commas never creates a CRLF |
| Csv.LineRoundTrip | collectData.js:116 | a row of clean cells gives a CRLF-free line that splits back at the commas into the row's cells |
| Csv.CsvRoundTrip | collectData.js:115-118 | for a non-empty table of non-empty rows with clean cells, splitting the CSV at CRLF and then at commas gives back every cell |
| Csv.LineCommaCount | collectData.js:116 | a row of k comma-free cells gives a line with exactly k - 1 commas |
| Csv.CsvLineBreakCount | collectData.js:117 | an n-row table whose cells have no CR or LF gives text with exactly n - 1 CRs and n - 1 LFs, that is, n - 1 CRLF separators |
| Pipeline.CollatedTableClean | collectData.js:94-109 | if tickers, formatted dates and number texts are clean, every cell of the collated table is clean and every row has 6 cells |
| Pipeline.CollatedCsvRoundTrip | collectData.js:94-118 | under the same conditions, the CSV of the collated table reads back cell for cell, with 1 + (total days) lines |
| Pipeline.HeaderLine | collectData.js:99-106 | the header row renders as `Date,Ticker,Open,High,Low,Close` |
| Pipeline.CsvStartsWithHeader | collectData.js:99-117 | the CSV text of a collated table always begins with `Date,Ticker,Open,High,Low,Close` |
| Pipeline.RoundingExamples | collectData.js:79-81 | a high of 10.005 becomes 10.01 (1001 cents), a low of 10.009 becomes 10.00, and an open of 10.005 becomes 10.01 |
| Pipeline.AppleDayExample | collectData.js:75-109 | one AAPL day that already has two decimals collates to the header plus the row ("2019-01-02", "AAPL", 154.89, 158.85, 154.23, 157.92) |
| Pipeline.MissingTickerExample | collectData.js:95 | collating ["AAPL", "MSFT"] when only AAPL has data fails, naming MSFT |

## Left out

- `downloadHistoricalForTicker` and `downloadHistoricalForAllTickers` (collectData.js:42-67) are left out. They are an HTTP GET through superagent and a sequential await loop with a progress log, so they are network and console I/O.
- The entry point (collectData.js:123-152) is left out. It creates the output directory, writes files with `fs.writeFileSync` and `JSON.stringify`, and logs any error; all of this is filesystem and console I/O.
- Date reformatting by `moment(...).format('YYYY-MM-DD')` (collectData.js:77) is left out. It belongs to a foreign library and is the parameter `formatDate`. Because of this, the model cannot state that reformatting a date is idempotent. `moment` parses and formats in the process's local timezone, so the calendar date a timestamp turns into depends on that timezone; `Pipeline.AppleDayExample` takes as given a formatter that maps `2019-01-02T00:00:00Z` to `2019-01-02`, which holds only at or east of UTC.
- Conversion of numbers to text inside `join` (collectData.js:116) is left out and is the parameter `show`. Cells are abstract strings.
- IEEE-754 doubles and the `'e2'` string trick (collectData.js:79-82) are not modelled bit for bit. Prices are exact reals, and the decimal-string shift is exact multiplication by 100. A number whose own string form uses exponent notation (such as `1e-7`) would give `NaN` in the source; the model does not capture that.
- The configuration constants (collectData.js:7-29) are left out: the API key, the base URL, the ticker list and the date range.
- Day records whose fields are missing or are not numbers are left out. The model's `DayRecord` always has a date string and four prices.
- Ticker names that JavaScript resolves through the object prototype, such as `constructor`, are left out. The model treats the data as a plain map.
- `ParseCSV` does not appear in the source. It is the reader that the round-trip property is stated against.
