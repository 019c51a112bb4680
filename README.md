# Stock dashboard core, in Dafny

This project models the logic inside the Streamlit stock dashboard `app.py`. The
page's remote data, charts and widgets are left out. Three pieces are modelled:

- **Financial metric table** (`calculate_financial_metrics`). Each ticker's
  financial statement table (line items down, fiscal periods across) is
  flattened into one row per period. Then, for each ticker, each requested
  metric and each row in turn, a `(Year, Metric, Ticker, Value)` record is
  appended. A record is appended only when the row's "Total Revenue" and that
  metric's numerator are both non-null. The numerators are "Gross Profit" for
  Gross Profit Margin, "Net Income" for Net Profit Margin and "Operating Income"
  for Operating Margin. Value is numerator / total revenue × 100. At the end
  every Year is turned into text.
- **Sentiment bucketing** (`analyze_sentiment_vader`). An if-chain sorts a
  compound polarity score into five labels.
- **Ticker list parsing**. The text box input is split on `,`, and each piece
  is stripped of whitespace and upper-cased.

Files and modules:

- `wrappers.dfy` (`Wrappers`): `Option`, used for null/NaN cells and for failed fetches.
- `row_builder.dfy` (`RowBuilder`): the statement table and the row builder
  (the first loop of `calculate_financial_metrics`). This includes the spec
  function `Rows`, the imperative `BuildRows` and their lemmas.
- `metric_table.dfy` (`MetricTable`): the guarded record formula, the assembler
  as spec functions (`Assemble`, `Finalize`), the imperative
  `CalculateFinancialMetrics` with its loops, and the lemmas about the table.
- `decimal.dfy` (`Decimal`): `str(int)` for the Year conversion, with a parser
  that reads it back.
- `sentiment.dfy` (`Sentiment`): the threshold chain.
- `ticker_input.dfy` (`TickerInput`): `split(',')`, `strip()`, `upper()` and
  the list comprehension.

How external inputs are represented:

- **Financial data provider.** The provider (yfinance behind `get_financials`)
  is an input map from ticker to `Option<Statement>`. A ticker that is missing
  from the map, or maps to `None`, is a failed fetch. The fetch is memoised in
  the source, so a map (one answer per ticker) is faithful.
- **Statement tables.** A `Statement` holds the line-item labels, the
  period years and a rectangular grid of cells. `None` stands for a null or NaN
  cell.
- **Margin values.** A margin is a `Ratio`: either `Finite(v)` or, because the
  source does not guard against zero revenue, `PosInfinity`, `NegInfinity` or
  `NaN`, as floating-point division by zero gives.
- **Sentiment score.** The compound score is a real number passed in.

Behaviour of the code worth noting, which the model keeps:

- **One row per period.** The row builder appends one row per column, so two
  periods of the same calendar year give two rows with the same Year. Nothing
  merges or overwrites them (`RowsShape`).
- **Metric names are compared as strings.** Any name other than the three
  recognised ones silently gives no records (`UnrecognisedMetricIgnored`).
- **The ticker list is walked as a list.** A repeated ticker shares one
  `financial_data` entry but is walked twice, so its records appear twice
  (`AssembleAppend`).
- **Empty pieces are not dropped.** The parsed ticker list is never empty
  (`ParseTickersNonEmpty`), so the page's `if tickers:` test always passes. A
  trailing comma produces an empty ticker `""`, which is then fetched like
  any other ticker (`SplitTrailingComma`).

## Model

| member | source | states |
|---|---|---|
| `RowBuilder.BuildRows` | app.py:60-67 | The nested loops (one row dictionary per column, filled item by item, appended in column order) return exactly `Rows(t)`. |
| `RowBuilder.RowsShape` | app.py:61-66 | There is one row per column, in column order. Row j's year is column j's year. Its keys are exactly the index's line items. Each item maps to its cell in that column; if a label repeats, the last cell with that label wins. |
| `RowBuilder.FieldsKeys` | app.py:64-65 | After n items are copied, the row dictionary's keys are exactly the first n labels. |
| `RowBuilder.FieldsValues` | app.py:64-65 | After n items are copied, each label holds the cell of its last occurrence among the first n. |
| `RowBuilder.RowsDistinctItems` | app.py:64-65 | If the labels are distinct, every line item of every row maps to its own cell in that column. |
| `RowBuilder.Rows` | app.py:61-66 | The rows of one statement table, as a value. Characterised by `RowsShape`; `BuildRows` computes it. |
| `RowBuilder.RowsFor` | app.py:57-67 | The rows of a fetch result: none for a failed fetch. Characterised by `RowsForEmpty` and `RowsShape`. |
| `RowBuilder.RowsForEmpty` | app.py:58-59 | A ticker has no rows exactly when the fetch gave nothing or its table has no columns. |
| `MetricTable.Fetch` | app.py:57-59 | What the provider gives for a ticker, with a missing ticker read as a failed fetch. Used by `BuildFinancialData` and `MissingTickerSkipped`. |
| `MetricTable.Get` | app.py:78-81 | `row.get(key, None)`: a label missing from the row reads as null. Its effect on records is stated by `RecordFor`. |
| `MetricTable.Numerator` | app.py:83-90 | Which line item each of the three recognised metric names divides by revenue; other names have none. Its effect is stated by `RecordFor` and `UnrecognisedMetricRecords`. |
| `MetricTable.Percent` | app.py:84-88 | The margin is finite exactly when revenue is nonzero, and then value × revenue = numerator × 100. With zero revenue it is +∞ for a positive numerator, −∞ for a negative one and NaN for zero. |
| `MetricTable.RecordFor` | app.py:77-90 | A (ticker, metric, row) gives a record exactly when Total Revenue is non-null, the metric is one of the three recognised names, and that metric's own numerator is non-null. The record carries the row's year, the metric, the ticker, and the numerator-over-revenue percentage. |
| `MetricTable.MetricRecords` | app.py:76-91 | The records appended by the row loop for one metric. Characterised by `MetricRecordsMembers`, `MetricRecordsAppend` and `MetricRecordsSize`; `AppendMetricRecords` computes it. |
| `MetricTable.TickerRecords` | app.py:75-91 | The records appended by the metric loop for one ticker. Characterised by `TickerRecordsMembers`, `TickerRecordsAppend` and `TickerRecordsSize`; `AppendTickerRecords` computes it. |
| `MetricTable.Assemble` | app.py:71-91 | The records of the whole batch, before the Year conversion. Characterised by `AssembleMembers`, `AssembleAppend` and `AssembleSize` and the skip lemmas. |
| `MetricTable.Finalize` | app.py:93 | The Year-to-text step. Characterised by `FinalizeContents`. |
| `MetricTable.MetricRecordsAppend` | app.py:76-91 | For one metric, the records of two consecutive row blocks are the first block's records followed by the second's (row order). |
| `MetricTable.TickerRecordsAppend` | app.py:75-91 | For one ticker, the records of two metric lists are the first list's records followed by the second's (metric order). |
| `MetricTable.AssembleAppend` | app.py:71-91 | The table for two ticker lists is the first list's table followed by the second's (ticker-major order; a repeated ticker repeats its records). |
| `MetricTable.MetricRecordsMembers` | app.py:76-91 | A record is among one metric's records exactly when some row of the ticker yields it through the guarded formula. |
| `MetricTable.TickerRecordsMembers` | app.py:75-91 | A record is among one ticker's records exactly when its metric was requested and some row yields it for that metric. |
| `MetricTable.AssembleMembers` | app.py:71-91 | A record is in the table exactly when its Ticker is in the ticker list, its Metric is in the metric list, and one of that ticker's rows yields it through the guarded formula. |
| `MetricTable.AssembleComplete` | app.py:78-91 | Suppose a ticker and a metric were both requested, a row of that ticker has non-null revenue, and the metric's numerator in that row is non-null. Then the table holds that row's record, with Value = numerator / revenue × 100. |
| `MetricTable.AssembleSound` | app.py:78-91 | Every record in the table is justified. Its metric is recognised, and its ticker has a row with the record's year in which revenue and the numerator are non-null. Its Value is their percentage. |
| `MetricTable.NoRowsNoRecords` | app.py:72-74 | A ticker with no rows contributes no records, whatever metrics are requested. |
| `MetricTable.MissingTickerSkipped` | app.py:57-59 | A ticker whose fetch failed, or whose table has no columns, contributes nothing. The rest of the batch gives the same table as if that ticker were not in the list. |
| `MetricTable.UnrecognisedMetricRecords` | app.py:89-90 | A metric name other than the three recognised ones yields no records. |
| `MetricTable.TickerRecordsDropUnrecognised` | app.py:89-90 | For one ticker, an unrecognised metric name may be removed from the requested list without changing the records. |
| `MetricTable.UnrecognisedMetricIgnored` | app.py:89-90 | An unrecognised metric name anywhere in the requested list leaves the whole table unchanged. |
| `MetricTable.MetricRecordsSize` | app.py:76-91 | One metric gives at most one record per row. |
| `MetricTable.TickerRecordsSize` | app.py:75-91 | One ticker gives at most (number of metrics) × (number of rows) records. |
| `MetricTable.AssembleSize` | app.py:71-91 | The record count is at most the sum, over tickers, of (number of metrics) × (that ticker's row count). |
| `MetricTable.FinalizeContents` | app.py:93 | The Year-to-text step keeps every record, its order, Metric, Ticker and Value. Each Year becomes `str()` of the year: well-formed decimal text with no decimal point, and that text reads back as the original year. |
| `MetricTable.NetMarginScenario` | app.py:53-94 | Ticker AAPL has one period (2023) with revenue 100 and net income 20. Asked for Net Profit Margin, it gives exactly one record: ("2023", "Net Profit Margin", "AAPL", 20). |
| `MetricTable.NoRowsGivesEmptyTable` | app.py:71-94 | If no requested ticker has any rows, the table is empty: the case the page reports as "no data available". |
| `MetricTable.BuildFinancialData` | app.py:54-67 | The first loop gives a dictionary keyed by exactly the requested tickers. Each ticker maps to its rows, or to no rows when its fetch gave nothing. |
| `MetricTable.AppendMetricRecords` | app.py:76-91 | The row loop, with its inline if-chain, appends exactly `MetricRecords` for that metric to the table. |
| `MetricTable.AppendTickerRecords` | app.py:75-91 | The metric loop appends exactly `TickerRecords` for that ticker to the table. |
| `MetricTable.CalculateFinancialMetrics` | app.py:53-94 | The whole procedure (dictionary building, triple loop with its skips, Year conversion) returns exactly `Finalize(Assemble(tickers, metrics, provider))`. |
| `Decimal.NatString` | app.py:93 | `str` of a natural number is a non-empty string of digits, with no leading zero unless the number is 0. |
| `Decimal.IntString` | app.py:93 | `str()` of an integer. Characterised by `IntStringRoundTrip`, `DecimalIsIntString` and `IntStringInjective`. |
| `Decimal.IntStringRoundTrip` | app.py:93 | `str(year)` is well-formed decimal text (an optional '-', then digits with no leading zero, and never "-0") without a decimal point, and parsing it gives the year back. |
| `Decimal.DecimalIsIntString` | app.py:93 | Every well-formed decimal text is `str()` of the number it reads as, so the well-formed texts are exactly the possible Year texts. |
| `Decimal.IntStringInjective` | app.py:93 | Distinct years give distinct Year texts. |
| `Sentiment.Classify` | app.py:30-39 | Extremely Positive exactly when score ≥ 0.5. Positive exactly when 0 < score < 0.5. Neutral exactly when score = 0. Negative exactly when −0.5 < score < 0. Extremely Negative exactly when score ≤ −0.5. So every real score has exactly one label. |
| `Sentiment.ClassifyMonotone` | app.py:30-39 | A higher score never gets a more negative label. |
| `Sentiment.SampleScores` | app.py:30-39 | Labels of sample scores: 0.5, 0.7 and 1.0 are Extremely Positive; 0.1 and 0.49 are Positive; 0 is Neutral; −0.1 and −0.49 are Negative; −0.5 and −1.0 are Extremely Negative. |
| `Sentiment.LabelText` | app.py:31-39 | The five strings the function returns, one per label. Characterised by `LabelTextInjective`. |
| `Sentiment.LabelTextInjective` | app.py:31-39 | The five returned strings are pairwise distinct. |
| `TickerInput.Split` | app.py:111 | `split(',')` gives one piece per comma, plus one. |
| `TickerInput.SplitPiecesNoSep` | app.py:111 | No piece of the split contains the separator. |
| `TickerInput.JoinSplit` | app.py:111 | Joining the pieces with the separator gives back the input, so the split loses nothing. |
| `TickerInput.SplitJoin` | app.py:111 | Splitting a join of separator-free pieces gives back those pieces. |
| `TickerInput.SplitExtend` | app.py:111 | Appending separator-free text to the input extends only the last piece. |
| `TickerInput.SplitTrailingComma` | app.py:111 | "AAPL," splits into "AAPL" and an empty piece. |
| `TickerInput.LeadingSpaces` | app.py:111 | The count of leading whitespace covers only whitespace characters and stops at the first non-whitespace character. |
| `TickerInput.TrailingSpaces` | app.py:111 | The count of trailing whitespace covers only whitespace characters and stops at the last non-whitespace character. |
| `TickerInput.LStrip` | app.py:111 | Dropping the leading whitespace, as counted by `LeadingSpaces`. Characterised, within `Strip`, by `StripTrims`. |
| `TickerInput.RStrip` | app.py:111 | Dropping the trailing whitespace, as counted by `TrailingSpaces`. Characterised, within `Strip`, by `StripTrims`. |
| `TickerInput.Strip` | app.py:111 | `strip()` keeps only characters of the piece, and its result neither starts nor ends with whitespace. |
| `TickerInput.StripTrims` | app.py:111 | `strip()` returns a contiguous slice of the piece and cuts only whitespace on either side. |
| `TickerInput.StripIdempotent` | app.py:111 | Stripping twice is the same as stripping once. |
| `TickerInput.Upper` | app.py:111 | `upper()` keeps the length. Each ASCII lower-case letter becomes its capital and every other character stays, so whitespace and commas are unchanged and no lower-case letter remains. |
| `TickerInput.UpperKeepsComma` | app.py:111 | Upper-casing introduces no comma. |
| `TickerInput.UpperIdempotent` | app.py:111 | Upper-casing twice is the same as upper-casing once. |
| `TickerInput.Normalise` | app.py:111 | `piece.strip().upper()` has no lower-case letter. It neither starts nor ends with whitespace. It contains a comma only if the piece did. |
| `TickerInput.ParseTickers` | app.py:111 | The ticker list has one entry per comma, plus one. No entry contains a comma or a lower-case letter, and no entry starts or ends with whitespace. |
| `TickerInput.ParseTickersPieces` | app.py:111 | Entry i of the list is piece i of the input, stripped and upper-cased, and the pieces joined with commas are the input. |
| `TickerInput.ParseTickersNonEmpty` | app.py:111-112 | The ticker list is never empty, so the `if tickers:` guard is always true. |

## Left out

- The Streamlit page is not modelled: layout, navigation, spinners, error and info messages, and the `st.cache_data` memoisation (app.py:42, app.py:97-160). These are user-interface and framework behaviour. The memoisation is reflected only in that the provider gives one answer per ticker.
- `get_financials` is not modelled (app.py:43-50). It is a network fetch through yfinance with a try/except; it becomes the provider map, with `None` for a failed fetch.
- `fetch_news` is not modelled (app.py:15-24). It is an RSS fetch through feedparser that only copies three fields per entry.
- The VADER scorer (`SentimentIntensityAnalyzer().polarity_scores`) and `nltk.download` are not modelled (app.py:7-12, app.py:28-29). They are a foreign library and process bootstrap; the compound score is an input.
- Applying the classifier to every news snippet (app.py:149) is not modelled; it is a pandas `apply` in the UI section.
- The Plotly charts are not modelled (app.py:119-128, app.py:154-156). They are rendering only.
- `pd.to_datetime(year).year` is not modelled (app.py:62). Each period is given directly by its integer year.
- Floating point is not modelled. Cells and margins are exact reals, with no rounding. A negative-zero revenue, which in IEEE arithmetic flips the sign of the infinity, is not distinguished from zero. NaN cells are `None`, as `pd.notnull` treats them.
- pandas type coercion is not modelled. `df.iterrows()` (app.py:76) returns each row as one Series of the columns' common dtype, so `row['Year']` arrives as a float such as 2023.0, and `int(year)` (app.py:91) turns it back into the integer. The model keeps Year as an integer throughout.
- A line-item label that occurs twice in the statement's index is not modelled the way pandas treats it. There `financials.loc[item]` returns a frame, so `row[item]` holds a Series rather than a number. An error results only when that label is read and truth-tested: "Total Revenue" is tested for every row (app.py:82), and a metric's numerator is tested while that metric is processed (app.py:83, app.py:85, app.py:87). A repeated label that is never read leaves the records unchanged. The model instead keeps the last cell for a repeated label (`RowBuilder.FieldsValues`) and raises no error.
- A line item named "Year" would overwrite the row's Year entry (app.py:63-65). The model keeps the year in its own field.
- `TickerInput.Upper`: models only ASCII case mapping. Python's `str.upper` also maps non-ASCII letters (for example "é" to "É", "ß" to "SS"), which needs Unicode tables.
