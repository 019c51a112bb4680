/** The metric table assembler of calculate_financial_metrics: for each
    ticker, each requested metric and each flattened row, one
    (Year, Metric, Ticker, Value) record when the guards allow it. */
module MetricTable {
  import opened Wrappers
  import opened RowBuilder
  import Decimal

  const GrossProfitMargin := "Gross Profit Margin"
  const NetProfitMargin := "Net Profit Margin"
  const OperatingMargin := "Operating Margin"

  const TotalRevenue := "Total Revenue"
  const GrossProfit := "Gross Profit"
  const NetIncome := "Net Income"
  const OperatingIncome := "Operating Income"

  /** The financial statement provider, as an input: what a fetch returns for
      each ticker. A ticker it does not know, or one whose fetch failed,
      gives None. */
  type Provider = map<string, Option<Statement>>

  function Fetch(p: Provider, ticker: string): Option<Statement>
  {
    if ticker in p then p[ticker] else None
  }

  /** row.get(key, None): a missing label reads as null. */
  function Get(row: Row, key: string): Cell
  {
    if key in row.fields then row.fields[key] else None
  }

  /** The result of a floating-point margin without a zero-revenue guard:
      division by zero gives an infinity or NaN instead of raising. */
  datatype Ratio = Finite(value: real) | PosInfinity | NegInfinity | NaN

  /** numerator / total_revenue * 100 */
  function Percent(num: real, rev: real): (r: Ratio)
    ensures r.Finite? <==> rev != 0.0
    ensures r.Finite? ==> r.value * rev == num * 100.0
    ensures r == PosInfinity <==> rev == 0.0 && num > 0.0
    ensures r == NegInfinity <==> rev == 0.0 && num < 0.0
  {
    if rev != 0.0 then Finite(num / rev * 100.0)
    else if num > 0.0 then PosInfinity
    else if num < 0.0 then NegInfinity
    else NaN
  }

  /** The line item each recognised metric divides by total revenue. */
  function Numerator(metric: string): Option<string>
  {
    if metric == GrossProfitMargin then Some(GrossProfit)
    else if metric == NetProfitMargin then Some(NetIncome)
    else if metric == OperatingMargin then Some(OperatingIncome)
    else None
  }

  /** A record while the table is built; Year is still an integer. */
  datatype Entry = Entry(year: int, metric: string, ticker: string, value: Ratio)

  /** A record of the returned table, Year converted to text. */
  datatype MetricRecord = MetricRecord(year: string, metric: string, ticker: string, value: Ratio)

  /** The guarded if-chain for one (ticker, metric, row): a record, or a skip. */
  function RecordFor(ticker: string, metric: string, row: Row): (r: Option<Entry>)
    ensures r.Some? <==> Get(row, TotalRevenue).Some? && Numerator(metric).Some? &&
                         Get(row, Numerator(metric).value).Some?
    ensures r.Some? ==> r.value == Entry(row.year, metric, ticker,
                                         Percent(Get(row, Numerator(metric).value).value, Get(row, TotalRevenue).value))
  {
    var totalRevenue := Get(row, TotalRevenue);
    var netIncome := Get(row, NetIncome);
    var grossProfit := Get(row, GrossProfit);
    var operatingIncome := Get(row, OperatingIncome);
    if totalRevenue.Some? then
      if metric == GrossProfitMargin && grossProfit.Some? then
        Some(Entry(row.year, metric, ticker, Percent(grossProfit.value, totalRevenue.value)))
      else if metric == NetProfitMargin && netIncome.Some? then
        Some(Entry(row.year, metric, ticker, Percent(netIncome.value, totalRevenue.value)))
      else if metric == OperatingMargin && operatingIncome.Some? then
        Some(Entry(row.year, metric, ticker, Percent(operatingIncome.value, totalRevenue.value)))
      else None
    else None
  }

  /** The innermost loop: one metric over a ticker's rows, in row order. */
  function MetricRecords(ticker: string, metric: string, rows: seq<Row>): seq<Entry>
  {
    if rows == [] then []
    else MetricRecords(ticker, metric, rows[..|rows| - 1]) + ToSeq(RecordFor(ticker, metric, rows[|rows| - 1]))
  }

  /** The middle loop: each requested metric in turn, over the same rows. */
  function TickerRecords(ticker: string, metrics: seq<string>, rows: seq<Row>): seq<Entry>
  {
    if metrics == [] then []
    else TickerRecords(ticker, metrics[..|metrics| - 1], rows) + MetricRecords(ticker, metrics[|metrics| - 1], rows)
  }

  /** The outer loop: each ticker of the input list in turn. */
  function Assemble(tickers: seq<string>, metrics: seq<string>, p: Provider): seq<Entry>
  {
    if tickers == [] then []
    else Assemble(tickers[..|tickers| - 1], metrics, p) +
         TickerRecords(tickers[|tickers| - 1], metrics, RowsFor(Fetch(p, tickers[|tickers| - 1])))
  }

  /** metric_data['Year'].astype(str) */
  function Finalize(es: seq<Entry>): seq<MetricRecord>
  {
    seq(|es|, i requires 0 <= i < |es| =>
      MetricRecord(Decimal.IntString(es[i].year), es[i].metric, es[i].ticker, es[i].value))
  }

  /** The most records a batch can give: |metrics| times the ticker's row count, summed over tickers. */
  function Capacity(tickers: seq<string>, metrics: seq<string>, p: Provider): nat
  {
    if tickers == [] then 0
    else Capacity(tickers[..|tickers| - 1], metrics, p) + |metrics| * |RowsFor(Fetch(p, tickers[|tickers| - 1]))|
  }

  // ---------------------------------------------------------------------------
  // One more loop step: each spec function extended by one element.

  lemma MetricRecordsStep(ticker: string, metric: string, rows: seq<Row>, r: nat)
    requires r < |rows|
    ensures MetricRecords(ticker, metric, rows[..r + 1]) ==
            MetricRecords(ticker, metric, rows[..r]) + ToSeq(RecordFor(ticker, metric, rows[r]))
  {
    assert rows[..r + 1][..r] == rows[..r];
  }

  lemma TickerRecordsStep(ticker: string, metrics: seq<string>, rows: seq<Row>, k: nat)
    requires k < |metrics|
    ensures TickerRecords(ticker, metrics[..k + 1], rows) ==
            TickerRecords(ticker, metrics[..k], rows) + MetricRecords(ticker, metrics[k], rows)
  {
    assert metrics[..k + 1][..k] == metrics[..k];
  }

  lemma AssembleStep(tickers: seq<string>, metrics: seq<string>, p: Provider, i: nat)
    requires i < |tickers|
    ensures Assemble(tickers[..i + 1], metrics, p) ==
            Assemble(tickers[..i], metrics, p) + TickerRecords(tickers[i], metrics, RowsFor(Fetch(p, tickers[i])))
  {
    assert tickers[..i + 1][..i] == tickers[..i];
  }

  // ---------------------------------------------------------------------------
  // Order: the table is ticker-major, then metric, then row.

  lemma {:induction false} MetricRecordsAppend(ticker: string, metric: string, r1: seq<Row>, r2: seq<Row>)
    ensures MetricRecords(ticker, metric, r1 + r2) == MetricRecords(ticker, metric, r1) + MetricRecords(ticker, metric, r2)
    decreases |r2|
  {
    if r2 != [] {
      var r2' := r2[..|r2| - 1];
      assert (r1 + r2)[..|r1 + r2| - 1] == r1 + r2';
      MetricRecordsAppend(ticker, metric, r1, r2');
    } else {
      assert r1 + r2 == r1;
    }
  }

  lemma {:induction false} TickerRecordsAppend(ticker: string, m1: seq<string>, m2: seq<string>, rows: seq<Row>)
    ensures TickerRecords(ticker, m1 + m2, rows) == TickerRecords(ticker, m1, rows) + TickerRecords(ticker, m2, rows)
    decreases |m2|
  {
    if m2 != [] {
      var m2' := m2[..|m2| - 1];
      assert (m1 + m2)[..|m1 + m2| - 1] == m1 + m2';
      TickerRecordsAppend(ticker, m1, m2', rows);
    } else {
      assert m1 + m2 == m1;
    }
  }

  /** Ticker-major order: a batch is the concatenation of its parts' tables. */
  lemma {:induction false} AssembleAppend(t1: seq<string>, t2: seq<string>, metrics: seq<string>, p: Provider)
    ensures Assemble(t1 + t2, metrics, p) == Assemble(t1, metrics, p) + Assemble(t2, metrics, p)
    decreases |t2|
  {
    if t2 != [] {
      var t2' := t2[..|t2| - 1];
      assert (t1 + t2)[..|t1 + t2| - 1] == t1 + t2';
      AssembleAppend(t1, t2', metrics, p);
    } else {
      assert t1 + t2 == t1;
    }
  }

  // ---------------------------------------------------------------------------
  // Which records appear.

  lemma {:induction false} MetricRecordsMembers(ticker: string, metric: string, rows: seq<Row>, e: Entry)
    ensures e in MetricRecords(ticker, metric, rows) <==>
            exists row :: row in rows && RecordFor(ticker, metric, row) == Some(e)
    decreases |rows|
  {
    if rows != [] {
      var init := rows[..|rows| - 1];
      var last := rows[|rows| - 1];
      MetricRecordsMembers(ticker, metric, init, e);
      assert rows == init + [last];
      if e in MetricRecords(ticker, metric, rows) {
        if e !in MetricRecords(ticker, metric, init) {
          assert RecordFor(ticker, metric, last) == Some(e);
        }
      }
      if exists row :: row in rows && RecordFor(ticker, metric, row) == Some(e) {
        var row :| row in rows && RecordFor(ticker, metric, row) == Some(e);
        if row != last {
          assert row in init;
        }
      }
    }
  }

  lemma {:induction false} TickerRecordsMembers(ticker: string, metrics: seq<string>, rows: seq<Row>, e: Entry)
    ensures e in TickerRecords(ticker, metrics, rows) <==>
            e.metric in metrics && exists row :: row in rows && RecordFor(ticker, e.metric, row) == Some(e)
    decreases |metrics|
  {
    if metrics != [] {
      var init := metrics[..|metrics| - 1];
      var last := metrics[|metrics| - 1];
      TickerRecordsMembers(ticker, init, rows, e);
      MetricRecordsMembers(ticker, last, rows, e);
      assert metrics == init + [last];
      if exists row :: row in rows && RecordFor(ticker, last, row) == Some(e) {
        var row :| row in rows && RecordFor(ticker, last, row) == Some(e);
        assert e.metric == last;
      }
    }
  }

  /** A record is in the table exactly when its ticker was requested, its metric
      was requested, and one of that ticker's rows yields it through the guarded
      formula; so every record's Ticker and Metric come from the inputs, and
      every guarded (ticker, metric, row) triple is represented. */
  lemma {:induction false} AssembleMembers(tickers: seq<string>, metrics: seq<string>, p: Provider, e: Entry)
    ensures e in Assemble(tickers, metrics, p) <==>
            e.ticker in tickers && e.metric in metrics &&
            exists row :: row in RowsFor(Fetch(p, e.ticker)) && RecordFor(e.ticker, e.metric, row) == Some(e)
    decreases |tickers|
  {
    if tickers != [] {
      var init := tickers[..|tickers| - 1];
      var last := tickers[|tickers| - 1];
      var rows := RowsFor(Fetch(p, last));
      AssembleMembers(init, metrics, p, e);
      TickerRecordsMembers(last, metrics, rows, e);
      assert tickers == init + [last];
      if e.metric in metrics && exists row :: row in rows && RecordFor(last, e.metric, row) == Some(e) {
        var row :| row in rows && RecordFor(last, e.metric, row) == Some(e);
        assert e.ticker == last;
      }
    }
  }

  /** Every guarded (ticker, metric, row) triple of the request gives its record,
      with Value the numerator over total revenue, times 100. */
  lemma AssembleComplete(tickers: seq<string>, metrics: seq<string>, p: Provider, ticker: string, metric: string, row: Row)
    requires ticker in tickers && metric in metrics && row in RowsFor(Fetch(p, ticker))
    requires Numerator(metric).Some?
    requires Get(row, TotalRevenue).Some? && Get(row, Numerator(metric).value).Some?
    ensures Entry(row.year, metric, ticker,
                  Percent(Get(row, Numerator(metric).value).value, Get(row, TotalRevenue).value))
            in Assemble(tickers, metrics, p)
  {
    var e := RecordFor(ticker, metric, row).value;
    AssembleMembers(tickers, metrics, p, e);
  }

  /** Every record of the table is justified: a recognised metric, a row of its
      ticker with the record's year, non-null total revenue and numerator, and
      Value their percentage. */
  lemma AssembleSound(tickers: seq<string>, metrics: seq<string>, p: Provider, e: Entry)
    requires e in Assemble(tickers, metrics, p)
    ensures e.ticker in tickers && e.metric in metrics && Numerator(e.metric).Some?
    ensures exists row :: row in RowsFor(Fetch(p, e.ticker)) && row.year == e.year &&
              Get(row, TotalRevenue).Some? && Get(row, Numerator(e.metric).value).Some? &&
              e.value == Percent(Get(row, Numerator(e.metric).value).value, Get(row, TotalRevenue).value)
  {
    AssembleMembers(tickers, metrics, p, e);
  }

  // ---------------------------------------------------------------------------
  // Skips.

  lemma {:induction false} NoRowsNoRecords(ticker: string, metrics: seq<string>)
    ensures TickerRecords(ticker, metrics, []) == []
    decreases |metrics|
  {
    if metrics != [] {
      NoRowsNoRecords(ticker, metrics[..|metrics| - 1]);
    }
  }

  /** A ticker whose fetch failed or whose table has no columns contributes no
      records, and the rest of the batch is processed as if it were absent. */
  lemma MissingTickerSkipped(t1: seq<string>, ticker: string, t2: seq<string>, metrics: seq<string>, p: Provider)
    requires Fetch(p, ticker).None? || Fetch(p, ticker).value.periods == []
    ensures Assemble(t1 + [ticker] + t2, metrics, p) == Assemble(t1 + t2, metrics, p)
  {
    RowsForEmpty(Fetch(p, ticker));
    NoRowsNoRecords(ticker, metrics);
    assert Assemble([ticker], metrics, p) == [] by {
      assert [ticker][..0] == [];
    }
    AssembleAppend(t1 + [ticker], t2, metrics, p);
    AssembleAppend(t1, [ticker], metrics, p);
    AssembleAppend(t1, t2, metrics, p);
  }

  lemma {:induction false} UnrecognisedMetricRecords(ticker: string, metric: string, rows: seq<Row>)
    requires Numerator(metric).None?
    ensures MetricRecords(ticker, metric, rows) == []
    decreases |rows|
  {
    if rows != [] {
      UnrecognisedMetricRecords(ticker, metric, rows[..|rows| - 1]);
    }
  }

  /** A metric name other than the three recognised ones produces no records:
      the table is as if it had not been requested. */
  lemma TickerRecordsDropUnrecognised(ticker: string, m1: seq<string>, metric: string, m2: seq<string>, rows: seq<Row>)
    requires Numerator(metric).None?
    ensures TickerRecords(ticker, m1 + [metric] + m2, rows) == TickerRecords(ticker, m1 + m2, rows)
  {
    var a := TickerRecords(ticker, m1, rows);
    var b := TickerRecords(ticker, m2, rows);
    assert TickerRecords(ticker, [metric], rows) == [] by {
      UnrecognisedMetricRecords(ticker, metric, rows);
      assert [metric][..0] == [];
    }
    assert TickerRecords(ticker, m1 + [metric], rows) == a by {
      TickerRecordsAppend(ticker, m1, [metric], rows);
    }
    assert TickerRecords(ticker, m1 + [metric] + m2, rows) == a + b by {
      TickerRecordsAppend(ticker, m1 + [metric], m2, rows);
    }
    TickerRecordsAppend(ticker, m1, m2, rows);
  }

  lemma {:induction false} UnrecognisedMetricIgnored(tickers: seq<string>, m1: seq<string>, metric: string, m2: seq<string>, p: Provider)
    requires Numerator(metric).None?
    ensures Assemble(tickers, m1 + [metric] + m2, p) == Assemble(tickers, m1 + m2, p)
    decreases |tickers|
  {
    if tickers != [] {
      var last := tickers[|tickers| - 1];
      UnrecognisedMetricIgnored(tickers[..|tickers| - 1], m1, metric, m2, p);
      TickerRecordsDropUnrecognised(last, m1, metric, m2, RowsFor(Fetch(p, last)));
    }
  }

  // ---------------------------------------------------------------------------
  // Size.

  lemma {:induction false} MetricRecordsSize(ticker: string, metric: string, rows: seq<Row>)
    ensures |MetricRecords(ticker, metric, rows)| <= |rows|
    decreases |rows|
  {
    if rows != [] {
      MetricRecordsSize(ticker, metric, rows[..|rows| - 1]);
    }
  }

  lemma {:induction false} TickerRecordsSize(ticker: string, metrics: seq<string>, rows: seq<Row>)
    ensures |TickerRecords(ticker, metrics, rows)| <= |metrics| * |rows|
    decreases |metrics|
  {
    if metrics != [] {
      TickerRecordsSize(ticker, metrics[..|metrics| - 1], rows);
      MetricRecordsSize(ticker, metrics[|metrics| - 1], rows);
      assert (|metrics| - 1) * |rows| + |rows| == |metrics| * |rows|;
    }
  }

  /** The record count is at most the sum over tickers of |metrics| times the row count. */
  lemma {:induction false} AssembleSize(tickers: seq<string>, metrics: seq<string>, p: Provider)
    ensures |Assemble(tickers, metrics, p)| <= Capacity(tickers, metrics, p)
    decreases |tickers|
  {
    if tickers != [] {
      var last := tickers[|tickers| - 1];
      AssembleSize(tickers[..|tickers| - 1], metrics, p);
      TickerRecordsSize(last, metrics, RowsFor(Fetch(p, last)));
    }
  }

  /** The returned table keeps every record and its order; only Year changes,
      to str() of the year: a decimal text with no decimal point that reads
      back as the year. */
  lemma FinalizeContents(es: seq<Entry>)
    ensures |Finalize(es)| == |es|
    ensures forall i :: 0 <= i < |es| ==>
      Finalize(es)[i].year == Decimal.IntString(es[i].year) &&
      Finalize(es)[i].metric == es[i].metric && Finalize(es)[i].ticker == es[i].ticker &&
      Finalize(es)[i].value == es[i].value &&
      Decimal.IsDecimal(Finalize(es)[i].year) && '.' !in Finalize(es)[i].year &&
      Decimal.ParseInt(Finalize(es)[i].year) == es[i].year
  {
    forall i | 0 <= i < |es|
      ensures Decimal.IsDecimal(Finalize(es)[i].year) && '.' !in Finalize(es)[i].year &&
              Decimal.ParseInt(Finalize(es)[i].year) == es[i].year
    {
      Decimal.IntStringRoundTrip(es[i].year);
    }
  }

  // ---------------------------------------------------------------------------
  // The source's own scenarios.

  /** One ticker with revenue 100 and net income 20 in its one period, asked for
      net profit margin: exactly one record, Value 20. */
  lemma ScenarioRows(t: Statement)
    requires t == Grid([TotalRevenue, NetIncome], [2023], [[Some(100.0)], [Some(20.0)]])
    ensures Rows(t) == [Row(2023, map[TotalRevenue := Some(100.0), NetIncome := Some(20.0)])]
  {
    assert Fields(t, 0, 0) == map[];
    assert Fields(t, 0, 1) == map[TotalRevenue := Some(100.0)];
    assert Fields(t, 0, 2) == map[TotalRevenue := Some(100.0), NetIncome := Some(20.0)];
  }

  lemma ScenarioRecords(row: Row)
    requires row == Row(2023, map[TotalRevenue := Some(100.0), NetIncome := Some(20.0)])
    ensures TickerRecords("AAPL", [NetProfitMargin], [row]) == [Entry(2023, NetProfitMargin, "AAPL", Finite(20.0))]
  {
    var e := Entry(2023, NetProfitMargin, "AAPL", Finite(20.0));
    assert Get(row, TotalRevenue) == Some(100.0) && Get(row, NetIncome) == Some(20.0);
    assert RecordFor("AAPL", NetProfitMargin, row) == Some(e);
    assert MetricRecords("AAPL", NetProfitMargin, [row]) == [e] by {
      assert [row][..0] == [];
    }
    assert [NetProfitMargin][..0] == [];
  }

  /** One ticker with revenue 100 and net income 20 in its one period, asked for
      net profit margin: exactly one record, Value 20. */
  lemma NetMarginScenario(t: Statement, p: Provider)
    requires t == Grid([TotalRevenue, NetIncome], [2023], [[Some(100.0)], [Some(20.0)]])
    requires p == map["AAPL" := Some(t)]
    ensures Finalize(Assemble(["AAPL"], [NetProfitMargin], p)) ==
            [MetricRecord("2023", NetProfitMargin, "AAPL", Finite(20.0))]
  {
    var row := Row(2023, map[TotalRevenue := Some(100.0), NetIncome := Some(20.0)]);
    ScenarioRows(t);
    ScenarioRecords(row);
    assert Assemble(["AAPL"], [NetProfitMargin], p) == [Entry(2023, NetProfitMargin, "AAPL", Finite(20.0))] by {
      assert ["AAPL"][..0] == [];
    }
    YearText2023();
  }

  /** str(2023), unfolded digit by digit. */
  lemma YearText2023()
    ensures Decimal.IntString(2023) == "2023"
  {
    assert Decimal.NatString(2) == "2";
    assert Decimal.NatString(20) == "20";
    assert Decimal.NatString(202) == "202";
    assert Decimal.NatString(2023) == "2023";
  }

  /** A batch none of whose tickers has rows gives the empty table, which the
      page reports as "no data available" rather than failing. */
  lemma NoRowsGivesEmptyTable(tickers: seq<string>, metrics: seq<string>, p: Provider)
    requires forall t :: t in tickers ==> Fetch(p, t).None? || Fetch(p, t).value.periods == []
    ensures Assemble(tickers, metrics, p) == []
  {
    if Assemble(tickers, metrics, p) != [] {
      var e := Assemble(tickers, metrics, p)[0];
      AssembleMembers(tickers, metrics, p, e);
      RowsForEmpty(Fetch(p, e.ticker));
    }
  }

  // ---------------------------------------------------------------------------
  // The procedure itself.

  /** The first loop of calculate_financial_metrics: a dictionary from every
      requested ticker to its rows, left empty when the fetch gave nothing. */
  method BuildFinancialData(tickers: seq<string>, p: Provider) returns (financialData: map<string, seq<Row>>)
    ensures financialData.Keys == set t | t in tickers
    ensures forall t :: t in tickers ==> financialData[t] == RowsFor(Fetch(p, t))
  {
    financialData := map t | t in tickers :: [];
    for i := 0 to |tickers|
      invariant financialData.Keys == set t | t in tickers
      invariant forall t :: t in tickers[..i] ==> financialData[t] == RowsFor(Fetch(p, t))
      invariant forall t :: t in financialData && t !in tickers[..i] ==> financialData[t] == []
    {
      var ticker := tickers[i];
      assert tickers[..i + 1] == tickers[..i] + [ticker];
      var financials := Fetch(p, ticker);
      if financials.None? {
        continue;
      }
      var data := BuildRows(financials.value);
      financialData := financialData[ticker := data];
    }
    assert tickers[..|tickers|] == tickers;
  }

  /** The innermost loop of calculate_financial_metrics: one metric over a
      ticker's rows, each row read for its four line items and appended to the
      table when the guarded if-chain gives a value. */
  method AppendMetricRecords(entries: seq<Entry>, ticker: string, metric: string, df: seq<Row>)
    returns (out: seq<Entry>)
    ensures out == entries + MetricRecords(ticker, metric, df)
  {
    out := entries;
    assert df[..0] == [];
    for r := 0 to |df|
      invariant out == entries + MetricRecords(ticker, metric, df[..r])
    {
      var row := df[r];
      ghost var want := RecordFor(ticker, metric, row);
      MetricRecordsStep(ticker, metric, df, r);
      var year := row.year;
      var totalRevenue := Get(row, TotalRevenue);
      var netIncome := Get(row, NetIncome);
      var grossProfit := Get(row, GrossProfit);
      var operatingIncome := Get(row, OperatingIncome);
      if totalRevenue.Some? {
        var value: Ratio;
        if metric == GrossProfitMargin && grossProfit.Some? {
          value := Percent(grossProfit.value, totalRevenue.value);
        } else if metric == NetProfitMargin && netIncome.Some? {
          value := Percent(netIncome.value, totalRevenue.value);
        } else if metric == OperatingMargin && operatingIncome.Some? {
          value := Percent(operatingIncome.value, totalRevenue.value);
        } else {
          assert want == None;
          continue;
        }
        assert want == Some(Entry(year, metric, ticker, value));
        out := out + [Entry(year, metric, ticker, value)];
      } else {
        assert want == None;
      }
    }
    assert df[..|df|] == df;
  }

  /** The metric loop of calculate_financial_metrics for one ticker: each
      requested metric in turn, over the ticker's rows. */
  method AppendTickerRecords(entries: seq<Entry>, ticker: string, metrics: seq<string>, df: seq<Row>)
    returns (out: seq<Entry>)
    ensures out == entries + TickerRecords(ticker, metrics, df)
  {
    out := entries;
    assert metrics[..0] == [];
    for k := 0 to |metrics|
      invariant out == entries + TickerRecords(ticker, metrics[..k], df)
    {
      out := AppendMetricRecords(out, ticker, metrics[k], df);
      TickerRecordsStep(ticker, metrics, df, k);
    }
    assert metrics[..|metrics|] == metrics;
  }

  /** calculate_financial_metrics: build each ticker's rows into a dictionary,
      then walk tickers, metrics and rows, appending each guarded record, and
      finally turn every Year into text. */
  method CalculateFinancialMetrics(tickers: seq<string>, metrics: seq<string>, p: Provider)
    returns (metricData: seq<MetricRecord>)
    ensures metricData == Finalize(Assemble(tickers, metrics, p))
  {
    var financialData := BuildFinancialData(tickers, p);
    var entries: seq<Entry> := [];
    for i := 0 to |tickers|
      invariant entries == Assemble(tickers[..i], metrics, p)
    {
      var ticker := tickers[i];
      var df := financialData[ticker];
      AssembleStep(tickers, metrics, p, i);
      if df == [] {
        NoRowsNoRecords(ticker, metrics);
        continue;
      }
      entries := AppendTickerRecords(entries, ticker, metrics, df);
    }
    assert tickers[..|tickers|] == tickers;
    metricData := Finalize(entries);
  }
}
