/** One ticker's financial statement table and the flattening of it into one
    row per fiscal period (the first loop of calculate_financial_metrics). */
module RowBuilder {
  import opened Wrappers

  /** A line-item value for one period; None stands for a null or NaN cell. */
  type Cell = Option<real>

  /** A statement table as the provider returns it: line-item labels down the
      side (the index), fiscal periods across the top (the columns), and
      cells[i][j] the value of line item i in period j. Each period is given
      by its calendar year. */
  datatype Grid = Grid(items: seq<string>, periods: seq<int>, cells: seq<seq<Cell>>)

  /** A table has one cell for every (line item, period) pair. */
  type Statement = g: Grid | |g.cells| == |g.items| &&
                             forall i :: 0 <= i < |g.cells| ==> |g.cells[i]| == |g.periods|
    witness Grid([], [], [])

  /** One flattened period: its year and every line item's value in it. */
  datatype Row = Row(year: int, fields: map<string, Cell>)

  /** No line item after position k (among the first n) carries the label at k,
      so the value at k is the one the row keeps for that label. */
  predicate LastOf(items: seq<string>, k: nat, n: nat)
    requires k < n <= |items|
  {
    forall k2 :: k < k2 < n ==> items[k2] != items[k]
  }

  /** The row dictionary after copying the first n line items of period j. */
  function Fields(t: Statement, j: nat, n: nat): map<string, Cell>
    requires j < |t.periods| && n <= |t.items|
  {
    if n == 0 then map[] else Fields(t, j, n - 1)[t.items[n - 1] := t.cells[n - 1][j]]
  }

  function RowAt(t: Statement, j: nat): Row
    requires j < |t.periods|
  {
    Row(t.periods[j], Fields(t, j, |t.items|))
  }

  /** The rows of a table, one per period, in column order. */
  function Rows(t: Statement): seq<Row>
  {
    seq(|t.periods|, j requires 0 <= j < |t.periods| => RowAt(t, j))
  }

  /** The rows for a provider answer: none when the fetch gave nothing. */
  function RowsFor(f: Option<Statement>): seq<Row>
  {
    match f
    case None => []
    case Some(t) => Rows(t)
  }

  /** After copying n line items, the row holds exactly the labels seen so far. */
  lemma {:induction false} FieldsKeys(t: Statement, j: nat, n: nat)
    requires j < |t.periods| && n <= |t.items|
    ensures forall x :: x in Fields(t, j, n) <==> x in t.items[..n]
  {
    if n > 0 {
      FieldsKeys(t, j, n - 1);
      assert t.items[..n] == t.items[..n - 1] + [t.items[n - 1]];
    }
  }

  /** After copying n line items, each label holds the value of its last occurrence. */
  lemma {:induction false} FieldsValues(t: Statement, j: nat, n: nat)
    requires j < |t.periods| && n <= |t.items|
    ensures forall k :: 0 <= k < n && LastOf(t.items, k, n) ==>
      t.items[k] in Fields(t, j, n) && Fields(t, j, n)[t.items[k]] == t.cells[k][j]
  {
    if n > 0 {
      FieldsValues(t, j, n - 1);
      forall k | 0 <= k < n - 1 && LastOf(t.items, k, n)
        ensures LastOf(t.items, k, n - 1) && t.items[k] != t.items[n - 1]
      {
      }
    }
  }

  /** The row builder's promise: one row per column, in column order; each row
      carries its column's year and every line item of the index, with that
      item's value in the column (the last one, should a label repeat). */
  lemma RowsShape(t: Statement)
    ensures |Rows(t)| == |t.periods|
    ensures forall j :: 0 <= j < |t.periods| ==> Rows(t)[j].year == t.periods[j]
    ensures forall j, x :: 0 <= j < |t.periods| ==> (x in Rows(t)[j].fields <==> x in t.items)
    ensures forall j, k :: 0 <= j < |t.periods| && 0 <= k < |t.items| && LastOf(t.items, k, |t.items|) ==>
      t.items[k] in Rows(t)[j].fields && Rows(t)[j].fields[t.items[k]] == t.cells[k][j]
  {
    forall j | 0 <= j < |t.periods|
      ensures forall x :: x in Rows(t)[j].fields <==> x in t.items
      ensures forall k :: 0 <= k < |t.items| && LastOf(t.items, k, |t.items|) ==>
        t.items[k] in Rows(t)[j].fields && Rows(t)[j].fields[t.items[k]] == t.cells[k][j]
    {
      FieldsKeys(t, j, |t.items|);
      FieldsValues(t, j, |t.items|);
      assert t.items[..|t.items|] == t.items;
    }
  }

  /** With distinct labels, as a statement has, each row maps every line item to its own cell. */
  lemma RowsDistinctItems(t: Statement, j: nat, k: nat)
    requires j < |t.periods| && k < |t.items|
    requires forall a, b :: 0 <= a < b < |t.items| ==> t.items[a] != t.items[b]
    ensures t.items[k] in Rows(t)[j].fields && Rows(t)[j].fields[t.items[k]] == t.cells[k][j]
  {
    FieldsValues(t, j, |t.items|);
  }

  /** The rows are empty exactly when the fetch failed or the table has no columns. */
  lemma RowsForEmpty(f: Option<Statement>)
    ensures RowsFor(f) == [] <==> f.None? || f.value.periods == []
  {
    if f.Some? {
      RowsShape(f.value);
    }
  }

  /** The nested loops of the row builder: for each column, a row dictionary
      filled item by item, then appended to the list. */
  method BuildRows(t: Statement) returns (data: seq<Row>)
    ensures data == Rows(t)
  {
    data := [];
    for j := 0 to |t.periods|
      invariant |data| == j
      invariant forall j' :: 0 <= j' < j ==> data[j'] == RowAt(t, j')
    {
      var row: map<string, Cell> := map[];
      for i := 0 to |t.items|
        invariant row == Fields(t, j, i)
      {
        row := row[t.items[i] := t.cells[i][j]];
      }
      data := data + [Row(t.periods[j], row)];
    }
  }
}
