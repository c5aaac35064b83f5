/**
 * The holdings table and its cleaning step, shared by both ingestion scripts:
 * coerce the numeric columns, then drop rows that miss a key field.
 */
module Holdings {
  import opened Normalizer
  import opened Permutations

  /** The columns the scripts read; other columns of the files are never consulted. */
  datatype Column =
    | Ticker | Shares | MarketCurrency | AssetClass
    | MarketValue | WeightPercent | NotionalValue | Price

  function ColumnName(c: Column): string {
    match c
    case Ticker => "Ticker"
    case Shares => "Shares"
    case MarketCurrency => "Market Currency"
    case AssetClass => "Asset Class"
    case MarketValue => "Market Value"
    case WeightPercent => "Weight (%)"
    case NotionalValue => "Notional Value"
    case Price => "Price"
  }

  /** One row: the cells of the columns the table has (an absent key is an absent column). */
  type Row = map<Column, Value>

  datatype Table = Table(columns: set<Column>, rows: seq<Row>)

  /** `row.get(column, default)`. */
  function Lookup(row: Row, c: Column, default: Value): Value {
    if c in row then row[c] else default
  }

  /** The columns run through the normaliser, in the order the scripts clean them. */
  const NumericColumns: seq<Column> := [MarketValue, WeightPercent, NotionalValue, Shares, Price]

  /** The columns whose null makes a row unusable. */
  const KeyColumns: set<Column> := {Ticker, Shares, MarketCurrency, AssetClass}

  /** A column whose name contains `%` also has `%` stripped from its text. */
  predicate IsPercentColumn(c: Column) {
    '%' in ColumnName(c)
  }

  /** Column assignment `df[c] = f(df[c])`: every row that has the column gets `f` of its cell. */
  function MapColumn(rows: seq<Row>, c: Column, f: Value -> Value): (r: seq<Row>)
    ensures |r| == |rows|
    ensures forall i :: 0 <= i < |r| ==> r[i].Keys == rows[i].Keys
    ensures forall i :: 0 <= i < |r| && c in rows[i] ==> r[i][c] == f(rows[i][c])
    ensures forall i, d :: 0 <= i < |r| && d in rows[i] && d != c ==> r[i][d] == rows[i][d]
  {
    seq(|rows|, i requires 0 <= i < |rows| => if c in rows[i] then rows[i][c := f(rows[i][c])] else rows[i])
  }

  /** The cell cleaning applied to column `c`. */
  function NormalizeCell(c: Column): Value -> Value {
    v => Normalize(v, IsPercentColumn(c))
  }

  function NormalizeColumn(rows: seq<Row>, c: Column): seq<Row> {
    MapColumn(rows, c, NormalizeCell(c))
  }

  /** The cleaning loop over `cols`, applied to the columns the table has, in order. */
  function NormalizeColumns(rows: seq<Row>, cols: seq<Column>, present: set<Column>): seq<Row> {
    if cols == [] then rows
    else
      var prev := NormalizeColumns(rows, cols[..|cols| - 1], present);
      var c := cols[|cols| - 1];
      if c in present then NormalizeColumn(prev, c) else prev
  }

  /** `dropna(subset=...)` keeps a row only when it has every cell of `subset` non-null. */
  predicate Complete(row: Row, subset: set<Column>) {
    forall c :: c in subset ==> c in row && !row[c].Null?
  }

  /** The rows of `rows` that are complete on `subset`, in their order. */
  function KeepComplete(rows: seq<Row>, subset: set<Column>): (r: seq<Row>)
    ensures |r| <= |rows|
    ensures forall x :: x in r ==> x in rows && Complete(x, subset)
    ensures forall x :: x in rows && Complete(x, subset) ==> x in r
  {
    if rows == [] then []
    else
      assert forall x :: x in rows ==> x == rows[0] || x in rows[1..];
      (if Complete(rows[0], subset) then [rows[0]] else []) + KeepComplete(rows[1..], subset)
  }

  /**
   * The cleaned rows: normalise the numeric columns, drop rows with a null key
   * field, coerce Shares once more and drop rows whose Shares is null.
   */
  function CleanRows(t: Table): seq<Row> {
    var normalized := NormalizeColumns(t.rows, NumericColumns, t.columns);
    var complete := KeepComplete(normalized, KeyColumns);
    KeepComplete(MapColumn(complete, Shares, ToNumeric), {Shares})
  }

  /** The row invariant after cleaning. */
  predicate IsClean(row: Row) {
    Complete(row, KeyColumns) && Shares in row && row[Shares].Num?
  }

  /** After normalisation, a normalised column holds no text in any row. */
  lemma {:induction false} NormalizedHasNoText(rows: seq<Row>, cols: seq<Column>, present: set<Column>, c: Column)
    requires c in cols && c in present
    ensures forall x: Row :: x in NormalizeColumns(rows, cols, present) && c in x ==> !x[c].Str?
  {
    var prev := NormalizeColumns(rows, cols[..|cols| - 1], present);
    var last := cols[|cols| - 1];
    var r := NormalizeColumns(rows, cols, present);
    if last == c {
      forall x: Row | x in r && c in x
        ensures !x[c].Str?
      {
        var i :| 0 <= i < |r| && r[i] == x;
      }
    } else {
      assert c in cols[..|cols| - 1] by {
        var k :| 0 <= k < |cols| && cols[k] == c;
        assert cols[..|cols| - 1][k] == c;
      }
      NormalizedHasNoText(rows, cols[..|cols| - 1], present, c);
      if last in present {
        forall x: Row | x in r && c in x
          ensures !x[c].Str?
        {
          var i :| 0 <= i < |r| && r[i] == x;
          assert prev[i] in prev;
        }
      }
    }
  }

  /**
   * Cleaning keeps exactly the rows that, once normalised, have non-null
   * Ticker, Shares, Market Currency and Asset Class and numeric Shares.
   */
  lemma CleanRowsExactly(t: Table)
    requires KeyColumns <= t.columns
    ensures forall x :: x in CleanRows(t) <==> x in NormalizeColumns(t.rows, NumericColumns, t.columns) && IsClean(x)
  {
    var normalized := NormalizeColumns(t.rows, NumericColumns, t.columns);
    var complete := KeepComplete(normalized, KeyColumns);
    var coerced := MapColumn(complete, Shares, ToNumeric);
    assert Shares in NumericColumns by {
      assert NumericColumns[3] == Shares;
    }
    NormalizedHasNoText(t.rows, NumericColumns, t.columns, Shares);
    forall i | 0 <= i < |complete|
      ensures coerced[i] == complete[i]
    {
      assert complete[i] in complete;
      assert Shares in complete[i];
      assert complete[i][Shares].Num?;
      assert coerced[i] == complete[i][Shares := complete[i][Shares]];
    }
    assert coerced == complete;
  }

  /** Every row that survives cleaning satisfies the row invariant. */
  lemma CleanRowsAreClean(t: Table)
    requires KeyColumns <= t.columns
    ensures forall x :: x in CleanRows(t) ==> IsClean(x)
  {
    CleanRowsExactly(t);
  }

  /** Column assignment acts row by row. */
  lemma MapColumnAppend(a: seq<Row>, b: seq<Row>, c: Column, f: Value -> Value)
    ensures MapColumn(a + b, c, f) == MapColumn(a, c, f) + MapColumn(b, c, f)
  {
  }

  /** Column assignment on a reordering of the rows gives a reordering of the result. */
  lemma {:induction false} MapColumnReorder(a: seq<Row>, b: seq<Row>, c: Column, f: Value -> Value)
    requires multiset(a) == multiset(b)
    ensures multiset(MapColumn(a, c, f)) == multiset(MapColumn(b, c, f))
    decreases |a|
  {
    if a == [] {
      EmptyReorder(a, b);
    } else {
      var x, init := a[|a| - 1], a[..|a| - 1];
      assert a == init + [x];
      var front, back := TakeOut(a, b);
      MapColumnReorder(init, front + back, c, f);
      MapColumnAppend(front + [x], back, c, f);
      MapColumnAppend(front, [x], c, f);
      MapColumnAppend(front, back, c, f);
      MapColumnAppend(init, [x], c, f);
    }
  }

  /** `dropna` acts row by row. */
  lemma {:induction false} KeepCompleteAppend(a: seq<Row>, b: seq<Row>, subset: set<Column>)
    ensures KeepComplete(a + b, subset) == KeepComplete(a, subset) + KeepComplete(b, subset)
    decreases |a|
  {
    if a == [] {
      assert a + b == b;
    } else {
      assert (a + b)[0] == a[0];
      assert (a + b)[1..] == a[1..] + b;
      KeepCompleteAppend(a[1..], b, subset);
    }
  }

  /** `dropna` on a reordering of the rows keeps a reordering of the same rows. */
  lemma {:induction false} KeepCompleteReorder(a: seq<Row>, b: seq<Row>, subset: set<Column>)
    requires multiset(a) == multiset(b)
    ensures multiset(KeepComplete(a, subset)) == multiset(KeepComplete(b, subset))
    decreases |a|
  {
    if a == [] {
      EmptyReorder(a, b);
    } else {
      var x, init := a[|a| - 1], a[..|a| - 1];
      assert a == init + [x];
      var front, back := TakeOut(a, b);
      KeepCompleteReorder(init, front + back, subset);
      KeepCompleteAppend(front + [x], back, subset);
      KeepCompleteAppend(front, [x], subset);
      KeepCompleteAppend(front, back, subset);
      KeepCompleteAppend(init, [x], subset);
      assert [x][1..] == [];
    }
  }

  /** Normalising the numeric columns of reordered rows gives reordered rows. */
  lemma {:induction false} NormalizeColumnsReorder(a: seq<Row>, b: seq<Row>, cols: seq<Column>, present: set<Column>)
    requires multiset(a) == multiset(b)
    ensures multiset(NormalizeColumns(a, cols, present)) == multiset(NormalizeColumns(b, cols, present))
    decreases |cols|
  {
    if cols != [] {
      var init, c := cols[..|cols| - 1], cols[|cols| - 1];
      NormalizeColumnsReorder(a, b, init, present);
      if c in present {
        MapColumnReorder(NormalizeColumns(a, init, present), NormalizeColumns(b, init, present), c, NormalizeCell(c));
      }
    }
  }

  /**
   * Cleaning does not depend on the order of the rows: reordering the input
   * reorders the cleaned rows and keeps every one of them.
   */
  lemma CleanRowsReorder(t: Table, u: Table)
    requires t.columns == u.columns && multiset(t.rows) == multiset(u.rows)
    ensures multiset(CleanRows(t)) == multiset(CleanRows(u))
  {
    var nt, nu := NormalizeColumns(t.rows, NumericColumns, t.columns), NormalizeColumns(u.rows, NumericColumns, u.columns);
    NormalizeColumnsReorder(t.rows, u.rows, NumericColumns, t.columns);
    KeepCompleteReorder(nt, nu, KeyColumns);
    var ct, cu := KeepComplete(nt, KeyColumns), KeepComplete(nu, KeyColumns);
    MapColumnReorder(ct, cu, Shares, ToNumeric);
    KeepCompleteReorder(MapColumn(ct, Shares, ToNumeric), MapColumn(cu, Shares, ToNumeric), {Shares});
  }

  /**
   * The holdings data frame the scripts clean in place (`holdings_df`): its
   * columns and its rows, reassigned column by column and filtered by `dropna`.
   */
  class HoldingsFrame {
    var columns: set<Column>
    var rows: seq<Row>

    constructor (t: Table)
      ensures columns == t.columns && rows == t.rows
    {
      columns := t.columns;
      rows := t.rows;
    }

    /** One pass of the cleaning loop: strip and coerce column `c` if the frame has it. */
    method NormalizeNumericColumn(c: Column)
      modifies this
      ensures columns == old(columns)
      ensures rows == if c in columns then NormalizeColumn(old(rows), c) else old(rows)
    {
      if c in columns {
        rows := NormalizeColumn(rows, c);
      }
    }

    /** `df[c] = pd.to_numeric(df[c], errors='coerce')` on a column the frame has. */
    method CoerceColumn(c: Column)
      requires c in columns
      modifies this
      ensures columns == old(columns)
      ensures rows == MapColumn(old(rows), c, ToNumeric)
    {
      rows := MapColumn(rows, c, ToNumeric);
    }

    /** `dropna(subset=..., inplace=True)`; a subset column the frame lacks is a KeyError (`ok` false, nothing changes). */
    method DropIncomplete(subset: set<Column>) returns (ok: bool)
      modifies this
      ensures columns == old(columns)
      ensures ok == (subset <= columns)
      ensures rows == if ok then KeepComplete(old(rows), subset) else old(rows)
    {
      ok := subset <= columns;
      if ok {
        rows := KeepComplete(rows, subset);
      }
    }

    /**
     * The cleaning step. It fails (the scripts' fatal error) exactly when a key
     * column is missing; otherwise the rows become the cleaned rows.
     */
    method Clean() returns (ok: bool)
      modifies this
      ensures columns == old(columns)
      ensures ok <==> KeyColumns <= columns
      ensures ok ==> rows == CleanRows(Table(old(columns), old(rows)))
      ensures ok ==> forall x :: x in rows ==> IsClean(x)
    {
      ghost var t := Table(columns, rows);
      for i := 0 to |NumericColumns|
        invariant columns == t.columns
        invariant rows == NormalizeColumns(t.rows, NumericColumns[..i], columns)
      {
        assert NumericColumns[..i + 1][..i] == NumericColumns[..i];
        NormalizeNumericColumn(NumericColumns[i]);
      }
      assert NumericColumns[..|NumericColumns|] == NumericColumns;
      ok := DropIncomplete(KeyColumns);
      if !ok {
        return;
      }
      CoerceColumn(Shares);
      var sharesPresent := DropIncomplete({Shares});
      assert sharesPresent;
      CleanRowsAreClean(t);
    }
  }
}
