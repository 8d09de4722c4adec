/** Row building, de-duplication and upsert shared by the three financial
    statement loaders (income statement, balance sheet, cash flow). Each one
    fetches, per ticker, the yearly frame and then the quarterly frame, and
    turns every date column of a frame into one row holding the chosen
    metrics in a fixed order. */
module StatementEtl {
  import opened Wrappers
  import opened Dicts
  import opened Upserts
  import opened Seqs

  /** A cell of a statement column as `to_dict()` gives it. */
  datatype Cell = Number(x: real) | NaN | Null

  /** `data.get(key)`. */
  function Lookup(data: map<string, Cell>, key: string): Option<Cell>
  {
    if key in data then Some(data[key]) else None
  }

  /** `data.get(key) or 0`: a missing key, a None cell and a zero all give 0;
      NaN is truthy in Python and is kept. */
  function OrZero(c: Option<Cell>): (r: Cell)
    ensures r == Number(0.0) <==> c.None? || c == Some(Null) || c == Some(Number(0.0))
    ensures r.NaN? <==> c == Some(NaN)
    ensures !r.Null?
    ensures c.Some? && c.value.Number? ==> r == c.value
  {
    match c
    case None => Number(0.0)
    case Some(Null) => Number(0.0)
    case Some(v) => v
  }

  /** One date column of a statement frame: its date, already written as
      `%Y-%m-%d`, and its metric cells. */
  datatype Column = Column(date: string, data: map<string, Cell>)

  /** What `get_income_stmt(freq=…)` and its siblings give: a frame with its
      date columns, nothing (None or an empty frame), or an exception. */
  datatype Fetch = Frame(columns: seq<Column>) | Empty | Raises

  const Annual: string := "Annual"
  const Quarterly: string := "Quarterly"

  datatype StatementRow = StatementRow(ticker: string, statementType: string, fiscalDate: string,
                                       metrics: seq<Cell>, updated: string)

  /** `(Ticker, Statement_Type, Fiscal_Date)`. */
  type PrimaryKey = (string, string, string)

  function KeyOf(r: StatementRow): PrimaryKey
  {
    (r.ticker, r.statementType, r.fiscalDate)
  }

  /** A value of the row tuple handed to `execute_values`. */
  datatype Value = Text(s: string) | Metric(c: Cell)

  /** The row as the flat tuple `(sym, period, date, *values, updated)`. */
  function Cells(r: StatementRow): seq<Value>
  {
    [Text(r.ticker), Text(r.statementType), Text(r.fiscalDate)]
    + seq(|r.metrics|, i requires 0 <= i < |r.metrics| => Metric(r.metrics[i]))
    + [Text(r.updated)]
  }

  /** `[data.get(key) or 0 for key in keys]`. */
  function Metrics(data: map<string, Cell>, keys: seq<string>): (vs: seq<Cell>)
    ensures |vs| == |keys|
    ensures forall i :: 0 <= i < |keys| ==> vs[i] == OrZero(Lookup(data, keys[i]))
  {
    seq(|keys|, i requires 0 <= i < |keys| => OrZero(Lookup(data, keys[i])))
  }

  /** The row of one date column. */
  function ColumnRow(sym: string, period: string, col: Column, keys: seq<string>, today: string): StatementRow
  {
    StatementRow(sym, period, col.date, Metrics(col.data, keys), today)
  }

  function FrameRows(sym: string, period: string, cols: seq<Column>, keys: seq<string>, today: string): (rows: seq<StatementRow>)
    ensures |rows| == |cols|
    ensures forall i :: 0 <= i < |cols| ==> rows[i] == ColumnRow(sym, period, cols[i], keys, today)
  {
    seq(|cols|, i requires 0 <= i < |cols| => ColumnRow(sym, period, cols[i], keys, today))
  }

  /** The rows of one fetch; a missing or empty frame is skipped. */
  function PeriodRows(sym: string, period: string, f: Fetch, keys: seq<string>, today: string): seq<StatementRow>
  {
    if f.Frame? then FrameRows(sym, period, f.columns, keys, today) else []
  }

  /** `[("yearly", "Annual"), ("quarterly", "Quarterly")]` with what each fetch gave. */
  function Periods(yearly: Fetch, quarterly: Fetch): seq<(string, Fetch)>
  {
    [(Annual, yearly), (Quarterly, quarterly)]
  }

  /** The rows of `periods` in order, up to the first fetch that raises: the
      exception leaves the loop and the rows gathered so far are returned. */
  function RowsUntilRaise(sym: string, periods: seq<(string, Fetch)>, keys: seq<string>, today: string): seq<StatementRow>
    decreases |periods|
  {
    if periods == [] || periods[0].1.Raises? then []
    else PeriodRows(sym, periods[0].0, periods[0].1, keys, today) + RowsUntilRaise(sym, periods[1..], keys, today)
  }

  /** The rows `fetch_*_for_symbol` returns for ticker `sym`. */
  function SymbolRows(sym: string, yearly: Fetch, quarterly: Fetch, keys: seq<string>, today: string): seq<StatementRow>
  {
    RowsUntilRaise(sym, Periods(yearly, quarterly), keys, today)
  }

  /** `fetch_*_for_symbol`; `yearly` and `quarterly` stand for what the two
      yfinance calls give, and `today` for the UTC date. */
  method FetchForSymbol(sym: string, yearly: Fetch, quarterly: Fetch, keys: seq<string>, today: string)
    returns (rows: seq<StatementRow>)
    ensures rows == SymbolRows(sym, yearly, quarterly, keys, today)
  {
    rows := [];
    var periods := Periods(yearly, quarterly);
    for k := 0 to |periods|
      invariant rows + RowsUntilRaise(sym, periods[k..], keys, today) == SymbolRows(sym, yearly, quarterly, keys, today)
    {
      var (period, fetched) := periods[k];
      RowsUntilRaiseStep(sym, periods, k, keys, today);
      AppendEmpty(rows);
      if fetched.Raises? {
        return;
      }
      if fetched.Empty? {
        AppendEmpty(RowsUntilRaise(sym, periods[k + 1..], keys, today));
        continue;
      }
      ghost var before := rows;
      rows := AppendFrameRows(rows, sym, period, fetched.columns, keys, today);
      Assoc(before, FrameRows(sym, period, fetched.columns, keys, today), RowsUntilRaise(sym, periods[k + 1..], keys, today));
    }
    AppendEmpty(rows);
  }

  /** The rows of `periods` from `k` on: none when the fetch at `k` raises,
      otherwise that fetch's rows followed by the rest. */
  lemma RowsUntilRaiseStep(sym: string, periods: seq<(string, Fetch)>, k: nat, keys: seq<string>, today: string)
    requires k < |periods|
    ensures RowsUntilRaise(sym, periods[k..], keys, today)
      == if periods[k].1.Raises? then []
         else PeriodRows(sym, periods[k].0, periods[k].1, keys, today) + RowsUntilRaise(sym, periods[k + 1..], keys, today)
  {
    DropOne(periods, k);
  }

  /** The inner loop: one row per date column, appended in column order. */
  method AppendFrameRows(before: seq<StatementRow>, sym: string, period: string, columns: seq<Column>,
                         keys: seq<string>, today: string) returns (rows: seq<StatementRow>)
    ensures rows == before + FrameRows(sym, period, columns, keys, today)
  {
    rows := before;
    for j := 0 to |columns|
      invariant rows == before + FrameRows(sym, period, columns[..j], keys, today)
    {
      FrameRowsSnoc(sym, period, columns, j, keys, today);
      rows := rows + [ColumnRow(sym, period, columns[j], keys, today)];
    }
    assert columns[..|columns|] == columns;
  }

  /** One more date column adds its row at the end. */
  lemma FrameRowsSnoc(sym: string, period: string, cols: seq<Column>, j: nat, keys: seq<string>, today: string)
    requires j < |cols|
    ensures FrameRows(sym, period, cols[..j + 1], keys, today)
      == FrameRows(sym, period, cols[..j], keys, today) + [ColumnRow(sym, period, cols[j], keys, today)]
  {
    var long := FrameRows(sym, period, cols[..j + 1], keys, today);
    var short := FrameRows(sym, period, cols[..j], keys, today);
    assert forall i :: 0 <= i < j ==> long[i] == short[i];
  }

  /** The two fetches in order: the yearly rows, then, unless the yearly
      fetch raised, the quarterly ones; a raising fetch contributes none. */
  lemma SymbolRowsUnfold(sym: string, yearly: Fetch, quarterly: Fetch, keys: seq<string>, today: string)
    ensures SymbolRows(sym, yearly, quarterly, keys, today)
      == if yearly.Raises? then []
         else if quarterly.Raises? then PeriodRows(sym, Annual, yearly, keys, today)
         else PeriodRows(sym, Annual, yearly, keys, today) + PeriodRows(sym, Quarterly, quarterly, keys, today)
  {
    var periods := Periods(yearly, quarterly);
    var q := PeriodRows(sym, Quarterly, quarterly, keys, today);
    assert periods[0] == (Annual, yearly);
    assert periods[1..] == [(Quarterly, quarterly)];
    assert periods[1..][1..] == [];
    assert RowsUntilRaise(sym, periods[1..], keys, today) == if quarterly.Raises? then [] else q + [];
    assert q + [] == q;
  }

  /** Every row belongs to `sym`, carries `today`, is labelled Annual or
      Quarterly, and has 3 + |keys| + 1 values; all Annual rows come before
      all Quarterly rows. */
  lemma SymbolRowsShape(sym: string, yearly: Fetch, quarterly: Fetch, keys: seq<string>, today: string)
    ensures var rows := SymbolRows(sym, yearly, quarterly, keys, today);
      forall i :: 0 <= i < |rows| ==>
        rows[i].ticker == sym && rows[i].updated == today && |Cells(rows[i])| == 3 + |keys| + 1
        && (rows[i].statementType == Annual || rows[i].statementType == Quarterly)
    ensures var rows := SymbolRows(sym, yearly, quarterly, keys, today);
      forall i, j :: 0 <= i < j < |rows| && rows[j].statementType == Annual ==> rows[i].statementType == Annual
  {
    SymbolRowsUnfold(sym, yearly, quarterly, keys, today);
    var a := PeriodRows(sym, Annual, yearly, keys, today);
    var q := PeriodRows(sym, Quarterly, quarterly, keys, today);
    var rows := SymbolRows(sym, yearly, quarterly, keys, today);
    assert forall i :: 0 <= i < |a| ==> a[i].statementType == Annual;
    assert forall i :: 0 <= i < |q| ==> q[i].statementType == Quarterly;
    forall i | 0 <= i < |rows|
      ensures |Cells(rows[i])| == 3 + |keys| + 1
    {
      assert |rows[i].metrics| == |keys|;
    }
  }

  /** The rows are the columns of the yearly frame, in order, and then, unless
      the yearly fetch raised, those of the quarterly frame; a fetch that
      raises ends the ticker with the rows gathered so far. */
  lemma SymbolRowsContent(sym: string, yearly: Fetch, quarterly: Fetch, keys: seq<string>, today: string)
    ensures var rows := SymbolRows(sym, yearly, quarterly, keys, today);
      var a := if yearly.Frame? then |yearly.columns| else 0;
      var q := if quarterly.Frame? && !yearly.Raises? then |quarterly.columns| else 0;
      |rows| == a + q
      && (forall j :: 0 <= j < a ==> rows[j] == ColumnRow(sym, Annual, yearly.columns[j], keys, today))
      && (forall j :: 0 <= j < q ==> rows[a + j] == ColumnRow(sym, Quarterly, quarterly.columns[j], keys, today))
  {
    SymbolRowsUnfold(sym, yearly, quarterly, keys, today);
    if !yearly.Raises? {
      if quarterly.Raises? {
        AnnualOnlyContent(sym, yearly, quarterly, keys, today);
      } else {
        BothPeriodsContent(sym, yearly, quarterly, keys, today);
      }
    }
  }

  /** When only the quarterly fetch raises, the rows are the yearly ones. */
  lemma AnnualOnlyContent(sym: string, yearly: Fetch, quarterly: Fetch, keys: seq<string>, today: string)
    requires !yearly.Raises? && quarterly.Raises?
    ensures var rows := SymbolRows(sym, yearly, quarterly, keys, today);
      var a := if yearly.Frame? then |yearly.columns| else 0;
      |rows| == a && forall j :: 0 <= j < a ==> rows[j] == ColumnRow(sym, Annual, yearly.columns[j], keys, today)
  {
    SymbolRowsUnfold(sym, yearly, quarterly, keys, today);
    PeriodRowsContent(sym, Annual, yearly, keys, today);
  }

  /** With neither fetch raising, the yearly rows come first and the
      quarterly rows follow them. */
  lemma BothPeriodsContent(sym: string, yearly: Fetch, quarterly: Fetch, keys: seq<string>, today: string)
    requires !yearly.Raises? && !quarterly.Raises?
    ensures var rows := SymbolRows(sym, yearly, quarterly, keys, today);
      var a := if yearly.Frame? then |yearly.columns| else 0;
      var q := if quarterly.Frame? then |quarterly.columns| else 0;
      |rows| == a + q
      && (forall j :: 0 <= j < a ==> rows[j] == ColumnRow(sym, Annual, yearly.columns[j], keys, today))
      && (forall j :: 0 <= j < q ==> rows[a + j] == ColumnRow(sym, Quarterly, quarterly.columns[j], keys, today))
  {
    PeriodRowsContent(sym, Annual, yearly, keys, today);
    PeriodRowsContent(sym, Quarterly, quarterly, keys, today);
    BothPeriods(sym, yearly, quarterly, keys, today);
  }

  /** The rows of two successful fetches, one after the other. */
  lemma BothPeriods(sym: string, yearly: Fetch, quarterly: Fetch, keys: seq<string>, today: string)
    requires !yearly.Raises? && !quarterly.Raises?
    ensures var rows := SymbolRows(sym, yearly, quarterly, keys, today);
      var a := PeriodRows(sym, Annual, yearly, keys, today);
      var q := PeriodRows(sym, Quarterly, quarterly, keys, today);
      |rows| == |a| + |q|
      && (forall j :: 0 <= j < |a| ==> rows[j] == a[j])
      && (forall j :: 0 <= j < |q| ==> rows[|a| + j] == q[j])
  {
    SymbolRowsUnfold(sym, yearly, quarterly, keys, today);
    ConcatIndex(PeriodRows(sym, Annual, yearly, keys, today), PeriodRows(sym, Quarterly, quarterly, keys, today));
  }

  /** A frame gives one row per date column, in order; anything else none. */
  lemma PeriodRowsContent(sym: string, period: string, f: Fetch, keys: seq<string>, today: string)
    ensures var rows := PeriodRows(sym, period, f, keys, today);
      |rows| == (if f.Frame? then |f.columns| else 0)
      && forall j :: 0 <= j < |rows| ==> rows[j] == ColumnRow(sym, period, f.columns[j], keys, today)
  {
  }

  // ---------------------------------------------------------------------
  // Column lists of the upsert

  function Quote(name: string): string
  {
    "\"" + name + "\""
  }

  /** Quoting loses nothing: the name is the text between the quotes. */
  lemma QuoteInjective(a: string, b: string)
    requires Quote(a) == Quote(b)
    ensures a == b
  {
    assert Quote(a)[1..|Quote(a)| - 1] == a;
    assert Quote(b)[1..|Quote(b)| - 1] == b;
  }

  lemma QuoteNotKey(name: string)
    requires name != "Ticker" && name != "Statement_Type" && name != "Fiscal_Date"
    ensures Quote(name) !in PkColumns
  {
    if Quote(name) == Quote("Ticker") { QuoteInjective(name, "Ticker"); }
    if Quote(name) == Quote("Statement_Type") { QuoteInjective(name, "Statement_Type"); }
    if Quote(name) == Quote("Fiscal_Date") { QuoteInjective(name, "Fiscal_Date"); }
  }

  /** `pk_cols`. */
  const PkColumns: seq<string> := [Quote("Ticker"), Quote("Statement_Type"), Quote("Fiscal_Date")]

  /** `data_cols`. */
  function DataColumns(keys: seq<string>): (cols: seq<string>)
    ensures |cols| == |keys|
    ensures forall i :: 0 <= i < |keys| ==> cols[i] == Quote(keys[i])
  {
    seq(|keys|, i requires 0 <= i < |keys| => Quote(keys[i]))
  }

  /** `all_cols`. */
  function AllColumns(keys: seq<string>): seq<string>
  {
    PkColumns + DataColumns(keys) + [Quote("Updated_Date")]
  }

  /** The columns `col not in pk`, in order: those the conflict update sets. */
  function Updated(cols: seq<string>, pk: seq<string>): (r: seq<string>)
    ensures |r| <= |cols|
    ensures forall c :: c in r <==> c in cols && c !in pk
  {
    if cols == [] then []
    else (if cols[0] in pk then [] else [cols[0]]) + Updated(cols[1..], pk)
  }

  lemma {:induction false} UpdatedAppend(a: seq<string>, b: seq<string>, pk: seq<string>)
    ensures Updated(a + b, pk) == Updated(a, pk) + Updated(b, pk)
  {
    if a == [] {
      assert a + b == b;
    } else {
      assert (a + b)[0] == a[0];
      assert (a + b)[1..] == a[1..] + b;
      UpdatedAppend(a[1..], b, pk);
    }
  }

  lemma {:induction false} UpdatedNone(cols: seq<string>, pk: seq<string>)
    requires forall i :: 0 <= i < |cols| ==> cols[i] !in pk
    ensures Updated(cols, pk) == cols
  {
    if cols != [] {
      UpdatedNone(cols[1..], pk);
    }
  }

  /** No column of the key is updated. */
  lemma UpdatedSelf(pk: seq<string>)
    ensures Updated(pk, pk) == []
  {
    HeadMember(Updated(pk, pk));
  }

  /** `f"{col} = EXCLUDED.{col}"`. */
  function Assignment(col: string): string
  {
    col + " = EXCLUDED." + col
  }

  lemma KeyColumnsNotUpdated()
    ensures Updated(PkColumns, PkColumns) == []
  {
    UpdatedSelf(PkColumns);
  }

  /** No metric is named like a key column. */
  ghost predicate NoKeyName(keys: seq<string>)
  {
    forall i :: 0 <= i < |keys| ==> keys[i] != "Ticker" && keys[i] != "Statement_Type" && keys[i] != "Fiscal_Date"
  }

  lemma NoKeyNameAppend(a: seq<string>, b: seq<string>)
    requires NoKeyName(a) && NoKeyName(b)
    ensures NoKeyName(a + b)
  {
    forall i | 0 <= i < |a + b| ensures (a + b)[i] != "Ticker" && (a + b)[i] != "Statement_Type" && (a + b)[i] != "Fiscal_Date" {
      if i >= |a| {
        assert (a + b)[i] == b[i - |a|];
      }
    }
  }

  lemma MetricColumnsNotKey(keys: seq<string>)
    requires NoKeyName(keys)
    ensures Updated(DataColumns(keys) + [Quote("Updated_Date")], PkColumns) == DataColumns(keys) + [Quote("Updated_Date")]
  {
    var cols := DataColumns(keys) + [Quote("Updated_Date")];
    forall i | 0 <= i < |cols| ensures cols[i] !in PkColumns {
      if i < |keys| {
        QuoteNotKey(keys[i]);
      } else {
        QuoteNotKey("Updated_Date");
      }
    }
    UpdatedNone(cols, PkColumns);
  }

  /** When no metric is named like a key column, the update assigns exactly
      the metric columns and `"Updated_Date"`, in column order; there is one
      column per value of a row. */
  lemma AssignmentsCoverNonKey(keys: seq<string>)
    requires NoKeyName(keys)
    ensures Updated(AllColumns(keys), PkColumns) == DataColumns(keys) + [Quote("Updated_Date")]
    ensures |AllColumns(keys)| == 3 + |keys| + 1
  {
    var rest := DataColumns(keys) + [Quote("Updated_Date")];
    MetricColumnsNotKey(keys);
    UpdatedAfterKey(PkColumns, rest);
    Assoc(PkColumns, DataColumns(keys), [Quote("Updated_Date")]);
  }

  /** Columns that are not key columns are all updated, even after the key
      columns themselves. */
  lemma UpdatedAfterKey(pk: seq<string>, rest: seq<string>)
    requires Updated(rest, pk) == rest
    ensures Updated(pk + rest, pk) == rest
  {
    UpdatedAppend(pk, rest, pk);
    UpdatedSelf(pk);
    AppendEmpty(rest);
  }

  // ---------------------------------------------------------------------
  // De-duplication, upsert and the refresh count

  /** The de-duplication loop of `insert_*`: `unique[pk] = row` for every row,
      then `list(unique.values())`. */
  method DedupRows(rows: seq<StatementRow>) returns (deduped: seq<StatementRow>)
    ensures deduped == Deduplicated(rows, KeyOf)
  {
    var unique: Dict<PrimaryKey, StatementRow> := Dict([], map[]);
    for i := 0 to |rows|
      invariant unique == FromPairs(Keyed(rows[..i], KeyOf))
    {
      assert Keyed(rows[..i + 1], KeyOf)[..i] == Keyed(rows[..i], KeyOf);
      unique := unique.Put(KeyOf(rows[i]), rows[i]);
    }
    assert rows[..|rows|] == rows;
    deduped := unique.Values();
  }

  /** A statement table, keyed by `(Ticker, Statement_Type, Fiscal_Date)`. */
  class StatementTable {
    var rows: map<PrimaryKey, StatementRow>

    constructor ()
      ensures rows == map[]
    {
      rows := map[];
    }

    /** `insert_*`: de-duplicate the batch, then upsert it page by page on
        a connection in autocommit mode; `outcome` says whether a page's
        statement fails. The pages before a failing one stay stored, and
        `raised` reports the exception, which nothing here catches. */
    method Insert(batch: seq<StatementRow>, outcome: Outcome) returns (raised: bool)
      modifies this
      ensures DistinctKeys(Deduplicated(batch, KeyOf), KeyOf)
      ensures raised <==> Interrupted(outcome, |Deduplicated(batch, KeyOf)|)
      ensures rows == UpsertPages(old(rows), Deduplicated(batch, KeyOf), KeyOf, outcome)
    {
      var deduped := DedupRows(batch);
      DeduplicatedProperties(batch, KeyOf);
      raised := Interrupted(outcome, |deduped|);
      rows := UpsertPages(rows, deduped, KeyOf, outcome);
    }
  }

  /** The rows of every ticker, one ticker after the other. */
  function AllRows(symbols: seq<string>, fetch: string -> (Fetch, Fetch), keys: seq<string>, today: string): seq<StatementRow>
  {
    if symbols == [] then []
    else
      var n := |symbols| - 1;
      AllRows(symbols[..n], fetch, keys, today) + SymbolRows(symbols[n], fetch(symbols[n]).0, fetch(symbols[n]).1, keys, today)
  }

  /** `get_*`: fetch every ticker and extend the list with its rows;
      `fetch(s)` stands for what the yearly and quarterly calls give for `s`,
      and `symbols` lists the tickers in the order their fetches finish
      (`as_completed`). */
  method Gather(symbols: seq<string>, fetch: string -> (Fetch, Fetch), keys: seq<string>, today: string)
    returns (all: seq<StatementRow>)
    ensures all == AllRows(symbols, fetch, keys, today)
  {
    all := [];
    for i := 0 to |symbols|
      invariant all == AllRows(symbols[..i], fetch, keys, today)
    {
      var result := FetchForSymbol(symbols[i], fetch(symbols[i]).0, fetch(symbols[i]).1, keys, today);
      assert symbols[..i + 1][..i] == symbols[..i];
      if result != [] {
        all := all + result;
      }
    }
    assert symbols[..|symbols|] == symbols;
  }

  /** `refresh_*_test`: 0 when nothing was fetched; otherwise the insert runs
      and the count is that of the rows before de-duplication. When a page of
      the insert fails the exception propagates, no count is returned (None),
      and the pages sent before it stay stored. */
  method Refresh(table: StatementTable, symbols: seq<string>, fetch: string -> (Fetch, Fetch), keys: seq<string>, today: string, outcome: Outcome)
    returns (count: Option<nat>)
    modifies table
    ensures DistinctKeys(Deduplicated(AllRows(symbols, fetch, keys, today), KeyOf), KeyOf)
    ensures AllRows(symbols, fetch, keys, today) == [] ==> count == Some(0) && table.rows == old(table.rows)
    ensures AllRows(symbols, fetch, keys, today) != [] ==>
      table.rows == UpsertPages(old(table.rows), Deduplicated(AllRows(symbols, fetch, keys, today), KeyOf), KeyOf, outcome)
      && (count.None? <==> Interrupted(outcome, |Deduplicated(AllRows(symbols, fetch, keys, today), KeyOf)|))
      && (count.Some? ==> count.value == |AllRows(symbols, fetch, keys, today)|)
  {
    var rows := Gather(symbols, fetch, keys, today);
    DeduplicatedProperties(rows, KeyOf);
    if rows == [] {
      return Some(0);
    }
    var raised := table.Insert(rows, outcome);
    if raised {
      return None;
    }
    count := Some(|rows|);
  }

  /** After a refresh in which no page fails, the table holds, for every
      fetched row that is the last with its key, that row; the count is never
      below the number of rows actually written. */
  lemma RefreshStoresLast(t: map<PrimaryKey, StatementRow>, rows: seq<StatementRow>)
    ensures |Deduplicated(rows, KeyOf)| <= |rows|
    ensures DistinctKeys(Deduplicated(rows, KeyOf), KeyOf)
    ensures var r := Upsert(t, Deduplicated(rows, KeyOf), KeyOf);
      forall i :: 0 <= i < |rows| && LastOfKey(rows, KeyOf, i) ==> KeyOf(rows[i]) in r && r[KeyOf(rows[i])] == rows[i]
  {
    DeduplicatedProperties(rows, KeyOf);
    UpsertDeduplicated(t, rows, KeyOf);
  }
}
