/** The cash-flow loader: the shared statement row building over eight fixed
    metrics, stored in the `cash_flows` table, whose upsert statement is
    written out by hand rather than built from the metric list. */
module CashflowEtl {
  import opened Wrappers
  import opened Dicts
  import opened Upserts
  import opened StatementEtl

  /** The eight metrics of a row, in column order. */
  const MetricKeys: seq<string> := [
    "OperatingCashFlow", "FreeCashFlow", "InvestingCashFlow", "FinancingCashFlow",
    "CapitalExpenditure", "ChangesInCash", "DepreciationAndAmortization", "CashDividendsPaid"
  ]

  /** The column list of the INSERT. */
  const InsertColumns: seq<string> := [
    Quote("Ticker"), Quote("Statement_Type"), "fiscal_date",
    Quote("OperatingCashFlow"), Quote("FreeCashFlow"), Quote("InvestingCashFlow"), Quote("FinancingCashFlow"),
    Quote("CapitalExpenditure"), Quote("ChangesInCash"), Quote("DepreciationAndAmortization"), Quote("CashDividendsPaid"),
    "updated_date"
  ]

  /** The ON CONFLICT target. */
  const ConflictColumns: seq<string> := [Quote("Ticker"), Quote("Statement_Type"), "fiscal_date"]

  /** The columns the DO UPDATE SET clause assigns, in the order written. */
  const SetColumns: seq<string> := [
    Quote("OperatingCashFlow"), Quote("FreeCashFlow"), Quote("InvestingCashFlow"), Quote("FinancingCashFlow"),
    Quote("CapitalExpenditure"), Quote("ChangesInCash"), Quote("DepreciationAndAmortization"), Quote("CashDividendsPaid"),
    "updated_date"
  ]

  /** `fetch_cashflows_for_symbol`. */
  method FetchCashflowsForSymbol(sym: string, yearly: Fetch, quarterly: Fetch, today: string)
    returns (rows: seq<StatementRow>)
    ensures rows == SymbolRows(sym, yearly, quarterly, MetricKeys, today)
  {
    rows := FetchForSymbol(sym, yearly, quarterly, MetricKeys, today);
  }

  /** `refresh_cashflow_test`. */
  method RefreshCashflow(table: StatementTable, symbols: seq<string>, fetch: string -> (Fetch, Fetch), today: string, outcome: Outcome)
    returns (count: Option<nat>)
    modifies table
    ensures DistinctKeys(Deduplicated(AllRows(symbols, fetch, MetricKeys, today), KeyOf), KeyOf)
    ensures AllRows(symbols, fetch, MetricKeys, today) == [] ==> count == Some(0) && table.rows == old(table.rows)
    ensures AllRows(symbols, fetch, MetricKeys, today) != [] ==>
      table.rows == UpsertPages(old(table.rows), Deduplicated(AllRows(symbols, fetch, MetricKeys, today), KeyOf), KeyOf, outcome)
      && (count.None? <==> Interrupted(outcome, |Deduplicated(AllRows(symbols, fetch, MetricKeys, today), KeyOf)|))
      && (count.Some? ==> count.value == |AllRows(symbols, fetch, MetricKeys, today)|)
  {
    count := Refresh(table, symbols, fetch, MetricKeys, today, outcome);
  }

  /** The hand-written statement agrees with the rows: twelve columns, one per
      value of a row, the metric columns in the order the row fills them, and
      a SET clause that assigns exactly the columns outside the conflict
      target, in column order. */
  lemma CashflowColumns(sym: string, yearly: Fetch, quarterly: Fetch, today: string)
    ensures |InsertColumns| == 12
    ensures InsertColumns[3..11] == DataColumns(MetricKeys)
    ensures Updated(InsertColumns, ConflictColumns) == SetColumns
    ensures var rows := SymbolRows(sym, yearly, quarterly, MetricKeys, today);
      forall i :: 0 <= i < |rows| ==> |Cells(rows[i])| == |InsertColumns|
  {
    SymbolRowsShape(sym, yearly, quarterly, MetricKeys, today);
    MetricColumnsInOrder();
    SetClauseOutsideConflict();
  }

  lemma SetClauseOutsideConflict()
    ensures Updated(InsertColumns, ConflictColumns) == SetColumns
  {
    InsertIsConflictThenSet();
    UpdatedAppend(ConflictColumns, SetColumns, ConflictColumns);
    UpdatedSelf(ConflictColumns);
    SetColumnsOutsideConflict();
    UpdatedNone(SetColumns, ConflictColumns);
  }

  lemma InsertIsConflictThenSet()
    ensures InsertColumns == ConflictColumns + SetColumns
  {
  }

  lemma MetricColumnsInOrder()
    ensures InsertColumns[3..11] == DataColumns(MetricKeys)
  {
    var data := DataColumns(MetricKeys);
    forall i | 0 <= i < 8 ensures InsertColumns[3..11][i] == data[i] {
      assert data[i] == Quote(MetricKeys[i]);
    }
  }

  lemma SetColumnsOutsideConflict()
    ensures forall i :: 0 <= i < |SetColumns| ==> SetColumns[i] !in ConflictColumns
  {
    forall i | 0 <= i < |SetColumns| ensures SetColumns[i] !in ConflictColumns {
      if i < 8 {
        assert SetColumns[i] == Quote(MetricKeys[i]);
        assert MetricKeys[i] != "Ticker" && MetricKeys[i] != "Statement_Type";
        if SetColumns[i] == Quote("Ticker") { QuoteInjective(MetricKeys[i], "Ticker"); }
        if SetColumns[i] == Quote("Statement_Type") { QuoteInjective(MetricKeys[i], "Statement_Type"); }
        assert SetColumns[i][0] == '"';
      } else {
        assert SetColumns[i] == "updated_date";
        assert "updated_date"[0] == 'u';
      }
    }
  }
}
