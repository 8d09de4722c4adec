/** The balance-sheet loader: the shared statement row building with its own
    metric list, stored in the `balance_sheets` table. */
module BalanceEtl {
  import opened Wrappers
  import opened Dicts
  import opened Upserts
  import opened StatementEtl

  /** `METRIC_KEYS`: the 40 metrics of a row, in column order, written here
      in four runs of 10. */
  const MetricKeys: seq<string> := MetricKeys1 + MetricKeys2 + MetricKeys3 + MetricKeys4

  const MetricKeys1: seq<string> := [
    "OrdinarySharesNumber", "ShareIssued", "TangibleBookValue", "InvestedCapital",
    "WorkingCapital", "NetTangibleAssets", "CommonStockEquity", "TotalCapitalization",
    "TotalEquityGrossMinorityInterest", "StockholdersEquity"
  ]

  const MetricKeys2: seq<string> := [
    "RetainedEarnings", "CapitalStock", "CommonStock", "TotalLiabilitiesNetMinorityInterest",
    "TotalNonCurrentLiabilitiesNetMinorityInterest", "CurrentLiabilities", "Payables",
    "TotalAssets", "TotalNonCurrentAssets", "GoodwillAndOtherIntangibleAssets"
  ]

  const MetricKeys3: seq<string> := [
    "NetPPE", "CurrentAssets", "OtherCurrentAssets", "CashCashEquivalentsAndShortTermInvestments",
    "CashAndCashEquivalents", "TotalDebt", "CapitalLeaseObligations",
    "LongTermDebtAndCapitalLeaseObligation", "LongTermCapitalLeaseObligation",
    "CurrentDebtAndCapitalLeaseObligation"
  ]

  const MetricKeys4: seq<string> := [
    "GrossPPE", "OtherProperties", "OtherShortTermInvestments", "LongTermDebt", "TotalTaxPayable",
    "AccountsPayable", "AccumulatedDepreciation", "Properties", "Inventory", "AccountsReceivable"
  ]

  /** `fetch_balance_for_symbol`. */
  method FetchBalanceForSymbol(sym: string, yearly: Fetch, quarterly: Fetch, today: string)
    returns (rows: seq<StatementRow>)
    ensures rows == SymbolRows(sym, yearly, quarterly, MetricKeys, today)
  {
    rows := FetchForSymbol(sym, yearly, quarterly, MetricKeys, today);
  }

  /** `refresh_balance_test`. */
  method RefreshBalance(table: StatementTable, symbols: seq<string>, fetch: string -> (Fetch, Fetch), today: string, outcome: Outcome)
    returns (count: Option<nat>)
    modifies table
    ensures DistinctKeys(Deduplicated(AllRows(symbols, fetch, MetricKeys, today), KeyOf), KeyOf)
    ensures AllRows(symbols, fetch, MetricKeys, today) == [] ==> count == Some(0) && table.rows == old(table.rows)
    ensures AllRows(symbols, fetch, MetricKeys, today) != [] ==>
      table.rows == UpsertPages(old(table.rows), Deduplicated(AllRows(symbols, fetch, MetricKeys, today), KeyOf), KeyOf, outcome)
      && (count.None? <==> Interrupted(outcome, |Deduplicated(AllRows(symbols, fetch, MetricKeys, today), KeyOf)|))
      && (count.Some? ==> count.value == |AllRows(symbols, fetch, MetricKeys, today)|)
  {
    count := Refresh(table, symbols, fetch, MetricKeys, today, outcome);
  }

  /** There are 40 metrics and 44 columns; the conflict update assigns every
      column but the three key columns, and every row fills every column. */
  lemma BalanceColumns(sym: string, yearly: Fetch, quarterly: Fetch, today: string)
    ensures |MetricKeys| == 40 && |AllColumns(MetricKeys)| == 44
    ensures Updated(AllColumns(MetricKeys), PkColumns) == DataColumns(MetricKeys) + [Quote("Updated_Date")]
    ensures var rows := SymbolRows(sym, yearly, quarterly, MetricKeys, today);
      forall i :: 0 <= i < |rows| ==> |Cells(rows[i])| == |AllColumns(MetricKeys)|
  {
    assert NoKeyName(MetricKeys1);
    assert NoKeyName(MetricKeys2);
    assert NoKeyName(MetricKeys3);
    assert NoKeyName(MetricKeys4);
    NoKeyNameAppend(MetricKeys1, MetricKeys2);
    NoKeyNameAppend(MetricKeys1 + MetricKeys2, MetricKeys3);
    NoKeyNameAppend(MetricKeys1 + MetricKeys2 + MetricKeys3, MetricKeys4);
    AssignmentsCoverNonKey(MetricKeys);
    SymbolRowsShape(sym, yearly, quarterly, MetricKeys, today);
  }
}
