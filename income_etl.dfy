/** The income-statement loader: the shared statement row building with its own
    metric list, stored in the `income_statements` table. */
module IncomeEtl {
  import opened Wrappers
  import opened Dicts
  import opened Upserts
  import opened StatementEtl

  /** `METRIC_KEYS`: the 52 metrics of a row, in column order, written here
      in four runs of 13. */
  const MetricKeys: seq<string> := MetricKeys1 + MetricKeys2 + MetricKeys3 + MetricKeys4

  const MetricKeys1: seq<string> := [
    "TaxEffectOfUnusualItems", "TaxRateForCalcs", "NormalizedEBITDA",
    "NetIncomeFromContinuingOperationNetMinorityInterest", "ReconciledDepreciation",
    "ReconciledCostOfRevenue", "EBITDA", "EBIT", "NetInterestIncome", "InterestExpense",
    "InterestIncome", "NormalizedIncome", "NetIncomeFromContinuingAndDiscontinuedOperation"
  ]

  const MetricKeys2: seq<string> := [
    "TotalExpenses", "TotalOperatingIncomeAsReported", "DilutedAverageShares",
    "BasicAverageShares", "DilutedEPS", "BasicEPS", "DilutedNIAvailtoComStockholders",
    "NetIncomeCommonStockholders", "NetIncome", "NetIncomeIncludingNoncontrollingInterests",
    "NetIncomeContinuousOperations", "TaxProvision", "PretaxIncome"
  ]

  const MetricKeys3: seq<string> := [
    "OtherIncomeExpense", "OtherNonOperatingIncomeExpenses",
    "NetNonOperatingInterestIncomeExpense", "InterestExpenseNonOperating",
    "InterestIncomeNonOperating", "OperatingIncome", "OperatingExpense", "ResearchAndDevelopment",
    "SellingGeneralAndAdministration", "GrossProfit", "CostOfRevenue", "TotalRevenue",
    "OperatingRevenue"
  ]

  const MetricKeys4: seq<string> := [
    "TotalUnusualItems", "TotalUnusualItemsExcludingGoodwill", "SpecialIncomeCharges", "WriteOff",
    "GainOnSaleOfSecurity", "SellingAndMarketingExpense", "GeneralAndAdministrativeExpense",
    "OtherGandA", "RentExpenseSupplemental", "AverageDilutionEarnings",
    "OtherunderPreferredStockDividend", "MinorityInterests", "RestructuringAndMergernAcquisition"
  ]

  /** `fetch_income_for_symbol`. */
  method FetchIncomeForSymbol(sym: string, yearly: Fetch, quarterly: Fetch, today: string)
    returns (rows: seq<StatementRow>)
    ensures rows == SymbolRows(sym, yearly, quarterly, MetricKeys, today)
  {
    rows := FetchForSymbol(sym, yearly, quarterly, MetricKeys, today);
  }

  /** `refresh_income_test`. */
  method RefreshIncome(table: StatementTable, symbols: seq<string>, fetch: string -> (Fetch, Fetch), today: string, outcome: Outcome)
    returns (count: Option<nat>)
    modifies table
    ensures DistinctKeys(Deduplicated(AllRows(symbols, fetch, MetricKeys, today), KeyOf), KeyOf)
    ensures AllRows(symbols, fetch, MetricKeys, today) == [] ==> count == Some(0) && table.rows == old(table.rows)
    ensures AllRows(symbols, fetch, MetricKeys, today) != [] ==>
      table.rows == UpsertPages(old(table.rows), Deduplicated(AllRows(symbols, fetch, MetricKeys, today), KeyOf), KeyOf, outcome)
      && (count.None? <==> Interrupted(outcome, |Deduplicated(AllRows(symbols, fetch, MetricKeys, today), KeyOf)|))
      && (count.Some? ==> count.value == |AllRows(symbols, fetch, MetricKeys, today)|)
  {
    count := Refresh(table, symbols, fetch, MetricKeys, today, outcome);
  }

  /** There are 52 metrics and 56 columns; the conflict update assigns every
      column but the three key columns, and every row fills every column. */
  lemma IncomeColumns(sym: string, yearly: Fetch, quarterly: Fetch, today: string)
    ensures |MetricKeys| == 52 && |AllColumns(MetricKeys)| == 56
    ensures Updated(AllColumns(MetricKeys), PkColumns) == DataColumns(MetricKeys) + [Quote("Updated_Date")]
    ensures var rows := SymbolRows(sym, yearly, quarterly, MetricKeys, today);
      forall i :: 0 <= i < |rows| ==> |Cells(rows[i])| == |AllColumns(MetricKeys)|
  {
    assert NoKeyName(MetricKeys1);
    assert NoKeyName(MetricKeys2);
    assert NoKeyName(MetricKeys3);
    assert NoKeyName(MetricKeys4);
    NoKeyNameAppend(MetricKeys1, MetricKeys2);
    NoKeyNameAppend(MetricKeys1 + MetricKeys2, MetricKeys3);
    NoKeyNameAppend(MetricKeys1 + MetricKeys2 + MetricKeys3, MetricKeys4);
    AssignmentsCoverNonKey(MetricKeys);
    SymbolRowsShape(sym, yearly, quarterly, MetricKeys, today);
  }
}
