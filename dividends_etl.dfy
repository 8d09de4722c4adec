/** The dividends loader: one row per payment of every ticker, de-duplicated
    on `(symbol, dividend_date)` and upserted into the `dividends` table. */
module DividendsEtl {
  import opened Wrappers
  import opened Text
  import opened Dicts
  import opened Upserts

  /** A calendar date as Python's `date` holds it. */
  datatype Date = Date(year: int, month: int, day: int)

  type CalendarDate = d: Date | 1 <= d.year <= 9999 && 1 <= d.month <= 12 && 1 <= d.day <= 31
    witness Date(1970, 1, 1)

  /** `n` in decimal, padded on the left with zeros to `width` digits. */
  function ZeroPad(n: nat, width: nat): (r: string)
    ensures AllDigits(r) && |r| >= width
  {
    var digits := NatToString(n);
    if |digits| >= width then digits else seq(width - |digits|, _ => '0') + digits
  }

  lemma {:induction false} LeadingZeros(zeros: string, digits: string)
    requires forall i :: 0 <= i < |zeros| ==> zeros[i] == '0'
    requires AllDigits(digits)
    ensures AllDigits(zeros + digits) && DigitsToNat(zeros + digits) == DigitsToNat(zeros) * Pow10(|digits|) + DigitsToNat(digits)
    decreases |digits|
  {
    var s := zeros + digits;
    if digits == [] {
      assert s == zeros;
    } else {
      var n := |digits| - 1;
      assert s[..|s| - 1] == zeros + digits[..n] && s[|s| - 1] == digits[n];
      LeadingZeros(zeros, digits[..n]);
      DigitsSnoc(s);
      DigitsSnoc(digits);
      ShiftDigit(DigitsToNat(zeros), Pow10(n), DigitsToNat(digits[..n]), DigitValue(digits[n]));
    }
  }

  /** The value of a digit string is that of all but its last digit, shifted
      one place, plus the last digit. */
  lemma DigitsSnoc(s: string)
    requires AllDigits(s) && s != []
    ensures AllDigits(s[..|s| - 1])
    ensures DigitsToNat(s) == DigitsToNat(s[..|s| - 1]) * 10 + DigitValue(s[|s| - 1])
  {
  }

  /** Appending a digit to `a` followed by `b`, where `b` fills `p` places. */
  lemma ShiftDigit(a: nat, p: nat, b: nat, d: nat)
    ensures (a * p + b) * 10 + d == a * (10 * p) + (b * 10 + d)
  {
  }

  function Pow10(k: nat): nat
  {
    if k == 0 then 1 else 10 * Pow10(k - 1)
  }

  lemma {:induction false} Zeros(zeros: string)
    requires forall i :: 0 <= i < |zeros| ==> zeros[i] == '0'
    ensures AllDigits(zeros) && DigitsToNat(zeros) == 0
  {
    if zeros != [] {
      Zeros(zeros[..|zeros| - 1]);
    }
  }

  /** Zero padding does not change the value the digits spell. */
  lemma ZeroPadValue(n: nat, width: nat)
    ensures DigitsToNat(ZeroPad(n, width)) == n
  {
    var digits := NatToString(n);
    DigitsRoundTrip(n);
    if |digits| < width {
      var zeros := seq(width - |digits|, _ => '0');
      Zeros(zeros);
      LeadingZeros(zeros, digits);
    }
  }

  /** The width of `ZeroPad(n, w)` is exactly `w` when `n` has at most `w` digits. */
  lemma ZeroPadWidth(n: nat, width: nat)
    requires 1 <= width && n < Pow10(width)
    ensures |ZeroPad(n, width)| == width
  {
    DigitCount(n, width);
  }

  lemma {:induction false} DigitCount(n: nat, width: nat)
    requires 1 <= width && n < Pow10(width)
    ensures |NatToString(n)| <= width
    decreases width
  {
    if n >= 10 {
      assert Pow10(width) == 10 * Pow10(width - 1);
      DigitCount(n / 10, width - 1);
    }
  }

  /** `d.isoformat()`: `YYYY-MM-DD`. */
  function IsoDate(d: CalendarDate): (s: string)
    ensures |s| == 10 && s[4] == '-' && s[7] == '-'
  {
    assert Pow10(4) == 10000 && Pow10(2) == 100;
    ZeroPadWidth(d.year, 4);
    ZeroPadWidth(d.month, 2);
    ZeroPadWidth(d.day, 2);
    ZeroPad(d.year, 4) + "-" + ZeroPad(d.month, 2) + "-" + ZeroPad(d.day, 2)
  }

  /** The date can be read back from its ISO text, field by field. */
  lemma IsoDateFields(d: CalendarDate)
    ensures AllDigits(IsoDate(d)[..4]) && DigitsToNat(IsoDate(d)[..4]) == d.year
    ensures AllDigits(IsoDate(d)[5..7]) && DigitsToNat(IsoDate(d)[5..7]) == d.month
    ensures AllDigits(IsoDate(d)[8..]) && DigitsToNat(IsoDate(d)[8..]) == d.day
  {
    var s := IsoDate(d);
    assert s[..4] == ZeroPad(d.year, 4);
    assert s[5..7] == ZeroPad(d.month, 2);
    assert s[8..] == ZeroPad(d.day, 2);
    ZeroPadValue(d.year, 4);
    ZeroPadValue(d.month, 2);
    ZeroPadValue(d.day, 2);
  }

  /** Two dates with the same ISO text are the same date. */
  lemma IsoDateInjective(a: CalendarDate, b: CalendarDate)
    requires IsoDate(a) == IsoDate(b)
    ensures a == b
  {
    IsoDateFields(a);
    IsoDateFields(b);
  }

  /** `int(d.isoformat()[:4]) == d.year`. */
  lemma IsoDateYear(d: CalendarDate)
    ensures ParseInt(IsoDate(d)[..4]) == Some(d.year)
  {
    var y := IsoDate(d)[..4];
    IsoDateFields(d);
    assert IsDigit(y[0]);
    assert Trimmed(y) by {
      assert !IsSpace(y[0]) && !IsSpace(y[3]);
    }
    ParseIntOfTrimmed(y);
  }

  /** What `ticker.dividends` gives: the series of (payment date, amount), a
      None or empty series, or an exception. */
  datatype Series = Payments(items: seq<(CalendarDate, real)>) | NoPayments | Raises

  datatype DividendRow = DividendRow(symbol: string, dividendDate: string, fiscalYear: int, amount: real, updated: CalendarDate)

  /** The row of one payment. */
  function PaymentRow(symbol: string, payment: (CalendarDate, real), today: CalendarDate): DividendRow
  {
    DividendRow(symbol, IsoDate(payment.0), payment.0.year, payment.1, today)
  }

  /** The rows `fetch_dividends_for_symbol` returns. */
  function DividendRows(symbol: string, s: Series, today: CalendarDate): (rows: seq<DividendRow>)
    ensures |rows| == if s.Payments? then |s.items| else 0
  {
    if s.Payments? then seq(|s.items|, i requires 0 <= i < |s.items| => PaymentRow(symbol, s.items[i], today)) else []
  }

  /** `fetch_dividends_for_symbol`; `divs` stands for `ticker.dividends` and
      `today` for the UTC date. */
  method FetchDividendsForSymbol(symbol: string, divs: Series, today: CalendarDate) returns (rows: seq<DividendRow>)
    ensures rows == DividendRows(symbol, divs, today)
  {
    rows := [];
    if divs.Raises? {
      return;
    }
    if divs.NoPayments? || divs.items == [] {
      return [];
    }
    for i := 0 to |divs.items|
      invariant rows == DividendRows(symbol, Payments(divs.items[..i]), today)
    {
      rows := rows + [PaymentRow(symbol, divs.items[i], today)];
    }
    assert divs.items[..|divs.items|] == divs.items;
  }

  /** One row per payment, in series order: the ticker, the payment date in
      ISO form, its calendar year (which is also the number its first four
      characters spell), the amount and the load date. */
  lemma DividendRowsContent(symbol: string, s: Series, today: CalendarDate)
    requires s.Payments?
    ensures var rows := DividendRows(symbol, s, today);
      forall i :: 0 <= i < |rows| ==>
        rows[i].symbol == symbol && rows[i].dividendDate == IsoDate(s.items[i].0)
        && rows[i].fiscalYear == s.items[i].0.year && rows[i].amount == s.items[i].1 && rows[i].updated == today
        && ParseInt(rows[i].dividendDate[..4]) == Some(rows[i].fiscalYear)
  {
    var rows := DividendRows(symbol, s, today);
    forall i | 0 <= i < |rows|
      ensures ParseInt(rows[i].dividendDate[..4]) == Some(rows[i].fiscalYear)
    {
      IsoDateYear(s.items[i].0);
    }
  }

  /** `(symbol, dividend_date)`. */
  function DivKey(r: DividendRow): (string, string)
  {
    (r.symbol, r.dividendDate)
  }

  /** Two payments of one ticker share a key exactly when they fall on the
      same calendar date. */
  lemma SameKeySameDay(symbol: string, s: Series, today: CalendarDate, i: nat, j: nat)
    requires s.Payments? && i < |s.items| && j < |s.items|
    ensures var rows := DividendRows(symbol, s, today);
      DivKey(rows[i]) == DivKey(rows[j]) <==> s.items[i].0 == s.items[j].0
  {
    var rows := DividendRows(symbol, s, today);
    if DivKey(rows[i]) == DivKey(rows[j]) {
      IsoDateInjective(s.items[i].0, s.items[j].0);
    }
  }

  /** The rows of every ticker, one ticker after the other. */
  function AllDividendRows(symbols: seq<string>, series: string -> Series, today: CalendarDate): seq<DividendRow>
  {
    if symbols == [] then []
    else
      var n := |symbols| - 1;
      AllDividendRows(symbols[..n], series, today) + DividendRows(symbols[n], series(symbols[n]), today)
  }

  /** `get_dividends`; `symbols` lists the tickers in the order their fetches
      finish (`as_completed`). */
  method GetDividends(symbols: seq<string>, series: string -> Series, today: CalendarDate) returns (all: seq<DividendRow>)
    ensures all == AllDividendRows(symbols, series, today)
  {
    all := [];
    for i := 0 to |symbols|
      invariant all == AllDividendRows(symbols[..i], series, today)
    {
      var rows := FetchDividendsForSymbol(symbols[i], series(symbols[i]), today);
      assert symbols[..i + 1][..i] == symbols[..i];
      all := all + rows;
    }
    assert symbols[..|symbols|] == symbols;
  }

  /** The `dividends` table, keyed by `(symbol, dividend_date)`. */
  class DividendTable {
    var rows: map<(string, string), DividendRow>

    constructor ()
      ensures rows == map[]
    {
      rows := map[];
    }

    /** `insert_dividends`: de-duplicate with a dict comprehension, then
        upsert page by page; `outcome` says whether a page's statement fails.
        The connection is in autocommit mode, so the pages sent before the
        failing one stay stored (`commit` and `rollback` change nothing), and
        the error is only logged. */
    method InsertDividends(batch: seq<DividendRow>, outcome: Outcome)
      modifies this
      ensures DistinctKeys(Deduplicated(batch, DivKey), DivKey)
      ensures rows == UpsertPages(old(rows), Deduplicated(batch, DivKey), DivKey, outcome)
    {
      var unique := Deduplicated(batch, DivKey);
      DeduplicatedProperties(batch, DivKey);
      rows := UpsertPages(rows, unique, DivKey, outcome);
    }
  }

  /** `refresh_dividends_test`: 0 when nothing was fetched; otherwise the
      insert runs and the count is that of the rows before de-duplication,
      whether or not a page of the insert failed. */
  method RefreshDividends(table: DividendTable, symbols: seq<string>, series: string -> Series, today: CalendarDate, outcome: Outcome)
    returns (count: nat)
    modifies table
    ensures count == |AllDividendRows(symbols, series, today)|
    ensures DistinctKeys(Deduplicated(AllDividendRows(symbols, series, today), DivKey), DivKey)
    ensures AllDividendRows(symbols, series, today) == [] ==> table.rows == old(table.rows)
    ensures AllDividendRows(symbols, series, today) != [] ==>
      table.rows == UpsertPages(old(table.rows), Deduplicated(AllDividendRows(symbols, series, today), DivKey), DivKey, outcome)
  {
    var rows := GetDividends(symbols, series, today);
    DeduplicatedProperties(rows, DivKey);
    if rows == [] {
      return 0;
    }
    table.InsertDividends(rows, outcome);
    count := |rows|;
  }

  /** After an insert in which no page fails, every payment row that is the
      last with its key is stored, and the rows written never outnumber the count. */
  lemma DividendsStoreLast(t: map<(string, string), DividendRow>, rows: seq<DividendRow>)
    ensures |Deduplicated(rows, DivKey)| <= |rows|
    ensures DistinctKeys(Deduplicated(rows, DivKey), DivKey)
    ensures var r := Upsert(t, Deduplicated(rows, DivKey), DivKey);
      forall i :: 0 <= i < |rows| && LastOfKey(rows, DivKey, i) ==> DivKey(rows[i]) in r && r[DivKey(rows[i])] == rows[i]
  {
    DeduplicatedProperties(rows, DivKey);
    UpsertDeduplicated(t, rows, DivKey);
  }
}
