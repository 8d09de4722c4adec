/** The inline-button handler `button`: the routing of the callback data, the
    gate every press goes through (expiry downgrade, ticker selection, the
    ticker prompt, the free-tier quota and the summary rate limit), and the
    small rules inside its branches that do not depend on fetched data. */
module Callbacks {
  import opened Wrappers
  import opened Text
  import opened TickerService
  import opened Session
  import opened Queries
  import opened Base
  import opened Subscription
  import opened RateLimiter

  // ---------------------------------------------------------------------
  // Callback data

  /** The branch of `button` a callback data string selects. A year field
      that `int` rejects is `None`. */
  datatype Route =
    | Select(sym: string)
    | ShowProfile
    | ReadMore
    | BackToMenu
    | Summary
    | HistoricalData
    | Hist(period: string)
    | SendChart
    | Dividends
    | DividendsYear(year: Option<int>)
    | FinancialData
    | IncomeStatement
    | IncomeYear(year: Option<int>)
    | BalanceSheet
    | BalanceYear(year: Option<int>)
    | ShariahCheck
    | Stats
    | LearnHelp
    | Unknown

  /** `int(data.split("_")[i])`; None when `int` raises. */
  function YearField(data: string, i: nat): (y: Option<int>)
    ensures |Split(data, '_')| <= i ==> y.None?
  {
    var parts := Split(data, '_');
    if i < |parts| then ParseInt(parts[i]) else None
  }

  /** The `if`/`elif` chain of `button`, in its order. */
  function ParseRoute(data: string): (r: Route)
    ensures r.Select? <==> StartsWith(data, "select_")
    ensures r.Select? ==> r.sym == data[7..]
    ensures r.DividendsYear? <==> StartsWith(data, "dividends_")
    ensures r.DividendsYear? ==> r.year == YearField(data, 1)
    ensures r.IncomeYear? <==> StartsWith(data, "income_year_")
    ensures r.IncomeYear? ==> r.year == YearField(data, 2)
    ensures r.BalanceYear? <==> StartsWith(data, "balance_year_")
    ensures r.BalanceYear? ==> r.year == YearField(data, 2)
    ensures r.Hist? <==> data == "hist_1day" || data == "hist_5day" || data == "hist_30day"
    ensures r.Hist? ==> r.period == data
  {
    PrefixHeads(data);
    if StartsWith(data, "select_") then Select(data[7..])
    else if data == "profile" then ShowProfile
    else if data == "read_more" then ReadMore
    else if data == "back_to_menu" then BackToMenu
    else if data == "summary" then Summary
    else if data == "historical_data" then HistoricalData
    else if data == "hist_1day" || data == "hist_5day" || data == "hist_30day" then Hist(data)
    else if data == "send_chart" then SendChart
    else if data == "dividends" then Dividends
    else if StartsWith(data, "dividends_") then DividendsYear(YearField(data, 1))
    else if data == "financial_data" then FinancialData
    else if data == "income_statement" then IncomeStatement
    else if StartsWith(data, "income_year_") then IncomeYear(YearField(data, 2))
    else if data == "balance_sheet" then BalanceSheet
    else if StartsWith(data, "balance_year_") then BalanceYear(YearField(data, 2))
    else if data == "shariah_check" then ShariahCheck
    else if data == "stats" then Stats
    else if data == "learn_help" then LearnHelp
    else Unknown
  }

  /** A string that starts with `p` agrees with it character by character. */
  lemma PrefixChars(s: string, p: string)
    ensures StartsWith(s, p) ==> |p| <= |s| && forall i :: 0 <= i < |p| ==> s[i] == p[i]
  {
    if StartsWith(s, p) {
      forall i | 0 <= i < |p| ensures s[i] == p[i] {
        assert s[..|p|][i] == s[i];
      }
    }
  }

  /** The characters that tell the prefixed callback data apart from each
      other and from the fixed ones. */
  lemma PrefixHeads(data: string)
    ensures StartsWith(data, "select_") ==> data[0] == 's' && data[1] == 'e' && data[2] == 'l'
    ensures StartsWith(data, "dividends_") ==> data[0] == 'd' && |data| >= 10
    ensures StartsWith(data, "income_year_") ==> data[0] == 'i' && data[7] == 'y'
    ensures StartsWith(data, "balance_year_") ==> data[0] == 'b' && data[8] == 'y'
  {
    PrefixChars(data, "select_");
    PrefixChars(data, "dividends_");
    PrefixChars(data, "income_year_");
    PrefixChars(data, "balance_year_");
  }

  /** A suggestion button `"select_" + sym` selects exactly `sym`. */
  lemma SelectButtonRoundTrip(sym: string)
    ensures ParseRoute("select_" + sym) == Select(sym)
  {
    var data := "select_" + sym;
    assert data[..7] == "select_";
    assert data[7..] == sym;
  }

  /** `"dividends_{yr}"` reads back as the year it was built from. */
  lemma DividendsButtonRoundTrip(y: int)
    ensures ParseRoute("dividends_" + IntToString(y)) == DividendsYear(Some(y))
  {
    var s := IntToString(y);
    var data := "dividends_" + s;
    assert data[..10] == "dividends_";
    assert data == "dividends" + ['_'] + s;
    SplitAfter("dividends", '_', s);
    assert Split(data, '_')[1] == s;
    ParseIntRoundTrip(y);
  }

  /** `"{prefix}_year_{yr}"` has the year as its third `_`-separated field. */
  lemma YearFieldOfButton(prefix: string, y: int)
    requires '_' !in prefix
    ensures YearField(prefix + "_year_" + IntToString(y), 2) == Some(y)
  {
    var s := IntToString(y);
    YearButtonSplit(prefix, s);
    ParseIntRoundTrip(y);
  }

  /** `"<prefix>_year_<s>".split('_')` is the three fields when neither the
      prefix nor `s` holds an underscore. */
  lemma YearButtonSplit(prefix: string, s: string)
    requires '_' !in prefix && '_' !in s
    ensures Split(prefix + "_year_" + s, '_') == [prefix, "year", s]
  {
    assert prefix + "_year_" == prefix + ['_'] + "year" + ['_'];
    SplitThree(prefix, "year", s, '_');
  }

  /** `"income_year_{yr}"` reads back as the year it was built from. */
  lemma IncomeButtonRoundTrip(y: int)
    ensures ParseRoute("income_year_" + IntToString(y)) == IncomeYear(Some(y))
  {
    var data := "income_year_" + IntToString(y);
    assert data[..12] == "income_year_";
    assert "income" + "_year_" + IntToString(y) == data;
    YearFieldOfButton("income", y);
  }

  /** `"balance_year_{yr}"` reads back as the year it was built from. */
  lemma BalanceButtonRoundTrip(y: int)
    ensures ParseRoute("balance_year_" + IntToString(y)) == BalanceYear(Some(y))
  {
    var data := "balance_year_" + IntToString(y);
    assert data[..13] == "balance_year_";
    assert "balance" + "_year_" + IntToString(y) == data;
    YearFieldOfButton("balance", y);
  }

  // ---------------------------------------------------------------------
  // The gate in front of every branch

  /** The branches that call `check_usage_quota_for_query` first. */
  predicate Gated(r: Route)
  {
    r.ShowProfile? || r.Summary? || r.HistoricalData? || r.Hist? || r.Dividends?
    || r.IncomeStatement? || r.BalanceSheet? || r.Stats?
  }

  /** What a press leads to before any data is fetched. */
  datatype Outcome =
    | Chosen(choice: SymbolParse)
    | AskForSymbol
    | QuotaRefused
    | RateLimited
    | Serve(route: Route, ticker: SymbolParse)

  /** The state a press reads and changes: the subscriber table, the user's
      `user_data` and the rate limiter's logs. */
  datatype ButtonState = ButtonState(subscribers: SubscriberTable, session: UserData, logs: Logs)

  datatype Pressed = Pressed(state: ButtonState, outcome: Outcome)

  /** `button` wrapped in `with_subscription_check`, once the callback data
      has been parsed into `route`, up to the point where a branch starts
      fetching data. */
  function Press(s: ButtonState, chatId: int, userId: int, route: Route, today: int, now: real): (r: Pressed)
    ensures var d := Downgraded(s.subscribers, chatId, today);
      route.Select? ==>
        r.outcome == Chosen(ParseSymbol(route.sym))
        && r.state == ButtonState(d, WithSymbol(s.session, ParseSymbol(route.sym)), s.logs)
    ensures var d := Downgraded(s.subscribers, chatId, today);
      !route.Select? && CurrentSymbol(s.session).None? ==>
        r.outcome == AskForSymbol && r.state == ButtonState(d, s.session, s.logs)
    ensures !route.Select? ==> r.state.session == s.session
    ensures r.outcome.Serve? ==>
      r.outcome.route == route && Some(r.outcome.ticker) == CurrentSymbol(s.session)
  {
    var d := Downgraded(s.subscribers, chatId, today);
    if route.Select? then
      var p := ParseSymbol(route.sym);
      Pressed(ButtonState(d, WithSymbol(s.session, p), s.logs), Chosen(p))
    else
      match CurrentSymbol(s.session)
      case None => Pressed(ButtonState(d, s.session, s.logs), AskForSymbol)
      case Some(ticker) => WithTicker(ButtonState(d, s.session, s.logs), chatId, userId, route, ticker, now)
  }

  /** A press on any button but `select_` once a ticker is selected: the
      quota gate, then the rate limiter for the summary, then the branch. */
  function WithTicker(s: ButtonState, chatId: int, userId: int, route: Route, ticker: SymbolParse, now: real): (r: Pressed)
    ensures r.state.session == s.session
    ensures r.outcome.QuotaRefused? <==> Gated(route) && !QuotaCheck(s.subscribers, chatId).allowed
    ensures r.state.subscribers == if Gated(route) then QuotaCheck(s.subscribers, chatId).table else s.subscribers
    ensures r.state.logs != s.logs ==> route.Summary? && QuotaCheck(s.subscribers, chatId).allowed
    ensures r.outcome.RateLimited? <==>
      route.Summary? && QuotaCheck(s.subscribers, chatId).allowed && Check(s.logs, userId, now).limited
    ensures r.outcome.Serve? ==> r.outcome.route == route && r.outcome.ticker == ticker
    ensures !r.outcome.Chosen? && !r.outcome.AskForSymbol?
  {
    if !Gated(route) then Pressed(s, Serve(route, ticker))
    else
      var q := QuotaCheck(s.subscribers, chatId);
      if !q.allowed then Pressed(ButtonState(q.table, s.session, s.logs), QuotaRefused)
      else if !route.Summary? then Pressed(ButtonState(q.table, s.session, s.logs), Serve(route, ticker))
      else
        var c := Check(s.logs, userId, now);
        Pressed(ButtonState(q.table, s.session, c.logs), if c.limited then RateLimited else Serve(route, ticker))
  }

  /** The gate in front of the branches: with a ticker selected, a gated
      press is refused exactly when `check_usage_quota_for_query` refuses, and
      only then or by its credit spend does the table change beyond the
      downgrade; only an allowed summary press reaches the rate limiter. */
  lemma PressGate(s: ButtonState, chatId: int, userId: int, route: Route, today: int, now: real)
    ensures var r := Press(s, chatId, userId, route, today, now);
      var d := Downgraded(s.subscribers, chatId, today);
      && (r.outcome.QuotaRefused? <==>
            Gated(route) && CurrentSymbol(s.session).Some? && !QuotaCheck(d, chatId).allowed)
      && r.state.subscribers == (if Gated(route) && CurrentSymbol(s.session).Some? then QuotaCheck(d, chatId).table else d)
      && (r.state.logs != s.logs ==> route.Summary? && QuotaCheck(d, chatId).allowed)
      && (r.outcome.RateLimited? <==>
            route.Summary? && CurrentSymbol(s.session).Some? && QuotaCheck(d, chatId).allowed
            && Check(s.logs, userId, now).limited)
  {
    var d := Downgraded(s.subscribers, chatId, today);
    if !route.Select? {
      match CurrentSymbol(s.session)
      case None =>
      case Some(ticker) =>
        assert Press(s, chatId, userId, route, today, now)
          == WithTicker(ButtonState(d, s.session, s.logs), chatId, userId, route, ticker, now);
    }
  }

  /** A free subscriber at the limit who presses a gated button is refused:
      no credit is spent, no call is recorded and no branch runs. */
  lemma PressAtLimit(s: ButtonState, chatId: int, userId: int, route: Route, today: int, now: real)
    requires Gated(route) && CurrentSymbol(s.session).Some?
    requires chatId in s.subscribers && s.subscribers[chatId].tier == Free
    requires s.subscribers[chatId].usageCount == s.subscribers[chatId].usageLimit
    ensures Press(s, chatId, userId, route, today, now) == Pressed(s, QuotaRefused)
  {
    var d := Downgraded(s.subscribers, chatId, today);
    assert d == s.subscribers;
    QuotaCheckAtLimit(d, chatId);
  }

  /** Pressing a suggestion button `select_{sym}` stores the parse of its
      symbol, which the next press then works on. */
  lemma SuggestionThenPress(s: ButtonState, chatId: int, userId: int, sym: string, route: Route, today: int, now: real)
    requires ParseSymbol(sym).db != ""
    requires !route.Select? && !Gated(route)
    ensures var first := Press(s, chatId, userId, ParseRoute("select_" + sym), today, now);
      first.outcome == Chosen(ParseSymbol(sym))
      && Press(first.state, chatId, userId, route, today, now).outcome == Serve(route, ParseSymbol(sym))
  {
    SelectButtonRoundTrip(sym);
    SelectionReadBack(s.session, ParseSymbol(sym));
  }

  /** A press spends at most one credit of the pressing chat, and none of
      any other chat. */
  lemma PressSpendsAtMostOne(s: ButtonState, chatId: int, userId: int, route: Route, today: int, now: real)
    ensures var t := Press(s, chatId, userId, route, today, now).state.subscribers;
      var d := Downgraded(s.subscribers, chatId, today);
      t.Keys == d.Keys
      && (forall id :: id in d && id != chatId ==> t[id] == d[id])
      && (chatId in d && d[chatId].usageCount.Some? ==>
            t[chatId].usageCount == d[chatId].usageCount || t[chatId].usageCount == Some(d[chatId].usageCount.value + 1))
  {
    PressGate(s, chatId, userId, route, today, now);
    var d := Downgraded(s.subscribers, chatId, today);
    if CanConsume(d, chatId) {
      ConsumeAddsOne(d, chatId);
    }
  }

  /** `button`. `db`, `session` and `limiter` are the database tables, the
      user's `user_data` and `USER_CALL_LOGS`. */
  method Button(db: Tables, session: UserSession, limiter: Limiter,
                chatId: int, userId: int, data: string, today: int, now: real)
    returns (outcome: Outcome)
    modifies db, session, limiter
    ensures Pressed(ButtonState(db.subscribers, session.data, limiter.logs), outcome)
      == Press(ButtonState(old(db.subscribers), old(session.data), old(limiter.logs)), chatId, userId, ParseRoute(data), today, now)
    ensures db.premiumKeys == old(db.premiumKeys)
  {
    WithSubscriptionCheck(db, chatId, today);
    var route := ParseRoute(data);
    if route.Select? {
      var p := ParseSymbol(route.sym);
      session.StoreSymbol(p);
      return Chosen(p);
    }
    var ticker := CurrentSymbol(session.data);
    if ticker.None? {
      return AskForSymbol;
    }
    if Gated(route) {
      var allowed, alerted := CheckUsageQuotaForQuery(db, chatId);
      if !allowed {
        return QuotaRefused;
      }
      if route.Summary? {
        var limited := limiter.IsRateLimited(userId, now);
        if limited {
          return RateLimited;
        }
      }
    }
    outcome := Serve(route, ticker.value);
  }

  // ---------------------------------------------------------------------
  // read_more

  const ChunkSize: nat := 4000

  /** `[s[i:i+4000] for i in range(0, len(s), 4000)]`. */
  function Chunks(s: string): (r: seq<string>)
    ensures |r| == (|s| + ChunkSize - 1) / ChunkSize
  {
    var n := (|s| + ChunkSize - 1) / ChunkSize;
    seq(n, i requires 0 <= i < n =>
      s[i * ChunkSize .. if i * ChunkSize + ChunkSize <= |s| then i * ChunkSize + ChunkSize else |s|])
  }

  /** The parts joined back together. */
  function Concat(parts: seq<string>): string
  {
    if parts == [] then "" else parts[0] + Concat(parts[1..])
  }

  /** Past the first chunk, the chunks are those of the rest. */
  lemma ChunksTail(s: string)
    requires |s| > ChunkSize
    ensures Chunks(s) == [s[..ChunkSize]] + Chunks(s[ChunkSize..])
  {
    var r := Chunks(s);
    var t := Chunks(s[ChunkSize..]);
    assert |r| == |t| + 1;
    var u := s[ChunkSize..];
    forall i | 0 <= i < |t| ensures r[i + 1] == t[i] {
      var lo := i * ChunkSize;
      var hi := if lo + ChunkSize <= |u| then lo + ChunkSize else |u|;
      assert (i + 1) * ChunkSize == lo + ChunkSize;
      assert t[i] == u[lo..hi];
      assert r[i + 1] == s[lo + ChunkSize..hi + ChunkSize];
      assert u[lo..hi] == s[lo + ChunkSize..hi + ChunkSize];
    }
  }

  /** The chunks join back into the text; none is empty or longer than 4000
      characters, and all but the last are exactly 4000 long. */
  lemma {:induction false} ChunksJoin(s: string)
    ensures Concat(Chunks(s)) == s
    ensures forall i :: 0 <= i < |Chunks(s)| ==> 0 < |Chunks(s)[i]| <= ChunkSize
    ensures forall i :: 0 <= i < |Chunks(s)| - 1 ==> |Chunks(s)[i]| == ChunkSize
    decreases |s|
  {
    var r := Chunks(s);
    if |s| > ChunkSize {
      ChunksTail(s);
      ChunksJoin(s[ChunkSize..]);
      assert r[1..] == Chunks(s[ChunkSize..]);
      assert s == s[..ChunkSize] + s[ChunkSize..];
    } else if s != [] {
      assert |r| == 1 && r[0] == s;
      assert r[1..] == [];
    }
  }

  /** What `read_more` sends: the text in numbered parts when it is longer
      than 4000 characters, otherwise in one edited message. */
  datatype ReadMoreReply = Parts(chunks: seq<string>) | Whole(text: string)

  /** `user_data.get('full_summary', 'No summary available.')`. */
  function FullSummary(d: UserData): string
  {
    StrOr(d, "full_summary", "No summary available.")
  }

  function ReadMoreText(d: UserData): (r: ReadMoreReply)
    ensures r.Whole? <==> |FullSummary(d)| <= ChunkSize
    ensures r.Whole? ==> r.text == FullSummary(d)
    ensures r.Parts? ==> |r.chunks| >= 2 && Concat(r.chunks) == FullSummary(d)
  {
    var full := FullSummary(d);
    if |full| > ChunkSize then
      ChunksJoin(full);
      Parts(Chunks(full))
    else Whole(full)
  }

  // ---------------------------------------------------------------------
  // History chart parameters

  datatype HistQuery = HistQuery(days: int, interval: string, outputSize: int)

  /** The days, bar interval and bar count for a `hist_*` button. */
  function HistParams(period: string): (q: HistQuery)
    ensures period == "hist_1day" ==> q == HistQuery(1, "15min", 50)
    ensures period != "hist_1day" ==> q.interval == "1h" && q.outputSize == 7 * q.days
    ensures q.days == 5 <==> period == "hist_5day"
    ensures period != "hist_1day" && period != "hist_5day" ==> q.days == 30
  {
    if period == "hist_1day" then HistQuery(1, "15min", 50)
    else if period == "hist_5day" then HistQuery(5, "1h", 5 * 7)
    else HistQuery(30, "1h", 30 * 7)
  }

  // ---------------------------------------------------------------------
  // Year lists

  /** Strictly descending: latest first, no year twice. */
  predicate Descending(r: seq<int>)
  {
    forall i, j :: 0 <= i < j < |r| ==> r[i] > r[j]
  }

  /** A list's members are its head and the members of its tail. */
  lemma HeadTail(r: seq<int>)
    requires r != []
    ensures forall y :: y in r <==> y == r[0] || y in r[1..]
  {
    assert r == [r[0]] + r[1..];
  }

  /** Every year after the head of a descending list is below it. */
  lemma TailBelowHead(r: seq<int>)
    requires r != [] && Descending(r)
    ensures forall y :: y in r[1..] ==> y < r[0]
  {
    forall y | y in r[1..]
      ensures y < r[0]
    {
      var k :| 0 <= k < |r[1..]| && r[1..][k] == y;
      assert r[k + 1] == y;
    }
  }

  /** A year above every year of a descending list can go in front. */
  lemma ConsDescending(h: int, tail: seq<int>)
    requires Descending(tail)
    requires forall y :: y in tail ==> y < h
    ensures Descending([h] + tail)
  {
    var res := [h] + tail;
    forall i, j | 0 <= i < j < |res|
      ensures res[i] > res[j]
    {
      assert res[j] == tail[j - 1] && tail[j - 1] in tail;
      if i > 0 {
        assert res[i] == tail[i - 1];
      }
    }
  }

  /** `x` placed into the descending list `r`, unless already there. */
  function InsertYear(x: int, r: seq<int>): (res: seq<int>)
    requires Descending(r)
    ensures forall y :: y in res <==> y == x || y in r
    ensures Descending(res)
    ensures |res| <= |r| + 1
  {
    if r == [] then [x]
    else if x > r[0] then
      TailBelowHead(r);
      HeadTail(r);
      ConsDescending(x, r);
      [x] + r
    else if x == r[0] then r
    else
      var tail := InsertYear(x, r[1..]);
      TailBelowHead(r);
      HeadTail(r);
      ConsDescending(r[0], tail);
      [r[0]] + tail
  }

  /** `sorted(set(ys), reverse=True)`: every year of `ys` once, latest
      first. */
  function SortedDistinct(ys: seq<int>): (r: seq<int>)
    ensures forall y :: y in r <==> y in ys
    ensures Descending(r)
    ensures |r| <= |ys|
  {
    if ys == [] then []
    else
      assert forall y :: y in ys <==> y == ys[0] || y in ys[1..] by {
        assert ys == [ys[0]] + ys[1..];
      }
      InsertYear(ys[0], SortedDistinct(ys[1..]))
  }

  /** `sorted(set(ys), reverse=True)[:n]`, and also SQL's
      `SELECT DISTINCT ... ORDER BY yr DESC LIMIT n`. */
  function TopYears(ys: seq<int>, n: nat): (r: seq<int>)
    ensures |r| <= n
    ensures forall y :: y in r ==> y in ys
  {
    var d := SortedDistinct(ys);
    var r := Take(d, n);
    assert forall i :: 0 <= i < |r| ==> r[i] == d[i] && d[i] in d;
    r
  }

  /** The years are distinct and descending, every year left out is below
      every year kept (which only happens when `n` are kept), and nothing is
      left out when `n` is at least the number of entries. */
  lemma TopYearsProperties(ys: seq<int>, n: nat)
    ensures var r := TopYears(ys, n);
      && (forall i, j :: 0 <= i < j < |r| ==> r[i] > r[j])
      && (forall y :: y in ys && y !in r ==> |r| == n && forall x :: x in r ==> x > y)
      && (n >= |ys| ==> forall y :: y in ys ==> y in r)
      && (r == [] <==> ys == [] || n == 0)
  {
    var d := SortedDistinct(ys);
    var r := TopYears(ys, n);
    assert r == Take(d, n) && r == d[..|r|];
    forall i, j | 0 <= i < j < |r|
      ensures r[i] > r[j]
    {
      assert r[i] == d[i] && r[j] == d[j];
    }
    forall y | y in ys && y !in r
      ensures |r| == n && forall x :: x in r ==> x > y
    {
      var k :| 0 <= k < |d| && d[k] == y;
      assert k >= |r|;
      forall x | x in r
        ensures x > y
      {
        var i :| 0 <= i < |r| && r[i] == x;
        assert d[i] == x;
      }
    }
    if n != 0 && ys != [] {
      assert ys[0] in d;
    }
  }

  /** The top-5 list is exactly the five latest distinct years, or all of
      them when there are fewer. */
  lemma TopFiveYears(ys: seq<int>)
    ensures var r := TopYears(ys, 5);
      (forall y :: y in r ==> y in ys)
      && (forall i, j :: 0 <= i < j < |r| ==> r[i] > r[j])
      && |r| <= 5
      && (|r| < 5 ==> forall y :: y in ys ==> y in r)
  {
    TopYearsProperties(ys, 5);
  }

  /** `item.get("fiscal_date", "")[:4]`. */
  function YearPrefix(date: string): string
  {
    if |date| <= 4 then date else date[..4]
  }

  /** A present fiscal date whose year prefix `int` rejects. */
  predicate Unparsable(date: string)
  {
    date != "" && ParseInt(YearPrefix(date)).None?
  }

  /** A present fiscal date whose year prefix reads as `y`. */
  predicate DatedAs(date: string, y: int)
  {
    date != "" && ParseInt(YearPrefix(date)) == Some(y)
  }

  /** A fiscal date of `dates` reads as `y`. */
  ghost predicate DatedIn(dates: seq<string>, y: int)
  {
    exists i :: 0 <= i < |dates| && DatedAs(dates[i], y)
  }

  /** Some date of `dates` is unparsable exactly when one before the last
      is, or the last is. */
  lemma UnparsableSplit(dates: seq<string>)
    requires dates != []
    ensures var n := |dates| - 1;
      (exists i :: 0 <= i < |dates| && Unparsable(dates[i]))
      <==> (exists i :: 0 <= i < n && Unparsable(dates[..n][i])) || Unparsable(dates[n])
  {
    var n := |dates| - 1;
    assert forall i :: 0 <= i < n ==> dates[..n][i] == dates[i];
  }

  /** `{int(item["fiscal_date"][:4]) for item in items if item.get("fiscal_date")}`
      as a list in item order; None when some prefix makes `int` raise. A
      missing date is the empty string. */
  function ApiYears(dates: seq<string>): (r: Option<seq<int>>)
    ensures r.None? <==> exists i :: 0 <= i < |dates| && Unparsable(dates[i])
  {
    if dates == [] then Some([])
    else
      var n := |dates| - 1;
      var front := ApiYears(dates[..n]);
      UnparsableSplit(dates);
      if front.None? then None
      else if dates[n] == "" then front
      else match ParseInt(YearPrefix(dates[n]))
        case None => None
        case Some(y) => Some(front.value + [y])
  }

  /** One more present, readable date adds its year at the end. */
  lemma ApiYearsLast(dates: seq<string>)
    requires dates != [] && ApiYears(dates).Some?
    ensures var n := |dates| - 1;
      ApiYears(dates[..n]).Some?
      && ApiYears(dates).value == ApiYears(dates[..n]).value
        + (if dates[n] == "" then [] else [ParseInt(YearPrefix(dates[n])).value])
  {
  }

  /** Every listed year is the year of a present fiscal date. */
  lemma {:induction false} ApiYearsSound(dates: seq<string>)
    requires ApiYears(dates).Some?
    ensures forall y :: y in ApiYears(dates).value ==> DatedIn(dates, y)
    decreases |dates|
  {
    if dates != [] {
      var n := |dates| - 1;
      ApiYearsLast(dates);
      ApiYearsSound(dates[..n]);
      forall y | y in ApiYears(dates).value ensures DatedIn(dates, y) {
        if y in ApiYears(dates[..n]).value {
          var i :| 0 <= i < n && DatedAs(dates[..n][i], y);
          assert DatedAs(dates[i], y);
        } else {
          assert DatedAs(dates[n], y);
        }
      }
    }
  }

  /** Every present fiscal date has its year listed. */
  lemma {:induction false} ApiYearsComplete(dates: seq<string>)
    requires ApiYears(dates).Some?
    ensures forall y :: DatedIn(dates, y) ==> y in ApiYears(dates).value
    decreases |dates|
  {
    if dates != [] {
      var n := |dates| - 1;
      ApiYearsLast(dates);
      ApiYearsComplete(dates[..n]);
      var front := ApiYears(dates[..n]).value;
      var all := ApiYears(dates).value;
      forall y | DatedIn(dates, y) ensures y in all {
        var i :| 0 <= i < |dates| && DatedAs(dates[i], y);
        if i < n {
          assert DatedAs(dates[..n][i], y);
          assert DatedIn(dates[..n], y);
          assert y in front;
        } else {
          assert i == n && dates[n] != "";
          assert ParseInt(YearPrefix(dates[n])).value == y;
          assert all[|front|] == y;
        }
      }
    }
  }

  /** The years of the income or balance year menu: the latest five annual
      years in the database, or, when there are none, the latest five years
      of the API's statements; None when a fiscal date makes `int` raise. */
  function YearMenu(dbYears: seq<int>, apiDates: seq<string>): (r: Option<seq<int>>)
    ensures dbYears != [] ==> r == Some(TopYears(dbYears, 5))
    ensures dbYears == [] ==> r.None? == ApiYears(apiDates).None?
    ensures r.Some? ==> |r.value| <= 5 && forall i, j :: 0 <= i < j < |r.value| ==> r.value[i] > r.value[j]
    ensures dbYears == [] && r.Some? ==> forall y :: y in r.value ==> DatedIn(apiDates, y)
    ensures dbYears == [] && r.Some? ==> ApiYears(apiDates).Some? && r.value == TopYears(ApiYears(apiDates).value, 5)
  {
    var years := TopYears(dbYears, 5);
    TopYearsProperties(dbYears, 5);
    if years != [] then Some(years)
    else match ApiYears(apiDates)
      case None => None
      case Some(ys) =>
        ApiYearsSound(apiDates);
        TopYearsProperties(ys, 5);
        Some(TopYears(ys, 5))
  }

  /** With no database years, a fiscal year of the API's statements is left
      out of the menu only when five later years are shown. */
  lemma YearMenuFromApi(apiDates: seq<string>, y: int)
    requires YearMenu([], apiDates).Some? && DatedIn(apiDates, y)
    ensures var shown := YearMenu([], apiDates).value;
      y !in shown ==> |shown| == 5 && forall x :: x in shown ==> x > y
  {
    var ys := ApiYears(apiDates).value;
    ApiYearsComplete(apiDates);
    TopYearsProperties(ys, 5);
  }

  // ---------------------------------------------------------------------
  // Dividend years

  /** A `dividends` row as the query returns it. */
  datatype DividendEntry = DividendEntry(fiscalYear: int, date: string, amount: real)

  /** The entries of year `y`, in row order. */
  function YearEntries(rows: seq<DividendEntry>, y: int): (r: seq<(string, real)>)
    ensures |r| <= |rows|
  {
    if rows == [] then []
    else
      var n := |rows| - 1;
      YearEntries(rows[..n], y) + (if rows[n].fiscalYear == y then [(rows[n].date, rows[n].amount)] else [])
  }

  function FiscalYears(rows: seq<DividendEntry>): (ys: seq<int>)
    ensures |ys| == |rows| && forall i :: 0 <= i < |rows| ==> ys[i] == rows[i].fiscalYear
  {
    seq(|rows|, i requires 0 <= i < |rows| => rows[i].fiscalYear)
  }

  /** Every year with an entry has a non-empty group. */
  lemma {:induction false} YearEntriesNonEmpty(rows: seq<DividendEntry>, i: nat)
    requires i < |rows|
    ensures YearEntries(rows, rows[i].fiscalYear) != []
    decreases |rows|
  {
    var n := |rows| - 1;
    if i < n {
      assert rows[..n][i] == rows[i];
      YearEntriesNonEmpty(rows[..n], i);
    }
  }

  /** The `by_year` loop: a `defaultdict(list)` that appends each row's date
      and amount under its fiscal year. */
  method GroupByYear(rows: seq<DividendEntry>) returns (byYear: map<int, seq<(string, real)>>)
    ensures forall y :: y in byYear <==> y in FiscalYears(rows)
    ensures forall y :: y in byYear ==> byYear[y] == YearEntries(rows, y) && byYear[y] != []
  {
    byYear := map[];
    for i := 0 to |rows|
      invariant forall y :: y in byYear <==> y in FiscalYears(rows[..i])
      invariant forall y :: y in byYear ==> byYear[y] == YearEntries(rows[..i], y)
    {
      var r := rows[i];
      assert rows[..i + 1][..i] == rows[..i];
      assert forall y :: YearEntries(rows[..i + 1], y) == YearEntries(rows[..i], y) + (if r.fiscalYear == y then [(r.date, r.amount)] else []);
      assert forall y :: y in FiscalYears(rows[..i + 1]) <==> y in FiscalYears(rows[..i]) || y == r.fiscalYear by {
        assert FiscalYears(rows[..i + 1]) == FiscalYears(rows[..i]) + [r.fiscalYear];
      }
      if r.fiscalYear !in byYear && YearEntries(rows[..i], r.fiscalYear) != [] {
        YearEntriesHasYear(rows[..i], r.fiscalYear);
      }
      var group := if r.fiscalYear in byYear then byYear[r.fiscalYear] else [];
      byYear := byYear[r.fiscalYear := group + [(r.date, r.amount)]];
    }
    assert rows[..|rows|] == rows;
    forall y | y in byYear ensures byYear[y] != [] {
      var i :| 0 <= i < |rows| && FiscalYears(rows)[i] == y;
      YearEntriesNonEmpty(rows, i);
    }
  }

  /** A non-empty group belongs to a year that occurs in the rows. */
  lemma {:induction false} YearEntriesHasYear(rows: seq<DividendEntry>, y: int)
    requires YearEntries(rows, y) != []
    ensures y in FiscalYears(rows)
    decreases |rows|
  {
    var n := |rows| - 1;
    if rows[n].fiscalYear != y {
      YearEntriesHasYear(rows[..n], y);
      var i :| 0 <= i < n && FiscalYears(rows[..n])[i] == y;
      assert FiscalYears(rows)[i] == y;
    } else {
      assert FiscalYears(rows)[n] == y;
    }
  }

  /** `sorted(by_year.keys(), reverse=True)`, one `dividends_{yr}` button each. */
  function DividendYearButtons(rows: seq<DividendEntry>): (r: seq<string>)
    ensures |r| == |TopYears(FiscalYears(rows), |rows|)|
  {
    var years := TopYears(FiscalYears(rows), |rows|);
    seq(|years|, i requires 0 <= i < |years| => "dividends_" + IntToString(years[i]))
  }

  /** One button per distinct fiscal year, latest first, each leading back
      to its own year. */
  lemma DividendYearButtonsProperties(rows: seq<DividendEntry>)
    ensures var years := TopYears(FiscalYears(rows), |rows|);
      (forall y :: y in years <==> y in FiscalYears(rows))
      && (forall i, j :: 0 <= i < j < |years| ==> years[i] > years[j])
      && forall i :: 0 <= i < |years| ==> ParseRoute(DividendYearButtons(rows)[i]) == DividendsYear(Some(years[i]))
  {
    var years := TopYears(FiscalYears(rows), |rows|);
    TopYearsProperties(FiscalYears(rows), |rows|);
    forall i | 0 <= i < |years| ensures ParseRoute(DividendYearButtons(rows)[i]) == DividendsYear(Some(years[i])) {
      DividendsButtonRoundTrip(years[i]);
    }
  }

  // ---------------------------------------------------------------------
  // Balance sheet and Shariah rules

  /** `(total_liab / equity) if equity else None`, with equity the assets
      less the liabilities. */
  function DebtToEquity(totalAssets: real, totalLiabilities: real): (r: Option<real>)
    ensures r.None? <==> totalAssets == totalLiabilities
    ensures r.Some? ==> r.value * (totalAssets - totalLiabilities) == totalLiabilities
  {
    var equity := totalAssets - totalLiabilities;
    if equity != 0.0 then Some(totalLiabilities / equity) else None
  }

  datatype Verdict = InsufficientData | LikelyCompliant | LowCompliance

  /** The two ratios, in percent, and the verdict. */
  datatype Screening = Screening(interestRatio: real, debtRatio: real, verdict: Verdict)

  /** The Shariah decision over revenue, interest income, total debt and
      market capitalisation. */
  function Shariah(revenue: real, interest: real, debt: real, marketCap: real): (r: Screening)
    ensures r.verdict == InsufficientData <==> revenue == 0.0 || marketCap == 0.0
    ensures r.verdict == InsufficientData ==> r.interestRatio == 0.0 && r.debtRatio == 0.0
    ensures r.verdict != InsufficientData ==>
      r.interestRatio * revenue == interest * 100.0 && r.debtRatio * marketCap == debt * 100.0
    ensures r.verdict != InsufficientData ==>
      (r.verdict == LikelyCompliant <==> r.interestRatio < 5.0 && r.debtRatio < 33.0)
  {
    if revenue == 0.0 || marketCap == 0.0 then Screening(0.0, 0.0, InsufficientData)
    else
      var interestRatio := (interest / revenue) * 100.0;
      var debtRatio := (debt / marketCap) * 100.0;
      Screening(interestRatio, debtRatio, if interestRatio < 5.0 && debtRatio < 33.0 then LikelyCompliant else LowCompliance)
  }

  /** For positive revenue and market value the rule needs no division:
      interest below 5% of revenue and debt below 33% of market value. */
  lemma ShariahWithoutDivision(revenue: real, interest: real, debt: real, marketCap: real)
    requires revenue > 0.0 && marketCap > 0.0
    ensures Shariah(revenue, interest, debt, marketCap).verdict == LikelyCompliant
      <==> interest * 100.0 < 5.0 * revenue && debt * 100.0 < 33.0 * marketCap
  {
    var r := Shariah(revenue, interest, debt, marketCap);
    assert r.interestRatio < 5.0 <==> r.interestRatio * revenue < 5.0 * revenue;
    assert r.debtRatio < 33.0 <==> r.debtRatio * marketCap < 33.0 * marketCap;
  }

  /** Less debt never turns a likely-compliant stock into a low-compliance one. */
  lemma ShariahMonotoneInDebt(revenue: real, interest: real, debt: real, less: real, marketCap: real)
    requires revenue > 0.0 && marketCap > 0.0 && less <= debt
    requires Shariah(revenue, interest, debt, marketCap).verdict == LikelyCompliant
    ensures Shariah(revenue, interest, less, marketCap).verdict == LikelyCompliant
  {
    ShariahWithoutDivision(revenue, interest, debt, marketCap);
    ShariahWithoutDivision(revenue, interest, less, marketCap);
  }
}
