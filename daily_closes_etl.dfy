/** The daily-closes loader: for every configured date, fetch a daily bar for
    each ticker that has no close stored on that date yet, and upsert what
    came back. Dates are day numbers; a bar's timestamp is in seconds from the
    start of day 0. */
module DailyClosesEtl {
  import opened Wrappers
  import opened Text
  import opened Upserts
  import opened Seqs
  import TickerService

  // ---------------------------------------------------------------------
  // The configured dates

  /** `(START_DATE, END_DATE)`: both environment values when both are set and
      non-empty (`parseDate` stands for `strptime`), otherwise today twice. */
  function DateRange(startEnv: string, endEnv: string, parseDate: string -> int, today: int): (range: (int, int))
    ensures startEnv == "" || endEnv == "" ==> range == (today, today)
    ensures startEnv != "" && endEnv != "" ==> range == (parseDate(startEnv), parseDate(endEnv))
  {
    if startEnv != "" && endEnv != "" then (parseDate(startEnv), parseDate(endEnv)) else (today, today)
  }

  /** Every day from `start` to `end`, both included. */
  function Days(start: int, end: int): (days: seq<int>)
    ensures |days| == if start <= end then end - start + 1 else 0
    ensures forall i :: 0 <= i < |days| ==> days[i] == start + i
  {
    if start <= end then seq(end - start + 1, i => start + i) else []
  }

  /** `_date_list`: the loop that appends a day and steps one day on. */
  method DateList(start: int, end: int) returns (dates: seq<int>)
    ensures dates == Days(start, end)
  {
    dates := [];
    var current := start;
    while current <= end
      invariant start <= current && (start <= end ==> current <= end + 1) && (start > end ==> current == start)
      invariant |dates| == current - start
      invariant forall i :: 0 <= i < |dates| ==> dates[i] == start + i
      decreases end - current
    {
      dates := dates + [current];
      current := current + 1;
    }
    assert |dates| == |Days(start, end)|;
    assert forall i :: 0 <= i < |dates| ==> dates[i] == Days(start, end)[i];
  }

  /** The list is strictly increasing by one day, holds exactly the days
      between the bounds, and is empty when the start is after the end;
      without both environment values it is today alone. */
  lemma DaysProperties(start: int, end: int, today: int, parseDate: string -> int)
    ensures var days := Days(start, end);
      (forall i :: 0 < i < |days| ==> days[i] == days[i - 1] + 1)
      && (forall d :: d in days <==> start <= d <= end)
      && (days == [] <==> start > end)
    ensures var (s, e) := DateRange("", "", parseDate, today); Days(s, e) == [today]
  {
    var days := Days(start, end);
    forall d | start <= d <= end ensures d in days {
      assert days[d - start] == d;
    }
  }

  // ---------------------------------------------------------------------
  // Ticker split

  /** `is_saudi` and `api_symbol`: a ticker ending in `.SR` in any case is
      Saudi and is sent without its suffix (everything before the first dot). */
  function SaudiSplit(sym: string): (r: (bool, string))
    ensures r.0 <==> EndsWith(Upper(sym), ".SR")
    ensures r.0 ==> r.1 == BeforeFirst(sym, '.') && '.' !in r.1 && |r.1| < |sym|
    ensures !r.0 ==> r.1 == sym
  {
    var isSaudi := EndsWith(Upper(sym), ".SR");
    if isSaudi then
      assert sym[|sym| - 3] == '.' by {
        assert Upper(sym)[|sym| - 3] == '.';
      }
      assert '.' in sym;
      (true, BeforeFirst(sym, '.'))
    else (false, sym)
  }

  /** A code without a dot followed by `.SR` or `.sr` splits into itself. */
  lemma SaudiSplitOfCode(code: string, suffix: string)
    requires '.' !in code
    requires suffix == ".SR" || suffix == ".sr"
    ensures SaudiSplit(code + suffix) == (true, code)
  {
    var s := code + suffix;
    assert Upper(s)[|s| - 3..] == ".SR" by {
      assert s[|s| - 3..] == suffix;
    }
    FirstIndexAfter(code, '.', suffix[1..]);
    assert s == code + ['.'] + suffix[1..];
    assert s[..|code|] == code;
  }

  /** The split agrees with the bot's own parsing: the database symbol of a
      Saudi ticker splits into its api symbol. */
  lemma SaudiSplitAgreesWithParse(raw: string)
    requires TickerService.ParseSymbol(raw).isSaudi
    ensures SaudiSplit(TickerService.ParseSymbol(raw).db) == (true, TickerService.ParseSymbol(raw).api)
  {
    var p := TickerService.ParseSymbol(raw);
    assert forall i :: 0 <= i < |p.api| ==> IsDigit(p.api[i]);
    SaudiSplitOfCode(p.api, ".SR");
  }

  // ---------------------------------------------------------------------
  // Picking the bar

  /** One bar of a daily time series. */
  datatype Bar = Bar(stamp: int, open: real, high: real, low: real, close: real, volume: Option<int>)

  /** `.dt.date`: the day a timestamp falls on. */
  function DayOf(stamp: int): int
  {
    stamp / 86400
  }

  /** The index of the first bar dated `target`, if any. */
  function FirstOnDay(frame: seq<Bar>, target: int): (r: Option<nat>)
    ensures r.Some? ==> r.value < |frame| && DayOf(frame[r.value].stamp) == target
    ensures r.Some? ==> forall j :: 0 <= j < r.value ==> DayOf(frame[j].stamp) != target
    ensures r.None? ==> forall j :: 0 <= j < |frame| ==> DayOf(frame[j].stamp) != target
  {
    if frame == [] then None
    else if DayOf(frame[0].stamp) == target then Some(0)
    else
      match FirstOnDay(frame[1..], target)
      case Some(i) => Some(i + 1)
      case None => None
  }

  /** `sel.iloc[0] if not sel.empty else df.iloc[-1]` over the sorted frame; an
      empty frame raises, given as None. */
  function SelectRow(frame: seq<Bar>, target: int): (r: Option<Bar>)
    ensures r.None? <==> frame == []
    ensures r.Some? && DayOf(r.value.stamp) != target ==> r.value == frame[|frame| - 1]
  {
    match FirstOnDay(frame, target)
    case Some(i) => Some(frame[i])
    case None => if frame == [] then None else Some(frame[|frame| - 1])
  }

  /** Bars in time order, as `sort_values('datetime')` leaves them. */
  ghost predicate InTimeOrder(frame: seq<Bar>)
  {
    forall i, j :: 0 <= i < j < |frame| ==> frame[i].stamp <= frame[j].stamp
  }

  /** On a sorted frame the selected bar is the earliest bar of the target day
      when there is one, and otherwise the latest bar of all. */
  lemma SelectRowSorted(frame: seq<Bar>, target: int)
    requires InTimeOrder(frame) && frame != []
    ensures var r := SelectRow(frame, target).value;
      (exists i :: 0 <= i < |frame| && DayOf(frame[i].stamp) == target)
      ==> DayOf(r.stamp) == target && forall j :: 0 <= j < |frame| && DayOf(frame[j].stamp) == target ==> r.stamp <= frame[j].stamp
    ensures var r := SelectRow(frame, target).value;
      (forall i :: 0 <= i < |frame| ==> DayOf(frame[i].stamp) != target)
      ==> forall j :: 0 <= j < |frame| ==> frame[j].stamp <= r.stamp
  {
    match FirstOnDay(frame, target)
    case Some(i) =>
    case None =>
  }

  /** A stored close: `(symbol, trade_date, open, high, low, close, volume)`. */
  datatype DailyClose = DailyClose(symbol: string, tradeDate: int, open: real, high: real, low: real, close: real, volume: Option<int>)

  /** `(symbol, trade_date)`. */
  function CloseKey(c: DailyClose): (string, int)
  {
    (c.symbol, c.tradeDate)
  }

  /** What the time-series call gives for an api symbol and Saudi flag: the
      bars after sorting, or None when the call raises. */
  type Frames = (string, bool) -> Option<seq<Bar>>

  /** `fetch_symbol_data`; None when it raises. The close carries the bar's
      own day, which is not the target day when the fallback bar was taken. */
  function FetchSymbolData(sym: string, target: int, frames: Frames): (r: Option<DailyClose>)
    ensures r.Some? ==> r.value.symbol == sym
    ensures r.Some? <==> frames(SaudiSplit(sym).1, SaudiSplit(sym).0).Some? && frames(SaudiSplit(sym).1, SaudiSplit(sym).0).value != []
    ensures r.Some? ==>
      var b := SelectRow(frames(SaudiSplit(sym).1, SaudiSplit(sym).0).value, target).value;
      r.value == DailyClose(sym, DayOf(b.stamp), b.open, b.high, b.low, b.close, b.volume)
  {
    var (isSaudi, api) := SaudiSplit(sym);
    match frames(api, isSaudi)
    case None => None
    case Some(frame) =>
      match SelectRow(frame, target)
      case None => None
      case Some(b) => Some(DailyClose(sym, DayOf(b.stamp), b.open, b.high, b.low, b.close, b.volume))
  }

  // ---------------------------------------------------------------------
  // The refresh loop

  type Closes = map<(string, int), DailyClose>

  /** `get_existing(target)`: the symbols with a close stored on `target`. */
  function Existing(t: Closes, target: int): set<string>
  {
    set k | k in t && k.1 == target :: k.0
  }

  /** `set(all_syms) - get_existing(target)`. */
  function Missing(t: Closes, syms: seq<string>, target: int): set<string>
  {
    (set s | s in syms) - Existing(t, target)
  }

  /** The fetch of every symbol for one target date. */
  type Fetcher = string -> Option<DailyClose>

  function FetchFor(target: int, frames: Frames): Fetcher
  {
    s => FetchSymbolData(s, target, frames)
  }

  /** A fetch returns closes of the symbol it was asked for. */
  ghost predicate Honest(fetch: Fetcher)
  {
    forall s :: fetch(s).Some? ==> fetch(s).value.symbol == s
  }

  /** The symbols of `m` whose fetch succeeds. */
  function Fetched(m: set<string>, fetch: Fetcher): set<string>
  {
    set s | s in m && fetch(s).Some?
  }

  /** The table after upserting the close of every symbol in `f`. */
  function Stored(t: Closes, f: set<string>, fetch: Fetcher): Closes
    requires Honest(fetch)
    requires forall s :: s in f ==> fetch(s).Some?
  {
    var keys := set s | s in f :: CloseKey(fetch(s).value);
    assert forall k :: k in keys ==> k.0 in f;
    t + map k | k in keys :: fetch(k.0).value
  }

  // ---------------------------------------------------------------------
  // Completion order and the batch

  /** No symbol is listed twice. */
  ghost predicate NoRepeats(xs: seq<string>)
  {
    forall i, j :: 0 <= i < j < |xs| ==> xs[i] != xs[j]
  }

  /** The order in which the fetches submitted for one target date finish
      (`as_completed`); it depends on the thread pool and the network, so it
      is a parameter. `ListsEach` says it lists every ticker once. */
  type Order = int -> seq<string>

  ghost predicate ListsEach(xs: seq<string>, syms: seq<string>)
  {
    NoRepeats(xs) && forall s :: s in syms ==> s in xs
  }

  function Elems(xs: seq<string>): set<string>
  {
    set s | s in xs
  }

  /** The missing symbols, in the order their fetches finish. */
  function Completion(xs: seq<string>, m: set<string>): (r: seq<string>)
    ensures forall s :: s in r <==> s in xs && s in m
  {
    if xs == [] then []
    else
      var n := |xs| - 1;
      assert xs == xs[..n] + [xs[n]];
      Completion(xs[..n], m) + (if xs[n] in m then [xs[n]] else [])
  }

  /** The closes gathered from fetches finishing in the order `done`: one per
      fetch that came back, in that order. */
  function Batch(done: seq<string>, fetch: Fetcher): (rows: seq<DailyClose>)
    ensures |rows| <= |done|
  {
    if done == [] then []
    else
      var n := |done| - 1;
      Batch(done[..n], fetch) + (if fetch(done[n]).Some? then [fetch(done[n]).value] else [])
  }

  /** The batch of one target date: the fetches of the missing symbols, in
      completion order. */
  function DateBatch(t: Closes, syms: seq<string>, target: int, frames: Frames, xs: seq<string>): seq<DailyClose>
  {
    Batch(Completion(xs, Missing(t, syms, target)), FetchFor(target, frames))
  }

  /** The symbols a batch holds closes of. */
  function Symbols(rows: seq<DailyClose>): set<string>
  {
    set i | 0 <= i < |rows| :: rows[i].symbol
  }

  /** One target date: skipped when nothing is missing; otherwise every
      missing symbol is fetched and the closes that came back are upserted
      page by page, `outcome` saying whether a page fails (the pages before it
      stay stored, the error is only logged); their number is added to the
      total either way. */
  function Step(t: Closes, syms: seq<string>, target: int, frames: Frames, xs: seq<string>, outcome: Outcome): (r: (Closes, nat))
    requires ListsEach(xs, syms)
  {
    var m := Missing(t, syms, target);
    var rows := DateBatch(t, syms, target, frames, xs);
    if m == {} || rows == [] then (t, 0)
    else
      DateBatchDistinct(t, syms, target, frames, xs);
      (UpsertPages(t, rows, CloseKey, outcome), |rows|)
  }

  /** The whole run over `dates`, in order; `order(d)` and `outcome(d)` are
      the completion order and the insert's outcome for date `d`. */
  function Run(t: Closes, syms: seq<string>, dates: seq<int>, frames: Frames, order: Order, outcome: int -> Outcome): (Closes, nat)
    requires forall d :: d in dates ==> ListsEach(order(d), syms)
  {
    if dates == [] then (t, 0)
    else
      var n := |dates| - 1;
      var (t1, total) := Run(t, syms, dates[..n], frames, order, outcome);
      var (t2, count) := Step(t1, syms, dates[n], frames, order(dates[n]), outcome(dates[n]));
      (t2, total + count)
  }

  /** A batch gathered for `target`: one close per symbol of `f`, each as the
      fetch gave it. */
  ghost predicate BatchOf(rows: seq<DailyClose>, f: set<string>, fetch: Fetcher)
  {
    (forall i :: 0 <= i < |rows| ==> rows[i].symbol in f && fetch(rows[i].symbol) == Some(rows[i]))
    && (forall s :: s in f ==> exists i :: 0 <= i < |rows| && rows[i].symbol == s)
    && (forall i, j :: 0 <= i < j < |rows| ==> rows[i].symbol != rows[j].symbol)
  }

  /** Upserting a batch, in whatever order it was gathered, gives `Stored`. */
  lemma UpsertBatch(t: Closes, rows: seq<DailyClose>, f: set<string>, fetch: Fetcher)
    requires BatchOf(rows, f, fetch)
    requires Honest(fetch) && forall s :: s in f ==> fetch(s).Some?
    ensures DistinctKeys(rows, CloseKey)
    ensures Upsert(t, rows, CloseKey) == Stored(t, f, fetch)
  {
    StoredWithinUpsert(t, rows, f, fetch);
    UpsertWithinStored(t, rows, f, fetch);
  }

  /** Closes of distinct symbols have distinct keys. */
  lemma BatchDistinctKeys(rows: seq<DailyClose>, f: set<string>, fetch: Fetcher)
    requires BatchOf(rows, f, fetch)
    ensures DistinctKeys(rows, CloseKey)
  {
    forall i, j | 0 <= i < j < |rows|
      ensures CloseKey(rows[i]) != CloseKey(rows[j])
    {
      assert rows[i].symbol != rows[j].symbol;
    }
  }

  lemma StoredWithinUpsert(t: Closes, rows: seq<DailyClose>, f: set<string>, fetch: Fetcher)
    requires BatchOf(rows, f, fetch)
    requires Honest(fetch) && forall s :: s in f ==> fetch(s).Some?
    ensures DistinctKeys(rows, CloseKey)
    ensures var u := Upsert(t, rows, CloseKey);
      forall k :: k in Stored(t, f, fetch) ==> k in u && u[k] == Stored(t, f, fetch)[k]
  {
    BatchDistinctKeys(rows, f, fetch);
    var u := Upsert(t, rows, CloseKey);
    var st := Stored(t, f, fetch);
    forall k | k in st ensures k in u && u[k] == st[k] {
      if exists s :: s in f && CloseKey(fetch(s).value) == k {
        var s :| s in f && CloseKey(fetch(s).value) == k;
        StoredFetched(t, rows, f, fetch, s);
      } else {
        UpsertKeepsUnfetched(t, rows, f, fetch, k);
      }
    }
  }

  /** A key that is the key of no fetched close keeps its old entry. */
  lemma UpsertKeepsUnfetched(t: Closes, rows: seq<DailyClose>, f: set<string>, fetch: Fetcher, k: (string, int))
    requires BatchOf(rows, f, fetch) && DistinctKeys(rows, CloseKey)
    requires k in t && forall s :: s in f ==> fetch(s).Some? && CloseKey(fetch(s).value) != k
    ensures k in Upsert(t, rows, CloseKey) && Upsert(t, rows, CloseKey)[k] == t[k]
  {
    forall i | 0 <= i < |rows| ensures CloseKey(rows[i]) != k {
      assert rows[i].symbol in f && fetch(rows[i].symbol) == Some(rows[i]);
    }
  }

  /** The close of a fetched symbol is stored under its key. */
  lemma StoredFetched(t: Closes, rows: seq<DailyClose>, f: set<string>, fetch: Fetcher, s: string)
    requires BatchOf(rows, f, fetch) && DistinctKeys(rows, CloseKey)
    requires Honest(fetch) && forall s :: s in f ==> fetch(s).Some?
    requires s in f
    ensures var k := CloseKey(fetch(s).value);
      k in Upsert(t, rows, CloseKey) && Upsert(t, rows, CloseKey)[k] == fetch(s).value
      && k in Stored(t, f, fetch) && Stored(t, f, fetch)[k] == fetch(s).value
  {
    UpsertHasFetched(t, rows, f, fetch, s);
    StoredHasFetched(t, f, fetch, s);
  }

  lemma UpsertHasFetched(t: Closes, rows: seq<DailyClose>, f: set<string>, fetch: Fetcher, s: string)
    requires BatchOf(rows, f, fetch) && DistinctKeys(rows, CloseKey)
    requires s in f
    ensures fetch(s).Some?
    ensures var k := CloseKey(fetch(s).value);
      k in Upsert(t, rows, CloseKey) && Upsert(t, rows, CloseKey)[k] == fetch(s).value
  {
    var i :| 0 <= i < |rows| && rows[i].symbol == s;
    assert fetch(s) == Some(rows[i]);
  }

  lemma StoredHasFetched(t: Closes, f: set<string>, fetch: Fetcher, s: string)
    requires Honest(fetch) && forall s :: s in f ==> fetch(s).Some?
    requires s in f
    ensures var k := CloseKey(fetch(s).value);
      k in Stored(t, f, fetch) && Stored(t, f, fetch)[k] == fetch(s).value
  {
    assert CloseKey(fetch(s).value) in set s | s in f :: CloseKey(fetch(s).value);
  }

  lemma UpsertWithinStored(t: Closes, rows: seq<DailyClose>, f: set<string>, fetch: Fetcher)
    requires BatchOf(rows, f, fetch)
    requires Honest(fetch) && forall s :: s in f ==> fetch(s).Some?
    requires DistinctKeys(rows, CloseKey)
    ensures forall k :: k in Upsert(t, rows, CloseKey) ==> k in Stored(t, f, fetch)
  {
    var u := Upsert(t, rows, CloseKey);
    var st := Stored(t, f, fetch);
    forall k | k in u ensures k in st {
      if k !in t {
        var i :| 0 <= i < |rows| && CloseKey(rows[i]) == k;
        assert rows[i].symbol in f;
      }
    }
  }

  /** Fetching one more symbol adds it to the fetched set exactly when its
      fetch succeeds. */
  lemma FetchedAdd(done: set<string>, s: string, fetch: Fetcher)
    requires s !in done
    ensures Fetched(done + {s}, fetch)
      == Fetched(done, fetch) + (if fetch(s).Some? then {s} else {})
    ensures s !in Fetched(done, fetch)
  {
  }

  /** A close of a new symbol, as fetched, extends a batch by that symbol. */
  lemma BatchAppend(rows: seq<DailyClose>, f: set<string>, s: string, fetch: Fetcher)
    requires Honest(fetch) && s !in f && fetch(s).Some?
    requires BatchOf(rows, f, fetch)
    ensures BatchOf(rows + [fetch(s).value], f + {s}, fetch)
  {
    var rows2 := rows + [fetch(s).value];
    assert forall i :: 0 <= i < |rows| ==> rows2[i] == rows[i];
    assert rows2[|rows|] == fetch(s).value;
    forall x | x in f + {s} ensures exists i :: 0 <= i < |rows2| && rows2[i].symbol == x {
      if x == s {
        assert rows2[|rows|].symbol == s;
      } else {
        var i :| 0 <= i < |rows| && rows[i].symbol == x;
        assert rows2[i].symbol == x;
      }
    }
    forall i, j | 0 <= i < j < |rows2| ensures rows2[i].symbol != rows2[j].symbol {
      if j == |rows| {
        assert rows2[i].symbol in f;
      }
    }
  }

  /** Filtering keeps the list free of repeats. */
  lemma {:induction false} CompletionNoRepeats(xs: seq<string>, m: set<string>)
    requires NoRepeats(xs)
    ensures NoRepeats(Completion(xs, m))
    decreases |xs|
  {
    if xs != [] {
      var n := |xs| - 1;
      assert NoRepeats(xs[..n]);
      CompletionNoRepeats(xs[..n], m);
      assert xs[n] !in xs[..n];
    }
  }

  /** The batch of fetches finishing in a repeat-free order holds one close
      per symbol whose fetch came back, and nothing else. */
  lemma {:induction false} BatchCovers(done: seq<string>, fetch: Fetcher)
    requires Honest(fetch) && NoRepeats(done)
    ensures |Batch(done, fetch)| == |Fetched(Elems(done), fetch)|
    ensures BatchOf(Batch(done, fetch), Fetched(Elems(done), fetch), fetch)
    decreases |done|
  {
    if done != [] {
      var n := |done| - 1;
      NoRepeatsInit(done);
      BatchCovers(done[..n], fetch);
      BatchStep(done[..n], done[n], fetch);
      assert done[..n] + [done[n]] == done;
    }
  }

  lemma NoRepeatsInit(xs: seq<string>)
    requires NoRepeats(xs) && xs != []
    ensures var n := |xs| - 1; NoRepeats(xs[..n]) && xs[n] !in Elems(xs[..n])
  {
  }

  /** One more finished fetch keeps the batch exact. */
  lemma BatchStep(init: seq<string>, x: string, fetch: Fetcher)
    requires Honest(fetch) && x !in Elems(init)
    requires |Batch(init, fetch)| == |Fetched(Elems(init), fetch)|
    requires BatchOf(Batch(init, fetch), Fetched(Elems(init), fetch), fetch)
    ensures |Batch(init + [x], fetch)| == |Fetched(Elems(init + [x]), fetch)|
    ensures BatchOf(Batch(init + [x], fetch), Fetched(Elems(init + [x]), fetch), fetch)
  {
    BatchSnoc(init, x, fetch);
    ElemsSnoc(init, x);
    FetchedAdd(Elems(init), x, fetch);
    if fetch(x).Some? {
      BatchAppend(Batch(init, fetch), Fetched(Elems(init), fetch), x, fetch);
    } else {
      AppendEmpty(Batch(init, fetch));
    }
  }

  lemma ElemsSnoc(xs: seq<string>, x: string)
    ensures Elems(xs + [x]) == Elems(xs) + {x}
  {
  }

  lemma BatchSnoc(init: seq<string>, x: string, fetch: Fetcher)
    ensures Batch(init + [x], fetch) == Batch(init, fetch) + (if fetch(x).Some? then [fetch(x).value] else [])
  {
    assert (init + [x])[..|init|] == init;
  }

  /** The batch of one date has distinct keys. */
  lemma DateBatchDistinct(t: Closes, syms: seq<string>, target: int, frames: Frames, xs: seq<string>)
    requires ListsEach(xs, syms)
    ensures DistinctKeys(DateBatch(t, syms, target, frames, xs), CloseKey)
  {
    var c := Completion(xs, Missing(t, syms, target));
    CompletionNoRepeats(xs, Missing(t, syms, target));
    BatchCovers(c, FetchFor(target, frames));
    BatchDistinctKeys(DateBatch(t, syms, target, frames, xs), Fetched(Elems(c), FetchFor(target, frames)), FetchFor(target, frames));
  }

  /** When the order lists every ticker, the batch of a date holds one close
      per missing symbol whose fetch came back. */
  lemma DateBatchCovers(t: Closes, syms: seq<string>, target: int, frames: Frames, xs: seq<string>)
    requires ListsEach(xs, syms)
    ensures var f := Fetched(Missing(t, syms, target), FetchFor(target, frames));
      var rows := DateBatch(t, syms, target, frames, xs);
      |rows| == |f| && BatchOf(rows, f, FetchFor(target, frames))
  {
    var m := Missing(t, syms, target);
    var c := Completion(xs, m);
    CompletionNoRepeats(xs, m);
    BatchCovers(c, FetchFor(target, frames));
    assert Elems(c) == m;
  }

  /** A batch holds one close per symbol of its set, so it is as long as the
      set is large. */
  lemma {:induction false} BatchSize(rows: seq<DailyClose>, f: set<string>, fetch: Fetcher)
    requires BatchOf(rows, f, fetch)
    ensures |rows| == |f|
    decreases |rows|
  {
    if rows == [] {
      assert forall s :: s !in f;
    } else {
      var n := |rows| - 1;
      BatchInit(rows, f, fetch);
      BatchSize(rows[..n], f - {rows[n].symbol}, fetch);
    }
  }

  /** Dropping the last close drops its symbol. */
  lemma BatchInit(rows: seq<DailyClose>, f: set<string>, fetch: Fetcher)
    requires BatchOf(rows, f, fetch) && rows != []
    ensures var n := |rows| - 1;
      rows[n].symbol in f && BatchOf(rows[..n], f - {rows[n].symbol}, fetch)
  {
    var n := |rows| - 1;
    var init := rows[..n];
    forall s | s in f - {rows[n].symbol} ensures exists i :: 0 <= i < |init| && init[i].symbol == s {
      var i :| 0 <= i < |rows| && rows[i].symbol == s;
      assert init[i].symbol == s;
    }
    forall i | 0 <= i < |init| ensures init[i].symbol in f - {rows[n].symbol} {
      assert init[i] == rows[i];
    }
  }

  /** The first `k` closes of a batch are a batch of their own symbols, which
      are `k` symbols of the whole batch's set. */
  lemma BatchPrefix(rows: seq<DailyClose>, f: set<string>, fetch: Fetcher, k: nat)
    requires BatchOf(rows, f, fetch) && k <= |rows|
    ensures BatchOf(rows[..k], Symbols(rows[..k]), fetch)
    ensures Symbols(rows[..k]) <= f && |Symbols(rows[..k])| == k
  {
    var p := rows[..k];
    assert forall i :: 0 <= i < k ==> p[i] == rows[i];
    forall s | s in Symbols(p) ensures exists i :: 0 <= i < |p| && p[i].symbol == s {
      var i :| 0 <= i < |p| && p[i].symbol == s;
    }
    BatchSize(p, Symbols(p), fetch);
  }

  /** The batch's symbols are its whole set. */
  lemma BatchSymbols(rows: seq<DailyClose>, f: set<string>, fetch: Fetcher)
    requires BatchOf(rows, f, fetch)
    ensures Symbols(rows) == f
  {
    forall s | s in f ensures s in Symbols(rows) {
      var i :| 0 <= i < |rows| && rows[i].symbol == s;
    }
  }

  /** The fetch loop `for fut in as_completed(futures)`: one call per missing
      symbol, in the order the fetches finish, keeping the closes that came
      back. */
  method GatherBatch(completed: seq<string>, fetch: Fetcher) returns (rows: seq<DailyClose>)
    ensures rows == Batch(completed, fetch)
  {
    rows := [];
    for i := 0 to |completed|
      invariant rows == Batch(completed[..i], fetch)
    {
      var data := fetch(completed[i]);
      PrefixInit(completed, i);
      if data.Some? {
        rows := rows + [data.value];
      }
    }
    assert completed[..|completed|] == completed;
  }

  /** The body of the date loop of `refresh_daily_closes` for one target. */
  method ProcessDate(table: ClosesTable, syms: seq<string>, target: int, frames: Frames, xs: seq<string>, outcome: Outcome)
    returns (count: nat)
    requires ListsEach(xs, syms)
    modifies table
    ensures (table.rows, count) == Step(old(table.rows), syms, target, frames, xs, outcome)
  {
    var missing := Missing(table.rows, syms, target);
    if missing == {} {
      return 0;
    }
    var rows := GatherBatch(Completion(xs, missing), FetchFor(target, frames));
    if rows != [] {
      DateBatchDistinct(table.rows, syms, target, frames, xs);
      table.InsertDailyCloses(rows, outcome);
      count := |rows|;
    } else {
      count := 0;
    }
  }

  /** The `daily_closes` table, keyed by `(symbol, trade_date)`. */
  class ClosesTable {
    var rows: Closes

    constructor ()
      ensures rows == map[]
    {
      rows := map[];
    }

    /** `insert_daily_closes`: one upsert, sent page by page on a connection
        in autocommit mode; `outcome` says whether a page fails, in which case
        the pages before it stay stored (`rollback` changes nothing) and the
        error is only logged. */
    method InsertDailyCloses(batch: seq<DailyClose>, outcome: Outcome)
      requires DistinctKeys(batch, CloseKey)
      modifies this
      ensures rows == UpsertPages(old(rows), batch, CloseKey, outcome)
    {
      rows := UpsertPages(rows, batch, CloseKey, outcome);
    }
  }

  /** `refresh_daily_closes` over the configured `dates`; `syms` stands for
      `get_tickers()`. */
  method RefreshDailyCloses(table: ClosesTable, syms: seq<string>, dates: seq<int>, frames: Frames, order: Order, outcome: int -> Outcome)
    returns (total: nat)
    requires forall d :: d in dates ==> ListsEach(order(d), syms)
    modifies table
    ensures (table.rows, total) == Run(old(table.rows), syms, dates, frames, order, outcome)
  {
    total := 0;
    for i := 0 to |dates|
      invariant table.rows == Run(old(table.rows), syms, dates[..i], frames, order, outcome).0
      invariant total == Run(old(table.rows), syms, dates[..i], frames, order, outcome).1
    {
      RunPrefix(old(table.rows), syms, dates, i, frames, order, outcome);
      var count := ProcessDate(table, syms, dates[i], frames, order(dates[i]), outcome(dates[i]));
      total := total + count;
    }
    assert dates[..|dates|] == dates;
  }

  /** The run over one more date is the run so far followed by that date's
      step. */
  lemma RunPrefix(t: Closes, syms: seq<string>, dates: seq<int>, i: nat, frames: Frames, order: Order, outcome: int -> Outcome)
    requires i < |dates| && forall d :: d in dates ==> ListsEach(order(d), syms)
    ensures forall d :: d in dates[..i] ==> ListsEach(order(d), syms)
    ensures forall d :: d in dates[..i + 1] ==> ListsEach(order(d), syms)
    ensures var before := Run(t, syms, dates[..i], frames, order, outcome);
      var step := Step(before.0, syms, dates[i], frames, order(dates[i]), outcome(dates[i]));
      Run(t, syms, dates[..i + 1], frames, order, outcome).0 == step.0
      && Run(t, syms, dates[..i + 1], frames, order, outcome).1 == before.1 + step.1
  {
    assert dates[..i + 1][..i] == dates[..i];
  }

  /** The symbols whose closes a date's insert stored: those of the pages sent
      before a failing one, or all of them. */
  function SentSymbols(t: Closes, syms: seq<string>, target: int, frames: Frames, xs: seq<string>, outcome: Outcome): set<string>
  {
    Symbols(Sent(DateBatch(t, syms, target, frames, xs), outcome))
  }

  /** A date's count is the number of missing symbols whose fetch succeeded,
      whether or not a page of the insert fails. The table afterwards holds
      the closes of the sent symbols on top of the old entries: all fetched
      symbols when no page fails, otherwise as many as the pages before the
      failing one hold. Rows are never removed. */
  lemma StepProperties(t: Closes, syms: seq<string>, target: int, frames: Frames, xs: seq<string>, outcome: Outcome)
    requires ListsEach(xs, syms)
    ensures var (t2, count) := Step(t, syms, target, frames, xs, outcome);
      var f := Fetched(Missing(t, syms, target), FetchFor(target, frames));
      var sent := SentSymbols(t, syms, target, frames, xs, outcome);
      count == |f|
      && sent <= f
      && (sent == f <==> !Interrupted(outcome, count))
      && (Interrupted(outcome, count) ==> |sent| == outcome.page * PageSize)
      && t2 == Stored(t, sent, FetchFor(target, frames))
      && t.Keys <= t2.Keys
  {
    StepStored(t, syms, target, frames, xs, outcome);
  }

  /** The step, stated through `Stored`. */
  lemma StepStored(t: Closes, syms: seq<string>, target: int, frames: Frames, xs: seq<string>, outcome: Outcome)
    requires ListsEach(xs, syms)
    ensures var f := Fetched(Missing(t, syms, target), FetchFor(target, frames));
      var rows := DateBatch(t, syms, target, frames, xs);
      var sent := SentSymbols(t, syms, target, frames, xs, outcome);
      |rows| == |f| && sent <= f && |sent| == |Sent(rows, outcome)|
      && (!Interrupted(outcome, |rows|) ==> sent == f)
      && Step(t, syms, target, frames, xs, outcome).1 == |f|
      && Step(t, syms, target, frames, xs, outcome).0 == Stored(t, sent, FetchFor(target, frames))
  {
    var fetch := FetchFor(target, frames);
    var rows := DateBatch(t, syms, target, frames, xs);
    StepUnfold(t, syms, target, frames, xs, outcome);
    DateBatchCovers(t, syms, target, frames, xs);
    SentStored(t, rows, Fetched(Missing(t, syms, target), fetch), fetch, outcome);
    if rows == [] {
      StoredNone(t, fetch);
    }
  }

  /** The step is the paged upsert of the date's batch, or nothing when the
      batch is empty (as it is when nothing is missing). */
  lemma StepUnfold(t: Closes, syms: seq<string>, target: int, frames: Frames, xs: seq<string>, outcome: Outcome)
    requires ListsEach(xs, syms)
    ensures DistinctKeys(DateBatch(t, syms, target, frames, xs), CloseKey)
    ensures var rows := DateBatch(t, syms, target, frames, xs);
      Step(t, syms, target, frames, xs, outcome)
        == if rows == [] then (t, 0) else (UpsertPages(t, rows, CloseKey, outcome), |rows|)
  {
    DateBatchDistinct(t, syms, target, frames, xs);
    if Missing(t, syms, target) == {} {
      CompletionNone(xs, Missing(t, syms, target));
    }
  }

  /** Nothing missing, nothing fetched. */
  lemma CompletionNone(xs: seq<string>, m: set<string>)
    requires m == {}
    ensures Completion(xs, m) == []
  {
    HeadMember(Completion(xs, m));
  }

  /** Upserting the pages of a batch that were sent stores exactly the closes
      of the symbols they hold: all of the batch's symbols unless a page
      failed. */
  lemma SentStored(t: Closes, rows: seq<DailyClose>, f: set<string>, fetch: Fetcher, outcome: Outcome)
    requires BatchOf(rows, f, fetch) && Honest(fetch)
    ensures DistinctKeys(rows, CloseKey)
    ensures var sent := Symbols(Sent(rows, outcome));
      sent <= f && |sent| == |Sent(rows, outcome)|
      && (!Interrupted(outcome, |rows|) ==> sent == f)
      && UpsertPages(t, rows, CloseKey, outcome) == Stored(t, sent, fetch)
  {
    BatchDistinctKeys(rows, f, fetch);
    var k := |Sent(rows, outcome)|;
    BatchPrefix(rows, f, fetch, k);
    assert rows[..k] == Sent(rows, outcome);
    UpsertBatch(t, rows[..k], Symbols(rows[..k]), fetch);
    if !Interrupted(outcome, |rows|) {
      BatchSymbols(rows, f, fetch);
    }
  }

  /** An empty batch stores nothing. */
  lemma StoredNone(t: Closes, fetch: Fetcher)
    requires Honest(fetch)
    ensures Symbols([]) == {} && Stored(t, Symbols([]), fetch) == t
  {
    assert Symbols([]) == {};
  }

  /** After a date, every sent symbol whose close fell on the target is no
      longer missing, and every missing symbol that was not sent (its fetch
      failed, its page failed or came after the failing one) is still missing,
      so the next run fetches it again. */
  lemma StepMissing(t: Closes, syms: seq<string>, target: int, frames: Frames, xs: seq<string>, outcome: Outcome)
    requires ListsEach(xs, syms)
    ensures var t2 := Step(t, syms, target, frames, xs, outcome).0;
      var sent := SentSymbols(t, syms, target, frames, xs, outcome);
      (forall s :: s in sent && FetchSymbolData(s, target, frames).Some? && FetchSymbolData(s, target, frames).value.tradeDate == target
         ==> s !in Missing(t2, syms, target))
      && (forall s :: s in Missing(t, syms, target) && s !in sent ==> s in Missing(t2, syms, target))
  {
    StepProperties(t, syms, target, frames, xs, outcome);
    var sent := SentSymbols(t, syms, target, frames, xs, outcome);
    var fetch := FetchFor(target, frames);
    var t2 := Stored(t, sent, fetch);
    forall s | s in sent && FetchSymbolData(s, target, frames).Some? && FetchSymbolData(s, target, frames).value.tradeDate == target
      ensures s !in Missing(t2, syms, target)
    {
      StoredHasFetched(t, sent, fetch, s);
      assert (s, target) in t2;
    }
    forall s | s in Missing(t, syms, target) && s !in sent
      ensures s in Missing(t2, syms, target)
    {
      assert forall x :: x in sent ==> CloseKey(fetch(x).value).0 == x;
    }
  }

  /** A symbol whose fetch fell back to a bar of another day, and that had no
      close on the target, is still missing afterwards and is fetched again
      on the next run. */
  lemma FallbackStaysMissing(t: Closes, syms: seq<string>, target: int, frames: Frames, xs: seq<string>, outcome: Outcome, s: string)
    requires ListsEach(xs, syms)
    requires s in Missing(t, syms, target)
    requires FetchSymbolData(s, target, frames).Some? && FetchSymbolData(s, target, frames).value.tradeDate != target
    ensures s in Missing(Step(t, syms, target, frames, xs, outcome).0, syms, target)
  {
    StepProperties(t, syms, target, frames, xs, outcome);
  }
}
