/** `handle_message`: cleaning of the typed text, then the exact hit,
    suggestions or not-found routing. */
module Messages {
  import opened Wrappers
  import opened Text
  import opened TickerService
  import opened Queries
  import opened Base
  import opened Session

  /** `find_top_matches(raw_input)` uses its defaults. */
  const MaxSuggestions: nat := 5
  const MinScore: real := 60.0

  /** `٠` .. `٩`, U+0660 .. U+0669. */
  predicate IsArabicIndicDigit(c: char)
  {
    '٠' <= c <= '٩'
  }

  /** One character through `str.maketrans("٠١٢٣٤٥٦٧٨٩", "0123456789")`. */
  function AsciiDigit(c: char): (d: char)
    ensures IsArabicIndicDigit(c) ==> IsDigit(d) && d as int - '0' as int == c as int - '٠' as int
    ensures !IsArabicIndicDigit(c) ==> d == c
  {
    if IsArabicIndicDigit(c) then (c as int - '٠' as int + '0' as int) as char else c
  }

  /** `raw_input.translate(trans_table)`. */
  function TranslateDigits(s: string): (r: string)
    ensures |r| == |s|
    ensures forall i :: 0 <= i < |s| ==> r[i] == AsciiDigit(s[i])
  {
    seq(|s|, i requires 0 <= i < |s| => AsciiDigit(s[i]))
  }

  /** The translation maps each Arabic-Indic digit to the ASCII digit of the
      same value, leaves every other character alone, keeps the text
      trimmed, and is idempotent. */
  lemma TranslateDigitsProperties(s: string)
    ensures var r := TranslateDigits(s);
      && (forall i :: 0 <= i < |r| ==> !IsArabicIndicDigit(r[i]))
      && (forall i :: 0 <= i < |s| && !IsArabicIndicDigit(s[i]) ==> r[i] == s[i])
      && (Trimmed(s) ==> Trimmed(r))
      && TranslateDigits(r) == r
  {
  }

  /** `raw_input[1:].strip()` when the stripped text starts with `/`. */
  function Unslashed(s: string): (r: string)
    ensures Trimmed(s) ==> Trimmed(r)
    ensures |r| <= |s|
  {
    if StartsWith(s, "/") then Strip(s[1..]) else s
  }

  /** The text `handle_message` parses: stripped, one leading `/` dropped
      and the rest stripped again, then the digits translated. */
  function CleanInput(text: string): (r: string)
    ensures Trimmed(r) && |r| <= |text|
    ensures forall i :: 0 <= i < |r| ==> !IsArabicIndicDigit(r[i])
  {
    TranslateDigitsProperties(Unslashed(Strip(text)));
    TranslateDigits(Unslashed(Strip(text)))
  }

  /** A leading `/` is removed once, together with the whitespace around it;
      a second `/` stays. */
  lemma CleanInputSlash(pre: string, mid: string, core: string, post: string)
    requires AllSpaces(pre) && AllSpaces(mid) && AllSpaces(post)
    requires Trimmed(core)
    ensures CleanInput(pre + "/" + mid + core + post) == TranslateDigits(core)
  {
    var text := pre + "/" + mid + core + post;
    if core == [] {
      assert text == pre + "/" + (mid + post);
      assert AllSpaces(mid + post);
      StripPadded(pre, "/", mid + post);
      assert Strip(text)[1..] == [];
      assert Unslashed(Strip(text)) == [];
    } else {
      SlashedCore(pre, mid, core, post);
    }
  }

  lemma SlashedCore(pre: string, mid: string, core: string, post: string)
    requires AllSpaces(pre) && AllSpaces(mid) && AllSpaces(post)
    requires Trimmed(core) && core != []
    ensures Unslashed(Strip(pre + "/" + mid + core + post)) == core
  {
    var slashed := "/" + mid + core;
    SlashedShape(mid, core);
    SlashedJoin(pre, mid, core, post);
    StripPadded(pre, slashed, post);
    StripPadded(mid, core, []);
  }

  lemma SlashedShape(mid: string, core: string)
    requires Trimmed(core) && core != []
    ensures var slashed := "/" + mid + core;
      Trimmed(slashed) && StartsWith(slashed, "/") && slashed[1..] == mid + core + []
  {
    var slashed := "/" + mid + core;
    assert slashed[0] == '/' && slashed[..1] == "/";
    assert slashed[|slashed| - 1] == core[|core| - 1];
    var rest := mid + core;
    assert slashed == "/" + rest;
    assert slashed[1..] == rest;
    assert rest + [] == rest;
  }

  lemma SlashedJoin(pre: string, mid: string, core: string, post: string)
    ensures pre + "/" + mid + core + post == pre + ("/" + mid + core) + post
  {
  }

  /** Text that does not start with `/` is only stripped and translated. */
  lemma CleanInputPlain(pre: string, core: string, post: string)
    requires AllSpaces(pre) && AllSpaces(post)
    requires Trimmed(core) && !StartsWith(core, "/")
    ensures CleanInput(pre + core + post) == TranslateDigits(core)
  {
    StripPadded(pre, core, post);
  }

  /** Four digits, each ASCII or Arabic-Indic, with any surrounding
      whitespace, select the Saudi ticker with those digits. */
  lemma ArabicDigitsResolve(pre: string, code: string, post: string)
    requires AllSpaces(pre) && AllSpaces(post)
    requires |code| == 4 && forall i :: 0 <= i < 4 ==> IsDigit(code[i]) || IsArabicIndicDigit(code[i])
    ensures var ascii := TranslateDigits(code);
      AllDigits(ascii) && ParseSymbol(CleanInput(pre + code + post)) == SymbolParse(ascii + ".SR", ascii, true)
  {
    var ascii := TranslateDigits(code);
    CleanDigitCode(pre, code, post);
    DigitCodeTranslates(code);
    ParseSymbolCode(ascii);
  }

  /** Each ASCII or Arabic-Indic digit becomes an ASCII digit. */
  lemma DigitCodeTranslates(code: string)
    requires |code| == 4 && forall i :: 0 <= i < 4 ==> IsDigit(code[i]) || IsArabicIndicDigit(code[i])
    ensures |TranslateDigits(code)| == 4 && AllDigits(TranslateDigits(code))
  {
    var ascii := TranslateDigits(code);
    forall i | 0 <= i < 4
      ensures IsDigit(ascii[i])
    {
      assert ascii[i] == AsciiDigit(code[i]);
    }
  }

  /** Four bare ASCII digits select the Saudi ticker. */
  lemma ParseSymbolCode(code: string)
    requires |code| == 4 && AllDigits(code)
    ensures ParseSymbol(code) == SymbolParse(code + ".SR", code, true)
  {
    ParseSymbolSaudi([], code, [], []);
    assert [] + code + [] + [] == code;
  }

  lemma CleanDigitCode(pre: string, code: string, post: string)
    requires AllSpaces(pre) && AllSpaces(post)
    requires |code| == 4 && forall i :: 0 <= i < 4 ==> IsDigit(code[i]) || IsArabicIndicDigit(code[i])
    ensures CleanInput(pre + code + post) == TranslateDigits(code)
  {
    assert Trimmed(code);
    assert code[..1] != "/" by { assert code[..1][0] == code[0]; }
    CleanInputPlain(pre, code, post);
  }

  /** An inline keyboard button. */
  datatype Button = Button(caption: string, callbackData: string)

  /** The replies `handle_message` sends. */
  datatype Reply =
    | Selected(symbol: string)
    | Suggestions(buttons: seq<Button>)
    | NotFound(query: string)

  datatype MessageOutcome = MessageOutcome(reply: Reply, data: UserData)

  /** One button `"{name} ({sym})"` with callback data `"select_{sym}"` per
      match, in match order. */
  function SuggestionButtons(ms: seq<Match>): (bs: seq<Button>)
    ensures |bs| == |ms|
    ensures forall i :: 0 <= i < |ms| ==>
      bs[i].callbackData == "select_" + ms[i].symbol && bs[i].caption == ms[i].name + " (" + ms[i].symbol + ")"
  {
    seq(|ms|, i requires 0 <= i < |ms| => Button(ms[i].name + " (" + ms[i].symbol + ")", "select_" + ms[i].symbol))
  }

  /** The routing of `handle_message` for the cleaned text `raw`, the
      directory `rows` and the fuzzy scorer `scorer`. */
  function Route(d: UserData, raw: string, rows: seq<TickerRow>, scorer: (string, string) -> real): (r: MessageOutcome)
    ensures r.reply.Selected? <==> SymbolExists(rows, ParseSymbol(raw).db)
    ensures r.reply.Selected? ==>
      r.reply.symbol == ParseSymbol(raw).db && r.data == WithSymbol(d, ParseSymbol(raw))
    ensures !r.reply.Selected? ==> r.data == d
    ensures r.reply.Suggestions? ==>
      r.reply.buttons != [] && r.reply.buttons == SuggestionButtons(TopMatches(raw, rows, scorer, MaxSuggestions, MinScore))
    ensures r.reply.NotFound? <==>
      !SymbolExists(rows, ParseSymbol(raw).db) && TopMatches(raw, rows, scorer, MaxSuggestions, MinScore) == []
    ensures r.reply.NotFound? ==> r.reply.query == raw
  {
    var p := ParseSymbol(raw);
    if SymbolExists(rows, p.db) then MessageOutcome(Selected(p.db), WithSymbol(d, p))
    else
      var matches := TopMatches(raw, rows, scorer, MaxSuggestions, MinScore);
      if matches != [] then MessageOutcome(Suggestions(SuggestionButtons(matches)), d)
      else MessageOutcome(NotFound(raw), d)
  }

  /** An exact hit does not depend on the fuzzy scorer: no search is run. */
  lemma ExactHitIgnoresScorer(d: UserData, raw: string, rows: seq<TickerRow>,
                              scorer1: (string, string) -> real, scorer2: (string, string) -> real)
    requires SymbolExists(rows, ParseSymbol(raw).db)
    ensures Route(d, raw, rows, scorer1) == Route(d, raw, rows, scorer2)
  {
  }

  /** At most five suggestions, each selecting a different symbol. */
  lemma SuggestionsDistinct(d: UserData, raw: string, rows: seq<TickerRow>, scorer: (string, string) -> real)
    ensures var r := Route(d, raw, rows, scorer).reply;
      r.Suggestions? ==>
        |r.buttons| <= MaxSuggestions
        && forall i, j :: 0 <= i < j < |r.buttons| ==> r.buttons[i].callbackData != r.buttons[j].callbackData
  {
    var ms := TopMatches(raw, rows, scorer, MaxSuggestions, MinScore);
    TopMatchesBounds(raw, rows, scorer, MaxSuggestions, MinScore);
    ButtonsDistinct(ms);
  }

  /** Buttons for matches with distinct symbols carry distinct callback data. */
  lemma ButtonsDistinct(ms: seq<Match>)
    requires forall i, j :: 0 <= i < j < |ms| ==> ms[i].symbol != ms[j].symbol
    ensures var bs := SuggestionButtons(ms);
      forall i, j :: 0 <= i < j < |bs| ==> bs[i].callbackData != bs[j].callbackData
  {
    var bs := SuggestionButtons(ms);
    forall i, j | 0 <= i < j < |bs|
      ensures bs[i].callbackData != bs[j].callbackData
    {
      assert bs[i].callbackData[7..] == ms[i].symbol;
      assert bs[j].callbackData[7..] == ms[j].symbol;
    }
  }

  /** `handle_message` behind `with_subscription_check`. */
  method HandleMessage(db: Tables, session: UserSession, text: string, chatId: int, today: int,
                       rows: seq<TickerRow>, scorer: (string, string) -> real) returns (reply: Reply)
    modifies db, session
    ensures db.subscribers == Downgraded(old(db.subscribers), chatId, today)
    ensures db.premiumKeys == old(db.premiumKeys)
    ensures MessageOutcome(reply, session.data) == Route(old(session.data), CleanInput(text), rows, scorer)
  {
    ghost var before := session.data;
    WithSubscriptionCheck(db, chatId, today);
    ghost var subscribers, keys := db.subscribers, db.premiumKeys;
    reply := RouteMessage(session, CleanInput(text), rows, scorer);
    assert MessageOutcome(reply, session.data) == Route(before, CleanInput(text), rows, scorer);
    assert db.subscribers == subscribers && db.premiumKeys == keys;
  }

  /** The body of `handle_message` after the input is cleaned. */
  method RouteMessage(session: UserSession, raw: string, rows: seq<TickerRow>, scorer: (string, string) -> real)
    returns (reply: Reply)
    modifies session
    ensures MessageOutcome(reply, session.data) == Route(old(session.data), raw, rows, scorer)
  {
    var p := ParseSymbol(raw);
    if SymbolExists(rows, p.db) {
      session.StoreSymbol(p);
      return Selected(p.db);
    }
    var matches := FindTopMatches(raw, rows, scorer, MaxSuggestions, MinScore);
    if matches != [] {
      return Suggestions(SuggestionButtons(matches));
    }
    reply := NotFound(raw);
  }
}
