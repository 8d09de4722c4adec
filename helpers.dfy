/** `get_arabic_name_from_db`: the Arabic company name of a symbol, looked up
    under the database form of the symbol. */
module Helpers {
  import opened Wrappers
  import opened Text
  import opened TickerService

  /** The result of the `tickers_ar_en` query: the `arabic_name` column by
      symbol (NULL as `None`), or a failure of the query itself. */
  datatype NameLookup = Names(arabic: map<string, Option<string>>) | LookupFailed

  /** The symbol the query uses: four digits get `.SR` appended. */
  function LookupKey(symbol: string): (key: string)
    ensures |symbol| == 4 && AllDigits(symbol) ==> key == symbol + ".SR"
    ensures !(|symbol| == 4 && AllDigits(symbol)) ==> key == symbol
  {
    if |symbol| == 4 && AllDigits(symbol) then symbol + ".SR" else symbol
  }

  /** `get_arabic_name_from_db(symbol)`: the name of the row found, and
      `None` when there is no row, the column is NULL or the query fails. */
  function ArabicNameFromDb(symbol: string, db: NameLookup): (name: Option<string>)
    ensures db.LookupFailed? ==> name == None
    ensures db.Names? && LookupKey(symbol) !in db.arabic ==> name == None
    ensures db.Names? && LookupKey(symbol) in db.arabic ==> name == db.arabic[LookupKey(symbol)]
  {
    match db
    case LookupFailed => None
    case Names(arabic) =>
      var key := LookupKey(symbol);
      if key in arabic then arabic[key] else None
  }

  /** The callers pass the API symbol of the selected ticker; the lookup key
      is then its database symbol, whichever form the user typed. */
  lemma LookupKeyOfApiSymbol(raw: string)
    ensures LookupKey(ParseSymbol(raw).api) == ParseSymbol(raw).db
  {
  }

  /** A symbol already carrying `.SR` is looked up unchanged. */
  lemma LookupKeyKeepsSuffixed(code: string)
    requires |code| == 4 && AllDigits(code)
    ensures LookupKey(code + ".SR") == code + ".SR"
  {
  }
}
