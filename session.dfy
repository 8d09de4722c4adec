/** `context.user_data`: the per-user dictionary in which the message and
    button handlers keep the selected ticker. */
module Session {
  import opened Wrappers
  import opened TickerService

  /** The values the handlers store: the two symbols and the Saudi flag. */
  datatype UserValue = Str(s: string) | Flag(b: bool)

  type UserData = map<string, UserValue>

  /** The three keys that describe the selected ticker. */
  predicate SymbolKey(k: string)
  {
    k == "db_symbol" || k == "api_symbol" || k == "is_saudi"
  }

  /** `user_data.update({"db_symbol": ..., "api_symbol": ..., "is_saudi": ...})`. */
  function WithSymbol(d: UserData, p: SymbolParse): (r: UserData)
    ensures r.Keys == d.Keys + {"db_symbol", "api_symbol", "is_saudi"}
    ensures forall k :: k in d && !SymbolKey(k) ==> r[k] == d[k]
    ensures r["db_symbol"] == Str(p.db) && r["api_symbol"] == Str(p.api) && r["is_saudi"] == Flag(p.isSaudi)
  {
    d["db_symbol" := Str(p.db)]["api_symbol" := Str(p.api)]["is_saudi" := Flag(p.isSaudi)]
  }

  /** The string stored under `k`, or `default` when there is none. */
  function StrOr(d: UserData, k: string, default: string): string
  {
    if k in d && d[k].Str? then d[k].s else default
  }

  /** The ticker the button handler works on: `user_data.get("db_symbol")`,
      `user_data.get("api_symbol", db_symbol)` and
      `user_data.get("is_saudi", False)`, or nothing when the database
      symbol is missing or empty. */
  function CurrentSymbol(d: UserData): (r: Option<SymbolParse>)
    ensures r.None? <==> StrOr(d, "db_symbol", "") == ""
    ensures r.Some? ==> r.value.db == d["db_symbol"].s
  {
    var db := StrOr(d, "db_symbol", "");
    if db == "" then None
    else
      var api := StrOr(d, "api_symbol", db);
      var saudi := if "is_saudi" in d && d["is_saudi"].Flag? then d["is_saudi"].b else false;
      Some(SymbolParse(db, api, saudi))
  }

  /** Reading the selection back gives exactly what was stored, whatever the
      dictionary held before. */
  lemma SelectionReadBack(d: UserData, p: SymbolParse)
    requires p.db != ""
    ensures CurrentSymbol(WithSymbol(d, p)) == Some(p)
  {
  }

  /** `context.user_data` of one user. */
  class UserSession {
    var data: UserData

    constructor ()
      ensures data == map[]
    {
      data := map[];
    }

    /** The in-place `update` with the three symbol keys. */
    method StoreSymbol(p: SymbolParse)
      modifies this
      ensures data == WithSymbol(old(data), p)
    {
      data := data["db_symbol" := Str(p.db)];
      data := data["api_symbol" := Str(p.api)];
      data := data["is_saudi" := Flag(p.isSaudi)];
    }
  }
}
