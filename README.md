# stockbot core, modelled in Dafny

stockbot is a Telegram bot that answers questions about listed companies:
the user types a ticker or a company name (Arabic or English), picks a ticker,
and then presses menu buttons for a profile, a summary, price history,
dividends, income statements, balance sheets, a Shariah screening or
statistics. Free subscribers get a daily quota of premium-feature presses;
premium subscribers get unlimited access, either through a one-shot
activation key or through an administrator's `/grant_premium`. Separate ETL
jobs copy statements, dividends and daily closes from market-data providers
into PostgreSQL.

This project models the logic of that bot that can be stated and checked:

- **Symbol resolution** (`TickerService`, `Messages`, `Helpers`, `Session`): Arabic and
  English name normalisation, language detection, Saudi symbol parsing,
  ranking of fuzzy matches (the scorer is a parameter), and the routing of a
  typed message to an exact hit, a list of suggestions or "not found".
- **Subscriber ledger** (`Queries`, `Subscription`, `Base`, `Commands`): the
  `subscribers` and `premium_keys` tables as maps inside a `Tables` object, and
  every SQL statement the bot runs on them as an update of those maps. On top
  of these sit the guarded credit spend and quota gate, the lazy downgrade of
  expired premium rows, one-shot activation keys, `/start`, `/status` and
  `/grant_premium`.
- **Rate limiter** (`RateLimiter`): the per-user sliding window of call
  timestamps, pruned and appended in place.
- **Helpers** (`Cache`, `Formatting`, `Config`, `Text`, `Dicts`, `Upserts`):
  - the cache key builder;
  - number and label formatting;
  - the company-list loader;
  - Python's string operations;
  - insertion-ordered dictionaries with "last one wins" de-duplication;
  - `INSERT ... ON CONFLICT DO UPDATE`.
- **ETL jobs** (`StatementEtl` with `IncomeEtl`, `BalanceEtl`, `CashflowEtl`;
  `DividendsEtl`; `DailyClosesEtl`): row building, de-duplication by primary
  key, the page-by-page upsert into the table, the row count, and the date loop with its
  missing-symbol sets.
- **Button handler** (`Callbacks`): callback-data parsing, the symbol and quota
  gate in front of every branch, read-more chunking, the history parameters,
  the year menus, dividend grouping, the debt-to-equity guard and the Shariah
  rule.

Wall-clock values (`date.today()`, `time.time()`, `NOW()`) are parameters. Dates are
day numbers. Database connections, the Telegram API and the market-data
clients are replaced by the maps and function parameters they read and
write.

## Model

| member | source | states |
|---|---|---|
| Text.Strip | stockbot/services/ticker_service.py:35 | `str.strip()`: the result has no whitespace (Python's `isspace` set) at either end, is no longer than the input, and a string already trimmed comes back unchanged |
| Text.StripPadded | stockbot/services/ticker_service.py:35 | stripping any whitespace padding around a trimmed core gives exactly that core |
| Text.StripIdempotent | stockbot/services/ticker_service.py:35 | stripping twice is the same as stripping once |
| Text.CollapseSpaces | stockbot/services/ticker_service.py:14 | `re.sub(r"\s+", " ", s)`: afterwards every whitespace character is a single plain space with no whitespace after it; the result is no longer than the input and keeps a non-space first character |
| Text.CollapseSpacesFixpoint | stockbot/services/ticker_service.py:14 | a string that is already collapsed is left unchanged |
| Text.CaseMapping | stockbot/services/ticker_service.py:18 | `lower()`/`upper()` (ASCII): the result has no upper-case (resp. lower-case) letter, keeps trimmedness, is idempotent and leaves a string without such letters unchanged |
| Text.ParseIntRoundTrip | stockbot/handlers/commands.py:149 | `int(str(i)) == i` for every integer |
| Text.IntToString | stockbot/handlers/callbacks.py:453 | the decimal text of an integer is non-empty, trimmed and holds no `_` or `.` |
| Text.Split | stockbot/handlers/callbacks.py:474 | `str.split(sep)` always yields at least one field |
| Text.SplitAfter | stockbot/handlers/callbacks.py:474 | splitting at the first separator gives the text before it followed by the split of the rest |
| Text.BeforeFirst | stockbot/services/daily_closes_etl.py:65 | `s.split('.', 1)[0]` is a prefix of `s` without the separator, and the whole of `s` when there is none |
| TickerService.Remove | stockbot/services/ticker_service.py:10-12 | `re.sub` with a character class removes exactly the dropped characters: what is left keeps its order, contains none of them, and text without them is unchanged |
| TickerService.ReplaceAlef | stockbot/services/ticker_service.py:13 | أ, إ and آ become ا one character at a time, everything else is kept |
| TickerService.PlainLetters | stockbot/services/ticker_service.py:10-13 | after removing the diacritic ranges and tatweel and replacing أ/إ/آ by ا, none of those characters remains |
| TickerService.NormalizeAr | stockbot/services/ticker_service.py:9-15 | `_normalize_ar` output has no diacritic, tatweel or marked alef, its whitespace is collapsed and it is trimmed |
| TickerService.NormalizeArIdempotent | stockbot/services/ticker_service.py:9-15 | normalising an Arabic name twice equals normalising it once |
| TickerService.NormalizeEn | stockbot/services/ticker_service.py:17-18 | `_normalize_en` output has no upper-case letter, collapsed whitespace and no whitespace at either end |
| TickerService.NormalizeEnIdempotent | stockbot/services/ticker_service.py:17-18 | normalising an English name twice equals normalising it once |
| TickerService.DetectLang | stockbot/services/ticker_service.py:20-21 | the language is Arabic exactly when some character lies in U+0600..U+06FF |
| TickerService.SaudiCode | stockbot/services/ticker_service.py:36-38 | `fullmatch(r'(\d{4})(\.SR)?')`: a match gives four digits that are the whole text or the text without `.SR` |
| TickerService.ParseSymbol | stockbot/services/ticker_service.py:34-40 | a Saudi result is `(NNNN.SR, NNNN, True)` where the stripped, upper-cased input is `NNNN` or `NNNN.SR`; any other input gives `(s, s, False)` for the stripped, upper-cased `s`, which then does not match the pattern |
| TickerService.ParseSymbolSaudi | stockbot/services/ticker_service.py:34-39 | four ASCII digits, optionally followed by `.SR` in any case and padded with whitespace, parse to `("NNNN.SR", "NNNN", True)` |
| TickerService.ParseSymbolIdempotent | stockbot/services/ticker_service.py:34-40 | parsing the db symbol of a parse again gives the same triple |
| TickerService.SymbolExists | stockbot/services/ticker_service.py:42-49 | the symbol exists exactly when some directory row carries it |
| TickerService.Take | stockbot/services/ticker_service.py:73-74 | taking at most `n` items gives a prefix of length at most `n`, the whole list when shorter |
| TickerService.SortByKeyDesc | stockbot/services/ticker_service.py:69 | `sorted(..., reverse=True)` by score is a permutation in non-increasing score order |
| TickerService.InsertByKey | stockbot/services/ticker_service.py:69 | one insertion step keeps the order and adds exactly the new item |
| TickerService.SortStable | stockbot/services/ticker_service.py:69 | the sort is stable: for every score, the items with that score come out in their input order |
| TickerService.InsertWithKey | stockbot/services/ticker_service.py:69 | one insertion step places the new item after every earlier item with the same score |
| TickerService.Extract | stockbot/services/ticker_service.py:58-59 | the fuzzy extractor returns at most `limit` choices, each with its own score under the scorer, best first; every choice left out scores no higher than every choice returned |
| TickerService.ArabicIndex | stockbot/services/ticker_service.py:55 | the name-to-row dictionary of Arabic names is a well-formed insertion-ordered dictionary |
| TickerService.EnglishIndex | stockbot/services/ticker_service.py:56 | the same for English names |
| TickerService.Candidates | stockbot/services/ticker_service.py:58-62 | the Arabic hits followed by the English hits number at most `2 * max_results` |
| TickerService.CandidatesResolve | stockbot/services/ticker_service.py:58-65 | every candidate text is a key of one of the two dictionaries, so `norm_ar.get(txt) or norm_en.get(txt)` finds a row, and its score is the scorer's |
| TickerService.Passing | stockbot/services/ticker_service.py:61-66 | the kept results are at most as many as the hits and all have score at least `min_score` |
| TickerService.CollectResults | stockbot/services/ticker_service.py:61-66 | the `results` loop builds exactly the passing results |
| TickerService.FirstPerSymbol | stockbot/services/ticker_service.py:68-72 | keeping the first entry per symbol keeps only input entries, never repeats a symbol, and loses no symbol |
| TickerService.FirstPerSymbolPrefix | stockbot/services/ticker_service.py:68-74 | the de-duplication of a prefix is a prefix of the de-duplication, which is why breaking out early is sound |
| TickerService.FirstPerSymbolSorted | stockbot/services/ticker_service.py:69-72 | de-duplicating a score-sorted list keeps it sorted |
| TickerService.FirstPerSymbolBest | stockbot/services/ticker_service.py:69-72 | on a score-sorted list the surviving entry for a symbol carries that symbol's highest passing score |
| TickerService.FirstFew | stockbot/services/ticker_service.py:68-75 | the `seen`/`final` loop with its `break` returns the first `max_results` entries of the de-duplicated list |
| TickerService.KeepIfNew | stockbot/services/ticker_service.py:69-72 | one pass of the loop body leaves `final` the de-duplication of one more entry and `seen` its symbols |
| TickerService.RankedProperties | stockbot/services/ticker_service.py:68-75 | the final list has at most `max_results` entries from the results, in non-increasing score order, each symbol once with its best score; a shorter list holds every symbol |
| TickerService.FindTopMatches | stockbot/services/ticker_service.py:51-75 | `find_top_matches` computes the ranked top matches of the normalised query |
| TickerService.TopMatchesBounds | stockbot/services/ticker_service.py:51-75 | at most `max_results` matches come back, each scoring at least `min_score`, each symbol once |
| TickerService.RankedBounds | stockbot/services/ticker_service.py:68-75 | ranking results that all clear the floor gives at most `max_results` of them, all clearing it, each symbol once |
| Messages.AsciiDigit | stockbot/handlers/messages.py:13-15 | an Arabic-Indic digit maps to the ASCII digit of the same value; every other character is kept |
| Messages.TranslateDigits | stockbot/handlers/messages.py:16 | `translate` maps character by character and keeps the length |
| Messages.TranslateDigitsProperties | stockbot/handlers/messages.py:13-16 | after translation no Arabic-Indic digit remains, other characters and trimmedness are kept, and translating again changes nothing |
| Messages.Unslashed | stockbot/handlers/messages.py:9-10 | removing a leading `/` and re-stripping keeps a trimmed text trimmed and never lengthens it |
| Messages.CleanInput | stockbot/handlers/messages.py:8-16 | the cleaned input is trimmed, no longer than the message and free of Arabic-Indic digits |
| Messages.CleanInputSlash | stockbot/handlers/messages.py:8-16 | one leading `/` and the whitespace around it are removed before the digits are translated |
| Messages.SlashedCore | stockbot/handlers/messages.py:8-10 | the slash removal leaves exactly the trimmed core |
| Messages.CleanInputPlain | stockbot/handlers/messages.py:8-16 | text without a leading `/` is only stripped and translated |
| Messages.CleanDigitCode | stockbot/handlers/messages.py:8-16 | a padded four-digit code, in either digit script, cleans to its ASCII digits |
| Messages.ArabicDigitsResolve | stockbot/handlers/messages.py:13-18 | four digits in either script resolve to the Saudi triple of their ASCII form |
| Messages.SuggestionButtons | stockbot/handlers/messages.py:32-35 | one button per match, in match order, captioned `name (sym)` with callback data `select_` + sym |
| Messages.Route | stockbot/handlers/messages.py:18-43 | an exact hit exactly when the db symbol exists, storing the three symbol keys; otherwise `user_data` is unchanged and the reply is the suggestion buttons of the top matches, or "not found" exactly when there are none |
| Messages.ExactHitIgnoresScorer | stockbot/handlers/messages.py:19-28 | on an exact hit no fuzzy search runs: the outcome does not depend on the scorer |
| Messages.SuggestionsDistinct | stockbot/handlers/messages.py:30-35 | at most five suggestions, each selecting a different symbol |
| Messages.RouteMessage | stockbot/handlers/messages.py:18-43 | the routing updates the user's session in place exactly as `Route` says |
| Messages.HandleMessage | stockbot/handlers/messages.py:6-43 | the handler first runs the expiry downgrade for the chat, then routes the cleaned input |
| Session.WithSymbol | stockbot/handlers/messages.py:20-24 | `user_data.update(...)` sets exactly `db_symbol`, `api_symbol`, `is_saudi` and keeps every other key |
| Session.CurrentSymbol | stockbot/handlers/callbacks.py:69-74 | no ticker is selected exactly when `db_symbol` is missing or empty; otherwise the ticker is the stored one |
| Session.SelectionReadBack | stockbot/handlers/callbacks.py:56-71 | reading the selection back after storing it gives the stored triple |
| Session.UserSession.constructor | stockbot/handlers/callbacks.py:69-71 | a new chat starts with empty `user_data` |
| Session.UserSession.StoreSymbol | stockbot/handlers/messages.py:20-24 | the in-place update leaves `user_data` equal to `WithSymbol` of the old one |
| Helpers.LookupKey | stockbot/utils/helpers.py:12-13 | exactly four digits get `.SR` appended; any other symbol is looked up as given |
| Helpers.ArabicNameFromDb | stockbot/utils/helpers.py:4-31 | the Arabic name of the row with the lookup key, `None` when no row matches or the lookup fails |
| Helpers.LookupKeyOfApiSymbol | stockbot/utils/helpers.py:12-13 | the api symbol of any parsed input is looked up under its db symbol |
| Helpers.LookupKeyKeepsSuffixed | stockbot/utils/helpers.py:12 | a symbol already ending in `.SR` is looked up unchanged |
| Queries.ProfileUpdated | stockbot/database/queries.py:19-26 | `SUBSCRIBER_UPDATE_PROFILE` changes only the profile and `is_active` of that chat's row |
| Queries.FreeUpdated | stockbot/database/queries.py:28-39 | `SUBSCRIBER_UPDATE_FREE` sets type free, limit 15, the profile and `is_active`; count and reset date change only when the reset flag holds; expiry and other rows are untouched |
| Queries.NewFreeRow | stockbot/database/queries.py:41-51 | `SUBSCRIBER_INSERT` creates a free, active row with count 0, limit 15, the given reset date and no expiry |
| Queries.Inserted | stockbot/database/queries.py:41-51 | the insert adds one row for the new chat and keeps every other row |
| Queries.KeyMarkedUsed | stockbot/database/queries.py:57-63 | `PREMIUM_KEY_UPDATE_USED` marks that key used by the chat at `now` and leaves other keys alone |
| Queries.PremiumUpserted | stockbot/database/queries.py:65-71 | `SUBSCRIBER_UPSERT_PREMIUM` makes the chat premium with the expiry and, on an existing row, changes only type and expiry |
| Queries.Consumed | stockbot/database/queries.py:73-80 | the guarded increment reports a row exactly when the chat is free with `usage_count < usage_limit`, and changes nothing otherwise |
| Queries.ConsumeAddsOne | stockbot/database/queries.py:73-80 | a successful spend raises that chat's count by exactly one and changes nothing else |
| Queries.ConsumeWithinLimit | stockbot/database/queries.py:78 | a spend never pushes the count above the limit |
| Queries.ConsumeRefused | stockbot/database/queries.py:78 | with a NULL limit, or a count at or above the limit, the spend fails and the table is unchanged |
| Queries.DailyReset | stockbot/database/queries.py:86-91 | `SUBSCRIBER_RESET_DAILY_USAGE` keeps the set of rows |
| Queries.ResetDailyRows | stockbot/database/queries.py:86-91 | every free row gets count 0 and the reset date; every non-free row is untouched |
| Queries.ResetDailyIdempotent | stockbot/database/queries.py:86-91 | running the reset twice with the same date gives the same table |
| Queries.ResetDailyRestoresCredit | stockbot/database/queries.py:73-91 | after the reset, a free row with a limit can spend again |
| Queries.StatementsKeepUsageSane | stockbot/database/queries.py:19-91 | every statement keeps the invariant that no count is negative or above its limit |
| Queries.Tables.constructor | stockbot/database/queries.py:8-17 | the two tables start with the given rows |
| Queries.Tables.UpdateProfile | stockbot/database/queries.py:19-26 | runs the profile update in place |
| Queries.Tables.UpdateFree | stockbot/database/queries.py:28-39 | runs the free-tier update in place |
| Queries.Tables.Insert | stockbot/database/queries.py:41-51 | runs the insert in place; the chat must be new, as the primary key demands |
| Queries.Tables.MarkKeyUsed | stockbot/database/queries.py:57-63 | runs the key update in place |
| Queries.Tables.UpsertPremium | stockbot/database/queries.py:65-71 | runs the premium upsert in place |
| Queries.Tables.Consume | stockbot/database/queries.py:73-80 | runs the guarded increment in place and reports whether a row came back |
| Queries.Tables.ResetDaily | stockbot/database/queries.py:86-91 | runs the daily reset in place |
| Subscription.QuotaCheck | stockbot/services/subscription.py:17-33 | the feature is refused, with an alert, exactly when the chat is free and the spend fails; only an allowed free chat's table changes, by the spend |
| Subscription.QuotaCheckNotFree | stockbot/services/subscription.py:26-33 | unknown chats and premium subscribers pass without any change |
| Subscription.QuotaCheckSpends | stockbot/services/subscription.py:26-33 | a free subscriber with credit left passes and its count rises by one |
| Subscription.QuotaCheckAtLimit | stockbot/services/subscription.py:27-32 | a free subscriber at the limit is refused and alerted, and the table stays |
| Subscription.AllowedCount | stockbot/services/subscription.py:17-33 | of `n` successive checks at most `n` are allowed |
| Subscription.QuotaChecksBounded | stockbot/services/subscription.py:17-33 | from a sane table, successive checks let a free subscriber through at most 15 minus its count times |
| Subscription.ConsumeFreeCredit | stockbot/services/subscription.py:4-15 | `consume_free_credit` is true exactly when the guarded increment returned a row |
| Subscription.CheckUsageQuotaForQuery | stockbot/services/subscription.py:17-33 | the method performs the quota check in place |
| Base.StartActivation | stockbot/handlers/base.py:8-13 | entering the activation conversation waits for a code (state 1) |
| Base.CancelActivation | stockbot/handlers/base.py:61-63 | cancelling ends the conversation (state -1) |
| Base.Downgraded | stockbot/handlers/base.py:74-105 | a premium row whose expiry is before today becomes free with no expiry; every other row, and every row of another chat, is unchanged |
| Base.DowngradedSettles | stockbot/handlers/base.py:91-103 | after the downgrade the chat is not expired premium, and a second downgrade changes nothing |
| Base.DowngradedKeeps | stockbot/handlers/base.py:91-93 | free rows, premium rows expiring today or later or never, and unknown chats are left as they are |
| Base.DowngradedUsageSane | stockbot/handlers/base.py:94-102 | the downgrade keeps the usage invariant |
| Base.DowngradeExpired | stockbot/handlers/base.py:74-105 | performs the downgrade in place and leaves the keys alone |
| Base.WithSubscriptionCheck | stockbot/handlers/base.py:65-72 | the decorator runs the downgrade for the calling chat |
| Base.Activate | stockbot/handlers/base.py:15-59 | unknown exactly when the stripped code is not a key; activated exactly when the key is unused and not expired before today, marking the key used and making the chat premium until today + 30; otherwise nothing changes |
| Base.KeyRedeemedOnce | stockbot/handlers/base.py:32-41 | after a successful redemption every later attempt with the same code, by anyone on any day, is refused |
| Base.KeyExpiringTodayAccepted | stockbot/handlers/base.py:32-50 | a key expiring today is still accepted and the chat becomes premium until today + 30 |
| Base.HandleActivationCode | stockbot/handlers/base.py:15-59 | the handler ends the conversation (-1) and leaves both tables as `Activate` says |
| Commands.StartBody | stockbot/handlers/commands.py:38-81 | `/start` touches only the calling chat's row and makes sure it exists |
| Commands.StartGreeting | stockbot/handlers/commands.py:42-91 | the free-tier greeting reports the limit and count stored after `/start` (see Findings) |
| Commands.GreetingStale | stockbot/handlers/commands.py:53-91 | a free row with count 7 reset yesterday is zeroed by `/start`, yet the reply as written says 7 while the corrected reply says 0 |
| Commands.GreetingsAgree | stockbot/handlers/commands.py:40-91 | the greeting as written and the corrected greeting agree exactly unless an existing non-premium row had a limit other than 15, or a non-zero count that this `/start` resets |
| Commands.GreetingShowsStored | stockbot/handlers/commands.py:53-91 | every non-premium `/start` greets with limit 15, and with count 0 whenever the count was reset |
| Commands.StartKeepsValidPremium | stockbot/handlers/commands.py:42-51 | a premium row expiring today or later has only its profile updated and is welcomed back with its expiry |
| Commands.StartMakesFree | stockbot/handlers/commands.py:42-66 | any other existing row, including premium with no expiry, becomes free with limit 15; count and reset date are reset exactly when the last reset is missing or before today |
| Commands.StartRegisters | stockbot/handlers/commands.py:69-81 | an unknown chat gets a new free row with count 0 and limit 15, and the greeting says so |
| Commands.StartTwiceSameDay | stockbot/handlers/commands.py:53 | a second `/start` on the same day, after spending a credit, does not reset the count again |
| Commands.StartUsageSane | stockbot/handlers/commands.py:38-81 | `/start` keeps the usage invariant |
| Commands.Start | stockbot/handlers/commands.py:26-91 | performs `/start` in place (the table becomes `StartTable`) and returns the corrected greeting `StartGreeting` with the limit and count stored after the update, not the pre-update values commands.py:86-91 sends (see Findings) |
| Commands.StatusOf | stockbot/handlers/commands.py:110-136 | "not registered" exactly for a missing row, "inactive" exactly for a row not marked active, and otherwise the tier message with that row's expiry or count and limit |
| Commands.StatusNeverShowsExpired | stockbot/handlers/commands.py:93-136 | because the downgrade runs first, `/status` never shows a premium expiry in the past |
| Commands.Status | stockbot/handlers/commands.py:93-141 | runs the downgrade, then replies from the table |
| Commands.PremiumGranted | stockbot/handlers/commands.py:157-164 | the granted row becomes premium with no limit, count 0 and expiry today + 30; other rows are untouched |
| Commands.Grant | stockbot/handlers/commands.py:143-169 | no argument or a non-integer argument changes nothing; otherwise the parsed chat is granted premium |
| Commands.GrantThenStatus | stockbot/handlers/commands.py:143-169 | after granting an active chat, `/status` shows premium until today + 30 |
| Commands.GrantUnknownChat | stockbot/handlers/commands.py:157-164 | granting an unknown chat reports success but changes no row |
| Commands.GrantUsageSane | stockbot/handlers/commands.py:157-164 | granting keeps the usage invariant |
| Commands.GrantPremium | stockbot/handlers/commands.py:143-169 | performs the grant in place |
| RateLimiter.Pruned | stockbot/services/rate_limiter.py:12-13 | pruning removes timestamps from the front only |
| RateLimiter.PrunedDropsOld | stockbot/services/rate_limiter.py:12-13 | pruning stops at the first timestamp inside the window, and every removed one was outside it |
| RateLimiter.PrunedInWindow | stockbot/services/rate_limiter.py:12-13 | on an ordered log every kept timestamp is greater than `now - 60` |
| RateLimiter.Recent | stockbot/services/rate_limiter.py:8 | the timestamps of the log inside the window |
| RateLimiter.PrunedIsRecent | stockbot/services/rate_limiter.py:12-13 | on an ordered log pruning keeps exactly the recent timestamps |
| RateLimiter.AllRecent | stockbot/services/rate_limiter.py:12-13 | an ordered log whose oldest timestamp is recent is all recent |
| RateLimiter.Limiter.constructor | stockbot/services/rate_limiter.py:5 | the limiter starts with no call logs |
| RateLimiter.Check | stockbot/services/rate_limiter.py:7-17 | limited exactly when the pruned log holds at least 5 entries; a limited call only prunes, an allowed call appends `now`; other users' logs are untouched |
| RateLimiter.CheckBounded | stockbot/services/rate_limiter.py:14-16 | no log ever holds more than 5 timestamps |
| RateLimiter.CheckAscending | stockbot/services/rate_limiter.py:12-16 | with a clock that does not go back, each log stays in time order |
| RateLimiter.Limiter.IsRateLimited | stockbot/services/rate_limiter.py:7-17 | prunes and appends in place and returns the decision of `Check` |
| Cache.LessIrreflexive | stockbot/services/api/cache.py:8 | Python's string `<` is irreflexive |
| Cache.LessTransitive | stockbot/services/api/cache.py:8 | and transitive |
| Cache.LessTotal | stockbot/services/api/cache.py:8 | and total on different strings |
| Cache.LessAsymmetric | stockbot/services/api/cache.py:8 | and asymmetric |
| Cache.Insert | stockbot/services/api/cache.py:8 | one insertion step keeps the names strictly sorted and adds exactly the new name |
| Cache.Sorted | stockbot/services/api/cache.py:8 | `sorted(kwargs)` is a strictly increasing permutation of the keyword names |
| Cache.SortedUnique | stockbot/services/api/cache.py:8 | two strictly sorted lists with the same names are equal |
| Cache.Parts | stockbot/services/api/cache.py:8 | one `name=value` part per name, in the given order |
| Cache.MakeKeyParts | stockbot/services/api/cache.py:7-9 | the key is the `name=value` parts of all keyword arguments in sorted name order, joined with `|` |
| Cache.MakeKeyEmpty | stockbot/services/api/cache.py:9 | no keyword arguments give the empty key |
| Cache.MakeKeyDeterminedByKeywords | stockbot/services/api/cache.py:7-17 | the key depends only on the keyword values: not on positional arguments (the client) nor on the order the keywords were passed |
| Cache.SameKeys | stockbot/services/api/cache.py:8 | the same keyword mapping holds the same names whatever their order |
| Formatting.ToFloat | stockbot/utils/formatting.py:26 | `float(value)` fails on `None` and converts ints and floats exactly |
| Formatting.FormatHugeNumbers | stockbot/utils/formatting.py:24-41 | "unavailable" exactly when the value does not convert; otherwise the sign is negative exactly for a negative value, the scaled number times the unit is the absolute value, and the unit is trillion, billion, million, thousand or none by the thresholds 1e12, 1e9, 1e6 and 1e3 |
| Formatting.ScaledInRange | stockbot/utils/formatting.py:30-39 | the number shown is never negative, at least 1 whenever a unit is shown, and below 1000 except for trillions |
| Formatting.FormatHugeSymmetric | stockbot/utils/formatting.py:27-39 | a value and its negation get the same unit and number and opposite signs |
| Formatting.HugeTextSign | stockbot/utils/formatting.py:27-41 | the text starts with `-` exactly for a negative number |
| Formatting.SafeFormat | stockbot/utils/formatting.py:44-47 | ints and floats go through the grouped two-decimal rendering, a string is shown as itself and `None` as "None" |
| Formatting.Weekday | stockbot/utils/formatting.py:72 | `weekday()` lies in 0..6 |
| Formatting.ArabicDayName | stockbot/utils/formatting.py:49-72 | the day name is one of the seven Arabic weekday names |
| Formatting.ArabicDayNamePeriodic | stockbot/utils/formatting.py:70-72 | days a week apart share a name, and day 1 (a Monday) is الاثنين |
| Formatting.ArabicDayNamesDistinct | stockbot/utils/formatting.py:49-57 | the seven days of any week get seven different names |
| Formatting.ArabicExchangeName | stockbot/utils/formatting.py:74-75 | the Arabic name of a known stripped exchange, otherwise the original unstripped input |
| Formatting.ExchangeNamePadded | stockbot/utils/formatting.py:75 | a known exchange is recognised whatever whitespace surrounds it |
| Config.Entry | stockbot/config.py:26-31 | one line contributes at most one entry, stripped, non-empty and not a comment |
| Config.LoadCompanies | stockbot/config.py:25-31 | the loop builds exactly the kept lines |
| Config.KeptEntries | stockbot/config.py:27-31 | every entry is a stripped, non-empty, non-comment line, and there are no more entries than lines |
| Config.KeptAppend | stockbot/config.py:26-31 | entries keep file order |
| Config.KeptOne | stockbot/config.py:27-31 | a line gives its stripped form unless that is empty or starts with `#` |
| Config.KeptRepeats | stockbot/config.py:26-31 | duplicates are kept: `n` copies of a kept line give `n` entries, each the stripped line |
| Dicts.Dict.Put | stockbot/services/income_etl.py:111 | `d[k] = v` stores the value and appends the key only when it is new |
| Dicts.Dict.Values | stockbot/services/income_etl.py:112 | `d.values()` lists one value per key, in insertion order |
| Dicts.FromPairs | stockbot/services/dividends_etl.py:52 | the dictionary built from pairs has exactly the keys of the pairs |
| Dicts.FromPairsLastWins | stockbot/services/income_etl.py:108-111 | the value stored for a key is the last pair's value |
| Dicts.FromPairsSize | stockbot/services/income_etl.py:108-112 | never more keys than pairs |
| Dicts.FromPairsFromLast | stockbot/services/income_etl.py:108-111 | every stored value comes from the last pair with its key |
| Dicts.Keyed | stockbot/services/income_etl.py:110 | each row paired with its primary key |
| Dicts.DeduplicatedEntry | stockbot/services/income_etl.py:108-112 | each de-duplicated row is the last input row with its key, in order of first appearance |
| Dicts.DeduplicatedProperties | stockbot/services/income_etl.py:108-112 | after de-duplication keys are unique, every input key is present, and each kept row is the last input row with its key |
| Upserts.Upsert | stockbot/services/income_etl.py:124-131 | `INSERT ... ON CONFLICT DO UPDATE` of rows with distinct keys: the table then holds every old key and every row's key, each row is stored under its key, and rows with other keys are untouched |
| Upserts.UpsertDeduplicated | stockbot/services/income_etl.py:107-136 | upserting the de-duplicated batch stores, for every key in the batch, its last row and keeps other rows |
| Upserts.UpsertDeduplicatedKeys | stockbot/services/income_etl.py:107-136 | the table afterwards has exactly the old keys plus the batch keys |
| Upserts.UpsertDeduplicatedLast | stockbot/services/income_etl.py:107-136 | each key of the batch holds the last row with that key |
| Upserts.UpsertDeduplicatedOthers | stockbot/services/income_etl.py:107-136 | keys outside the batch keep their rows |
| Upserts.Sent | stockbot/database/connection.py:14-18 | the rows stored when `execute_values` ends: whole 100-row pages taken from the front, and the whole batch exactly when no page failed |
| Upserts.UpsertPages | stockbot/database/connection.py:14-18 | on an autocommit connection, a call in which no page fails is the full upsert; one whose page p fails is the upsert of the first p pages alone |
| Upserts.UpsertResume | stockbot/database/connection.py:14-18 | upserting the first rows and then the rest gives the same table as upserting the whole batch at once |
| Upserts.FailedPages | stockbot/database/connection.py:14-18 | after a failure at page p, every row of the first p pages is stored under its key; every later row's key keeps its old entry or stays absent; sending the later rows would complete the upsert |
| StatementEtl.OrZero | stockbot/services/income_etl.py:78 | `data.get(key) or 0`: missing, NULL and zero become 0, NaN stays NaN (it is truthy), any other number is kept |
| StatementEtl.Metrics | stockbot/services/income_etl.py:78 | one value per metric key, in key order |
| StatementEtl.FrameRows | stockbot/services/income_etl.py:76-86 | one row per column of a frame, in column order |
| StatementEtl.FetchForSymbol | stockbot/services/income_etl.py:68-89 | the nested fetch loops build exactly the symbol's rows, stopping at the first raise |
| StatementEtl.AppendFrameRows | stockbot/services/income_etl.py:76-86 | the loop over the date columns appends one row per column, in column order, to the rows gathered so far |
| StatementEtl.SymbolRowsUnfold | stockbot/services/income_etl.py:72-86 | the yearly rows come first, then the quarterly rows unless the yearly fetch raised |
| StatementEtl.SymbolRowsShape | stockbot/services/income_etl.py:72-85 | every row carries the symbol, the update date and 3 + metrics + 1 cells, labelled Annual or Quarterly, with every Annual row before every Quarterly row |
| StatementEtl.SymbolRowsContent | stockbot/services/income_etl.py:69-89 | one row per date column of the yearly frame, in order, then, unless the yearly fetch raised, one per column of the quarterly frame: the rows gathered before an exception are kept |
| StatementEtl.PeriodRowsContent | stockbot/services/income_etl.py:73-86 | a frame gives one row per date column, in order; an empty or missing frame gives none |
| StatementEtl.QuoteInjective | stockbot/services/income_etl.py:116 | quoting column names never merges two names |
| StatementEtl.QuoteNotKey | stockbot/services/income_etl.py:115-116 | a metric name that is not a key name never quotes to a key column |
| StatementEtl.DataColumns | stockbot/services/income_etl.py:116 | one quoted column per metric, in order |
| StatementEtl.Updated | stockbot/services/income_etl.py:120-122 | the assignment columns are exactly the columns outside the primary key |
| StatementEtl.KeyColumnsNotUpdated | stockbot/services/income_etl.py:115-122 | key columns are never assigned |
| StatementEtl.MetricColumnsNotKey | stockbot/services/income_etl.py:115-122 | every metric column and `Updated_Date` is assigned |
| StatementEtl.AssignmentsCoverNonKey | stockbot/services/income_etl.py:115-122 | the assignments are the data columns and `Updated_Date`, and there are 3 + metrics + 1 columns |
| StatementEtl.DedupRows | stockbot/services/income_etl.py:108-112 | the dedup loop yields the last row per primary key |
| StatementEtl.StatementTable.constructor | stockbot/services/income_etl.py:124-131 | the statement table starts empty |
| StatementEtl.StatementTable.Insert | stockbot/services/income_etl.py:107-139 | upserts the de-duplicated batch page by page; reports a raise exactly when a page fails, and then the earlier pages stay stored |
| StatementEtl.Gather | stockbot/services/income_etl.py:92-104 | the rows of every symbol, one symbol after another, in the order the fetches finish |
| StatementEtl.Refresh | stockbot/services/income_etl.py:141-150 | no rows: count 0 and the table is unchanged. Otherwise the paged upsert of the de-duplicated rows; the pre-dedup row count is returned exactly when no page fails, and a failed page propagates as no count |
| StatementEtl.RefreshStoresLast | stockbot/services/income_etl.py:107-112 | after a refresh in which no page fails, each key holds the last fetched row with that key |
| IncomeEtl.FetchIncomeForSymbol | stockbot/services/income_etl.py:68-89 | the income rows of a symbol with the 52 income metrics |
| IncomeEtl.RefreshIncome | stockbot/services/income_etl.py:141-150 | `refresh_income_test`: count 0 and no change without rows; otherwise the paged upsert, with the row count, or an exception when a page fails |
| IncomeEtl.IncomeColumns | stockbot/services/income_etl.py:115-122 | 52 metrics and 56 columns; every row has one cell per column; assignments cover exactly the non-key columns |
| BalanceEtl.FetchBalanceForSymbol | stockbot/services/balance_etl.py:57-79 | the balance rows of a symbol with the 40 balance metrics |
| BalanceEtl.RefreshBalance | stockbot/services/balance_etl.py:98-143 | `refresh_balance_test`: count 0 and no change without rows; otherwise the paged upsert, with the row count, or an exception when a page fails |
| BalanceEtl.BalanceColumns | stockbot/services/balance_etl.py:107-114 | 40 metrics and 44 columns; every row has one cell per column; assignments cover exactly the non-key columns |
| CashflowEtl.FetchCashflowsForSymbol | stockbot/services/cashflow_etl.py:12-38 | the cash-flow rows of a symbol over the eight cash-flow metrics, yearly then quarterly |
| CashflowEtl.RefreshCashflow | stockbot/services/cashflow_etl.py:91-108 | `refresh_cashflow_test`: count 0 and no change without rows; otherwise the paged upsert, with the row count, or an exception when a page fails |
| CashflowEtl.CashflowColumns | stockbot/services/cashflow_etl.py:64-89 | 12 insert columns with the metrics in order; every row has one cell per column; the SET clause covers exactly the non-conflict columns |
| CashflowEtl.SetClauseOutsideConflict | stockbot/services/cashflow_etl.py:79-88 | the SET columns are the insert columns outside the conflict target |
| CashflowEtl.InsertIsConflictThenSet | stockbot/services/cashflow_etl.py:65-88 | the insert columns are the conflict columns followed by the SET columns |
| CashflowEtl.MetricColumnsInOrder | stockbot/services/cashflow_etl.py:22-76 | the metric columns match the row's metric order |
| CashflowEtl.SetColumnsOutsideConflict | stockbot/services/cashflow_etl.py:79-88 | no SET column is part of the conflict target |
| DividendsEtl.ZeroPad | stockbot/services/dividends_etl.py:25 | zero padding gives digits of at least the width |
| DividendsEtl.ZeroPadValue | stockbot/services/dividends_etl.py:25 | padding does not change the value |
| DividendsEtl.ZeroPadWidth | stockbot/services/dividends_etl.py:25 | a number below 10^width pads to exactly the width |
| DividendsEtl.IsoDate | stockbot/services/dividends_etl.py:25 | `isoformat()` has ten characters with `-` at positions 4 and 7 |
| DividendsEtl.IsoDateFields | stockbot/services/dividends_etl.py:25 | the year, month and day read back from the ISO text |
| DividendsEtl.IsoDateInjective | stockbot/services/dividends_etl.py:25-52 | different dates give different ISO texts |
| DividendsEtl.IsoDateYear | stockbot/services/dividends_etl.py:22-26 | `int(iso[:4])` is the fiscal year |
| DividendsEtl.DividendRows | stockbot/services/dividends_etl.py:12-34 | one row per payment, none for a missing or empty series |
| DividendsEtl.FetchDividendsForSymbol | stockbot/services/dividends_etl.py:12-34 | the fetch loop builds exactly those rows |
| DividendsEtl.DividendRowsContent | stockbot/services/dividends_etl.py:21-29 | each row is (symbol, ISO date, calendar year of the date, amount, today), and the year agrees with the date text |
| DividendsEtl.SameKeySameDay | stockbot/services/dividends_etl.py:52 | two rows of a symbol share a key exactly when the payments share a date |
| DividendsEtl.GetDividends | stockbot/services/dividends_etl.py:37-47 | the rows of every symbol, one symbol after another, in the order the fetches finish |
| DividendsEtl.DividendTable.constructor | stockbot/services/dividends_etl.py:54-66 | the dividend table starts empty |
| DividendsEtl.DividendTable.InsertDividends | stockbot/services/dividends_etl.py:50-77 | upserts the de-duplicated rows page by page; when a page fails, the earlier pages stay stored (`rollback` does nothing under autocommit) and the error is only logged |
| DividendsEtl.RefreshDividends | stockbot/services/dividends_etl.py:80-89 | returns the pre-dedup row count whether or not a page fails; without rows the table is unchanged, otherwise it receives the paged upsert |
| DividendsEtl.DividendsStoreLast | stockbot/services/dividends_etl.py:52 | after an upsert in which no page fails, each (symbol, date) holds the last row with that key |
| DailyClosesEtl.DateRange | stockbot/services/daily_closes_etl.py:25-31 | with both dates in the environment the range is the two parsed dates; otherwise it is today to today |
| DailyClosesEtl.Days | stockbot/services/daily_closes_etl.py:34-38 | every day from start to end inclusive, in order; empty when start > end |
| DailyClosesEtl.DateList | stockbot/services/daily_closes_etl.py:34-38 | the `while` loop builds exactly that list |
| DailyClosesEtl.DaysProperties | stockbot/services/daily_closes_etl.py:27-38 | consecutive days step by one, membership is the range, empty exactly when start > end, and the default list is just today |
| DailyClosesEtl.SaudiSplit | stockbot/services/daily_closes_etl.py:64-65 | Saudi exactly when the upper-cased symbol ends in `.SR`; the api symbol is the text before the first `.`, else the symbol |
| DailyClosesEtl.SaudiSplitOfCode | stockbot/services/daily_closes_etl.py:64-65 | `NNNN.SR` and `NNNN.sr` split to `NNNN` |
| DailyClosesEtl.SaudiSplitAgreesWithParse | stockbot/services/daily_closes_etl.py:64-65 | the split of a parsed Saudi db symbol gives back its api symbol |
| DailyClosesEtl.FirstOnDay | stockbot/services/daily_closes_etl.py:83 | the first bar dated on the target, none when no bar is |
| DailyClosesEtl.SelectRow | stockbot/services/daily_closes_etl.py:83-84 | a row exists exactly when the frame is non-empty; without a bar on the target it is the last bar |
| DailyClosesEtl.SelectRowSorted | stockbot/services/daily_closes_etl.py:80-84 | on a time-sorted frame, the earliest bar of the target day, otherwise the latest bar |
| DailyClosesEtl.FetchSymbolData | stockbot/services/daily_closes_etl.py:61-94 | a record for the symbol exactly when the provider returns a non-empty frame; the record is the bar `SelectRow` picks (open, high, low, close, volume), labelled with the symbol and dated with that bar's own day |
| DailyClosesEtl.UpsertBatch | stockbot/services/daily_closes_etl.py:120-132 | a batch with one record per fetched symbol has distinct keys, and its upsert equals the table with exactly those records stored |
| DailyClosesEtl.StoredWithinUpsert | stockbot/services/daily_closes_etl.py:120-132 | every record the step intends to store is in the upserted table |
| DailyClosesEtl.UpsertWithinStored | stockbot/services/daily_closes_etl.py:120-132 | the upsert adds nothing else |
| DailyClosesEtl.FetchedAdd | stockbot/services/daily_closes_etl.py:158-173 | the fetched set grows by a symbol exactly when its fetch succeeds |
| DailyClosesEtl.Completion | stockbot/services/daily_closes_etl.py:156-159 | the missing symbols in completion order: a symbol is listed exactly when the order lists it and it is missing |
| DailyClosesEtl.BatchCovers | stockbot/services/daily_closes_etl.py:156-173 | for a completion order without repeats, the batch holds one close per symbol whose fetch came back, each as fetched, with no symbol twice |
| DailyClosesEtl.DateBatchCovers | stockbot/services/daily_closes_etl.py:150-173 | when the order lists every ticker, a date's batch is one close per missing symbol whose fetch came back |
| DailyClosesEtl.SentStored | stockbot/services/daily_closes_etl.py:120-142 | the pages of a batch that were sent store exactly the closes of the symbols they hold: as many symbols as rows sent, and all of the batch unless a page failed |
| DailyClosesEtl.GatherBatch | stockbot/services/daily_closes_etl.py:156-173 | the `as_completed` loop keeps the closes that came back, in completion order: exactly the batch of that order |
| DailyClosesEtl.ProcessDate | stockbot/services/daily_closes_etl.py:150-177 | one date of the loop: table and count as `Step` says |
| DailyClosesEtl.ClosesTable.constructor | stockbot/services/daily_closes_etl.py:120-132 | the closes table starts empty |
| DailyClosesEtl.ClosesTable.InsertDailyCloses | stockbot/services/daily_closes_etl.py:120-142 | the paged upsert of the batch; when a page fails, the earlier pages stay stored (`rollback` does nothing under autocommit) and the error is only logged |
| DailyClosesEtl.RefreshDailyCloses | stockbot/services/daily_closes_etl.py:145-179 | the date loop produces the table and total of `Run` |
| DailyClosesEtl.StepProperties | stockbot/services/daily_closes_etl.py:150-177 | the count is the number of missing symbols fetched, even when a page fails; the table gains exactly the closes of the sent symbols, which are all fetched symbols exactly when no page failed and otherwise 100 per page before the failing one; rows are never removed |
| DailyClosesEtl.StepStored | stockbot/services/daily_closes_etl.py:150-177 | the step's table is the old one with the closes of the sent symbols stored, and its count is the number of fetched symbols |
| DailyClosesEtl.StepUnfold | stockbot/services/daily_closes_etl.py:150-177 | a date with nothing missing or nothing fetched changes nothing and counts 0; otherwise the step is the paged upsert of its batch |
| DailyClosesEtl.StepMissing | stockbot/services/daily_closes_etl.py:150-177 | a sent symbol whose close fell on the target is no longer missing; a missing symbol that was not sent (failed fetch, failed page or a later page) stays missing and is fetched again on the next run |
| DailyClosesEtl.FallbackStaysMissing | stockbot/services/daily_closes_etl.py:83-154 | a symbol whose fallback bar is dated on another day stays missing for the target date, so it is fetched again on the next run |
| Callbacks.YearField | stockbot/handlers/callbacks.py:474 | `int(data.split("_")[i])` fails when there are too few fields |
| Callbacks.ParseRoute | stockbot/handlers/callbacks.py:53-1204 | `select_`, `dividends_`, `income_year_` and `balance_year_` routes exactly for those prefixes, with the symbol or year field they carry; history routes exactly for the three periods |
| Callbacks.SelectButtonRoundTrip | stockbot/handlers/callbacks.py:53-54 | the callback data of a suggestion button parses back to its symbol |
| Callbacks.DividendsButtonRoundTrip | stockbot/handlers/callbacks.py:453-474 | a dividend year button parses back to its year |
| Callbacks.YearFieldOfButton | stockbot/handlers/callbacks.py:605 | the third field of `<prefix>_year_<y>` is `y` |
| Callbacks.IncomeButtonRoundTrip | stockbot/handlers/callbacks.py:587-605 | an income year button parses back to its year |
| Callbacks.BalanceButtonRoundTrip | stockbot/handlers/callbacks.py:790-808 | a balance year button parses back to its year |
| Callbacks.Press | stockbot/handlers/callbacks.py:45-214 | `select_` stores the parsed symbol and answers with it; without a selected ticker every other press only asks for one and changes nothing but the tier downgrade; only `select_` changes the session; a served press carries its route and the selected ticker |
| Callbacks.PressGate | stockbot/handlers/callbacks.py:45-214 | with a ticker selected, a gated press is refused exactly when the quota check refuses; the table changes only by the downgrade and the quota check; only an allowed summary touches the rate limiter, and it is limited exactly when `Check` says so |
| Callbacks.WithTicker | stockbot/handlers/callbacks.py:71-214 | once a ticker is selected: the session is kept; a gated press is refused exactly when the quota check refuses and spends through it otherwise; the summary is rate limited exactly when `Check` says so; a served press carries its route and ticker |
| Callbacks.PressAtLimit | stockbot/handlers/callbacks.py:77-80 | a free subscriber at the limit pressing a gated button is refused and nothing changes |
| Callbacks.SuggestionThenPress | stockbot/handlers/callbacks.py:53-74 | after choosing a suggestion, an ungated press is served with that ticker |
| Callbacks.PressSpendsAtMostOne | stockbot/handlers/callbacks.py:77-80 | a press spends at most one credit and only the caller's row |
| Callbacks.Button | stockbot/handlers/callbacks.py:45-214 | the handler changes the tables, session and limiter in place as `Press` says |
| Callbacks.Chunks | stockbot/handlers/callbacks.py:174 | a text splits into ceil(length / 4000) chunks |
| Callbacks.ChunksTail | stockbot/handlers/callbacks.py:174 | the first chunk is the first 4000 characters, the rest chunk the remainder |
| Callbacks.ChunksJoin | stockbot/handlers/callbacks.py:173-174 | the chunks concatenate to the text, each holds 1..4000 characters, and all but the last exactly 4000 |
| Callbacks.ReadMoreText | stockbot/handlers/callbacks.py:170-192 | a summary of at most 4000 characters is sent whole; a longer one in at least two parts that join to it |
| Callbacks.HistParams | stockbot/handlers/callbacks.py:323-328 | one day uses 50 points of 15 minutes; otherwise hourly points, seven per day, over 5 days for `hist_5day` and 30 days otherwise |
| Callbacks.InsertYear | stockbot/handlers/callbacks.py:580-583 | placing a year into a strictly descending list keeps it strictly descending, adds that year and nothing else |
| Callbacks.SortedDistinct | stockbot/handlers/callbacks.py:580-583 | `sorted(set(ys), reverse=True)`: exactly the years of the list, strictly descending, no more of them than entries |
| Callbacks.TopYears | stockbot/handlers/callbacks.py:562-583 | `[:n]` and `LIMIT n`: at most `n` years, each from the list |
| Callbacks.TopYearsProperties | stockbot/handlers/callbacks.py:562-583 | the years are strictly descending; a year left out means `n` were kept, all above it; nothing is left out when `n` covers the list; empty exactly for an empty list or `n = 0` |
| Callbacks.TopFiveYears | stockbot/handlers/callbacks.py:580-583 | at most 5 distinct years, descending, all of them when fewer than 5 come back |
| Callbacks.ApiYears | stockbot/handlers/callbacks.py:580-583 | the comprehension fails exactly when some non-empty date does not start with an integer |
| Callbacks.ApiYearsLast | stockbot/handlers/callbacks.py:580-583 | the year set is built one date at a time |
| Callbacks.ApiYearsSound | stockbot/handlers/callbacks.py:580-583 | every listed year is the prefix of some date |
| Callbacks.ApiYearsComplete | stockbot/handlers/callbacks.py:580-583 | every date's year is listed |
| Callbacks.YearMenu | stockbot/handlers/callbacks.py:558-583 | database years are used when there are any, else exactly `TopYears` of the API years with limit 5; at most 5, descending, and API years come from the dates |
| Callbacks.YearMenuFromApi | stockbot/handlers/callbacks.py:580-583 | with no database years, a fiscal year of the API dates is left out of the menu only when five later years are shown |
| Callbacks.YearEntries | stockbot/handlers/callbacks.py:446-450 | the entries of one fiscal year: never more than there are rows |
| Callbacks.FiscalYears | stockbot/handlers/callbacks.py:447 | the fiscal year of every row, in order |
| Callbacks.YearEntriesNonEmpty | stockbot/handlers/callbacks.py:445-450 | every row's year has at least one entry |
| Callbacks.GroupByYear | stockbot/handlers/callbacks.py:445-450 | the `by_year` loop has exactly the fiscal years as keys, each holding its rows' (date, amount) pairs in order |
| Callbacks.YearEntriesHasYear | stockbot/handlers/callbacks.py:445-450 | a year with entries is one of the fiscal years |
| Callbacks.DividendYearButtons | stockbot/handlers/callbacks.py:452-455 | one button per distinct fiscal year |
| Callbacks.DividendYearButtonsProperties | stockbot/handlers/callbacks.py:452-455 | one button per distinct fiscal year, newest first, each parsing back to its year |
| Callbacks.DebtToEquity | stockbot/handlers/callbacks.py:852-889 | no ratio exactly when equity (assets minus liabilities) is zero; otherwise the ratio times the equity is the liabilities |
| Callbacks.Shariah | stockbot/handlers/callbacks.py:1016-1028 | zero revenue or market cap gives both ratios 0 and "insufficient data"; otherwise the ratios are the percentages and the stock is likely compliant exactly when interest < 5 and debt < 33 |
| Callbacks.ShariahWithoutDivision | stockbot/handlers/callbacks.py:1021-1023 | with positive revenue and market cap, compliant exactly when interest·100 < 5·revenue and debt·100 < 33·market cap |
| Callbacks.ShariahMonotoneInDebt | stockbot/handlers/callbacks.py:1022-1023 | lowering the debt never turns a compliant verdict into a non-compliant one |

## Left out

- Telegram transport: the reply texts, keyboards, Markdown, the dispatcher and the error handler. Replies are modelled as datatypes that carry the values they show.
- Database connections and the connection pool are not modelled. Every connection is in autocommit mode (stockbot/database/connection.py:17), so a statement is final once it runs and `commit`/`rollback` change nothing. Each subscriber statement is an in-place update of the `Tables` maps.
- psycopg2's `execute_values` is not part of this model. The ETL inserts follow its default behaviour: one INSERT per page of 100 rows (`Upserts.PageSize`). Which page fails, if any, is a parameter (`Upserts.Outcome`), and the reason a database statement fails is not modelled.
- Columns that no statement of the model sets are NULL (`None`); the schema's defaults are not part of this model.
- `load_ticker_names` (stockbot/services/ticker_service.py:23-32) is not modelled: the directory rows are a parameter.
- rapidfuzz's `WRatio` is left uninterpreted: the scorer is a function parameter.
- `process.extract` is modelled as a stable sort by score, descending, cut at `limit`; ties are broken in input order (`TickerService.SortStable`).
- Cache.Parts: keyword values are modelled as their `str()` text; `f"{k}={kwargs[k]}"` (stockbot/services/api/cache.py:8) formats any value, and that conversion is not part of this model.
- TickerService.FindTopMatches: requires `max_results >= 1`. The source never passes anything else; with 0, the `break` would never fire.
- Unicode case mapping and digits are ASCII only: `upper`, `lower`, `\d` and `isdigit` match and map ASCII characters only.
- `int()` text forms: the digit separators `_` and non-ASCII digits are not accepted (a leading `+` or `-` is).
- Commands.Start: the handler model replies with the corrected greeting (`Commands.StartGreeting`), not the `usage_count`/`usage_limit` read before `SUBSCRIBER_UPDATE_FREE` that stockbot/handlers/commands.py:40 and :86-91 send; the reply as written is `Commands.GreetingAsWritten`, and `Commands.GreetingsAgree` states exactly when the two differ.
- Floating point: ratios, scaling and thresholds are over `real`, so rounding is not modelled. The `:.2f` and `,.2f` renderings are function parameters, and so is `float()` on strings.
- `SUBSCRIBER_RESET_DAILY_USAGE` is modelled as a statement with its properties, but no handler in the source runs it.
- The help text gives a free limit of 5; the code uses 15 (stockbot/database/queries.py:5), and so does the model.
- ThreadPoolExecutor and `as_completed`: the threads themselves are not modelled, only the order in which the fetches finish. The statement and dividend loaders take `symbols` as the tickers in that order. The daily-closes job takes one completion order per date (`DailyClosesEtl.Order`), which must list every ticker once (`DailyClosesEtl.ListsEach`). The pages sent before a failing one hold the rows in that order.
- `throttle()` in the daily-closes job is not modelled (it only sleeps).
- The TTL and size bounds of the `cachetools` caches are not modelled.
- `CACHE_HIT_COUNTS` is not modelled.
- Data fetches inside the profile, summary, historical, chart, dividends-year, income-year, balance-year, Shariah and stats branches are not modelled; the model stops where each branch begins to fetch (`Serve`).
- Arithmetic of totals and margins in those branches is not modelled, including the dividend total and the income margins.
- Chart building with pandas and plotly is not modelled.
- Exceptions inside those branches, and the outer `except` of `button`, are not modelled.
- `datetime.strptime` failures on malformed `START_DATE`/`END_DATE` are not modelled; date parsing is a function parameter.
- `sort_values('datetime')` is taken as a precondition (a time-ordered frame) in DailyClosesEtl.SelectRowSorted.
- Daily-close prices and volume are carried as opaque values; the `int(volume)` truncation is not modelled.
- Errors in the ETL fetches are modelled per symbol and frame: the source's per-column errors all end the same way, with the rows gathered so far returned.
- stockbot/services/shariah_etl.py and stockbot/services/stockinfo_etl.py are not part of this model: they wrap external clients and a fixed-column upsert.

## Findings

| source | as written | input that shows it | evidently intended | confidence | as-written member | corrected member |
|---|---|---|---|---|---|---|
| stockbot/handlers/commands.py:86-91 | the `/start` greeting of an existing non-premium subscriber shows `usage_count` as read before `SUBSCRIBER_UPDATE_FREE`, so after a daily reset it still shows yesterday's count | an existing free row with `usage_count = 7`, `usage_limit = 15`, `last_usage_reset` yesterday: the row is reset to 0 but the reply says 7 of 15 | the greeting reports the stored count after the update, 0 in this case | medium, not executed | Commands.GreetingStale | Commands.StartGreeting |
