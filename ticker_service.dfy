/** The ticker directory service: Arabic and English name normalisation,
    language detection, Saudi symbol parsing and the ranking of fuzzy name
    matches. The fuzzy scorer is a parameter; the directory rows are passed
    in rather than loaded from the database. */
module TickerService {
  import opened Wrappers
  import Seqs
  import opened Text
  import opened Dicts

  /** A row of `tickers_ar_en`; an empty name stands for NULL (both are falsy). */
  datatype TickerRow = TickerRow(symbol: string, arabicName: string, englishName: string)

  /** `(symbol, name, score)` as returned by `find_top_matches`. */
  datatype Match = Match(symbol: string, name: string, score: real)

  /** `(choice, score)` as returned by the fuzzy extractor. */
  datatype Hit = Hit(text: string, score: real)

  datatype Lang = Arabic | English

  /** `(db_symbol, api_symbol, is_saudi)`. */
  datatype SymbolParse = SymbolParse(db: string, api: string, isSaudi: bool)

  // ---------------------------------------------------------------------
  // Normalisation

  /** The Arabic marks the normaliser removes: U+0617..U+061A, U+064B..U+065F,
      U+0670 and U+06D6..U+06ED. */
  predicate IsDiacritic(c: char)
  {
    ('\U{0617}' <= c <= '\U{061A}') || ('\U{064B}' <= c <= '\U{065F}')
    || c == '\U{0670}' || ('\U{06D6}' <= c <= '\U{06ED}')
  }

  const Tatweel: char := '\U{0640}'
  const Alef: char := '\U{0627}'

  /** Alef with hamza above (U+0623), hamza below (U+0625) or madda (U+0622). */
  predicate IsMarkedAlef(c: char)
  {
    c == '\U{0623}' || c == '\U{0625}' || c == '\U{0622}'
  }

  predicate IsTatweel(c: char)
  {
    c == Tatweel
  }

  /** `pattern.sub("", s)` for a one-character class, or `s.replace(c, "")`. */
  function Remove(s: string, drop: char -> bool): (r: string)
    ensures |r| <= |s|
    ensures forall i :: 0 <= i < |r| ==> !drop(r[i]) && r[i] in s
    ensures (forall i :: 0 <= i < |s| ==> !drop(s[i])) ==> r == s
  {
    if s == [] then []
    else
      var rest := Remove(s[1..], drop);
      assert forall c :: c in s[1..] ==> c in s;
      if drop(s[0]) then rest else [s[0]] + rest
  }

  function PlainAlef(c: char): char
  {
    if IsMarkedAlef(c) then Alef else c
  }

  /** The three `replace(..., "ا")` calls: each marked alef becomes a plain alef. */
  function ReplaceAlef(s: string): (r: string)
    ensures |r| == |s|
    ensures forall i :: 0 <= i < |s| ==> r[i] == PlainAlef(s[i])
  {
    seq(|s|, i requires 0 <= i < |s| => PlainAlef(s[i]))
  }

  /** No diacritic, no tatweel and no marked alef. */
  predicate Plain(s: string)
  {
    forall i :: 0 <= i < |s| ==> !IsDiacritic(s[i]) && s[i] != Tatweel && !IsMarkedAlef(s[i])
  }

  /** The removals and replacements of `_normalize_ar`, before whitespace. */
  function PlainLetters(txt: string): (r: string)
    ensures Plain(r)
  {
    var a := Remove(txt, IsDiacritic);
    var b := Remove(a, IsTatweel);
    assert forall i :: 0 <= i < |b| ==> b[i] in a;
    ReplaceAlef(b)
  }

  lemma CollapsePlain(c: string)
    requires Plain(c)
    ensures Plain(CollapseSpaces(c))
  {
    var d := CollapseSpaces(c);
    CollapseSpacesKeeps(c);
    forall i | 0 <= i < |d| ensures !IsDiacritic(d[i]) && d[i] != Tatweel && !IsMarkedAlef(d[i])
    {
      if d[i] != ' ' { var k :| 0 <= k < |c| && c[k] == d[i]; }
    }
  }

  lemma StripPlain(d: string)
    requires Plain(d)
    ensures Plain(Strip(d))
  {
    StripKeeps(d);
    var t := Strip(d);
    forall i | 0 <= i < |t| ensures !IsDiacritic(t[i]) && t[i] != Tatweel && !IsMarkedAlef(t[i])
    {
      var k :| 0 <= k < |d| && d[k] == t[i];
    }
  }

  /** Collapsing whitespace, then stripping, keeps a plain string plain. */
  lemma CollapseStripPlain(c: string)
    requires Plain(c)
    ensures Plain(Strip(CollapseSpaces(c)))
    ensures Collapsed(Strip(CollapseSpaces(c)))
  {
    CollapsePlain(c);
    StripPlain(CollapseSpaces(c));
    StripKeeps(CollapseSpaces(c));
  }

  /** `_normalize_ar`. */
  function NormalizeAr(txt: string): (r: string)
    ensures Plain(r) && Collapsed(r) && Trimmed(r)
  {
    var c := PlainLetters(txt);
    CollapseStripPlain(c);
    Strip(CollapseSpaces(c))
  }

  /** `_normalize_en`. */
  function NormalizeEn(txt: string): (r: string)
    ensures NoUpperCase(r) && Collapsed(r) && Trimmed(r)
  {
    var s := Lower(Strip(txt));
    CaseMapping(Strip(txt));
    CollapseSpacesTrimmed(s);
    CollapseSpacesKeeps(s);
    CollapseSpaces(s)
  }

  /** Normalising a normalised English name changes nothing. */
  lemma NormalizeEnIdempotent(txt: string)
    ensures NormalizeEn(NormalizeEn(txt)) == NormalizeEn(txt)
  {
    var r := NormalizeEn(txt);
    assert Strip(r) == r;
    CaseMapping(r);
    CollapseSpacesFixpoint(r);
  }

  /** Normalising a normalised Arabic name changes nothing. */
  lemma NormalizeArIdempotent(txt: string)
    ensures NormalizeAr(NormalizeAr(txt)) == NormalizeAr(txt)
  {
    var r := NormalizeAr(txt);
    assert Remove(r, IsDiacritic) == r;
    assert Remove(r, IsTatweel) == r;
    assert PlainLetters(r) == r;
    CollapseSpacesFixpoint(r);
  }

  predicate IsArabicBlock(c: char)
  {
    '\U{0600}' <= c <= '\U{06FF}'
  }

  /** `_detect_lang`: a search for any character of the Arabic block. */
  function DetectLang(txt: string): (lang: Lang)
    ensures lang == Arabic <==> exists i :: 0 <= i < |txt| && IsArabicBlock(txt[i])
  {
    if txt == [] then English
    else if IsArabicBlock(txt[0]) then Arabic
    else
      var lang := DetectLang(txt[1..]);
      assert forall i :: 0 < i < |txt| ==> txt[i] == txt[1..][i - 1];
      lang
  }

  // ---------------------------------------------------------------------
  // Symbol parsing

  /** `re.fullmatch(r'(\d{4})(\.SR)?', s)`, giving group 1 on a match. */
  function SaudiCode(s: string): (code: Option<string>)
    ensures code.Some? ==>
      |code.value| == 4 && AllDigits(code.value) && (s == code.value || s == code.value + ".SR")
  {
    if |s| == 4 && AllDigits(s) then Some(s)
    else if |s| == 7 && AllDigits(s[..4]) && s[4..] == ".SR" then
      assert s == s[..4] + ".SR";
      Some(s[..4])
    else None
  }

  /** `parse_symbol`. */
  function ParseSymbol(raw: string): (r: SymbolParse)
    ensures r.isSaudi ==>
      |r.api| == 4 && AllDigits(r.api) && r.db == r.api + ".SR"
      && (Upper(Strip(raw)) == r.api || Upper(Strip(raw)) == r.db)
    ensures !r.isSaudi ==>
      r.db == Upper(Strip(raw)) && r.api == r.db && SaudiCode(Upper(Strip(raw))).None?
  {
    var s := Upper(Strip(raw));
    match SaudiCode(s)
    case Some(code) => SymbolParse(code + ".SR", code, true)
    case None => SymbolParse(s, s, false)
  }

  lemma SaudiCoreTrimmed(code: string, suffix: string)
    requires |code| == 4 && AllDigits(code)
    requires suffix == [] || Upper(suffix) == ".SR"
    ensures Trimmed(code + suffix)
  {
    var core := code + suffix;
    assert core[0] == code[0];
    if suffix != [] {
      assert |suffix| == 3;
      assert Upper(suffix)[2] == UpperChar(suffix[2]) && ".SR"[2] == 'R';
      assert core[|core| - 1] == suffix[2];
    }
  }

  lemma SaudiCoreUpper(code: string, suffix: string)
    requires |code| == 4 && AllDigits(code)
    requires suffix == [] || Upper(suffix) == ".SR"
    ensures SaudiCode(Upper(code + suffix)) == Some(code)
  {
    var s := Upper(code + suffix);
    assert s == Upper(code) + Upper(suffix);
    CaseMapping(code);
    assert Upper(code) == code;
    if suffix == [] {
      assert s == code;
    } else {
      assert s == code + ".SR";
      assert s[..4] == code;
    }
  }

  /** Four ASCII digits, optionally followed by `.SR` in any letter case and
      surrounded by any whitespace, parse as a Saudi symbol. */
  lemma ParseSymbolSaudi(pre: string, code: string, suffix: string, post: string)
    requires AllSpaces(pre) && AllSpaces(post)
    requires |code| == 4 && AllDigits(code)
    requires suffix == [] || Upper(suffix) == ".SR"
    ensures ParseSymbol(pre + code + suffix + post) == SymbolParse(code + ".SR", code, true)
  {
    SaudiCoreTrimmed(code, suffix);
    assert pre + code + suffix + post == pre + (code + suffix) + post;
    StripPadded(pre, code + suffix, post);
    SaudiCoreUpper(code, suffix);
  }

  /** Parsing the database symbol again gives the same triple. */
  lemma ParseSymbolIdempotent(raw: string)
    ensures ParseSymbol(ParseSymbol(raw).db) == ParseSymbol(raw)
  {
    var r := ParseSymbol(raw);
    if r.isSaudi {
      ReparseSaudi(r.api);
    } else {
      ReparseOther(raw);
    }
  }

  lemma ReparseSaudi(code: string)
    requires |code| == 4 && AllDigits(code)
    ensures ParseSymbol(code + ".SR") == SymbolParse(code + ".SR", code, true)
  {
    ParseSymbolSaudi([], code, ".SR", []);
    assert [] + code + ".SR" + [] == code + ".SR";
  }

  lemma ReparseOther(raw: string)
    requires !ParseSymbol(raw).isSaudi
    ensures ParseSymbol(ParseSymbol(raw).db) == ParseSymbol(raw)
  {
    var s := Upper(Strip(raw));
    CaseMapping(Strip(raw));
    assert Strip(s) == s;
    CaseMapping(s);
  }

  /** `symbol_exists_in_db`: some directory row carries exactly `sym`. */
  function SymbolExists(rows: seq<TickerRow>, sym: string): (b: bool)
    ensures b <==> exists i :: 0 <= i < |rows| && rows[i].symbol == sym
  {
    if rows == [] then false
    else
      assert forall i :: 0 < i < |rows| ==> rows[i] == rows[1..][i - 1];
      rows[0].symbol == sym || SymbolExists(rows[1..], sym)
  }

  // ---------------------------------------------------------------------
  // Ranking of fuzzy matches

  /** Python's `seq[:n]`. */
  function Take<T>(s: seq<T>, n: nat): (r: seq<T>)
    ensures |r| <= n && r <= s
    ensures |r| < n ==> r == s
  {
    if |s| <= n then s else s[..n]
  }

  /** The first `n` of a list that starts with `n` given entries are those. */
  lemma TakeOfPrefix<T>(p: seq<T>, s: seq<T>, n: nat)
    requires p <= s && |p| == n
    ensures Take(s, n) == p
  {
    assert s[..n] == p;
  }

  predicate NonIncreasing<T>(s: seq<T>, key: T -> real)
  {
    forall i, j :: 0 <= i < j < |s| ==> key(s[i]) >= key(s[j])
  }

  /** Places `x` after every element whose key is at least its own, so equal
      keys keep their order of arrival. */
  function InsertByKey<T(==)>(sorted: seq<T>, x: T, key: T -> real): (r: seq<T>)
    requires NonIncreasing(sorted, key)
    ensures multiset(r) == multiset(sorted) + multiset{x}
    ensures forall y :: y in r ==> y == x || y in sorted
    ensures NonIncreasing(r, key)
  {
    if sorted == [] || key(sorted[0]) < key(x) then [x] + sorted
    else
      var rest := InsertByKey(sorted[1..], x, key);
      assert sorted == [sorted[0]] + sorted[1..];
      HeadFirst(sorted, x, rest, key);
      [sorted[0]] + rest
  }

  lemma HeadFirst<T>(sorted: seq<T>, x: T, rest: seq<T>, key: T -> real)
    requires sorted != [] && key(sorted[0]) >= key(x)
    requires NonIncreasing(sorted, key) && NonIncreasing(rest, key)
    requires forall y :: y in rest ==> y == x || y in sorted[1..]
    ensures NonIncreasing([sorted[0]] + rest, key)
  {
    var r := [sorted[0]] + rest;
    forall j | 0 < j < |r| ensures key(sorted[0]) >= key(r[j])
    {
      assert r[j] == rest[j - 1] && rest[j - 1] in rest;
      if r[j] != x {
        assert r[j] in sorted[1..];
        var k :| 0 <= k < |sorted[1..]| && sorted[1..][k] == r[j];
        assert sorted[k + 1] == r[j];
      }
    }
    assert forall i, j :: 0 < i < j < |r| ==> r[i] == rest[i - 1] && r[j] == rest[j - 1];
  }

  /** `sorted(s, key=key, reverse=True)`: a stable sort by descending key. */
  function SortByKeyDesc<T(==)>(s: seq<T>, key: T -> real): (r: seq<T>)
    ensures multiset(r) == multiset(s)
    ensures NonIncreasing(r, key)
  {
    if s == [] then []
    else
      assert s == s[..|s| - 1] + [s[|s| - 1]];
      InsertByKey(SortByKeyDesc(s[..|s| - 1], key), s[|s| - 1], key)
  }

  /** The elements of `s` whose key is `v`, in order. */
  function WithKey<T>(s: seq<T>, key: T -> real, v: real): seq<T>
  {
    if s == [] then [] else (if key(s[0]) == v then [s[0]] else []) + WithKey(s[1..], key, v)
  }

  lemma {:induction false} WithKeyAppend<T>(a: seq<T>, b: seq<T>, key: T -> real, v: real)
    ensures WithKey(a + b, key, v) == WithKey(a, key, v) + WithKey(b, key, v)
    decreases |a|
  {
    if a != [] {
      assert (a + b)[1..] == a[1..] + b;
      WithKeyAppend(a[1..], b, key, v);
    } else {
      assert a + b == b;
    }
  }

  lemma {:induction false} WithKeyNone<T>(s: seq<T>, key: T -> real, v: real)
    requires forall i :: 0 <= i < |s| ==> key(s[i]) < v
    ensures WithKey(s, key, v) == []
    decreases |s|
  {
    if s != [] {
      WithKeyNone(s[1..], key, v);
    }
  }

  lemma WithKeyCons<T>(h: T, t: seq<T>, key: T -> real, v: real)
    ensures WithKey([h] + t, key, v) == (if key(h) == v then [h] else []) + WithKey(t, key, v)
  {
    assert ([h] + t)[1..] == t;
  }

  /** Putting the same head before two lists keeps their filters related. */
  lemma WithKeyBehind<T>(sorted: seq<T>, rest: seq<T>, key: T -> real, v: real, xs: seq<T>)
    requires sorted != []
    requires WithKey(rest, key, v) == WithKey(sorted[1..], key, v) + xs
    ensures WithKey([sorted[0]] + rest, key, v) == WithKey(sorted, key, v) + xs
  {
    WithKeyCons(sorted[0], rest, key, v);
  }

  /** `x` in front of a list of lower keys: nothing of `x`'s key follows it. */
  lemma InsertFront<T>(sorted: seq<T>, x: T, key: T -> real, v: real)
    requires NonIncreasing(sorted, key)
    requires sorted == [] || key(sorted[0]) < key(x)
    ensures WithKey([x] + sorted, key, v) == WithKey(sorted, key, v) + (if key(x) == v then [x] else [])
  {
    WithKeyCons(x, sorted, key, v);
    if key(x) == v {
      WithKeyNone(sorted, key, v);
    }
  }

  /** Inserting `x` puts it after every element with its own key. */
  lemma {:induction false} InsertWithKey<T>(sorted: seq<T>, x: T, key: T -> real, v: real)
    requires NonIncreasing(sorted, key)
    ensures WithKey(InsertByKey(sorted, x, key), key, v)
      == WithKey(sorted, key, v) + (if key(x) == v then [x] else [])
    decreases |sorted|
  {
    if sorted == [] || key(sorted[0]) < key(x) {
      assert InsertByKey(sorted, x, key) == [x] + sorted;
      InsertFront(sorted, x, key, v);
    } else {
      var rest := InsertByKey(sorted[1..], x, key);
      assert InsertByKey(sorted, x, key) == [sorted[0]] + rest;
      InsertWithKey(sorted[1..], x, key, v);
      WithKeyBehind(sorted, rest, key, v, if key(x) == v then [x] else []);
    }
  }

  /** The sort is stable: the elements of any one key keep their input order. */
  lemma {:induction false} SortStable<T>(s: seq<T>, key: T -> real, v: real)
    ensures WithKey(SortByKeyDesc(s, key), key, v) == WithKey(s, key, v)
    decreases |s|
  {
    if s != [] {
      var init := s[..|s| - 1];
      var x := s[|s| - 1];
      assert s == init + [x];
      SortStable(init, key, v);
      InsertWithKey(SortByKeyDesc(init, key), x, key, v);
      WithKeyAppend(init, [x], key, v);
      WithKeyCons(x, [], key, v);
    }
  }

  function HitScore(h: Hit): real { h.score }
  function MatchScore(m: Match): real { m.score }

  /** `process.extract(query, choices, scorer=scorer, limit=limit)`: every
      choice scored, best first (ties in choice order), cut to `limit`. */
  function Extract(query: string, choices: seq<string>, scorer: (string, string) -> real, limit: nat): (r: seq<Hit>)
    ensures |r| <= limit
    ensures forall i :: 0 <= i < |r| ==> r[i].text in choices && r[i].score == scorer(query, r[i].text)
    ensures NonIncreasing(r, HitScore)
    ensures forall c :: c in choices && Hit(c, scorer(query, c)) !in r ==>
      forall h :: h in r ==> h.score >= scorer(query, c)
  {
    var scored := seq(|choices|, i requires 0 <= i < |choices| => Hit(choices[i], scorer(query, choices[i])));
    var sorted := SortByKeyDesc(scored, HitScore);
    var r := Take(sorted, limit);
    ExtractTop(query, choices, scorer, scored, sorted, r);
    r
  }

  /** The cut of the sorted scores keeps real scores, in order, and drops only
      choices that score no higher than every kept one. */
  lemma ExtractTop(query: string, choices: seq<string>, scorer: (string, string) -> real,
                   scored: seq<Hit>, sorted: seq<Hit>, r: seq<Hit>)
    requires |scored| == |choices|
    requires forall j :: 0 <= j < |choices| ==> scored[j] == Hit(choices[j], scorer(query, choices[j]))
    requires NonIncreasing(sorted, HitScore) && multiset(sorted) == multiset(scored) && r <= sorted
    ensures forall i :: 0 <= i < |r| ==> r[i].text in choices && r[i].score == scorer(query, r[i].text)
    ensures NonIncreasing(r, HitScore)
    ensures forall c :: c in choices && Hit(c, scorer(query, c)) !in r ==>
      forall h :: h in r ==> h.score >= scorer(query, c)
  {
    forall i | 0 <= i < |r| ensures r[i].text in choices && r[i].score == scorer(query, r[i].text) {
      assert r[i] == sorted[i] && sorted[i] in multiset(scored);
      var j :| 0 <= j < |scored| && scored[j] == r[i];
    }
    TakeKeepsTop(sorted, r, scored);
    ScoredCovers(query, choices, scorer, scored);
  }

  lemma ScoredCovers(query: string, choices: seq<string>, scorer: (string, string) -> real, scored: seq<Hit>)
    requires |scored| == |choices|
    requires forall j :: 0 <= j < |choices| ==> scored[j] == Hit(choices[j], scorer(query, choices[j]))
    ensures forall c :: c in choices ==> Hit(c, scorer(query, c)) in scored
  {
    forall c | c in choices ensures Hit(c, scorer(query, c)) in scored {
      var j :| 0 <= j < |choices| && choices[j] == c;
      assert scored[j] == Hit(c, scorer(query, c));
    }
  }

  /** A prefix of a list sorted by descending score scores at least as high
      as every element of the list that it leaves out. */
  lemma TakeKeepsTop(sorted: seq<Hit>, r: seq<Hit>, scored: seq<Hit>)
    requires NonIncreasing(sorted, HitScore) && r <= sorted
    requires multiset(sorted) == multiset(scored)
    ensures NonIncreasing(r, HitScore)
    ensures forall x :: x in scored && x !in r ==> forall h :: h in r ==> h.score >= x.score
  {
    forall x | x in scored && x !in r
      ensures forall h :: h in r ==> h.score >= x.score
    {
      assert x in multiset(sorted);
      var k :| 0 <= k < |sorted| && sorted[k] == x;
      assert forall j :: 0 <= j < |r| ==> r[j] == sorted[j] && r[j] in r;
      assert k >= |r|;
      forall h | h in r ensures h.score >= x.score {
        var i :| 0 <= i < |r| && r[i] == h;
        assert sorted[i] == h;
      }
    }
  }

  /** `{_normalize_ar(row[1]): row for row in rows if row[1]}`. */
  function ArabicIndex(rows: seq<TickerRow>): (d: Dict<string, TickerRow>)
    ensures d.Valid()
  {
    FromPairs(ArabicPairs(rows))
  }

  function ArabicPairs(rows: seq<TickerRow>): seq<(string, TickerRow)>
  {
    if rows == [] then []
    else
      var init := ArabicPairs(rows[..|rows| - 1]);
      var row := rows[|rows| - 1];
      if row.arabicName != [] then init + [(NormalizeAr(row.arabicName), row)] else init
  }

  /** `{_normalize_en(row[2]): row for row in rows if row[2]}`. */
  function EnglishIndex(rows: seq<TickerRow>): (d: Dict<string, TickerRow>)
    ensures d.Valid()
  {
    FromPairs(EnglishPairs(rows))
  }

  function EnglishPairs(rows: seq<TickerRow>): seq<(string, TickerRow)>
  {
    if rows == [] then []
    else
      var init := EnglishPairs(rows[..|rows| - 1]);
      var row := rows[|rows| - 1];
      if row.englishName != [] then init + [(NormalizeEn(row.englishName), row)] else init
  }

  /** `row[1] or row[2]`. */
  function DisplayName(row: TickerRow): string
  {
    if row.arabicName != [] then row.arabicName else row.englishName
  }

  /** `norm_ar.get(txt) or norm_en.get(txt)`. */
  function Resolve(ar: Dict<string, TickerRow>, en: Dict<string, TickerRow>, text: string): Option<TickerRow>
  {
    if text in ar.entries then Some(ar.entries[text]) else en.Get(text)
  }

  /** The `results` list: hits under `minScore` are skipped, and each other
      hit is resolved through the Arabic index first, then the English one.
      Every hit is a key of one of the two indexes (see `Candidates`), so the
      lookup never comes back empty. */
  function Passing(hits: seq<Hit>, ar: Dict<string, TickerRow>, en: Dict<string, TickerRow>, minScore: real): (r: seq<Match>)
    ensures |r| <= |hits|
    ensures forall i :: 0 <= i < |r| ==> r[i].score >= minScore
  {
    if hits == [] then []
    else
      var init := Passing(hits[..|hits| - 1], ar, en, minScore);
      var h := hits[|hits| - 1];
      if h.score < minScore then init
      else
        match Resolve(ar, en, h.text)
        case Some(row) => init + [Match(row.symbol, DisplayName(row), h.score)]
        case None => init
  }

  function SymbolsOf(s: seq<Match>): set<string>
  {
    set m | m in s :: m.symbol
  }

  /** The `seen`/`final` loop run to the end: the first entry of each symbol. */
  function FirstPerSymbol(s: seq<Match>): (r: seq<Match>)
    ensures forall i :: 0 <= i < |r| ==> r[i] in s
    ensures forall i, j :: 0 <= i < j < |r| ==> r[i].symbol != r[j].symbol
    ensures SymbolsOf(r) == SymbolsOf(s)
    ensures |r| <= |s|
  {
    if s == [] then []
    else
      var init := s[..|s| - 1];
      var f := FirstPerSymbol(init);
      var m := s[|s| - 1];
      assert s == init + [m];
      assert SymbolsOf(s) == SymbolsOf(init) + {m.symbol};
      if m.symbol in SymbolsOf(f) then f
      else
        assert forall i :: 0 <= i < |f| ==> f[i].symbol in SymbolsOf(f);
        assert SymbolsOf(f + [m]) == SymbolsOf(f) + {m.symbol};
        f + [m]
  }

  /** `find_top_matches` after extraction: sorted by score, first entry per
      symbol, at most `maxResults` of them. */
  function Ranked(results: seq<Match>, maxResults: nat): seq<Match>
  {
    Take(FirstPerSymbol(SortByKeyDesc(results, MatchScore)), maxResults)
  }

  /** The normalised query: Arabic rules when it has an Arabic character. */
  function QueryKey(query: string): string
  {
    if DetectLang(query) == Arabic then NormalizeAr(query) else NormalizeEn(query)
  }

  /** `ar_matches + en_matches`. */
  function Candidates(q: string, ar: Dict<string, TickerRow>, en: Dict<string, TickerRow>,
                      scorer: (string, string) -> real, maxResults: nat): (hits: seq<Hit>)
    ensures |hits| <= 2 * maxResults
  {
    Extract(q, ar.keys, scorer, maxResults) + Extract(q, en.keys, scorer, maxResults)
  }

  /** Every candidate is a key of one of the two indexes, so resolving it
      never fails, and it carries the scorer's score for that key. */
  lemma CandidatesResolve(q: string, ar: Dict<string, TickerRow>, en: Dict<string, TickerRow>,
                          scorer: (string, string) -> real, maxResults: nat)
    requires ar.Valid() && en.Valid()
    ensures forall h :: h in Candidates(q, ar, en, scorer, maxResults) ==>
      Resolve(ar, en, h.text).Some? && h.score == scorer(q, h.text)
  {
    var a := Extract(q, ar.keys, scorer, maxResults);
    var e := Extract(q, en.keys, scorer, maxResults);
    forall h: Hit | h in a + e
      ensures Resolve(ar, en, h.text).Some? && h.score == scorer(q, h.text)
    {
      if h in a {
        var k :| 0 <= k < |a| && a[k] == h;
      } else {
        var k :| 0 <= k < |e| && e[k] == h;
      }
    }
  }

  /** What `find_top_matches(query, maxResults, minScore)` returns for the
      directory `rows` and the fuzzy scorer `scorer`. */
  function TopMatches(query: string, rows: seq<TickerRow>, scorer: (string, string) -> real,
                      maxResults: nat, minScore: real): seq<Match>
  {
    var ar := ArabicIndex(rows);
    var en := EnglishIndex(rows);
    Ranked(Passing(Candidates(QueryKey(query), ar, en, scorer, maxResults), ar, en, minScore), maxResults)
  }

  /** `find_top_matches`: extraction from both indexes, then the source's
      two loops, over `results` and over `seen`/`final`. */
  method FindTopMatches(query: string, rows: seq<TickerRow>, scorer: (string, string) -> real,
                        maxResults: nat, minScore: real) returns (final: seq<Match>)
    requires maxResults >= 1
    ensures final == TopMatches(query, rows, scorer, maxResults, minScore)
  {
    var ar := ArabicIndex(rows);
    var en := EnglishIndex(rows);
    var hits := Candidates(QueryKey(query), ar, en, scorer, maxResults);
    var results := CollectResults(hits, ar, en, minScore);
    final := FirstFew(SortByKeyDesc(results, MatchScore), maxResults);
  }

  /** The `results` loop: skips hits under `minScore` and resolves the rest. */
  method CollectResults(hits: seq<Hit>, ar: Dict<string, TickerRow>, en: Dict<string, TickerRow>,
                        minScore: real) returns (results: seq<Match>)
    ensures results == Passing(hits, ar, en, minScore)
  {
    results := [];
    var i := 0;
    while i < |hits|
      invariant 0 <= i <= |hits|
      invariant results == Passing(hits[..i], ar, en, minScore)
    {
      assert hits[..i + 1][..i] == hits[..i];
      var h := hits[i];
      if h.score >= minScore {
        match Resolve(ar, en, h.text)
        case Some(row) =>
          results := results + [Match(row.symbol, DisplayName(row), h.score)];
        case None =>
      }
      i := i + 1;
    }
    assert hits[..i] == hits;
  }

  /** The `seen`/`final` loop with its early `break`. */
  method FirstFew(ordered: seq<Match>, maxResults: nat) returns (final: seq<Match>)
    requires maxResults >= 1
    ensures final == Take(FirstPerSymbol(ordered), maxResults)
  {
    var seen: set<string> := {};
    final := [];
    var j := 0;
    while j < |ordered|
      invariant 0 <= j <= |ordered|
      invariant final == FirstPerSymbol(ordered[..j])
      invariant seen == SymbolsOf(final)
      invariant |final| < maxResults
    {
      final, seen := KeepIfNew(ordered, j, final, seen);
      j := j + 1;
      if |final| == maxResults {
        TakeAtLimit(ordered, j, maxResults);
        return;
      }
    }
    TakeAll(ordered, maxResults);
  }

  /** One pass of the `seen`/`final` loop: entry `j` is kept, and its
      symbol marked as seen, unless the symbol was seen before. */
  method KeepIfNew(ordered: seq<Match>, j: nat, final: seq<Match>, seen: set<string>)
    returns (final2: seq<Match>, seen2: set<string>)
    requires j < |ordered| && final == FirstPerSymbol(ordered[..j]) && seen == SymbolsOf(final)
    ensures final2 == FirstPerSymbol(ordered[..j + 1]) && seen2 == SymbolsOf(final2)
    ensures |final2| <= |final| + 1
  {
    FirstPerSymbolStep(ordered, j);
    var m := ordered[j];
    final2, seen2 := final, seen;
    if m.symbol !in seen {
      SymbolsOfSnoc(final, m);
      final2 := final + [m];
      seen2 := seen + {m.symbol};
    }
  }

  /** Once the loop has kept `n` entries, they are the first `n` of the
      full result. */
  lemma TakeAtLimit(ordered: seq<Match>, j: nat, n: nat)
    requires j <= |ordered| && |FirstPerSymbol(ordered[..j])| == n
    ensures Take(FirstPerSymbol(ordered), n) == FirstPerSymbol(ordered[..j])
  {
    FirstPerSymbolPrefix(ordered, j);
    TakeOfPrefix(FirstPerSymbol(ordered[..j]), FirstPerSymbol(ordered), n);
  }

  /** A loop that ran to the end kept fewer than `n` entries: all of them. */
  lemma TakeAll(ordered: seq<Match>, n: nat)
    requires |FirstPerSymbol(ordered[..|ordered|])| < n
    ensures Take(FirstPerSymbol(ordered), n) == FirstPerSymbol(ordered[..|ordered|])
  {
    assert ordered[..|ordered|] == ordered;
  }

  /** One more entry is kept exactly when its symbol is new. */
  lemma FirstPerSymbolSnoc(s: seq<Match>)
    requires s != []
    ensures var f := FirstPerSymbol(s[..|s| - 1]);
      var m := s[|s| - 1];
      FirstPerSymbol(s) == if m.symbol in SymbolsOf(f) then f else f + [m]
  {
  }

  /** One more step of the loop over `s` keeps entry `k` exactly when its
      symbol is new. */
  lemma FirstPerSymbolStep(s: seq<Match>, k: nat)
    requires k < |s|
    ensures var f := FirstPerSymbol(s[..k]);
      FirstPerSymbol(s[..k + 1]) == if s[k].symbol in SymbolsOf(f) then f else f + [s[k]]
  {
    Seqs.PrefixInit(s, k);
    FirstPerSymbolSnoc(s[..k + 1]);
  }

  lemma SymbolsOfSnoc(s: seq<Match>, m: Match)
    ensures SymbolsOf(s + [m]) == SymbolsOf(s) + {m.symbol}
  {
    assert forall x :: x in s + [m] <==> x in s || x == m;
  }

  /** One more step of the loop only appends. */
  lemma FirstPerSymbolGrows(s: seq<Match>, k: nat)
    requires k < |s|
    ensures FirstPerSymbol(s[..k]) <= FirstPerSymbol(s[..k + 1])
  {
    FirstPerSymbolStep(s, k);
  }

  /** Stopping early gives a prefix of what the full loop would give. */
  lemma {:induction false} FirstPerSymbolPrefix(s: seq<Match>, k: nat)
    requires k <= |s|
    ensures FirstPerSymbol(s[..k]) <= FirstPerSymbol(s)
    decreases |s| - k
  {
    if k < |s| {
      FirstPerSymbolPrefix(s, k + 1);
      FirstPerSymbolGrows(s, k);
      Seqs.PrefixTrans(FirstPerSymbol(s[..k]), FirstPerSymbol(s[..k + 1]), FirstPerSymbol(s));
    } else {
      assert s[..k] == s;
    }
  }

  /** A subsequence taken in order from a descending list is descending. */
  lemma {:induction false} FirstPerSymbolSorted(s: seq<Match>)
    requires NonIncreasing(s, MatchScore)
    ensures NonIncreasing(FirstPerSymbol(s), MatchScore)
  {
    if s != [] {
      var init := s[..|s| - 1];
      FirstPerSymbolSorted(init);
      var f := FirstPerSymbol(init);
      forall i | 0 <= i < |f| ensures f[i].score >= s[|s| - 1].score
      {
        var k :| 0 <= k < |init| && init[k] == f[i];
      }
    }
  }

  /** In a descending list the first entry of a symbol carries the highest
      score that symbol has anywhere in the list. */
  lemma {:induction false} FirstPerSymbolBest(s: seq<Match>)
    requires NonIncreasing(s, MatchScore)
    ensures forall i, x :: 0 <= i < |FirstPerSymbol(s)| && x in s && x.symbol == FirstPerSymbol(s)[i].symbol ==>
      x.score <= FirstPerSymbol(s)[i].score
  {
    if s != [] {
      var init := s[..|s| - 1];
      FirstPerSymbolBest(init);
      FirstPerSymbolSnoc(s);
      var r := FirstPerSymbol(s);
      forall i, x | 0 <= i < |r| && x in s && x.symbol == r[i].symbol
        ensures x.score <= r[i].score
      {
        BestStep(s, i, x);
      }
    }
  }

  /** The step of `FirstPerSymbolBest` for one kept entry and one match. */
  lemma BestStep(s: seq<Match>, i: nat, x: Match)
    requires NonIncreasing(s, MatchScore) && s != []
    requires var f := FirstPerSymbol(s[..|s| - 1]);
      forall i, x :: 0 <= i < |f| && x in s[..|s| - 1] && x.symbol == f[i].symbol ==> x.score <= f[i].score
    requires var f := FirstPerSymbol(s[..|s| - 1]); var m := s[|s| - 1];
      FirstPerSymbol(s) == if m.symbol in SymbolsOf(f) then f else f + [m]
    requires i < |FirstPerSymbol(s)| && x in s && x.symbol == FirstPerSymbol(s)[i].symbol
    ensures x.score <= FirstPerSymbol(s)[i].score
  {
    var init := s[..|s| - 1];
    var last := s[|s| - 1];
    var f := FirstPerSymbol(init);
    assert s == init + [last];
    if i < |f| {
      assert FirstPerSymbol(s)[i] == f[i];
      if x !in init {
        assert x == last;
        var k :| 0 <= k < |init| && init[k] == f[i];
        assert s[k] == f[i];
      }
    } else {
      assert FirstPerSymbol(s)[i] == last && last.symbol !in SymbolsOf(f);
      assert x in init ==> x.symbol in SymbolsOf(f);
    }
  }

  /** The ranking step of `find_top_matches`: at most `maxResults` entries,
      each taken from the results, best score first, no symbol twice, every
      symbol with its highest passing score, and every passing symbol present
      whenever fewer than `maxResults` are returned. */
  lemma RankedProperties(results: seq<Match>, maxResults: nat)
    ensures var r := Ranked(results, maxResults);
      && |r| <= maxResults
      && (forall i :: 0 <= i < |r| ==> r[i] in results)
      && NonIncreasing(r, MatchScore)
      && (forall i, j :: 0 <= i < j < |r| ==> r[i].symbol != r[j].symbol)
      && (forall i, x :: 0 <= i < |r| && x in results && x.symbol == r[i].symbol ==> x.score <= r[i].score)
      && (|r| < maxResults ==> SymbolsOf(results) <= SymbolsOf(r))
  {
    var sorted := SortByKeyDesc(results, MatchScore);
    var f := FirstPerSymbol(sorted);
    var r := Take(f, maxResults);
    FirstPerSymbolSorted(sorted);
    FirstPerSymbolBest(sorted);
    assert forall x :: x in results <==> x in sorted by {
      assert forall x :: x in results <==> x in multiset(results);
      assert forall x :: x in sorted <==> x in multiset(sorted);
    }
    assert forall i :: 0 <= i < |r| ==> r[i] == f[i];
  }

  /** Every returned match clears the minimum score and no more than
      `maxResults` are returned. */
  lemma TopMatchesBounds(query: string, rows: seq<TickerRow>, scorer: (string, string) -> real,
                         maxResults: nat, minScore: real)
    ensures var r := TopMatches(query, rows, scorer, maxResults, minScore);
      |r| <= maxResults && (forall i :: 0 <= i < |r| ==> r[i].score >= minScore)
      && forall i, j :: 0 <= i < j < |r| ==> r[i].symbol != r[j].symbol
  {
    var ar := ArabicIndex(rows);
    var en := EnglishIndex(rows);
    var results := Passing(Candidates(QueryKey(query), ar, en, scorer, maxResults), ar, en, minScore);
    RankedBounds(results, maxResults, minScore);
  }

  /** Ranking keeps the score floor of its input and the ranked bounds. */
  lemma RankedBounds(results: seq<Match>, maxResults: nat, minScore: real)
    requires forall i :: 0 <= i < |results| ==> results[i].score >= minScore
    ensures var r := Ranked(results, maxResults);
      |r| <= maxResults && (forall i :: 0 <= i < |r| ==> r[i].score >= minScore)
      && forall i, j :: 0 <= i < j < |r| ==> r[i].symbol != r[j].symbol
  {
    var r := Ranked(results, maxResults);
    RankedProperties(results, maxResults);
    forall i | 0 <= i < |r|
      ensures r[i].score >= minScore
    {
      var k :| 0 <= k < |results| && results[k] == r[i];
    }
  }
}
