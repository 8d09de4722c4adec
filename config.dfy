/** The `COMPANIES` list: the lines of the companies file, stripped, with
    blank lines and `#` comments left out. */
module Config {
  import opened Text
  import opened Seqs

  // `RATE_LIMIT_WINDOW` and `RATE_LIMIT_MAX_CALLS` are `RateLimiter.Window`
  // and `RateLimiter.MaxCalls`.

  /** A stripped line that the loop skips. */
  predicate Skipped(line: string)
  {
    line == [] || StartsWith(line, "#")
  }

  /** What one line contributes: its stripped form, unless that is empty
      or a comment. */
  function Entry(line: string): (r: seq<string>)
    ensures |r| <= 1
    ensures r != [] ==> Trimmed(r[0]) && !Skipped(r[0])
  {
    var stripped := Strip(line);
    if Skipped(stripped) then [] else [stripped]
  }

  /** The entries the loop appends for `lines`, in order. */
  function Kept(lines: seq<string>): seq<string>
  {
    if lines == [] then [] else Kept(lines[..|lines| - 1]) + Entry(lines[|lines| - 1])
  }

  /** The module-level loop over `read_text().splitlines()`. */
  method LoadCompanies(raw: seq<string>) returns (companies: seq<string>)
    ensures companies == Kept(raw)
  {
    companies := [];
    for k := 0 to |raw|
      invariant companies == Kept(raw[..k])
    {
      KeptPrefix(raw, k);
      var line := Strip(raw[k]);
      if line == [] || StartsWith(line, "#") {
        AppendEmpty(companies);
        continue;
      }
      companies := companies + [line];
    }
    assert raw[..|raw|] == raw;
  }

  /** The entries of the first `k + 1` lines are those of the first `k`
      followed by the entry of line `k`. */
  lemma KeptPrefix(raw: seq<string>, k: nat)
    requires k < |raw|
    ensures Kept(raw[..k + 1]) == Kept(raw[..k]) + Entry(raw[k])
  {
    PrefixInit(raw, k);
  }

  /** Every entry is a stripped, non-empty line that is not a comment. */
  lemma {:induction false} KeptEntries(lines: seq<string>)
    ensures forall e :: e in Kept(lines) ==> Trimmed(e) && !Skipped(e)
    ensures |Kept(lines)| <= |lines|
  {
    if lines != [] {
      KeptEntries(lines[..|lines| - 1]);
    }
  }

  /** One more line adds its entry at the end. */
  lemma KeptSnoc(lines: seq<string>, line: string)
    ensures Kept(lines + [line]) == Kept(lines) + Entry(line)
  {
    assert (lines + [line])[..|lines|] == lines;
  }

  /** Kept lines come in file order: the entries for two consecutive parts
      of the file are those of the first part followed by those of the
      second. */
  lemma {:induction false} KeptAppend(a: seq<string>, b: seq<string>)
    ensures Kept(a + b) == Kept(a) + Kept(b)
    decreases |b|
  {
    if b == [] {
      assert a + b == a;
    } else {
      var b' := b[..|b| - 1];
      var last := b[|b| - 1];
      assert b == b' + [last];
      KeptAppend(a, b');
      KeptAppendSnoc(a, b', last);
    }
  }

  lemma KeptAppendSnoc(a: seq<string>, b: seq<string>, last: string)
    requires Kept(a + b) == Kept(a) + Kept(b)
    ensures Kept(a + (b + [last])) == Kept(a) + Kept(b + [last])
  {
    Assoc(a, b, [last]);
    KeptSnoc(a + b, last);
    KeptSnoc(b, last);
    Assoc(Kept(a), Kept(b), Entry(last));
  }

  /** Each line gives one entry, its stripped form, unless that is empty or
      a comment; duplicates are kept. */
  lemma KeptOne(line: string)
    ensures Kept([line]) == if Skipped(Strip(line)) then [] else [Strip(line)]
  {
    assert [line][..0] == [];
  }

  /** `n` copies of `line`. */
  function Repeat(line: string, n: nat): (r: seq<string>)
    ensures |r| == n && forall i :: 0 <= i < n ==> r[i] == line
  {
    if n == 0 then [] else Repeat(line, n - 1) + [line]
  }

  /** Lines that strip to the same text give the same entry, so repeated
      company names are all kept. */
  lemma {:induction false} KeptRepeats(line: string, n: nat)
    requires !Skipped(Strip(line))
    ensures Kept(Repeat(line, n)) == Repeat(Strip(line), n)
  {
    if n > 0 {
      KeptRepeats(line, n - 1);
      KeptSnoc(Repeat(line, n - 1), line);
    }
  }
}
