/** String operations of Python's `str` used throughout the bot: whitespace
    stripping and collapsing, ASCII case mapping, decimal digits, `join`,
    `split` and the `int`/`str` conversions of integers. */
module Text {
  import opened Wrappers
  import Seqs

  /** Python's `str.isspace()`: the characters that `strip()` removes and
      that the regular-expression class `\s` matches. */
  predicate IsSpace(c: char)
  {
    c == ' ' || ('\t' <= c <= '\r') || ('\U{1C}' <= c <= '\U{1F}')
    || c == '\U{85}' || c == '\U{A0}' || c == '\U{1680}'
    || ('\U{2000}' <= c <= '\U{200A}') || c == '\U{2028}' || c == '\U{2029}'
    || c == '\U{202F}' || c == '\U{205F}' || c == '\U{3000}'
  }

  /** No whitespace at either end. */
  predicate Trimmed(s: string)
  {
    s == [] || (!IsSpace(s[0]) && !IsSpace(s[|s| - 1]))
  }

  /** Every whitespace character is a plain space and no two are adjacent. */
  predicate Collapsed(s: string)
  {
    forall i :: 0 <= i < |s| && IsSpace(s[i]) ==>
      s[i] == ' ' && (i + 1 < |s| ==> !IsSpace(s[i + 1]))
  }

  predicate AllSpaces(s: string)
  {
    forall i :: 0 <= i < |s| ==> IsSpace(s[i])
  }

  /** `str.lstrip()`: drops the leading whitespace and nothing else. */
  function StripLeft(s: string): (r: string)
    ensures |r| <= |s| && r == s[|s| - |r|..]
    ensures r == [] || !IsSpace(r[0])
    ensures AllSpaces(s[..|s| - |r|])
  {
    if s != [] && IsSpace(s[0]) then StripLeft(s[1..]) else s
  }

  /** `str.rstrip()`: drops the trailing whitespace and nothing else. */
  function StripRight(s: string): (r: string)
    ensures |r| <= |s| && r == s[..|r|]
    ensures r == [] || !IsSpace(r[|r| - 1])
    ensures AllSpaces(s[|r|..])
  {
    if s != [] && IsSpace(s[|s| - 1]) then
      var r := StripRight(s[..|s| - 1]);
      assert s[|r|..] == s[..|s| - 1][|r|..] + [s[|s| - 1]];
      r
    else s
  }

  /** `str.strip()`. */
  function Strip(s: string): (r: string)
    ensures Trimmed(r) && |r| <= |s|
    ensures Trimmed(s) ==> r == s
  {
    StripRight(StripLeft(s))
  }

  lemma {:induction false} StripLeftPadded(pre: string, rest: string)
    requires AllSpaces(pre)
    requires rest == [] || !IsSpace(rest[0])
    ensures StripLeft(pre + rest) == rest
  {
    if pre != [] {
      assert (pre + rest)[1..] == pre[1..] + rest;
      StripLeftPadded(pre[1..], rest);
    }
  }

  lemma {:induction false} StripRightPadded(rest: string, post: string)
    requires AllSpaces(post)
    requires rest == [] || !IsSpace(rest[|rest| - 1])
    ensures StripRight(rest + post) == rest
  {
    if post != [] {
      assert (rest + post)[..|rest + post| - 1] == rest + post[..|post| - 1];
      StripRightPadded(rest, post[..|post| - 1]);
    }
  }

  /** Surrounding whitespace of any length is exactly what `strip()` removes. */
  lemma StripPadded(pre: string, core: string, post: string)
    requires AllSpaces(pre) && AllSpaces(post) && Trimmed(core)
    ensures Strip(pre + core + post) == core
  {
    if core == [] {
      assert AllSpaces(pre + post);
      StripLeftPadded(pre + post, []);
      assert pre + core + post == (pre + post) + [];
    } else {
      assert pre + core + post == pre + (core + post);
      StripLeftPadded(pre, core + post);
      StripRightPadded(core, post);
    }
  }

  lemma StripIdempotent(s: string)
    ensures Strip(Strip(s)) == Strip(s)
  {
  }

  /** `strip()` keeps a run of the original characters, so it keeps them
      collapsed when they were. */
  lemma StripKeeps(s: string)
    ensures forall i :: 0 <= i < |Strip(s)| ==> Strip(s)[i] in s
    ensures Collapsed(s) ==> Collapsed(Strip(s))
  {
    var l := StripLeft(s);
    var r := StripRight(l);
    var off := |s| - |l|;
    assert Strip(s) == r;
    assert l == s[off..];
    assert r == l[..|r|];
    assert forall i :: 0 <= i < |r| ==> r[i] == s[off + i];
    if Collapsed(s) {
      forall i | 0 <= i < |r| && IsSpace(r[i])
        ensures r[i] == ' ' && (i + 1 < |r| ==> !IsSpace(r[i + 1]))
      {
        assert r[i] == s[off + i];
        if i + 1 < |r| { assert r[i + 1] == s[off + i + 1]; }
      }
    }
  }

  /** `re.sub(r"\s+", " ", s)`: every maximal run of whitespace becomes one
      space; all other characters are kept in order. */
  function CollapseSpaces(s: string): (r: string)
    ensures |r| <= |s|
    ensures s != [] && !IsSpace(s[0]) ==> r != [] && r[0] == s[0]
    ensures Collapsed(r)
    decreases |s|
  {
    if s == [] then []
    else if IsSpace(s[0]) then
      var t := StripLeft(s);
      assert |t| < |s|;
      var rest := CollapseSpaces(t);
      assert Collapsed(" " + rest) by {
        forall i | 0 <= i < |" " + rest| && IsSpace((" " + rest)[i])
          ensures (" " + rest)[i] == ' ' && (i + 1 < |" " + rest| ==> !IsSpace((" " + rest)[i + 1]))
        {
          if i > 0 { assert (" " + rest)[i] == rest[i - 1]; }
        }
      }
      " " + rest
    else
      var rest := CollapseSpaces(s[1..]);
      assert Collapsed([s[0]] + rest) by {
        forall i | 0 <= i < |[s[0]] + rest| && IsSpace(([s[0]] + rest)[i])
          ensures ([s[0]] + rest)[i] == ' ' && (i + 1 < |[s[0]] + rest| ==> !IsSpace(([s[0]] + rest)[i + 1]))
        {
          assert i > 0;
          assert ([s[0]] + rest)[i] == rest[i - 1];
        }
      }
      [s[0]] + rest
  }

  /** Collapsing only writes spaces and characters of the input. */
  lemma {:induction false} CollapseSpacesFrom(s: string)
    ensures forall i :: 0 <= i < |CollapseSpaces(s)| ==> CollapseSpaces(s)[i] == ' ' || CollapseSpaces(s)[i] in s
    decreases |s|
  {
    if s != [] {
      var r := CollapseSpaces(s);
      var t := if IsSpace(s[0]) then StripLeft(s) else s[1..];
      CollapseSpacesFrom(t);
      var rest := CollapseSpaces(t);
      assert r == [r[0]] + rest;
      assert r[0] == ' ' || r[0] == s[0];
      forall i | 0 < i < |r|
        ensures r[i] == ' ' || r[i] in s
      {
        assert r[i] == rest[i - 1];
        if rest[i - 1] != ' ' {
          var k :| 0 <= k < |t| && t[k] == rest[i - 1];
          assert t[k] == s[|s| - |t| + k];
        }
      }
    }
  }

  /** Collapsing keeps a non-space last character in place. */
  lemma {:induction false} CollapseSpacesLast(s: string)
    requires s != [] && !IsSpace(s[|s| - 1])
    ensures CollapseSpaces(s) != [] && CollapseSpaces(s)[|CollapseSpaces(s)| - 1] == s[|s| - 1]
    decreases |s|
  {
    var r := CollapseSpaces(s);
    if IsSpace(s[0]) {
      var t := StripLeft(s);
      assert t != [] && t[|t| - 1] == s[|s| - 1];
      CollapseSpacesLast(t);
      assert r == " " + CollapseSpaces(t);
    } else if |s| > 1 {
      CollapseSpacesLast(s[1..]);
      assert r == [s[0]] + CollapseSpaces(s[1..]);
    }
  }

  /** Collapsing keeps every non-space character and keeps a non-space last
      character in place. */
  lemma CollapseSpacesKeeps(s: string)
    ensures forall i :: 0 <= i < |CollapseSpaces(s)| ==> CollapseSpaces(s)[i] == ' ' || CollapseSpaces(s)[i] in s
    ensures s != [] && !IsSpace(s[|s| - 1]) ==>
      CollapseSpaces(s) != [] && CollapseSpaces(s)[|CollapseSpaces(s)| - 1] == s[|s| - 1]
  {
    CollapseSpacesFrom(s);
    if s != [] && !IsSpace(s[|s| - 1]) {
      CollapseSpacesLast(s);
    }
  }

  /** A single leading space before a non-space is all `lstrip` removes. */
  lemma StripLeftOneSpace(s: string)
    requires s != [] && IsSpace(s[0])
    requires |s| == 1 || !IsSpace(s[1])
    ensures StripLeft(s) == s[1..]
  {
    assert s == [s[0]] + s[1..];
    StripLeftPadded([s[0]], s[1..]);
  }

  /** Collapsing keeps a trimmed string trimmed. */
  lemma CollapseSpacesTrimmed(s: string)
    requires Trimmed(s)
    ensures Trimmed(CollapseSpaces(s))
  {
    CollapseSpacesKeeps(s);
  }

  /** Collapsing a string that is already collapsed changes nothing. */
  lemma {:induction false} CollapseSpacesFixpoint(s: string)
    requires Collapsed(s)
    ensures CollapseSpaces(s) == s
    decreases |s|
  {
    if s != [] {
      var t := s[1..];
      assert Collapsed(t) by {
        forall i | 0 <= i < |t| && IsSpace(t[i])
          ensures t[i] == ' ' && (i + 1 < |t| ==> !IsSpace(t[i + 1]))
        {
          assert t[i] == s[i + 1];
          assert i + 1 < |t| ==> t[i + 1] == s[i + 2];
        }
      }
      CollapseSpacesFixpoint(t);
      if IsSpace(s[0]) {
        StripLeftOneSpace(s);
        assert s == " " + t;
      } else {
        assert s == [s[0]] + t;
      }
    }
  }

  function LowerChar(c: char): char
  {
    if 'A' <= c <= 'Z' then (c as int + 32) as char else c
  }

  function UpperChar(c: char): char
  {
    if 'a' <= c <= 'z' then (c as int - 32) as char else c
  }

  /** `str.lower()` on the ASCII letters. */
  function Lower(s: string): string
  {
    seq(|s|, i requires 0 <= i < |s| => LowerChar(s[i]))
  }

  /** `str.upper()` on the ASCII letters. */
  function Upper(s: string): string
  {
    seq(|s|, i requires 0 <= i < |s| => UpperChar(s[i]))
  }

  /** Case mapping leaves whitespace where it was, and mapping twice is
      mapping once. */
  lemma CaseMapping(s: string)
    ensures Trimmed(s) ==> Trimmed(Lower(s)) && Trimmed(Upper(s))
    ensures NoUpperCase(Lower(s)) && NoLowerCase(Upper(s))
    ensures NoUpperCase(s) ==> Lower(s) == s
    ensures NoLowerCase(s) ==> Upper(s) == s
    ensures Lower(Lower(s)) == Lower(s) && Upper(Upper(s)) == Upper(s)
  {
  }

  predicate NoUpperCase(s: string)
  {
    forall i :: 0 <= i < |s| ==> !('A' <= s[i] <= 'Z')
  }

  predicate NoLowerCase(s: string)
  {
    forall i :: 0 <= i < |s| ==> !('a' <= s[i] <= 'z')
  }

  predicate IsDigit(c: char)
  {
    '0' <= c <= '9'
  }

  predicate AllDigits(s: string)
  {
    forall i :: 0 <= i < |s| ==> IsDigit(s[i])
  }

  predicate StartsWith(s: string, prefix: string)
  {
    |prefix| <= |s| && s[..|prefix|] == prefix
  }

  predicate EndsWith(s: string, suffix: string)
  {
    |suffix| <= |s| && s[|s| - |suffix|..] == suffix
  }

  function DigitChar(d: nat): (c: char)
    requires d < 10
    ensures IsDigit(c)
  {
    ('0' as int + d) as char
  }

  function DigitValue(c: char): (d: nat)
    requires IsDigit(c)
    ensures d < 10 && DigitChar(d) == c
  {
    c as int - '0' as int
  }

  /** The decimal digits of `n`, most significant first, without leading zeros. */
  function NatToString(n: nat): (r: string)
    ensures r != [] && AllDigits(r)
    ensures |r| == 1 <==> n < 10
    decreases n
  {
    if n < 10 then [DigitChar(n)] else NatToString(n / 10) + [DigitChar(n % 10)]
  }

  /** The value of a string of decimal digits. */
  function DigitsToNat(s: string): nat
    requires AllDigits(s)
  {
    if s == [] then 0 else DigitsToNat(s[..|s| - 1]) * 10 + DigitValue(s[|s| - 1])
  }

  lemma {:induction false} DigitsRoundTrip(n: nat)
    ensures DigitsToNat(NatToString(n)) == n
    decreases n
  {
    if n >= 10 {
      var s := NatToString(n);
      assert s[..|s| - 1] == NatToString(n / 10);
      DigitsRoundTrip(n / 10);
    }
  }

  /** Four-digit numbers have four decimal digits. */
  lemma NatToStringLength4(n: nat)
    requires 1000 <= n <= 9999
    ensures |NatToString(n)| == 4
  {
    assert NatToString(n) == NatToString(n / 10) + [DigitChar(n % 10)];
    assert NatToString(n / 10) == NatToString(n / 100) + [DigitChar(n / 10 % 10)];
    assert NatToString(n / 100) == NatToString(n / 1000) + [DigitChar(n / 100 % 10)];
  }

  /** Python's `str(i)` for an integer. */
  function IntToString(i: int): (r: string)
    ensures r != [] && Trimmed(r) && '_' !in r && '.' !in r
  {
    if i < 0 then "-" + NatToString(-i) else NatToString(i)
  }

  /** Python's `int(s)` for a string: surrounding whitespace, an optional sign
      and one or more decimal digits; anything else raises, given as None. */
  function ParseInt(s: string): Option<int>
  {
    ParseSigned(Strip(s))
  }

  /** `int` after the surrounding whitespace is gone. */
  function ParseSigned(t: string): Option<int>
  {
    if t == [] then None
    else if t[0] == '-' then ParseDigits(t[1..], true)
    else if t[0] == '+' then ParseDigits(t[1..], false)
    else ParseDigits(t, false)
  }

  function ParseDigits(digits: string, negative: bool): Option<int>
  {
    if digits != [] && AllDigits(digits) then
      var v: int := DigitsToNat(digits);
      Some(if negative then -v else v)
    else None
  }

  /** A run of digits reads back as the number it spells, with either sign. */
  lemma ParseDigitsOfNat(n: nat, negative: bool)
    ensures ParseDigits(NatToString(n), negative) == Some(if negative then -(n as int) else n as int)
  {
    DigitsRoundTrip(n);
  }

  lemma ParseSignedNegative(n: nat)
    ensures ParseSigned("-" + NatToString(n)) == Some(-(n as int))
  {
    var d := NatToString(n);
    assert ("-" + d)[1..] == d;
    ParseDigitsOfNat(n, true);
  }

  lemma ParseSignedUnsigned(n: nat)
    ensures ParseSigned(NatToString(n)) == Some(n as int)
  {
    var d := NatToString(n);
    assert IsDigit(d[0]);
    ParseDigitsOfNat(n, false);
  }

  lemma ParseIntOfTrimmed(s: string)
    requires Trimmed(s)
    ensures ParseInt(s) == ParseSigned(s)
  {
  }

  /** `int(str(i)) == i`. */
  lemma ParseIntRoundTrip(i: int)
    ensures ParseInt(IntToString(i)) == Some(i)
  {
    ParseIntOfTrimmed(IntToString(i));
    ParseSignedOfInt(i);
  }

  lemma ParseSignedOfInt(i: int)
    ensures ParseSigned(IntToString(i)) == Some(i)
  {
    if i < 0 {
      ParseSignedNegative(-i);
    } else {
      ParseSignedUnsigned(i);
    }
  }

  /** `sep.join(parts)`. */
  function Join(parts: seq<string>, sep: string): string
  {
    if |parts| == 0 then ""
    else if |parts| == 1 then parts[0]
    else parts[0] + sep + Join(parts[1..], sep)
  }

  /** Index of the first occurrence of `c` in `s`. */
  function FirstIndex(s: string, c: char): (i: nat)
    requires c in s
    ensures i < |s| && s[i] == c && c !in s[..i]
  {
    if s[0] == c then 0
    else
      assert c in s[1..] by { assert s == [s[0]] + s[1..]; }
      1 + FirstIndex(s[1..], c)
  }

  lemma FirstIndexAfter(p: string, c: char, q: string)
    requires c !in p
    ensures c in p + [c] + q && FirstIndex(p + [c] + q, c) == |p|
  {
    var s := p + [c] + q;
    assert s[|p|] == c;
  }

  /** `s.split(sep)` for a one-character separator. */
  function Split(s: string, sep: char): (r: seq<string>)
    ensures |r| >= 1
    decreases |s|
  {
    if sep !in s then [s]
    else
      var i := FirstIndex(s, sep);
      [s[..i]] + Split(s[i + 1..], sep)
  }

  lemma SplitAfter(p: string, sep: char, q: string)
    requires sep !in p
    ensures Split(p + [sep] + q, sep) == [p] + Split(q, sep)
  {
    FirstIndexAfter(p, sep, q);
    var s := p + [sep] + q;
    assert s[..|p|] == p;
    assert s[|p| + 1..] == q;
  }

  /** Three fields without the separator, joined by it, split back into
      themselves. */
  lemma SplitThree(a: string, b: string, c: string, sep: char)
    requires sep !in a && sep !in b && sep !in c
    ensures Split(a + [sep] + b + [sep] + c, sep) == [a, b, c]
  {
    Seqs.JoinThree(a, b, c, sep);
    SplitAfter(a, sep, b + [sep] + c);
    SplitAfter(b, sep, c);
    assert Split(c, sep) == [c];
    Seqs.Triple(a, b, c);
  }

  /** `s.split(sep, 1)[0]`: the text before the first `sep`, or all of `s`. */
  function BeforeFirst(s: string, sep: char): (r: string)
    ensures sep !in r && StartsWith(s, r)
    ensures sep !in s ==> r == s
  {
    if sep in s then s[..FirstIndex(s, sep)] else s
  }
}
