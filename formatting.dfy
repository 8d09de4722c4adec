/** The display helpers: large amounts with an Arabic unit word, the
    number-or-text fallback, and the Arabic names of weekdays and
    exchanges. */
module Formatting {
  import opened Wrappers
  import opened Text

  /** The Python values these helpers receive. */
  datatype PyValue = PyInt(i: int) | PyFloat(x: real) | PyBool(b: bool) | PyStr(s: string) | PyNone

  /** `float(value)`; `None` stands for the `ValueError` or `TypeError` it
      raises. How a string is read as a number is the parameter
      `parseFloat`. */
  function ToFloat(v: PyValue, parseFloat: string -> Option<real>): (r: Option<real>)
    ensures v.PyNone? ==> r == None
    ensures v.PyInt? ==> r == Some(v.i as real)
    ensures v.PyFloat? ==> r == Some(v.x)
  {
    match v
    case PyInt(i) => Some(i as real)
    case PyFloat(x) => Some(x)
    case PyBool(b) => Some(if b then 1.0 else 0.0)
    case PyStr(s) => parseFloat(s)
    case PyNone => None
  }

  function Abs(x: real): real
  {
    if x < 0.0 then -x else x
  }

  datatype Unit = Trillion | Billion | Million | Thousand | NoUnit

  /** What follows the number for each unit. */
  function UnitSuffix(u: Unit): string
  {
    match u
    case Trillion => " تريليون"
    case Billion => " مليار"
    case Million => " مليون"
    case Thousand => " ألف"
    case NoUnit => ""
  }

  function Divisor(u: Unit): real
  {
    match u
    case Trillion => 1_000_000_000_000.0
    case Billion => 1_000_000_000.0
    case Million => 1_000_000.0
    case Thousand => 1_000.0
    case NoUnit => 1.0
  }

  /** The parts of `format_huge_numbers`' text: the sign, the absolute value
      divided by the unit, and the unit; or the "not available" case. */
  datatype HugeNumber = Huge(negative: bool, scaled: real, unit: Unit) | Unavailable

  /** `format_huge_numbers(value)`. */
  function FormatHugeNumbers(v: PyValue, parseFloat: string -> Option<real>): (r: HugeNumber)
    ensures r.Unavailable? <==> ToFloat(v, parseFloat).None?
    ensures r.Huge? ==>
      var x := ToFloat(v, parseFloat).value;
      && (r.negative <==> x < 0.0)
      && r.scaled * Divisor(r.unit) == Abs(x)
      && (r.unit == Trillion <==> Abs(x) >= 1_000_000_000_000.0)
      && (r.unit == Billion <==> 1_000_000_000.0 <= Abs(x) < 1_000_000_000_000.0)
      && (r.unit == Million <==> 1_000_000.0 <= Abs(x) < 1_000_000_000.0)
      && (r.unit == Thousand <==> 1_000.0 <= Abs(x) < 1_000_000.0)
      && (r.unit == NoUnit <==> Abs(x) < 1_000.0)
  {
    match ToFloat(v, parseFloat)
    case None => Unavailable
    case Some(x) =>
      var a := Abs(x);
      var u :=
        if a >= 1_000_000_000_000.0 then Trillion
        else if a >= 1_000_000_000.0 then Billion
        else if a >= 1_000_000.0 then Million
        else if a >= 1_000.0 then Thousand
        else NoUnit;
      Huge(x < 0.0, a / Divisor(u), u)
  }

  /** The number shown before a unit word is at least 1 and below 1000,
      except that trillions have no upper bound and plain amounts no lower
      one. */
  lemma ScaledInRange(v: PyValue, parseFloat: string -> Option<real>)
    ensures var r := FormatHugeNumbers(v, parseFloat);
      r.Huge? ==>
        && r.scaled >= 0.0
        && (r.unit != NoUnit ==> r.scaled >= 1.0)
        && (r.unit != Trillion ==> r.scaled < 1000.0)
  {
  }

  /** A value and its negation get the same unit and number; only the sign
      differs. */
  lemma FormatHugeSymmetric(x: real, parseFloat: string -> Option<real>)
    requires x != 0.0
    ensures var p := FormatHugeNumbers(PyFloat(x), parseFloat);
      var n := FormatHugeNumbers(PyFloat(-x), parseFloat);
      p.Huge? && n.Huge? && p.unit == n.unit && p.scaled == n.scaled && p.negative != n.negative
  {
  }

  /** "غير متوفر", the text for a value that is not a number. */
  const NotAvailable: string := "غير متوفر"

  /** The full text, with `fixed2` standing for the `:.2f` rendering. */
  function HugeText(r: HugeNumber, fixed2: real -> string): string
  {
    match r
    case Unavailable => NotAvailable
    case Huge(negative, scaled, unit) => (if negative then "-" else "") + fixed2(scaled) + UnitSuffix(unit)
  }

  /** The text starts with "-" exactly for a negative value, as long as the
      two-decimal rendering of a non-negative number has no sign. */
  lemma HugeTextSign(v: PyValue, parseFloat: string -> Option<real>, fixed2: real -> string)
    requires forall y :: y >= 0.0 ==> fixed2(y) == [] || fixed2(y)[0] != '-'
    ensures var t := HugeText(FormatHugeNumbers(v, parseFloat), fixed2);
      (t != [] && t[0] == '-') <==> (ToFloat(v, parseFloat).Some? && ToFloat(v, parseFloat).value < 0.0)
  {
    var r := FormatHugeNumbers(v, parseFloat);
    if r.Huge? {
      assert r.scaled >= 0.0;
      if !r.negative {
        assert HugeText(r, fixed2) == fixed2(r.scaled) + UnitSuffix(r.unit);
        if fixed2(r.scaled) == [] {
          assert UnitSuffix(r.unit) == [] || UnitSuffix(r.unit)[0] == ' ';
        }
      }
    }
  }

  /** Whether `isinstance(value, (int, float))` holds; `bool` is a subclass
      of `int`. */
  predicate IsNumber(v: PyValue)
  {
    v.PyInt? || v.PyFloat? || v.PyBool?
  }

  /** `str(value)` for the values that are not numbers. */
  function Str(v: PyValue): string
    requires !IsNumber(v)
  {
    if v.PyStr? then v.s else "None"
  }

  /** `safe_format(value)`: numbers go through the `,.2f` rendering
      `grouped`, anything else is shown with `str`. */
  function SafeFormat(v: PyValue, grouped: real -> string): (r: string)
    ensures IsNumber(v) ==> r == grouped(ToFloat(v, _ => None).value)
    ensures v.PyStr? ==> r == v.s
    ensures v.PyNone? ==> r == "None"
  {
    match v
    case PyInt(i) => grouped(i as real)
    case PyFloat(x) => grouped(x)
    case PyBool(b) => grouped(if b then 1.0 else 0.0)
    case PyStr(s) => s
    case PyNone => "None"
  }

  /** `AR_WEEKDAYS`, Monday first. */
  const Weekdays: seq<string> := ["الاثنين", "الثلاثاء", "الأربعاء", "الخميس", "الجمعة", "السبت", "الأحد"]

  /** `date.weekday()` of the day with proleptic Gregorian ordinal
      `ordinal` (1 is 1 January of year 1, a Monday). */
  function Weekday(ordinal: int): (w: nat)
    ensures w < 7
  {
    (ordinal + 6) % 7
  }

  /** `arabic_day_name`. */
  function ArabicDayName(ordinal: int): (name: string)
    ensures name in Weekdays
  {
    Weekdays[Weekday(ordinal)]
  }

  /** Days a week apart share their name, and day 1 (1 January of year 1)
      is a Monday. */
  lemma ArabicDayNamePeriodic(ordinal: int)
    ensures ArabicDayName(ordinal + 7) == ArabicDayName(ordinal)
    ensures ArabicDayName(1) == "الاثنين"
  {
    assert Weekday(ordinal + 7) == Weekday(ordinal) by {
      assert ordinal + 7 + 6 == (ordinal + 6) + 7 * 1;
    }
  }

  /** The days of one week get seven different names. */
  lemma ArabicDayNamesDistinct(a: int, b: int)
    requires a < b < a + 7
    ensures ArabicDayName(a) != ArabicDayName(b)
  {
    var q := (a + 6) / 7;
    var r := (a + 6) % 7;
    var k := b - a;
    assert a + 6 == 7 * q + r;
    if r + k < 7 {
      assert b + 6 == 7 * q + (r + k);
    } else {
      assert b + 6 == 7 * (q + 1) + (r + k - 7);
    }
    assert Weekday(a) != Weekday(b);
    assert forall i, j :: 0 <= i < j < 7 ==> Weekdays[i] != Weekdays[j];
  }

  /** `EXCHANGE_AR_MAP`. */
  const ExchangeNames: map<string, string> := map[
    "NASDAQ" := "ناسداك",
    "NYSE" := "بورصة نيويورك",
    "Tadawul" := "تاسي",
    "LSE" := "بورصة لندن",
    "TSX" := "بورصة تورنتو",
    "HKEX" := "هونغ كونغ"]

  /** `arabic_exchange_name`: the Arabic name of the stripped input, or the
      input exactly as given. */
  function ArabicExchangeName(engName: string): (r: string)
    ensures Strip(engName) in ExchangeNames ==> r == ExchangeNames[Strip(engName)]
    ensures Strip(engName) !in ExchangeNames ==> r == engName
  {
    var key := Strip(engName);
    if key in ExchangeNames then ExchangeNames[key] else engName
  }

  /** A known exchange is recognised whatever whitespace surrounds it. */
  lemma ExchangeNamePadded(pre: string, name: string, post: string)
    requires AllSpaces(pre) && AllSpaces(post) && name in ExchangeNames
    ensures ArabicExchangeName(pre + name + post) == ExchangeNames[name]
  {
    assert Trimmed(name);
    StripPadded(pre, name, post);
  }
}
