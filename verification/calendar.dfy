/** Gregorian calendar facts and the textual period keys the converters build
    with date-fns `format` ("yyyy-MM-dd", "yyyy-MM") and read back with
    `parseISO` before asking `getDaysInMonth`.
    Only years 1..9999 are modelled; in that range date-fns prints "yyyy" as
    exactly four digits, which is what Pad does here. */
module Calendar {

  import opened Results

  predicate IsLeapYear(y: int) {
    (y % 4 == 0 && y % 100 != 0) || y % 400 == 0
  }

  function DaysInMonth(y: int, m: int): (n: nat)
    requires 1 <= m <= 12
    ensures 28 <= n <= 31
    ensures m == 2 ==> (n == 29 <==> IsLeapYear(y))
    ensures m in {4, 6, 9, 11} <==> n == 30
  {
    if m == 2 then (if IsLeapYear(y) then 29 else 28)
    else if m in {4, 6, 9, 11} then 30
    else 31
  }

  /** A local calendar date, as date-fns sees a JavaScript `Date`. */
  datatype CivilDate = CivilDate(year: int, month: int, day: int)

  predicate ValidDate(d: CivilDate) {
    && 1 <= d.year <= 9999
    && 1 <= d.month <= 12
    && 1 <= d.day <= DaysInMonth(d.year, d.month)
  }

  type Date = d: CivilDate | ValidDate(d) witness CivilDate(1970, 1, 1)

  function Pow10(w: nat): (p: nat)
    ensures p >= 1
  {
    if w == 0 then 1 else 10 * Pow10(w - 1)
  }

  predicate IsDigit(c: char) {
    '0' <= c <= '9'
  }

  function DigitChar(d: nat): (c: char)
    requires d < 10
    ensures IsDigit(c)
  {
    ['0', '1', '2', '3', '4', '5', '6', '7', '8', '9'][d]
  }

  function DigitValue(c: char): (d: nat)
    requires IsDigit(c)
    ensures d < 10
  {
    (c as int - '0' as int) as nat
  }

  /** n written with exactly w decimal digits, zero-padded on the left. */
  function Pad(n: nat, w: nat): (s: string)
    requires n < Pow10(w)
    ensures |s| == w
    ensures forall i :: 0 <= i < |s| ==> IsDigit(s[i])
  {
    if w == 0 then "" else Pad(n / 10, w - 1) + [DigitChar(n % 10)]
  }

  /** The number a string of decimal digits denotes. */
  function Value(s: string): nat
    requires forall i :: 0 <= i < |s| ==> IsDigit(s[i])
  {
    if |s| == 0 then 0 else 10 * Value(s[..|s| - 1]) + DigitValue(s[|s| - 1])
  }

  lemma {:induction false} ValuePad(n: nat, w: nat)
    requires n < Pow10(w)
    ensures Value(Pad(n, w)) == n
  {
    if w > 0 {
      var s := Pad(n, w);
      assert s[..|s| - 1] == Pad(n / 10, w - 1);
      ValuePad(n / 10, w - 1);
      assert DigitValue(DigitChar(n % 10)) == n % 10;
    }
  }

  /** A "yyyy-NN" key: the month key when b is a month, the ISO week key when b
      is a week number. */
  function YearKey(a: nat, b: nat): (s: string)
    requires a < 10000 && b < 100
    ensures |s| == 7 && s[4] == '-'
  {
    Pad(a, 4) + "-" + Pad(b, 2)
  }

  /** Reads a "dddd-dd" string back into its two numbers; anything else is not
      a key of that shape. */
  function ParseYearKey(s: string): (r: Option<(nat, nat)>)
    ensures r.Some? ==> r.value.0 < 10000 && r.value.1 < 100
  {
    if |s| == 7 && s[4] == '-'
       && (forall i :: 0 <= i < 4 ==> IsDigit(s[i]))
       && (forall i :: 5 <= i < 7 ==> IsDigit(s[i]))
    then
      ValueBound(s[..4]);
      ValueBound(s[5..]);
      Some((Value(s[..4]), Value(s[5..])))
    else None
  }

  lemma {:induction false} ValueBound(s: string)
    requires forall i :: 0 <= i < |s| ==> IsDigit(s[i])
    ensures Value(s) < Pow10(|s|)
  {
    if |s| > 0 {
      ValueBound(s[..|s| - 1]);
    }
  }

  /** Printing a year and a two-digit number as a key and reading it back gives
      the two numbers again, so such keys are equal exactly when the numbers are. */
  lemma YearKeyRoundTrip(a: nat, b: nat)
    requires a < 10000 && b < 100
    ensures ParseYearKey(YearKey(a, b)) == Some((a, b))
  {
    var s := YearKey(a, b);
    assert s[..4] == Pad(a, 4);
    assert s[5..] == Pad(b, 2);
    ValuePad(a, 4);
    ValuePad(b, 2);
  }

  /** The "yyyy-MM-dd" key of a date. */
  function DayKey(d: Date): (s: string)
    ensures |s| == 10 && s[4] == '-' && s[7] == '-'
  {
    Pad(d.year, 4) + "-" + Pad(d.month, 2) + "-" + Pad(d.day, 2)
  }

  /** Two dates share a day key exactly when they are the same date. */
  lemma DayKeyInjective(d1: Date, d2: Date)
    ensures DayKey(d1) == DayKey(d2) <==> d1 == d2
  {
    if DayKey(d1) == DayKey(d2) {
      var s1, s2 := DayKey(d1), DayKey(d2);
      assert s1[..4] == Pad(d1.year, 4) && s2[..4] == Pad(d2.year, 4);
      assert s1[5..7] == Pad(d1.month, 2) && s2[5..7] == Pad(d2.month, 2);
      assert s1[8..] == Pad(d1.day, 2) && s2[8..] == Pad(d2.day, 2);
      ValuePad(d1.year, 4);
      ValuePad(d2.year, 4);
      ValuePad(d1.month, 2);
      ValuePad(d2.month, 2);
      ValuePad(d1.day, 2);
      ValuePad(d2.day, 2);
    }
  }

  /** The "yyyy-MM" key of a date. */
  function MonthKey(d: Date): (s: string)
    ensures |s| == 7
  {
    YearKey(d.year, d.month)
  }

  /** `getDaysInMonth(parseISO(key))`: the length of the month a "yyyy-MM" key
      names, or None (NaN) when the key does not parse to a month. */
  function MonthLength(key: string): (n: Option<nat>)
    ensures n.Some? ==> 28 <= n.value <= 31
  {
    match ParseYearKey(key)
    case Some((y, m)) => if 1 <= m <= 12 then Some(DaysInMonth(y, m)) else None
    case None => None
  }

  /** The month length read back from a date's month key is the Gregorian
      length of that date's month. */
  lemma MonthLengthOfKey(d: Date)
    ensures MonthLength(MonthKey(d)) == Some(DaysInMonth(d.year, d.month))
  {
    YearKeyRoundTrip(d.year, d.month);
  }

  /** A February month key reads back as 29 days in a Gregorian leap year and
      28 otherwise. */
  lemma FebruaryLength(y: int)
    requires 1 <= y <= 9999
    ensures MonthLength(MonthKey(CivilDate(y, 2, 1))) == Some(if IsLeapYear(y) then 29 else 28)
  {
    MonthLengthOfKey(CivilDate(y, 2, 1));
  }
}
