/** ISO 8601 week numbering and the week key of the command-line converter.
    Days are counted from 0001-01-01 (day 0, a Monday) in the proleptic
    Gregorian calendar; an ISO week runs Monday to Sunday and belongs to the
    year that holds its Thursday. */
module IsoWeek {

  import Results
  import opened Calendar

  function DaysInYear(y: int): nat {
    if IsLeapYear(y) then 366 else 365
  }

  /** Days from 0001-01-01 to the first of January of year y. */
  function DaysBeforeYear(y: nat): nat
    requires y >= 1
  {
    365 * (y - 1) + (y - 1) / 4 - (y - 1) / 100 + (y - 1) / 400
  }

  lemma YearLength(y: nat)
    requires y >= 1
    ensures DaysBeforeYear(y + 1) == DaysBeforeYear(y) + DaysInYear(y)
  {
    var x := y - 1;
    Step4(x);
    Step100(x);
    Step400(x);
    var q4 := if y % 4 == 0 then 1 else 0;
    var q100 := if y % 100 == 0 then 1 else 0;
    var q400 := if y % 400 == 0 then 1 else 0;
    assert DaysBeforeYear(y + 1) == DaysBeforeYear(y) + 365 + q4 - q100 + q400;
    Divides400(y);
    Divides100(y);
  }

  lemma Divides400(y: nat)
    ensures y % 400 == 0 ==> y % 100 == 0
  {
    if y % 400 == 0 {
      var k := y / 400;
      assert y == 100 * (4 * k);
    }
  }

  lemma Divides100(y: nat)
    ensures y % 100 == 0 ==> y % 4 == 0
  {
    if y % 100 == 0 {
      var k := y / 100;
      assert y == 4 * (25 * k);
    }
  }

  lemma Step4(x: nat)
    ensures (x + 1) / 4 == x / 4 + (if (x + 1) % 4 == 0 then 1 else 0)
  {
  }

  lemma Step100(x: nat)
    ensures (x + 1) / 100 == x / 100 + (if (x + 1) % 100 == 0 then 1 else 0)
  {
  }

  lemma Step400(x: nat)
    ensures (x + 1) / 400 == x / 400 + (if (x + 1) % 400 == 0 then 1 else 0)
  {
  }

  /** Days from the first of January to the first of month m. */
  function DaysBeforeMonth(y: int, m: int): nat
    requires 1 <= m <= 13
    decreases m
  {
    if m == 1 then 0 else DaysBeforeMonth(y, m - 1) + DaysInMonth(y, m - 1)
  }

  lemma {:induction false} MonthsFitYear(y: int, m: int)
    requires 1 <= m <= 12
    ensures DaysBeforeMonth(y, m) + DaysInMonth(y, m) <= DaysInYear(y)
  {
    var n := 12;
    while n > m
      invariant m <= n <= 12
      invariant DaysBeforeMonth(y, n) + DaysInMonth(y, n) <= DaysInYear(y)
      decreases n
    {
      n := n - 1;
    }
  }

  /** The day number of a date. */
  function DayNumber(d: Date): (n: nat)
    ensures DaysBeforeYear(d.year) <= n < DaysBeforeYear(d.year + 1)
  {
    MonthsFitYear(d.year, d.month);
    YearLength(d.year);
    DaysBeforeYear(d.year) + DaysBeforeMonth(d.year, d.month) + d.day - 1
  }

  /** ISO weekday, 1 for Monday to 7 for Sunday. */
  function Weekday(n: nat): (w: nat)
    ensures 1 <= w <= 7
  {
    n % 7 + 1
  }

  /** The Monday and the Thursday of the ISO week holding day n. */
  function Monday(n: nat): nat {
    n - n % 7
  }

  function Thursday(n: nat): nat {
    Monday(n) + 3
  }

  /** The ISO week-numbering year of a date: the year that holds its week's
      Thursday, which is the date's own year or a neighbour. */
  function IsoYear(d: Date): (y: nat)
    ensures 1 <= y <= 10000
    ensures DaysBeforeYear(y) <= Thursday(DayNumber(d)) < DaysBeforeYear(y + 1)
  {
    var t := Thursday(DayNumber(d));
    YearLength(d.year);
    YearLength(d.year + 1);
    if d.year > 1 && t < DaysBeforeYear(d.year) then
      YearLength(d.year - 1);
      d.year - 1
    else if t >= DaysBeforeYear(d.year + 1) then d.year + 1
    else d.year
  }

  /** The ISO week number of a date, 1..53. */
  function IsoWeekNumber(d: Date): (w: nat)
    ensures 1 <= w <= 53
  {
    var t := Thursday(DayNumber(d));
    var y := IsoYear(d);
    YearLength(y);
    (t - DaysBeforeYear(y)) / 7 + 1
  }

  /** A year as date-fns prints it: at least four digits. */
  function ShowYear(y: nat): (s: string)
    requires y <= 10000
    ensures |s| == (if y < 10000 then 4 else 5)
    ensures forall i :: 0 <= i < |s| ==> IsDigit(s[i])
  {
    if y < 10000 then Pad(y, 4) else Pad(y, 5)
  }

  /** `format(date, "yyyy-II")` as the command-line converter writes its week
      key: the calendar year with the ISO week number. */
  function WeekKeyAsWritten(d: Date): (s: string)
    ensures |s| == 7
    ensures ParseYearKey(s) == Results.Some((d.year as nat, IsoWeekNumber(d) as nat))
  {
    YearKeyRoundTrip(d.year, IsoWeekNumber(d));
    YearKey(d.year, IsoWeekNumber(d))
  }

  /** The intended week key, `format(date, "RRRR-II")`: the ISO week-numbering
      year with the ISO week number. */
  function IsoWeekKey(d: Date): (s: string)
  {
    ShowYear(IsoYear(d)) + "-" + Pad(IsoWeekNumber(d), 2)
  }

  /** Days in the same ISO week share its Thursday, hence its year. */
  lemma IsoYearOfThursday(d: Date, y: nat)
    requires y >= 1
    requires DaysBeforeYear(y) <= Thursday(DayNumber(d)) < DaysBeforeYear(y + 1)
    ensures IsoYear(d) == y
  {
    DaysBeforeYearMonotone();
  }

  lemma DaysBeforeYearMonotone()
    ensures forall a: nat, b: nat :: 1 <= a <= b ==> DaysBeforeYear(a) <= DaysBeforeYear(b)
  {
  }

  /** The year and week number of the intended key identify the ISO week:
      they agree exactly when the two dates share a Monday. */
  lemma IsoWeekIdentifies(d1: Date, d2: Date)
    ensures (IsoYear(d1) == IsoYear(d2) && IsoWeekNumber(d1) == IsoWeekNumber(d2))
        <==> Monday(DayNumber(d1)) == Monday(DayNumber(d2))
  {
    if Monday(DayNumber(d1)) == Monday(DayNumber(d2)) {
      SameWeekSameNumber(d1, d2);
    }
    if IsoYear(d1) == IsoYear(d2) && IsoWeekNumber(d1) == IsoWeekNumber(d2) {
      SameNumberSameWeek(d1, d2);
    }
  }

  lemma SameWeekSameNumber(d1: Date, d2: Date)
    requires Monday(DayNumber(d1)) == Monday(DayNumber(d2))
    ensures IsoYear(d1) == IsoYear(d2) && IsoWeekNumber(d1) == IsoWeekNumber(d2)
  {
    IsoYearOfThursday(d2, IsoYear(d1));
  }

  lemma SameNumberSameWeek(d1: Date, d2: Date)
    requires IsoYear(d1) == IsoYear(d2) && IsoWeekNumber(d1) == IsoWeekNumber(d2)
    ensures Monday(DayNumber(d1)) == Monday(DayNumber(d2))
  {
    var base := DaysBeforeYear(IsoYear(d1));
    var a1 := WeekOffset(d1);
    var a2 := WeekOffset(d2);
    ThursdayResidue(DayNumber(d1));
    ThursdayResidue(DayNumber(d2));
    SameQuotientSameResidue(a1, a2, base + a1, base + a2);
  }

  /** The days from the start of the ISO year to the date's Thursday; the week
      number counts its whole weeks. */
  lemma WeekOffset(d: Date) returns (a: nat)
    ensures Thursday(DayNumber(d)) == DaysBeforeYear(IsoYear(d)) + a
    ensures IsoWeekNumber(d) == a / 7 + 1
  {
    a := Thursday(DayNumber(d)) - DaysBeforeYear(IsoYear(d));
  }

  lemma ThursdayResidue(n: nat)
    ensures Thursday(n) % 7 == 3
  {
    var q := n / 7;
    assert Monday(n) == 7 * q;
    assert Thursday(n) == 7 * q + 3;
  }

  /** Two numbers with the same quotient by 7 that are congruent modulo 7 are
      equal. */
  lemma SameQuotientSameResidue(a: nat, b: nat, x: nat, y: nat)
    requires a / 7 == b / 7
    requires x % 7 == 3 && y % 7 == 3
    requires x - a == y - b
    ensures a == b
  {
    var c := x - a;
    var q := a / 7;
    assert a == 7 * q + a % 7 && b == 7 * q + b % 7;
    assert x == 7 * q + a % 7 + c && y == 7 * q + b % 7 + c;
    if a % 7 < b % 7 {
      ResidueUnique(x, y, 7 * q + c, a % 7, b % 7);
    } else if b % 7 < a % 7 {
      ResidueUnique(y, x, 7 * q + c, b % 7, a % 7);
    }
  }

  /** Adding two different remainders below 7 to the same base gives
      different residues. */
  lemma ResidueUnique(x: nat, y: nat, base: int, r: nat, s: nat)
    requires r < s < 7
    requires x == base + r && y == base + s
    ensures x % 7 != y % 7
  {
  }

  /** A key of the intended shape reads back as its year and week number. */
  lemma {:induction false} IsoKeyInjective(a1: nat, b1: nat, a2: nat, b2: nat)
    requires a1 <= 10000 && a2 <= 10000 && b1 < 100 && b2 < 100
    requires ShowYear(a1) + "-" + Pad(b1, 2) == ShowYear(a2) + "-" + Pad(b2, 2)
    ensures a1 == a2 && b1 == b2
  {
    var s := ShowYear(a1) + "-" + Pad(b1, 2);
    var n := |ShowYear(a1)|;
    assert n == |ShowYear(a2)|;
    assert s[..n] == ShowYear(a1) && s[..n] == ShowYear(a2);
    assert s[n + 1..] == Pad(b1, 2) && s[n + 1..] == Pad(b2, 2);
    ShowYearValue(a1);
    ShowYearValue(a2);
    ValuePad(b1, 2);
    ValuePad(b2, 2);
  }

  lemma ShowYearValue(y: nat)
    requires y <= 10000
    ensures Value(ShowYear(y)) == y
  {
    if y < 10000 { ValuePad(y, 4); } else { ValuePad(y, 5); }
  }

  /** The intended key: two dates get the same key exactly when they lie in the
      same ISO week. */
  lemma IsoWeekKeyIdentifies(d1: Date, d2: Date)
    ensures IsoWeekKey(d1) == IsoWeekKey(d2) <==> Monday(DayNumber(d1)) == Monday(DayNumber(d2))
  {
    IsoWeekIdentifies(d1, d2);
    if IsoWeekKey(d1) == IsoWeekKey(d2) {
      IsoKeyInjective(IsoYear(d1), IsoWeekNumber(d1), IsoYear(d2), IsoWeekNumber(d2));
    }
  }

  /** Monday 2024-01-01 opens ISO week 1 of 2024 and Monday 2024-12-30 opens
      ISO week 1 of 2025. */
  const FirstMonday2024: Date := CivilDate(2024, 1, 1)
  const LastMonday2024: Date := CivilDate(2024, 12, 30)

  /** As written, the key pairs the calendar year with the ISO week number, so
      the last days of 2024 share "2024-01" with its first week, although the
      two dates lie in different ISO weeks and the intended keys tell them
      apart. */
  lemma WeekKeyCollision()
    ensures WeekKeyAsWritten(FirstMonday2024) == WeekKeyAsWritten(LastMonday2024)
    ensures Monday(DayNumber(FirstMonday2024)) != Monday(DayNumber(LastMonday2024))
    ensures IsoWeekKey(FirstMonday2024) != IsoWeekKey(LastMonday2024)
  {
    SameAsWrittenKey();
    DifferentMondays();
    IsoWeekKeyIdentifies(FirstMonday2024, LastMonday2024);
  }

  lemma SameAsWrittenKey()
    ensures WeekKeyAsWritten(FirstMonday2024) == WeekKeyAsWritten(LastMonday2024)
  {
    FirstWeekOf2024();
    FirstWeekOf2025();
    SameYearAndNumber(FirstMonday2024, LastMonday2024);
  }

  lemma SameYearAndNumber(d1: Date, d2: Date)
    requires d1.year == d2.year && IsoWeekNumber(d1) == IsoWeekNumber(d2)
    ensures WeekKeyAsWritten(d1) == WeekKeyAsWritten(d2)
  {
  }

  lemma FirstWeekOf2024()
    ensures IsoYear(FirstMonday2024) == 2024 && IsoWeekNumber(FirstMonday2024) == 1
  {
    FirstDay();
    assert Thursday(738885) == 738888;
  }

  lemma FirstWeekOf2025()
    ensures IsoYear(LastMonday2024) == 2025 && IsoWeekNumber(LastMonday2024) == 1
  {
    LastDay();
    assert DaysBeforeYear(2025) == 739251;
    assert Thursday(739249) == 739252;
  }

  lemma FirstDay()
    ensures DayNumber(FirstMonday2024) == 738885
  {
    assert DaysBeforeYear(2024) == 738885;
  }

  lemma LastDay()
    ensures DayNumber(LastMonday2024) == 739249
  {
    assert DaysBeforeYear(2024) == 738885;
    assert DaysBeforeMonth(2024, 12) == 335;
  }

  lemma DifferentMondays()
    ensures Monday(DayNumber(FirstMonday2024)) != Monday(DayNumber(LastMonday2024))
  {
    FirstDay();
    LastDay();
    MondayOf(105555, 0);
    MondayOf(105607, 0);
  }

  /** The Monday of day 7q + r is day 7q. */
  lemma MondayOf(q: nat, r: nat)
    requires r < 7
    ensures Monday(7 * q + r) == 7 * q
  {
  }
}
