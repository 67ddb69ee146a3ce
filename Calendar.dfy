/**
  Calendar dates as Python's `datetime.date` handles them: construction with its range
  checks, comparison, day differences (`toordinal`), and the two text forms the source
  reads and writes, `%Y-%m-%d` (the calendar date of ISO 8601, extended format, section
  5.2.1.1 of ISO 8601:2004) and `%d/%m/%Y`.
*/
module Calendar {
  import opened Wrappers
  import opened Text

  datatype Date = Date(year: int, month: int, day: int)

  predicate IsLeapYear(y: int)
  {
    y % 4 == 0 && (y % 100 != 0 || y % 400 == 0)
  }

  function DaysInMonth(y: int, m: int): int
    requires 1 <= m <= 12
  {
    if m == 2 then (if IsLeapYear(y) then 29 else 28)
    else if m == 4 || m == 6 || m == 9 || m == 11 then 30
    else 31
  }

  /** `date(y, m, d)` exists: Gregorian calendar, years MINYEAR = 1 to MAXYEAR = 9999. */
  predicate IsValid(d: Date)
  {
    1 <= d.year <= 9999 && 1 <= d.month <= 12 && 1 <= d.day <= DaysInMonth(d.year, d.month)
  }

  /** Python's `date(y, m, d)`: `None` where it raises `ValueError`. */
  function MakeDate(y: int, m: int, d: int): (r: Option<Date>)
    ensures r.Some? ==> IsValid(r.value) && r.value == Date(y, m, d)
    ensures IsValid(Date(y, m, d)) ==> r.Some?
  {
    if IsValid(Date(y, m, d)) then Some(Date(y, m, d)) else None
  }

  /** Python's `a < b` on dates. */
  predicate Before(a: Date, b: Date)
  {
    a.year < b.year || (a.year == b.year && (a.month < b.month || (a.month == b.month && a.day < b.day)))
  }

  /** Python's `a <= b` on dates. */
  predicate AtOrBefore(a: Date, b: Date)
  {
    a == b || Before(a, b)
  }

  lemma AtOrBeforeTransitive(a: Date, b: Date, c: Date)
    requires AtOrBefore(a, b) && AtOrBefore(b, c)
    ensures AtOrBefore(a, c)
  {
  }

  /** The (year, month) after `m` of `y`: December moves to January of the next year. */
  function NextMonth(y: int, m: int): (int, int)
  {
    if m + 1 > 12 then (y + 1, 1) else (y, m + 1)
  }

  // ---------------------------------------------------------------- day numbers

  function DaysInYear(y: int): int
  {
    if IsLeapYear(y) then 366 else 365
  }

  /** The days of the years before `y`, counted from 1 January of year 1. */
  function DaysBeforeYear(y: int): int
    decreases y
  {
    if y <= 1 then 0 else DaysBeforeYear(y - 1) + DaysInYear(y - 1)
  }

  /** The days of the months of year `y` before month `m`. */
  function DaysBeforeMonth(y: int, m: int): int
    requires 1 <= m <= 12
  {
    if m == 1 then 0 else DaysBeforeMonth(y, m - 1) + DaysInMonth(y, m - 1)
  }

  /** Python's `d.toordinal()`: 1 January of year 1 is day 1. */
  function Ordinal(d: Date): int
    requires 1 <= d.month <= 12
  {
    DaysBeforeYear(d.year) + DaysBeforeMonth(d.year, d.month) + d.day
  }

  /** Python's `(b - a).days`. */
  function DaysBetween(a: Date, b: Date): int
    requires 1 <= a.month <= 12 && 1 <= b.month <= 12
  {
    Ordinal(b) - Ordinal(a)
  }

  /** The year count is the closed form `_days_before_year` of Python's `datetime` uses. */
  lemma {:induction false} DaysBeforeYearFormula(y: int)
    requires y >= 1
    ensures var p := y - 1; DaysBeforeYear(y) == p * 365 + p / 4 - p / 100 + p / 400
    decreases y
  {
    if y > 1 {
      DaysBeforeYearFormula(y - 1);
      LeapStep(y - 1);
    }
  }

  /** One more year adds 365 days, and one more for each of the counted multiples it is. */
  lemma LeapStep(p: int)
    requires p >= 1
    ensures DaysInYear(p) == 365 + (p / 4 - (p - 1) / 4) - (p / 100 - (p - 1) / 100) + (p / 400 - (p - 1) / 400)
  {
    MultipleStep(p);
    DivisorChain(p);
  }

  /** Counting up to `p` rather than `p - 1` adds one multiple of 4, 100 or 400 exactly when `p` is one. */
  lemma MultipleStep(p: int)
    requires p >= 1
    ensures p / 4 - (p - 1) / 4 == if p % 4 == 0 then 1 else 0
    ensures p / 100 - (p - 1) / 100 == if p % 100 == 0 then 1 else 0
    ensures p / 400 - (p - 1) / 400 == if p % 400 == 0 then 1 else 0
  {
  }

  /** A multiple of 400 is one of 100, and a multiple of 100 is one of 4. */
  lemma DivisorChain(p: int)
    ensures p % 400 == 0 ==> p % 100 == 0
    ensures p % 100 == 0 ==> p % 4 == 0
  {
  }

  /** The month count is the cumulative table of Python's `datetime` (`_DAYS_BEFORE_MONTH`). */
  lemma DaysBeforeMonthTable(y: int, m: int)
    requires 1 <= m <= 12
    ensures DaysBeforeMonth(y, m) ==
      [0, 31, 59, 90, 120, 151, 181, 212, 243, 273, 304, 334][m - 1] + (if m > 2 && IsLeapYear(y) then 1 else 0)
  {
  }

  /** Days within one month differ by their day numbers. */
  lemma SameMonthDays(a: Date, b: Date)
    requires 1 <= a.month <= 12 && a.year == b.year && a.month == b.month
    ensures DaysBetween(a, b) == b.day - a.day
  {
  }

  lemma {:induction false} YearsAdvance(y1: int, y2: int)
    requires 1 <= y1 < y2
    ensures DaysBeforeYear(y1) + DaysInYear(y1) <= DaysBeforeYear(y2)
    decreases y2 - y1
  {
    if y1 + 1 < y2 {
      YearsAdvance(y1 + 1, y2);
    }
  }

  lemma {:induction false} MonthsAdvance(y: int, m1: int, m2: int)
    requires 1 <= m1 < m2 <= 12
    ensures DaysBeforeMonth(y, m1) + DaysInMonth(y, m1) <= DaysBeforeMonth(y, m2)
    decreases m2
  {
    if m1 + 1 < m2 {
      MonthsAdvance(y, m1, m2 - 1);
    }
  }

  lemma OrdinalWithinYear(d: Date)
    requires IsValid(d)
    ensures DaysBeforeYear(d.year) < Ordinal(d) <= DaysBeforeYear(d.year) + DaysInYear(d.year)
  {
    DaysBeforeMonthTable(d.year, 12);
    DaysBeforeMonthTable(d.year, d.month);
    if d.month < 12 {
      MonthsAdvance(d.year, d.month, 12);
    }
  }

  lemma BeforeHasSmallerOrdinal(a: Date, b: Date)
    requires IsValid(a) && IsValid(b) && Before(a, b)
    ensures Ordinal(a) < Ordinal(b)
  {
    if a.year < b.year {
      OrdinalWithinYear(a);
      OrdinalWithinYear(b);
      YearsAdvance(a.year, b.year);
    } else if a.month < b.month {
      MonthsAdvance(a.year, a.month, b.month);
    }
  }

  /** Date order and day-number order agree, so day differences follow the calendar. */
  lemma OrdinalOrder(a: Date, b: Date)
    requires IsValid(a) && IsValid(b)
    ensures Before(a, b) <==> Ordinal(a) < Ordinal(b)
    ensures a == b <==> Ordinal(a) == Ordinal(b)
  {
    if Before(a, b) {
      BeforeHasSmallerOrdinal(a, b);
    } else if Before(b, a) {
      BeforeHasSmallerOrdinal(b, a);
    }
  }

  // ---------------------------------------------------------------- text forms

  /** `d.strftime("%Y-%m-%d")`, the year written with four digits. */
  function IsoString(d: Date): string
    requires IsValid(d)
  {
    Join([PadDigits(d.year, 4), PadDigits(d.month, 2), PadDigits(d.day, 2)], "-")
  }

  /** `d.strftime("%d/%m/%Y")`, the form of the dates of the rate files. */
  function DmyString(d: Date): string
    requires IsValid(d)
  {
    Join([PadDigits(d.day, 2), PadDigits(d.month, 2), PadDigits(d.year, 4)], "/")
  }

  /** Exactly four ASCII digits, the `%Y` field of `strptime`. */
  predicate YearField(t: string)
  {
    |t| == 4 && AllDigits(t)
  }

  /** One or two ASCII digits denoting 1 to 12, the `%m` field of `strptime`. */
  predicate MonthField(t: string)
  {
    1 <= |t| <= 2 && AllDigits(t) && 1 <= DigitsValue(t) <= 12
  }

  /** One or two ASCII digits denoting 1 to 31, the `%d` field of `strptime` less its `" 5"` spelling. */
  predicate DayField(t: string)
  {
    1 <= |t| <= 2 && AllDigits(t) && 1 <= DigitsValue(t) <= 31
  }

  /** `datetime.strptime(s, "%Y-%m-%d").date()`; `None` where it raises `ValueError`. */
  function ParseIso(s: string): (r: Option<Date>)
    ensures r.Some? ==> IsValid(r.value)
  {
    var parts := Split(s, {'-'});
    if |parts| == 3 && YearField(parts[0]) && MonthField(parts[1]) && DayField(parts[2]) then
      MakeDate(DigitsValue(parts[0]), DigitsValue(parts[1]), DigitsValue(parts[2]))
    else None
  }

  /** `datetime.strptime(s, "%d/%m/%Y").date()`; `None` where it raises `ValueError`. */
  function ParseDmy(s: string): (r: Option<Date>)
    ensures r.Some? ==> IsValid(r.value)
  {
    var parts := Split(s, {'/'});
    if |parts| == 3 && DayField(parts[0]) && MonthField(parts[1]) && YearField(parts[2]) then
      MakeDate(DigitsValue(parts[2]), DigitsValue(parts[1]), DigitsValue(parts[0]))
    else None
  }

  lemma DigitsFree(t: string, c: char)
    requires AllDigits(t) && !IsDigit(c)
    ensures Free(t, {c})
  {
  }

  lemma JoinThree(a: string, b: string, c: string, sep: string)
    ensures Join([a, b, c], sep) == a + sep + (b + sep + c)
  {
    assert [a, b, c][1..] == [b, c];
    assert [b, c][1..] == [c];
    assert Join([c], sep) == c;
    assert Join([b, c], sep) == b + sep + c;
  }

  /** The padded fields of a valid date are what `%Y`, `%m` and `%d` accept, with their values. */
  lemma PaddedFields(d: Date)
    requires IsValid(d)
    ensures YearField(PadDigits(d.year, 4)) && DigitsValue(PadDigits(d.year, 4)) == d.year
    ensures MonthField(PadDigits(d.month, 2)) && DigitsValue(PadDigits(d.month, 2)) == d.month
    ensures DayField(PadDigits(d.day, 2)) && DigitsValue(PadDigits(d.day, 2)) == d.day
  {
    assert Pow10(2) == 100 && Pow10(4) == 10000;
    PadDigitsValue(d.year, 4);
    PadDigitsValue(d.month, 2);
    PadDigitsValue(d.day, 2);
  }

  /** Reading back the ISO form of a date gives the date. */
  lemma ParseIsoString(d: Date)
    requires IsValid(d)
    ensures ParseIso(IsoString(d)) == Some(d)
  {
    var ps := [PadDigits(d.year, 4), PadDigits(d.month, 2), PadDigits(d.day, 2)];
    forall k | 0 <= k < 3 ensures Free(ps[k], {'-'}) {
      DigitsFree(ps[k], '-');
    }
    JoinThenSplit(ps, '-');
    assert Split(IsoString(d), {'-'}) == ps;
    PaddedFields(d);
  }

  /** Reading back the day/month/year form of a date gives the date. */
  lemma ParseDmyString(d: Date)
    requires IsValid(d)
    ensures ParseDmy(DmyString(d)) == Some(d)
  {
    var ps := [PadDigits(d.day, 2), PadDigits(d.month, 2), PadDigits(d.year, 4)];
    forall k | 0 <= k < 3 ensures Free(ps[k], {'/'}) {
      DigitsFree(ps[k], '/');
    }
    JoinThenSplit(ps, '/');
    assert Split(DmyString(d), {'/'}) == ps;
    PaddedFields(d);
  }

  lemma DashedPair(x1: string, y1: string, x2: string, y2: string)
    requires |x1| == |x2|
    ensures LexLess(x1 + "-" + y1, x2 + "-" + y2) <==> LexLess(x1, x2) || (x1 == x2 && LexLess(y1, y2))
    ensures x1 + "-" + y1 == x2 + "-" + y2 <==> x1 == x2 && y1 == y2
  {
    var h1, h2 := x1 + "-", x2 + "-";
    LexConcat(x1, "-", x2, "-");
    LexLessIrreflexive("-");
    assert LexLess(h1, h2) <==> LexLess(x1, x2);
    assert h1 == h2 <==> x1 == x2 by {
      if h1 == h2 {
        assert x1 == h1[..|x1|] == h2[..|x2|] == x2;
      }
    }
    LexConcat(h1, y1, h2, y2);
    if h1 + y1 == h2 + y2 {
      assert h1 == (h1 + y1)[..|h1|] == (h2 + y2)[..|h2|] == h2;
      assert y1 == (h1 + y1)[|h1|..] == (h2 + y2)[|h2|..] == y2;
    }
  }

  lemma PaddedField(a: nat, b: nat, width: nat)
    requires a < Pow10(width) && b < Pow10(width)
    ensures LexLess(PadDigits(a, width), PadDigits(b, width)) <==> a < b
    ensures PadDigits(a, width) == PadDigits(b, width) <==> a == b
  {
    PadDigitsOrder(a, b, width);
    PadDigitsValue(a, width);
    PadDigitsValue(b, width);
  }

  /**
    On valid dates the string order of their ISO forms is the order of the dates: this is
    what makes the source's comparisons of date strings chronological.
  */
  lemma IsoOrder(a: Date, b: Date)
    requires IsValid(a) && IsValid(b)
    ensures LexLess(IsoString(a), IsoString(b)) <==> Before(a, b)
    ensures LexAtMost(IsoString(a), IsoString(b)) <==> AtOrBefore(a, b)
  {
    var ya, ma, da := PadDigits(a.year, 4), PadDigits(a.month, 2), PadDigits(a.day, 2);
    var yb, mb, db := PadDigits(b.year, 4), PadDigits(b.month, 2), PadDigits(b.day, 2);
    JoinThree(ya, ma, da, "-");
    JoinThree(yb, mb, db, "-");
    PaddedField(a.year, b.year, 4);
    PaddedField(a.month, b.month, 2);
    PaddedField(a.day, b.day, 2);
    DashedPair(ma, da, mb, db);
    DashedPair(ya, ma + "-" + da, yb, mb + "-" + db);
  }
}
