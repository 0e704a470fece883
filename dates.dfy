/** Calendar dates as (year, month, day) triples on the proleptic Gregorian calendar,
    the day count JavaScript's millisecond arithmetic stands for, and the ISO `YYYY-MM-DD`
    text form in which the records store dates. */
module DateMath {
  import opened Wrappers
  import opened Strings

  /** A calendar date; `month` runs 1..12 (JavaScript's `getMonth() + 1`). */
  datatype Date = Date(year: int, month: int, day: int)

  /** Gregorian leap years: every fourth year, except centuries not divisible by 400. */
  predicate IsLeapYear(y: int) {
    y % 4 == 0 && (y % 100 != 0 || y % 400 == 0)
  }

  /** What `new Date(year, month, 0).getDate()` gives: the last day of `month`. */
  function DaysInMonth(y: int, m: int): (n: int)
    requires 1 <= m <= 12
    ensures 28 <= n <= 31
    ensures n == 29 <==> m == 2 && IsLeapYear(y)
  {
    if m == 2 then (if IsLeapYear(y) then 29 else 28)
    else if m == 4 || m == 6 || m == 9 || m == 11 then 30
    else 31
  }

  function DaysInYear(y: int): int {
    if IsLeapYear(y) then 366 else 365
  }

  /** A real calendar day. */
  predicate ValidDate(d: Date) {
    1 <= d.month <= 12 && 1 <= d.day <= DaysInMonth(d.year, d.month)
  }

  /** Chronological order: `a` is an earlier day than `b`. */
  predicate Before(a: Date, b: Date) {
    a.year < b.year
    || (a.year == b.year && a.month < b.month)
    || (a.year == b.year && a.month == b.month && a.day < b.day)
  }

  /** Days of the months before `m` in year `y`. */
  function DaysBeforeMonth(y: int, m: int): int
    requires 1 <= m <= 12
  {
    (if m == 1 then 0 else if m == 2 then 31 else if m == 3 then 59 else if m == 4 then 90
     else if m == 5 then 120 else if m == 6 then 151 else if m == 7 then 181 else if m == 8 then 212
     else if m == 9 then 243 else if m == 10 then 273 else if m == 11 then 304 else 334)
    + (if m > 2 && IsLeapYear(y) then 1 else 0)
  }

  /** Days from 1 January of year 0 to 1 January of year `y` (negative before year 0). */
  function DaysBeforeYear(y: int): int {
    365 * y + (y + 3) / 4 - (y + 99) / 100 + (y + 399) / 400
  }

  /** Serial number of a day; differences of these are the day distances that
      JavaScript obtains from millisecond timestamps at local midnight. */
  function DayNumber(d: Date): int
    requires 1 <= d.month <= 12
  {
    DaysBeforeYear(d.year) + DaysBeforeMonth(d.year, d.month) + d.day - 1
  }

  /** The following calendar day. */
  function NextDay(d: Date): (r: Date)
    requires ValidDate(d)
    ensures ValidDate(r) && Before(d, r)
  {
    if d.day < DaysInMonth(d.year, d.month) then Date(d.year, d.month, d.day + 1)
    else if d.month < 12 then Date(d.year, d.month + 1, 1)
    else Date(d.year + 1, 1, 1)
  }

  lemma DaysBeforeMonthStep(y: int, m: int)
    requires 1 <= m < 12
    ensures DaysBeforeMonth(y, m + 1) == DaysBeforeMonth(y, m) + DaysInMonth(y, m)
  {
  }

  // Each of the three counts of the year formula grows by one exactly at a multiple.
  lemma Step4(y: int)
    ensures (y + 4) / 4 == (y + 3) / 4 + (if y % 4 == 0 then 1 else 0)
  {
  }

  lemma Step100(y: int)
    ensures (y + 100) / 100 == (y + 99) / 100 + (if y % 100 == 0 then 1 else 0)
  {
  }

  lemma Step400(y: int)
    ensures (y + 400) / 400 == (y + 399) / 400 + (if y % 400 == 0 then 1 else 0)
  {
  }

  lemma Multiple100(y: int)
    requires y % 400 == 0
    ensures y % 100 == 0
  {
    var q := y / 400;
    assert y == 100 * (4 * q);
  }

  lemma Multiple4(y: int)
    requires y % 100 == 0
    ensures y % 4 == 0
  {
    var q := y / 100;
    assert y == 4 * (25 * q);
  }

  /** The year formula counts the days of each year: 365, plus one in a leap year. */
  lemma DaysBeforeYearStep(y: int)
    ensures DaysBeforeYear(y + 1) == DaysBeforeYear(y) + DaysInYear(y)
  {
    Step4(y);
    Step100(y);
    Step400(y);
    if y % 400 == 0 {
      Multiple100(y);
    }
    if y % 100 == 0 {
      Multiple4(y);
    }
    var a, b, c := y % 4 == 0, y % 100 == 0, y % 400 == 0;
    assert DaysInYear(y) == 365 + (if a then 1 else 0) - (if b then 1 else 0) + (if c then 1 else 0);
  }

  /** The months of a year add up to the year. */
  lemma DaysBeforeMonthInYear(y: int, m: int)
    requires 1 <= m <= 12
    ensures DaysBeforeMonth(y, m) + DaysInMonth(y, m) <= DaysInYear(y)
  {
  }

  /** The day count advances by exactly one from a day to the next: it counts days. */
  lemma DayNumberNextDay(d: Date)
    requires ValidDate(d)
    ensures DayNumber(NextDay(d)) == DayNumber(d) + 1
  {
    if d.day == DaysInMonth(d.year, d.month) {
      if d.month < 12 {
        DaysBeforeMonthStep(d.year, d.month);
      } else {
        DaysBeforeYearStep(d.year);
      }
    }
  }

  lemma {:induction false} DaysBeforeYearMonotone(y: int, z: int)
    requires y < z
    ensures DaysBeforeYear(y) + DaysInYear(y) <= DaysBeforeYear(z)
    decreases z - y
  {
    DaysBeforeYearStep(y);
    if y + 1 < z {
      DaysBeforeYearMonotone(y + 1, z);
    }
  }

  lemma {:induction false} DaysBeforeMonthMonotone(y: int, m: int, n: int)
    requires 1 <= m < n <= 12
    ensures DaysBeforeMonth(y, m) + DaysInMonth(y, m) <= DaysBeforeMonth(y, n)
    decreases n - m
  {
    DaysBeforeMonthStep(y, m);
    if m + 1 < n {
      DaysBeforeMonthMonotone(y, m + 1, n);
    }
  }

  /** Earlier days have smaller day counts. */
  lemma DayNumberMonotone(a: Date, b: Date)
    requires ValidDate(a) && ValidDate(b) && Before(a, b)
    ensures DayNumber(a) < DayNumber(b)
  {
    if a.year < b.year {
      DaysBeforeMonthInYear(a.year, a.month);
      DaysBeforeYearMonotone(a.year, b.year);
    } else if a.month < b.month {
      DaysBeforeMonthMonotone(a.year, a.month, b.month);
    }
  }

  /** Two days are the same day exactly when their day counts agree. */
  lemma DayNumberInjective(a: Date, b: Date)
    requires ValidDate(a) && ValidDate(b)
    ensures DayNumber(a) == DayNumber(b) <==> a == b
  {
    if Before(a, b) {
      DayNumberMonotone(a, b);
    } else if Before(b, a) {
      DayNumberMonotone(b, a);
    }
  }

  /** The sign of a day distance is the chronological order. */
  lemma DayNumberOrder(a: Date, b: Date)
    requires ValidDate(a) && ValidDate(b)
    ensures DayNumber(a) < DayNumber(b) <==> Before(a, b)
  {
    if Before(a, b) {
      DayNumberMonotone(a, b);
    } else if Before(b, a) {
      DayNumberMonotone(b, a);
    }
  }

  // ---------------------------------------------------------------- ISO text

  /** Years that four digits can spell. */
  predicate FourDigitYear(d: Date) {
    0 <= d.year <= 9999
  }

  /** `YYYY-MM-DD` of a date, each part zero padded. */
  function FormatIso(d: Date): (s: string)
    requires ValidDate(d) && FourDigitYear(d)
    ensures |s| == 10 && s[4] == '-' && s[7] == '-'
  {
    Pad(d.year, 4) + "-" + Pad(d.month, 2) + "-" + Pad(d.day, 2)
  }

  /** The date a `YYYY-MM-DD` text names, or `None` for any other text. Texts of that form
      naming no real day, such as `2023-02-30`, are `None` too; how a JavaScript engine treats
      those varies. */
  function ParseIso(s: string): (r: Option<Date>)
    ensures r.Some? ==> ValidDate(r.value) && FourDigitYear(r.value)
  {
    if |s| == 10 && s[4] == '-' && s[7] == '-'
       && AllDigits(s[..4]) && AllDigits(s[5..7]) && AllDigits(s[8..])
    then
      var d := Date(DigitsValue(s[..4]), DigitsValue(s[5..7]), DigitsValue(s[8..]));
      if ValidDate(d) then Some(d) else None
    else None
  }

  /** Formatting then parsing gives back the date. */
  lemma ParseFormatIso(d: Date)
    requires ValidDate(d) && FourDigitYear(d)
    ensures ParseIso(FormatIso(d)) == Some(d)
  {
    var s := FormatIso(d);
    assert s[..4] == Pad(d.year, 4) && s[5..7] == Pad(d.month, 2) && s[8..] == Pad(d.day, 2);
    ValuePad(d.year, 4);
    ValuePad(d.month, 2);
    ValuePad(d.day, 2);
  }

  /** A text that parses is exactly the formatted form of its date. */
  lemma FormatParseIso(s: string)
    requires ParseIso(s).Some?
    ensures FormatIso(ParseIso(s).value) == s
  {
    PadValue(s[..4]);
    PadValue(s[5..7]);
    PadValue(s[8..]);
    assert s == s[..4] + "-" + s[5..7] + "-" + s[8..];
  }

  /** Comparing `x + "-" + y` texts whose leading parts have equal length. */
  lemma StrLessDashed(x1: string, y1: string, x2: string, y2: string)
    requires |x1| == |x2|
    ensures StrLess(x1 + "-" + y1, x2 + "-" + y2) <==> StrLess(x1, x2) || (x1 == x2 && StrLess(y1, y2))
  {
    assert x1 + "-" + y1 == x1 + ("-" + y1);
    assert x2 + "-" + y2 == x2 + ("-" + y2);
    StrLessConcat(x1, "-" + y1, x2, "-" + y2);
    StrLessConcat("-", y1, "-", y2);
    assert !StrLess("-", "-");
  }

  /** On `YYYY-MM-DD` texts, JavaScript's string `<` is chronological order. */
  lemma IsoOrderIsChronological(a: Date, b: Date)
    requires ValidDate(a) && FourDigitYear(a) && ValidDate(b) && FourDigitYear(b)
    ensures StrLess(FormatIso(a), FormatIso(b)) <==> Before(a, b)
  {
    var ma, mb := Pad(a.month, 2), Pad(b.month, 2);
    var da, db := Pad(a.day, 2), Pad(b.day, 2);
    StrLessPad(a.year, b.year, 4);
    StrLessPad(a.month, b.month, 2);
    StrLessPad(a.day, b.day, 2);
    assert FormatIso(a) == Pad(a.year, 4) + "-" + (ma + "-" + da);
    assert FormatIso(b) == Pad(b.year, 4) + "-" + (mb + "-" + db);
    StrLessDashed(Pad(a.year, 4), ma + "-" + da, Pad(b.year, 4), mb + "-" + db);
    StrLessDashed(ma, da, mb, db);
  }
}
