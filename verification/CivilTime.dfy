/** Civil dates.  The converter from Unix seconds works by nested integer divisions;
    it is compared with the Gregorian calendar written down from its rules: leap
    years, month lengths, and a day number that adds them up. */
module CivilTime {
  import opened Wire

  // ---- The calendar, from its rules ----

  predicate IsLeap(y: nat)
  {
    y % 4 == 0 && (y % 100 != 0 || y % 400 == 0)
  }

  function YearLength(y: nat): (n: nat)
  {
    if IsLeap(y) then 366 else 365
  }

  function MonthLength(y: nat, m: nat): (n: nat)
    requires 1 <= m <= 12
  {
    if m == 2 then (if IsLeap(y) then 29 else 28)
    else if m == 4 || m == 6 || m == 9 || m == 11 then 30
    else 31
  }

  /** Days from the start of 1970 to the start of year `y`. */
  function DaysToYear(y: nat): (n: nat)
    requires y >= 1970
  {
    if y == 1970 then 0 else DaysToYear(y - 1) + YearLength(y - 1)
  }

  /** Days from the start of the year to the start of month `m`. */
  function DaysToMonth(y: nat, m: nat): (n: nat)
    requires 1 <= m <= 12
  {
    if m == 1 then 0 else DaysToMonth(y, m - 1) + MonthLength(y, m - 1)
  }

  datatype DateTime = DateTime(year: nat, month: nat, day: nat, hour: nat, minute: nat, second: nat)

  predicate ValidDateTime(t: DateTime)
  {
    && t.year >= 1970 && 1 <= t.month <= 12 && 1 <= t.day <= MonthLength(t.year, t.month)
    && t.hour < 24 && t.minute < 60 && t.second < 60
  }

  function DayNumber(t: DateTime): (n: nat)
    requires ValidDateTime(t)
  {
    DaysToYear(t.year) + DaysToMonth(t.year, t.month) + t.day - 1
  }

  /** Seconds from the start of 1970 to `t`. */
  function SecondsOf(t: DateTime): (n: nat)
    requires ValidDateTime(t)
  {
    DayNumber(t) * 86400 + t.hour * 3600 + t.minute * 60 + t.second
  }

  predicate Earlier(s: DateTime, t: DateTime)
  {
    if s.year != t.year then s.year < t.year
    else if s.month != t.month then s.month < t.month
    else if s.day != t.day then s.day < t.day
    else if s.hour != t.hour then s.hour < t.hour
    else if s.minute != t.minute then s.minute < t.minute
    else s.second < t.second
  }

  // ---- The converter ----

  /** The dividend of the year-of-era formula. */
  function EraDays(doe: nat): (n: int)
  {
    doe - doe / 1460 + doe / 36524 - doe / 146096
  }

  /** Days from the March that opens an era to the March of its year `yoe`. */
  function DaysToYearOfEra(yoe: nat): (n: nat)
  {
    365 * yoe + yoe / 4 - yoe / 100
  }

  /** The March-based year, and the day of that year, of day `z` counted from the first
      of March of year 0. */
  function MarchDate(z: nat): (r: (nat, nat))
    ensures r.1 <= 365
  {
    var era := z / 146097;
    var doe := z % 146097;
    YearOfEraIsExact(doe);
    var yoe := EraDays(doe) / 365;
    (yoe + era * 400, doe - DaysToYearOfEra(yoe))
  }

  /** The date `doy` days after the first of March of year `y`. */
  function DateFromMarch(y: nat, doy: nat, hour: nat, minute: nat, second: nat): (t: DateTime)
    requires doy <= 365
  {
    MonthIsExact(doy);
    var mp := (5 * doy + 2) / 153;
    var d := doy - (153 * mp + 2) / 5 + 1;
    var m := if mp < 10 then mp + 3 else mp - 9;
    DateTime(if m <= 2 then y + 1 else y, m, d, hour, minute, second)
  }

  /** The conversion, before the year is stored in 32 bits. */
  function CivilOf(secs: nat): (t: DateTime)
  {
    var (y, doy) := MarchDate(secs / 86400 + 719468);
    var inDay := secs % 86400;
    DateFromMarch(y, doy, inDay / 3600, (inDay / 60) % 60, inDay % 60)
  }

  function UnixToYmdhms(secs: nat): (t: DateTime)
  {
    CivilOf(secs).(year := CivilOf(secs).year % 0x1_0000_0000)
  }

  // ---- The year of the era ----

  lemma {:induction false} EraDaysIsMonotone(a: nat, b: nat)
    requires a <= b
    ensures EraDays(a) <= EraDays(b)
    decreases b - a
  {
    if a < b {
      EraDaysIsMonotone(a, b - 1);
      EraDaysStep(b - 1);
    }
  }

  lemma EraDaysStep(x: nat)
    ensures EraDays(x) <= EraDays(x + 1)
  {
    if (x + 1) / 146096 > x / 146096 {
      var k := (x + 1) / 146096;
      assert x + 1 == 146096 * k;
      assert (x + 1) / 36524 == 4 * k;
      assert x / 36524 == 4 * k - 1;
    }
  }

  /** The quotients at the start of year `4 * j + a` of century `c`, and the day before. */
  lemma QuotientsAtYear(c: nat, j: nat, a: nat)
    requires c < 4 && j < 25 && a < 4
    ensures var x := 36524 * c + 1461 * j + 365 * a;
            EraDays(x) == 36500 * c + 1460 * j + 365 * a
            && (x > 0 ==> EraDays(x - 1) < 36500 * c + 1460 * j + 365 * a)
  {
    var x := 36524 * c + 1461 * j + 365 * a;
    assert x == 1460 * (25 * c + j) + (24 * c + j + 365 * a) && 24 * c + j + 365 * a < 1460;
    assert x / 1460 == 25 * c + j;
    assert x / 36524 == c;
    assert x / 146096 == 0;
    if x > 0 {
      assert (x - 1) / 1460 == 25 * c + j;
      assert (x - 1) / 36524 <= c;
    }
  }

  /** The formula is exact at the start of each year and short just before it. */
  lemma EraDaysAtYear(y: nat)
    requires y < 400
    ensures EraDays(DaysToYearOfEra(y)) == 365 * y
    ensures y > 0 ==> EraDays(DaysToYearOfEra(y) - 1) < 365 * y
  {
    var c, j, a := y / 100, (y % 100) / 4, y % 4;
    assert y == 100 * c + 4 * j + a && y / 4 == 25 * c + j;
    QuotientsAtYear(c, j, a);
  }

  /** The year of the era is the one whose days contain `doe`. */
  lemma YearOfEraIsExact(doe: nat)
    requires doe < 146097
    ensures var y := EraDays(doe) / 365;
            && 0 <= y < 400
            && DaysToYearOfEra(y) <= doe
            && (y < 399 ==> doe < DaysToYearOfEra(y + 1))
            && doe - DaysToYearOfEra(y) <= 365
  {
    EraDaysIsMonotone(0, doe);
    EraDaysIsMonotone(doe, 146096);
    var y := EraDays(doe) / 365;
    EraDaysAtYear(y);
    if doe < DaysToYearOfEra(y) {
      EraDaysIsMonotone(doe, DaysToYearOfEra(y) - 1);
    }
    if y < 399 && DaysToYearOfEra(y + 1) <= doe {
      EraDaysAtYear(y + 1);
      EraDaysIsMonotone(DaysToYearOfEra(y + 1), doe);
    }
  }

  /** The month formulas, over a year that starts in March. */
  lemma MonthIsExact(doy: nat)
    requires doy <= 365
    ensures var mp := (5 * doy + 2) / 153;
            && 0 <= mp < 12
            && (153 * mp + 2) / 5 <= doy
            && (mp < 11 ==> doy < (153 * (mp + 1) + 2) / 5)
  {
  }

  // ---- The calendar in closed form ----

  /** Days from the first of March of year 0 to the first of March of year `y`. */
  function MarchDays(y: nat): (n: int)
  {
    365 * y + y / 4 - y / 100 + y / 400
  }

  lemma QuotientStep(x: nat, k: nat)
    requires k > 0
    ensures (x + 1) / k == x / k + (if (x + 1) % k == 0 then 1 else 0)
  {
    var q, r := x / k, x % k;
    assert x == q * k + r;
    if r + 1 == k {
      assert x + 1 == (q + 1) * k;
    } else {
      assert x + 1 == q * k + (r + 1);
    }
    QuotientIsUnique(x + 1, k, if r + 1 == k then q + 1 else q, if r + 1 == k then 0 else r + 1);
  }

  lemma QuotientIsUnique(x: nat, k: nat, q: nat, r: nat)
    requires k > 0 && r < k && x == q * k + r
    ensures x / k == q && x % k == r
  {
    var d := x / k - q;
    assert d * k == r - x % k by { assert x == (x / k) * k + x % k; }
    MultipleIsFar(d, k);
  }

  lemma MultipleIsFar(d: int, k: nat)
    ensures d >= 1 ==> d * k >= k
    ensures d <= -1 ==> d * k + k <= 0
  {
  }

  lemma MarchDaysStep(y: nat)
    ensures MarchDays(y + 1) == MarchDays(y) + (if IsLeap(y + 1) then 366 else 365)
  {
    QuotientStep(y, 4);
    QuotientStep(y, 100);
    QuotientStep(y, 400);
    assert (y + 1) % 400 == 0 ==> (y + 1) % 100 == 0;
    assert (y + 1) % 100 == 0 ==> (y + 1) % 4 == 0;
  }

  lemma {:induction false} DaysToYearClosedForm(y: nat)
    requires y >= 1970
    ensures DaysToYear(y) == MarchDays(y) - 719468 - (if IsLeap(y) then 60 else 59)
  {
    if y > 1970 {
      DaysToYearClosedForm(y - 1);
      MarchDaysStep(y - 1);
    }
  }

  lemma DaysToMonthTable(y: nat)
    ensures var f := if IsLeap(y) then 1 else 0;
            && DaysToMonth(y, 1) == 0 && DaysToMonth(y, 2) == 31 && DaysToMonth(y, 3) == 59 + f
            && DaysToMonth(y, 4) == 90 + f && DaysToMonth(y, 5) == 120 + f && DaysToMonth(y, 6) == 151 + f
            && DaysToMonth(y, 7) == 181 + f && DaysToMonth(y, 8) == 212 + f && DaysToMonth(y, 9) == 243 + f
            && DaysToMonth(y, 10) == 273 + f && DaysToMonth(y, 11) == 304 + f && DaysToMonth(y, 12) == 334 + f
  {
  }

  lemma EraDecomposes(era: nat, yoe: nat)
    requires yoe < 400
    ensures MarchDays(yoe + era * 400) == 146097 * era + DaysToYearOfEra(yoe)
  {
    var y := yoe + era * 400;
    assert y / 4 == yoe / 4 + 100 * era;
    assert y / 100 == yoe / 100 + 4 * era;
    assert y / 400 == era;
  }

  lemma MarchToDecember(y: nat, doy: nat, hour: nat, minute: nat, second: nat)
    requires doy < 306
    requires MarchDays(y) + doy >= 719468
    requires hour < 24 && minute < 60 && second < 60
    ensures var t := DateFromMarch(y, doy, hour, minute, second);
            ValidDateTime(t) && DayNumber(t) == MarchDays(y) + doy - 719468
  {
    var t := DateFromMarch(y, doy, hour, minute, second);
    MonthIsExact(doy);
    DaysToMonthTable(t.year);
    YearIsAtLeast1970(y, doy);
    DaysToYearClosedForm(t.year);
  }

  lemma JanuaryAndFebruary(y: nat, doy: nat, hour: nat, minute: nat, second: nat)
    requires 306 <= doy <= 365 && (doy == 365 ==> IsLeap(y + 1))
    requires MarchDays(y) + doy >= 719468
    requires hour < 24 && minute < 60 && second < 60
    ensures var t := DateFromMarch(y, doy, hour, minute, second);
            ValidDateTime(t) && DayNumber(t) == MarchDays(y) + doy - 719468
  {
    var t := DateFromMarch(y, doy, hour, minute, second);
    MonthIsExact(doy);
    DaysToMonthTable(t.year);
    YearIsAtLeast1970(y, doy);
    DaysToYearClosedForm(t.year);
    MarchDaysStep(y);
  }

  /** `DateFromMarch` gives a valid date whose day number is the right one. */
  lemma DateFromMarchIsRight(y: nat, doy: nat, hour: nat, minute: nat, second: nat)
    requires doy <= 365 && (doy == 365 ==> IsLeap(y + 1))
    requires MarchDays(y) + doy >= 719468
    requires hour < 24 && minute < 60 && second < 60
    ensures var t := DateFromMarch(y, doy, hour, minute, second);
            ValidDateTime(t) && DayNumber(t) == MarchDays(y) + doy - 719468
  {
    if doy < 306 {
      MarchToDecember(y, doy, hour, minute, second);
    } else {
      JanuaryAndFebruary(y, doy, hour, minute, second);
    }
  }

  lemma YearIsAtLeast1970(y: nat, doy: nat)
    requires doy <= 365 && MarchDays(y) + doy >= 719468
    ensures y >= 1970 || (y == 1969 && doy >= 306)
  {
  }

  lemma MarchDateIsExact(z: nat)
    ensures var (y, doy) := MarchDate(z);
            MarchDays(y) + doy == z && (doy == 365 ==> IsLeap(y + 1))
  {
    var era, doe := z / 146097, z % 146097;
    YearOfEraIsExact(doe);
    var yoe := EraDays(doe) / 365;
    EraDecomposes(era, yoe);
    if doe - DaysToYearOfEra(yoe) == 365 {
      LastDayIsLeap(era, yoe, 365);
    }
  }

  /** Correctness: every second since 1970 is converted to a valid date and time that
      denotes exactly that second. */
  lemma CivilIsExact(secs: nat)
    ensures ValidDateTime(CivilOf(secs)) && SecondsOf(CivilOf(secs)) == secs
  {
    var inDay := secs % 86400;
    var (y, doy) := MarchDate(secs / 86400 + 719468);
    MarchDateIsExact(secs / 86400 + 719468);
    TimeOfDayIsExact(inDay);
    DateFromMarchIsRight(y, doy, inDay / 3600, (inDay / 60) % 60, inDay % 60);
  }

  /** Only a year that ends in a leap February has a 366th day. */
  lemma LastDayIsLeap(era: nat, yoe: nat, doy: nat)
    requires yoe < 400 && (yoe < 399 ==> DaysToYearOfEra(yoe) + doy < DaysToYearOfEra(yoe + 1))
    requires doy == 365
    ensures IsLeap(yoe + era * 400 + 1)
  {
    var y := yoe + 1;
    QuotientStep(yoe, 4);
    QuotientStep(yoe, 100);
    assert yoe < 399 ==> y % 4 == 0 && y % 100 != 0;
    ResidueOfEra(y, era);
  }

  lemma ResidueOfEra(y: nat, era: nat)
    ensures (y + era * 400) % 4 == y % 4
    ensures (y + era * 400) % 100 == y % 100
    ensures (y + era * 400) % 400 == y % 400
  {
    QuotientIsUnique(y + era * 400, 4, y / 4 + 100 * era, y % 4);
    QuotientIsUnique(y + era * 400, 100, y / 100 + 4 * era, y % 100);
    QuotientIsUnique(y + era * 400, 400, y / 400 + era, y % 400);
  }

  lemma TimeOfDayIsExact(inDay: nat)
    requires inDay < 86400
    ensures inDay / 3600 < 24
    ensures inDay / 3600 * 3600 + (inDay / 60) % 60 * 60 + inDay % 60 == inDay
  {
  }

  // ---- Order ----

  lemma {:induction false} YearsAddUp(y: nat, y': nat)
    requires 1970 <= y < y'
    ensures DaysToYear(y) + YearLength(y) <= DaysToYear(y')
    decreases y'
  {
    if y + 1 < y' {
      YearsAddUp(y, y' - 1);
    }
  }

  lemma {:induction false} MonthsAddUp(y: nat, m: nat, m': nat)
    requires 1 <= m < m' <= 12
    ensures DaysToMonth(y, m) + MonthLength(y, m) <= DaysToMonth(y, m')
    decreases m'
  {
    if m + 1 < m' {
      MonthsAddUp(y, m, m' - 1);
    }
  }

  lemma DayIsInYear(t: DateTime)
    requires ValidDateTime(t)
    ensures DayNumber(t) < DaysToYear(t.year) + YearLength(t.year)
  {
    DaysToMonthTable(t.year);
    if t.month < 12 {
      MonthsAddUp(t.year, t.month, 12);
    }
  }

  lemma EarlierDayIsLess(s: DateTime, t: DateTime)
    requires ValidDateTime(s) && ValidDateTime(t)
    requires Earlier(s, t) && (s.year, s.month, s.day) != (t.year, t.month, t.day)
    ensures DayNumber(s) < DayNumber(t)
  {
    if s.year < t.year {
      DayIsInYear(s);
      YearsAddUp(s.year, t.year);
    } else if s.month < t.month {
      MonthsAddUp(s.year, s.month, t.month);
    }
  }

  lemma EarlierIsLess(s: DateTime, t: DateTime)
    requires ValidDateTime(s) && ValidDateTime(t) && Earlier(s, t)
    ensures SecondsOf(s) < SecondsOf(t)
  {
    if (s.year, s.month, s.day) != (t.year, t.month, t.day) {
      EarlierDayIsLess(s, t);
      assert DayNumber(s) * 86400 + 86400 <= DayNumber(t) * 86400;
    }
  }

  /** The conversion keeps the order of time. */
  lemma CivilIsMonotone(a: nat, b: nat)
    requires a < b
    ensures Earlier(CivilOf(a), CivilOf(b))
  {
    CivilIsExact(a);
    CivilIsExact(b);
    var s, t := CivilOf(a), CivilOf(b);
    if !Earlier(s, t) {
      assert s == t || Earlier(t, s);
      if Earlier(t, s) { EarlierIsLess(t, s); }
      assert false;
    }
  }

  /** The conversion inverts the calendar: a valid date is the one its seconds give. */
  lemma CivilInvertsCalendar(t: DateTime)
    requires ValidDateTime(t)
    ensures CivilOf(SecondsOf(t)) == t
  {
    var c := CivilOf(SecondsOf(t));
    CivilIsExact(SecondsOf(t));
    if c != t {
      assert Earlier(c, t) || Earlier(t, c);
      if Earlier(c, t) { EarlierIsLess(c, t); } else { EarlierIsLess(t, c); }
      assert false;
    }
  }

  lemma FirstSecond(y: nat)
    requires y >= 1970
    ensures ValidDateTime(DateTime(y, 1, 1, 0, 0, 0))
    ensures SecondsOf(DateTime(y, 1, 1, 0, 0, 0)) == DaysToYear(y) * 86400
  {
  }

  /** A year begins exactly at its first second. */
  lemma YearBeginsAt(secs: nat, y: nat)
    requires y >= 1970
    ensures CivilOf(secs).year >= y <==> secs >= DaysToYear(y) * 86400
  {
    var t, first := CivilOf(secs), DateTime(y, 1, 1, 0, 0, 0);
    FirstSecond(y);
    CivilIsExact(secs);
    if t.year < y {
      EarlierIsLess(t, first);
    } else if t != first {
      EarlierIsLess(first, t);
    }
  }

  /** `YearBeginsAt` with the first second in closed form. */
  lemma YearBeginsAtSecond(secs: nat, y: nat, first: nat)
    requires y >= 1970 && first == (MarchDays(y) - 719468 - (if IsLeap(y) then 60 else 59)) * 86400
    ensures CivilOf(secs).year >= y <==> secs >= first
  {
    DaysToYearClosedForm(y);
    YearBeginsAt(secs, y);
  }

  /** The UTCTime cutoff is the end of 2049. */
  lemma CutoffIsEndOf2049(secs: nat)
    ensures secs < 2_524_608_000 <==> CivilOf(secs).year <= 2049
  {
    YearBeginsAtSecond(secs, 2050, 2_524_608_000);
  }

  lemma TruncatesIff(t: DateTime)
    ensures t.(year := t.year % 0x1_0000_0000) == t <==> t.year < 0x1_0000_0000
  {
  }

  /** Storing the year in 32 bits is harmless exactly below the start of year 2^32. */
  lemma YearFitsExactlyBelow(secs: nat)
    ensures UnixToYmdhms(secs) == CivilOf(secs) <==> secs < 135_536_014_634_284_800
  {
    TruncatesIff(CivilOf(secs));
    Year2To32(secs, 0x1_0000_0000);
  }

  lemma Year2To32(secs: nat, y: nat)
    requires y == 0x1_0000_0000
    ensures CivilOf(secs).year >= y <==> secs >= 135_536_014_634_284_800
  {
    YearBeginsAtSecond(secs, y, 135_536_014_634_284_800);
  }
}
