/**
 The civil calendar arithmetic of native_runtime/cpp/release_contract.cc, for
 every year of the proleptic Gregorian calendar.
 */
module Civil {

  datatype Date = Date(year: int, month: int, day: int)

  predicate IsLeapYear(year: int)
  {
    year % 4 == 0 && (year % 100 != 0 || year % 400 == 0)
  }

  function DaysInMonth(year: int, month: int): int
    requires 1 <= month <= 12
  {
    if month == 2 && IsLeapYear(year) then 29
    else [31, 28, 31, 30, 31, 30, 31, 31, 30, 31, 30, 31][month - 1]
  }

  predicate ValidDate(d: Date)
  {
    1 <= d.month <= 12 && 1 <= d.day <= DaysInMonth(d.year, d.month)
  }

  /** C++ integer division truncates towards zero. */
  function Quotient(a: int, b: int): int
    requires b > 0
  {
    if a >= 0 then a / b else -(-a / b)
  }

  function DaysFromCivil(d: Date): int
    requires 1 <= d.month <= 12
  {
    var year := d.year - if d.month <= 2 then 1 else 0;
    var era := Quotient(if year >= 0 then year else year - 399, 400);
    var yearOfEra := year - era * 400;
    var monthPrime := d.month + if d.month > 2 then -3 else 9;
    var dayOfYear := Quotient(153 * monthPrime + 2, 5) + d.day - 1;
    var dayOfEra := yearOfEra * 365 + Quotient(yearOfEra, 4) - Quotient(yearOfEra, 100) + dayOfYear;
    era * 146097 + dayOfEra - 719468
  }

  /** The day part of FormatInstant. */
  function CivilFromDays(days: int): Date
  {
    var civil := days + 719468;
    var era := Quotient(if civil >= 0 then civil else civil - 146096, 146097);
    var dayOfEra := civil - era * 146097;
    var yearOfEra := Quotient(dayOfEra - Quotient(dayOfEra, 1460) + Quotient(dayOfEra, 36524) -
                              Quotient(dayOfEra, 146096), 365);
    DateInEra(era, yearOfEra, dayOfEra - (365 * yearOfEra + Quotient(yearOfEra, 4) - Quotient(yearOfEra, 100)))
  }

  function DateInEra(era: int, yearOfEra: int, dayOfYear: int): Date
  {
    var year := yearOfEra + era * 400;
    var monthPrime := Quotient(5 * dayOfYear + 2, 153);
    var day := dayOfYear - Quotient(153 * monthPrime + 2, 5) + 1;
    var month := monthPrime + if monthPrime < 10 then 3 else -9;
    Date(year + (if month <= 2 then 1 else 0), month, day)
  }

  /** The calendar's own successor, by month lengths alone. */
  function NextDay(d: Date): Date
    requires ValidDate(d)
  {
    if d.day < DaysInMonth(d.year, d.month) then d.(day := d.day + 1)
    else if d.month < 12 then Date(d.year, d.month + 1, 1)
    else Date(d.year + 1, 1, 1)
  }

  //
  // Years that begin in March, and eras of 400 of them
  //

  /** The days of an era before its year `y`. */
  function YearStart(y: int): int
  {
    365 * y + y / 4 - y / 100
  }

  /** The days of a March year before its month `m`. */
  function MonthStart(m: int): int
  {
    (153 * m + 2) / 5
  }

  function YearLength(y: int): int
  {
    if IsLeapYear(y + 1) then 366 else 365
  }

  function YearOf(dayOfEra: int): int
  {
    (dayOfEra - dayOfEra / 1460 + dayOfEra / 36524 - dayOfEra / 146096) / 365
  }

  lemma FloorEra(y: int, n: int)
    requires n > 0
    ensures Quotient(if y >= 0 then y else y - (n - 1), n) == y / n
  {
    if y < 0 {
      var q, r := y / n, y % n;
      assert (n - 1) - y == (-q) * n + (n - 1 - r);
      QuotientUnique((n - 1) - y, n, -q, n - 1 - r);
    }
  }

  lemma QuotientUnique(a: int, n: int, q: int, r: int)
    requires n > 0 && a == q * n + r && 0 <= r < n
    ensures a / n == q
  {
    var d := a / n - q;
    assert d * n == r - a % n;
    assert d >= 1 ==> d * n >= n;
    assert d <= -1 ==> d * n <= -n;
  }

  /** Year `y` of an era is year `r` of the four-year group `q` of century `c`. */
  ghost predicate Splits(y: int, c: int, q: int, r: int)
  {
    0 <= c < 4 && 0 <= q < 25 && 0 <= r < 4 && y == 100 * c + 4 * q + r
  }

  ghost predicate InYear(c: int, q: int, r: int, doy: int)
  {
    0 <= doy <= 365 && (doy == 365 ==> r == 3 && (q < 24 || c == 3))
  }

  lemma SplitYear(y: int, c: int, q: int, r: int)
    requires Splits(y, c, q, r)
    ensures YearStart(y) == 36524 * c + 1461 * q + 365 * r
    ensures IsLeapYear(y + 1) <==> r == 3 && (q < 24 || c == 3)
  {
    QuotientUnique(y, 4, 25 * c + q, r);
    QuotientUnique(y, 100, c, 4 * q + r);
    if r == 3 { QuotientUnique(y + 1, 4, 25 * c + q + 1, 0); } else { QuotientUnique(y + 1, 4, 25 * c + q, r + 1); }
    if r == 3 && q == 24 { QuotientUnique(y + 1, 100, c + 1, 0); } else { QuotientUnique(y + 1, 100, c, 4 * q + r + 1); }
  }

  /** The correction terms of YearOf cancel the leap days before the year. */
  lemma YearOfSplit(c: int, q: int, r: int, doy: int)
    requires Splits(100 * c + 4 * q + r, c, q, r) && InYear(c, q, r, doy)
    ensures YearOf(36524 * c + 1461 * q + 365 * r + doy) == 100 * c + 4 * q + r
  {
    var doe := 36524 * c + 1461 * q + 365 * r + doy;
    var rest := 1461 * q + 365 * r + doy;
    if rest == 36524 {
      QuotientUnique(doe, 36524, 4, 0);
      QuotientUnique(doe, 146096, 1, 0);
    } else {
      QuotientUnique(doe, 36524, c, rest);
      QuotientUnique(doe, 146096, 0, doe);
    }
    var e := 24 * c + q + 365 * r + doy;
    var carry := if e >= 1460 then 1 else 0;
    QuotientUnique(doe, 1460, 25 * c + q + carry, e - 1460 * carry);
    QuotientUnique(365 * (100 * c + 4 * q + r) + doy - carry, 365, 100 * c + 4 * q + r, doy - carry);
  }

  /** YearOf finds the year of every day of the era. */
  lemma YearOfDay(y: int, doy: int)
    requires 0 <= y < 400 && 0 <= doy < YearLength(y)
    ensures YearOf(YearStart(y) + doy) == y
    ensures 0 <= YearStart(y) + doy < 146097
  {
    hide YearOf, YearStart, IsLeapYear;
    var c, q, r := y / 100, y % 100 / 4, y % 4;
    SplitYear(y, c, q, r);
    YearOfSplit(c, q, r, doy);
  }

  /** Every day of the era lies in the year that YearOf names. */
  lemma DayOfYear(doe: int)
    requires 0 <= doe < 146097
    ensures 0 <= YearOf(doe) < 400
    ensures 0 <= doe - YearStart(YearOf(doe)) < YearLength(YearOf(doe))
  {
    hide YearOf, YearStart, IsLeapYear;
    var c := if doe == 146096 then 3 else doe / 36524;
    var rest := doe - 36524 * c;
    var q := rest / 1461;
    var left := rest - 1461 * q;
    var r := if left == 1460 then 3 else left / 365;
    SplitYear(100 * c + 4 * q + r, c, q, r);
    YearOfSplit(c, q, r, left - 365 * r);
  }

  /** The months of a March year are laid end to end, and 153/5 finds them. */
  lemma MonthOfDay(doy: int)
    requires 0 <= doy < 366
    ensures var m := (5 * doy + 2) / 153; 0 <= m < 12 && MonthStart(m) <= doy < MonthStart(m + 1)
  {
  }

  lemma MonthUnique(m: int, doy: int)
    requires 0 <= m < 12 && MonthStart(m) <= doy < MonthStart(m + 1)
    ensures (5 * doy + 2) / 153 == m
  {
  }

  lemma LeapYearsRepeat(era: int, y: int)
    ensures IsLeapYear(400 * era + y) <==> IsLeapYear(y)
  {
    assert (400 * era + y) % 4 == y % 4;
    ModRepeats(y, 100, 4 * era);
    ModRepeats(y, 400, era);
  }

  lemma ModRepeats(y: int, n: int, k: int)
    requires n > 0
    ensures (n * k + y) % n == y % n
  {
    QuotientUnique(n * k + y, n, k + y / n, y % n);
  }

  //
  // Dates in March form
  //

  /** A date as an era, a March year of it and a day of that year. */
  datatype March = March(era: int, year: int, doy: int)

  ghost predicate ValidMarch(m: March)
  {
    0 <= m.year < 400 && 0 <= m.doy < YearLength(m.year)
  }

  ghost function MarchYear(d: Date): int
  {
    d.year - if d.month <= 2 then 1 else 0
  }

  ghost function MarchMonth(d: Date): int
  {
    d.month + if d.month > 2 then -3 else 9
  }

  ghost function ToMarch(d: Date): March
    requires 1 <= d.month <= 12
  {
    March(MarchYear(d) / 400, MarchYear(d) % 400, MonthStart(MarchMonth(d)) + d.day - 1)
  }

  ghost function MarchDays(m: March): int
  {
    m.era * 146097 + YearStart(m.year) + m.doy - 719468
  }

  lemma DaysInMarchForm(d: Date)
    requires 1 <= d.month <= 12
    ensures DaysFromCivil(d) == MarchDays(ToMarch(d))
  {
    FloorEra(MarchYear(d), 400);
  }

  /** The months of the table fill the March year, February its end. */
  lemma MonthFits(d: Date)
    requires 1 <= d.month <= 12
    ensures 0 <= MarchMonth(d) < 12
    ensures MonthStart(MarchMonth(d)) + DaysInMonth(d.year, d.month) ==
            if MarchMonth(d) < 11 then MonthStart(MarchMonth(d) + 1) else YearLength(MarchYear(d) % 400)
  {
    hide IsLeapYear;
    if d.month == 2 {
      var y := MarchYear(d);
      LeapYearsRepeat(y / 400, y % 400 + 1);
      assert 400 * (y / 400) + (y % 400 + 1) == d.year;
    }
  }

  lemma ToMarchValid(d: Date)
    requires ValidDate(d)
    ensures ValidMarch(ToMarch(d))
    ensures var m := MarchMonth(d); MonthStart(m) <= ToMarch(d).doy < MonthStart(m + 1)
  {
    hide IsLeapYear, DaysInMonth;
    MonthFits(d);
  }

  lemma MarchSplit(m: March)
    requires ValidMarch(m)
    ensures var civil := MarchDays(m) + 719468;
            civil / 146097 == m.era && civil % 146097 == YearStart(m.year) + m.doy
  {
    hide YearStart, IsLeapYear;
    YearOfDay(m.year, m.doy);
    QuotientUnique(MarchDays(m) + 719468, 146097, m.era, YearStart(m.year) + m.doy);
  }

  /** The date that a valid March form stands for. */
  ghost function FromMarch(m: March): Date
  {
    var mp := (5 * m.doy + 2) / 153;
    var month := mp + if mp < 10 then 3 else -9;
    Date(400 * m.era + m.year + (if month <= 2 then 1 else 0), month, m.doy - MonthStart(mp) + 1)
  }

  lemma DateInMarchForm(era: int, y: int, doy: int)
    requires 0 <= doy < 366
    ensures DateInEra(era, y, doy) == FromMarch(March(era, y, doy))
  {
    MonthOfDay(doy);
  }

  lemma CivilByEra(days: int)
    ensures var civil := days + 719468;
            var doe := civil % 146097;
            CivilFromDays(days) == FromMarch(March(civil / 146097, YearOf(doe), doe - YearStart(YearOf(doe))))
  {
    hide IsLeapYear, DateInEra, FromMarch, Quotient, YearOf, YearStart;
    var civil := days + 719468;
    var doe := civil % 146097;
    FloorEra(civil, 146097);
    assert civil - civil / 146097 * 146097 == doe;
    DayOfYear(doe);
    YearsAsCoded(doe);
    DateInMarchForm(civil / 146097, YearOf(doe), doe - YearStart(YearOf(doe)));
  }

  lemma YearsAsCoded(doe: int)
    requires doe >= 0 && YearOf(doe) >= 0
    ensures var y := YearOf(doe);
            && Quotient(doe - Quotient(doe, 1460) + Quotient(doe, 36524) - Quotient(doe, 146096), 365) == y
            && 365 * y + Quotient(y, 4) - Quotient(y, 100) == YearStart(y)
  {
  }

  lemma CivilInMarchForm(m: March)
    requires ValidMarch(m)
    ensures CivilFromDays(MarchDays(m)) == FromMarch(m)
  {
    hide IsLeapYear, CivilFromDays, FromMarch, YearOf, YearStart, MarchDays;
    CivilByEra(MarchDays(m));
    MarchSplit(m);
    YearOfDay(m.year, m.doy);
  }

  lemma MarchRoundTrip(d: Date)
    requires ValidDate(d)
    ensures FromMarch(ToMarch(d)) == d
  {
    hide IsLeapYear, DaysInMonth;
    ToMarchValid(d);
    MonthUnique(MarchMonth(d), ToMarch(d).doy);
  }

  lemma MarchRoundTripBack(m: March)
    requires ValidMarch(m)
    ensures ValidDate(FromMarch(m)) && ToMarch(FromMarch(m)) == m
  {
    hide IsLeapYear, DaysInMonth;
    MonthOfDay(m.doy);
    var d := FromMarch(m);
    QuotientUnique(MarchYear(d), 400, m.era, m.year);
    MonthFits(d);
  }

  //
  // The main theorems
  //

  lemma EpochIsDayZero()
    ensures DaysFromCivil(Date(1970, 1, 1)) == 0
  {
  }

  /** Consecutive calendar days have consecutive numbers. */
  lemma NextDayIsNextNumber(d: Date)
    requires ValidDate(d)
    ensures ValidDate(NextDay(d)) && DaysFromCivil(NextDay(d)) == DaysFromCivil(d) + 1
  {
    hide DaysFromCivil, IsLeapYear, DaysInMonth;
    var n := NextDay(d);
    MonthLengths(n);
    MonthFits(d);
    DaysInMarchForm(d);
    DaysInMarchForm(n);
    if MarchMonth(d) == 11 && n.day == 1 {
      YearTurns(MarchYear(d));
    }
  }

  lemma MonthLengths(d: Date)
    requires 1 <= d.month <= 12
    ensures DaysInMonth(d.year, d.month) >= 28
  {
  }

  /** The first of March comes the day after a March year ends, also at the end of an era. */
  lemma YearTurns(y: int)
    ensures (y + 1) / 400 * 146097 + YearStart((y + 1) % 400)
         == y / 400 * 146097 + YearStart(y % 400) + YearLength(y % 400)
  {
    var era, year := y / 400, y % 400;
    if year == 399 {
      QuotientUnique(y + 1, 400, era + 1, 0);
    } else {
      QuotientUnique(y + 1, 400, era, year + 1);
      var c, q, r := year / 100, year % 100 / 4, year % 4;
      SplitYear(year, c, q, r);
      YearStep(year, c, q, r);
    }
  }

  lemma YearStep(y: int, c: int, q: int, r: int)
    requires Splits(y, c, q, r) && y < 399
    ensures YearStart(y + 1) == YearStart(y) + YearLength(y)
  {
    hide IsLeapYear, YearStart;
    SplitYear(y, c, q, r);
    if r < 3 { SplitYear(y + 1, c, q, r + 1); }
    else if q < 24 { SplitYear(y + 1, c, q + 1, 0); }
    else { SplitYear(y + 1, c + 1, 0, 0); }
  }

  /** FormatInstant's day arithmetic undoes DaysFromCivil ... */
  lemma CivilInvertsDays(d: Date)
    requires ValidDate(d)
    ensures CivilFromDays(DaysFromCivil(d)) == d
  {
    hide CivilFromDays, DaysFromCivil, ToMarch, FromMarch, ValidMarch, MarchDays, DaysInMonth;
    DaysInMarchForm(d);
    ToMarchValid(d);
    CivilInMarchForm(ToMarch(d));
    MarchRoundTrip(d);
  }

  /** ... and is undone by it, so dates and day numbers are in bijection. */
  lemma DaysInvertsCivil(days: int)
    ensures ValidDate(CivilFromDays(days)) && DaysFromCivil(CivilFromDays(days)) == days
  {
    hide CivilFromDays, DaysFromCivil, ToMarch, FromMarch, YearStart, IsLeapYear, DaysInMonth, YearOf;
    var civil := days + 719468;
    DayOfYear(civil % 146097);
    var year := YearOf(civil % 146097);
    var m := March(civil / 146097, year, civil % 146097 - YearStart(year));
    assert MarchDays(m) == days;
    CivilInMarchForm(m);
    MarchRoundTripBack(m);
    DaysInMarchForm(FromMarch(m));
  }
}
