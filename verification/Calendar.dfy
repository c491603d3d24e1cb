/**
 The day count of src/http.rs, `days_from_civil`, against the Gregorian calendar
 written out: year lengths and month lengths added up from 1970-01-01.
 */
module Calendar {
  import opened Prelude

  datatype Date = Date(year: int, month: int, day: int)

  // ── The calendar ────────────────────────────────────────────────────────

  predicate IsLeap(year: int) {
    year % 4 == 0 && (year % 100 != 0 || year % 400 == 0)
  }

  function YearLength(year: int): nat {
    if IsLeap(year) then 366 else 365
  }

  function MonthLength(year: int, month: int): nat
    requires 1 <= month <= 12
  {
    if month == 2 then (if IsLeap(year) then 29 else 28)
    else if month == 4 || month == 6 || month == 9 || month == 11 then 30
    else 31
  }

  predicate ValidDate(date: Date) {
    1 <= date.month <= 12 && 1 <= date.day <= MonthLength(date.year, date.month)
  }

  /** Days from 1970-01-01 to the first of January, back or forth. */
  function DaysToYear(year: int): int
    decreases if year >= 1970 then year - 1970 else 1970 - year
  {
    if year == 1970 then 0
    else if year > 1970 then DaysToYear(year - 1) + YearLength(year - 1)
    else DaysToYear(year + 1) - YearLength(year)
  }

  function DaysToMonth(year: int, month: int): nat
    requires 1 <= month <= 12
    decreases month
  {
    if month == 1 then 0 else DaysToMonth(year, month - 1) + MonthLength(year, month - 1)
  }

  function CountDays(date: Date): int
    requires 1 <= date.month <= 12
  {
    DaysToYear(date.year) + DaysToMonth(date.year, date.month) + date.day - 1
  }

  // ── The fast form ───────────────────────────────────────────────────────

  /** Division as the source's integers do it, towards zero. */
  function Quotient(a: int, b: int): int
    requires b > 0
  {
    if a >= 0 then a / b else -(-a / b)
  }

  function DaysFromCivil(year: int, month: int, day: int): int
    requires 1 <= month
  {
    var era := Era(MarchYear(year, month));
    era * 146097 + DayOfEra(MarchYear(year, month) - era * 400, month, day) - 719468
  }

  /** Years start in March here, so January and February belong to the last. */
  function MarchYear(year: int, month: int): int {
    if month <= 2 then year - 1 else year
  }

  /** The division applies to either outcome of the test. */
  function Era(y: int): int {
    Quotient(if y >= 0 then y else y - 399, 400)
  }

  function DayOfEra(yoe: int, month: int, day: int): int
    requires 1 <= month
  {
    var mp := (month + 9) % 12;
    var doy := Quotient(153 * mp + 2, 5) + day - 1;
    yoe * 365 + Quotient(yoe, 4) - Quotient(yoe, 100) + doy
  }

  // ── They agree ──────────────────────────────────────────────────────────

  /** Leap years up to and including `year`, up to a constant. */
  function Leaps(year: int): int {
    year / 4 - year / 100 + year / 400
  }

  lemma LeapStep(year: int)
    ensures Leaps(year) - Leaps(year - 1) == if IsLeap(year) then 1 else 0
  {
    DivStep(year, 4);
    DivStep(year, 100);
    DivStep(year, 400);
    assert year % 400 == 0 ==> year % 100 == 0;
    assert year % 100 == 0 ==> year % 4 == 0;
  }

  lemma DivStep(n: int, d: int)
    requires d > 1
    ensures n / d - (n - 1) / d == if n % d == 0 then 1 else 0
  {
    var q, r := n / d, n % d;
    assert n == q * d + r;
    if r > 0 {
      DivIs(n - 1, d, q, r - 1);
    } else {
      assert n - 1 == (q - 1) * d + (d - 1);
      DivIs(n - 1, d, q - 1, d - 1);
    }
  }

  lemma DivIs(n: int, d: int, q: int, r: int)
    requires n == q * d + r && 0 <= r < d
    ensures n / d == q && n % d == r
  {
    var e := n / d - q;
    assert n == n / d * d + n % d;
    assert e * d == n / d * d - q * d;
    NonzeroMultiple(e, d);
  }

  lemma NonzeroMultiple(e: int, d: int)
    requires d > 0
    ensures e >= 1 ==> e * d >= d
    ensures e <= -1 ==> e * d <= -d
  {
    if e >= 1 {
      assert (e - 1) * d >= 0;
    } else if e <= -1 {
      assert (-e - 1) * d >= 0;
    }
  }

  lemma {:induction false} YearsClosedForm(year: int)
    ensures DaysToYear(year) == 365 * (year - 1970) + Leaps(year - 1) - 477
    decreases if year >= 1970 then year - 1970 else 1970 - year
  {
    if year > 1970 {
      YearsClosedForm(year - 1);
      LeapStep(year - 1);
    } else if year < 1970 {
      YearsClosedForm(year + 1);
      LeapStep(year);
    }
  }

  /** The first eight months of a year that starts in March, and its last four:
      the five-month pattern 31, 30, 31, 30, 31 as a line. */
  lemma MonthsClosedForm(year: int, month: int)
    requires 1 <= month <= 12
    ensures month <= 2 ==> DaysToMonth(year, month) == (153 * (month + 9) + 2) / 5 - 306
    ensures month >= 3 ==> DaysToMonth(year, month) == (153 * (month - 3) + 2) / 5 + 59 + if IsLeap(year) then 1 else 0
  {
    var leap := if IsLeap(year) then 1 else 0;
    assert DaysToMonth(year, 2) == 31 && DaysToMonth(year, 3) == 59 + leap;
    assert DaysToMonth(year, 4) == 90 + leap && DaysToMonth(year, 5) == 120 + leap;
    assert DaysToMonth(year, 6) == 151 + leap && DaysToMonth(year, 7) == 181 + leap;
    assert DaysToMonth(year, 8) == 212 + leap && DaysToMonth(year, 9) == 243 + leap;
    assert DaysToMonth(year, 10) == 273 + leap && DaysToMonth(year, 11) == 304 + leap;
    assert DaysToMonth(year, 12) == 334 + leap;
  }

  /** The era is the floor of the year by 400, for negative years too. */
  lemma EraIsFloor(y: int)
    ensures Era(y) == y / 400
  {
    if y < 0 {
      var q, r := y / 400, y % 400;
      assert -(y - 399) == 400 * -q + (399 - r);
      DivIs(399 - y, 400, -q, 399 - r);
    }
  }

  /** Four hundred years are 146097 days. */
  lemma EraDays(y: int)
    ensures var era, yoe := y / 400, y % 400;
      era * 146097 + yoe * 365 + yoe / 4 - yoe / 100 == 365 * y + Leaps(y)
  {
    var era, yoe := y / 400, y % 400;
    assert y == 400 * era + yoe;
    DivIs(y, 4, 100 * era + yoe / 4, yoe % 4);
    DivIs(y, 100, 4 * era + yoe / 100, yoe % 100);
  }

  /** The fast form, year and month apart. */
  lemma CivilClosedForm(date: Date)
    requires 1 <= date.month <= 12
    ensures var y := if date.month <= 2 then date.year - 1 else date.year;
      var mp := if date.month <= 2 then date.month + 9 else date.month - 3;
      DaysFromCivil(date.year, date.month, date.day)
      == 365 * y + Leaps(y) + (153 * mp + 2) / 5 + date.day - 1 - 719468
  {
    var y := if date.month <= 2 then date.year - 1 else date.year;
    EraIsFloor(y);
    EraDays(y);
    assert (date.month + 9) % 12 == if date.month <= 2 then date.month + 9 else date.month - 3;
  }

  /** The count is the calendar's, for every month of every integer year. */
  lemma CivilMatchesCalendar(date: Date)
    requires 1 <= date.month <= 12
    ensures DaysFromCivil(date.year, date.month, date.day) == CountDays(date)
  {
    CivilClosedForm(date);
    YearsClosedForm(date.year);
    MonthsClosedForm(date.year, date.month);
    LeapStep(date.year);
  }

  // ── Consecutive days, order, every day ──────────────────────────────────

  function NextDay(date: Date): (next: Date)
    requires ValidDate(date)
    ensures ValidDate(next)
  {
    if date.day < MonthLength(date.year, date.month) then date.(day := date.day + 1)
    else if date.month < 12 then Date(date.year, date.month + 1, 1)
    else Date(date.year + 1, 1, 1)
  }

  function PreviousDay(date: Date): (previous: Date)
    requires ValidDate(date)
    ensures ValidDate(previous)
  {
    if date.day > 1 then date.(day := date.day - 1)
    else if date.month > 1 then Date(date.year, date.month - 1, MonthLength(date.year, date.month - 1))
    else Date(date.year - 1, 12, 31)
  }

  lemma YearStep(year: int)
    ensures DaysToYear(year + 1) == DaysToYear(year) + YearLength(year)
    ensures DaysToMonth(year, 12) + 31 == YearLength(year)
  {
    MonthsClosedForm(year, 12);
  }

  lemma NextInMonth(date: Date)
    requires ValidDate(date) && date.day < MonthLength(date.year, date.month)
    ensures CountDays(NextDay(date)) == CountDays(date) + 1
  {
  }

  lemma NextMonth(date: Date)
    requires ValidDate(date) && date.day == MonthLength(date.year, date.month) && date.month < 12
    ensures CountDays(NextDay(date)) == CountDays(date) + 1
  {
    assert DaysToMonth(date.year, date.month + 1) == DaysToMonth(date.year, date.month) + date.day;
  }

  lemma NextYear(date: Date)
    requires ValidDate(date) && date.day == MonthLength(date.year, date.month) && date.month == 12
    ensures CountDays(NextDay(date)) == CountDays(date) + 1
  {
    YearStep(date.year);
    assert DaysToMonth(date.year + 1, 1) == 0;
  }

  lemma CountNext(date: Date)
    requires ValidDate(date)
    ensures CountDays(NextDay(date)) == CountDays(date) + 1
  {
    if date.day < MonthLength(date.year, date.month) {
      NextInMonth(date);
    } else if date.month < 12 {
      NextMonth(date);
    } else {
      NextYear(date);
    }
  }

  lemma NextOfPrevious(date: Date)
    requires ValidDate(date)
    ensures NextDay(PreviousDay(date)) == date
  {
  }

  /** Consecutive dates are one day apart, over month and year ends. */
  lemma NextDayCountsOne(date: Date)
    requires ValidDate(date)
    ensures var next := NextDay(date);
      DaysFromCivil(next.year, next.month, next.day) == DaysFromCivil(date.year, date.month, date.day) + 1
    ensures NextDay(PreviousDay(date)) == date
  {
    var next := NextDay(date);
    CivilMatchesCalendar(date);
    CivilMatchesCalendar(next);
    CountNext(date);
    NextOfPrevious(date);
  }

  predicate Before(a: Date, b: Date) {
    || a.year < b.year
    || (a.year == b.year && a.month < b.month)
    || (a.year == b.year && a.month == b.month && a.day < b.day)
  }

  lemma {:induction false} YearsGrow(a: int, b: int)
    requires a <= b
    ensures DaysToYear(b) >= DaysToYear(a) + 365 * (b - a)
    decreases b - a
  {
    if a < b {
      YearsGrow(a, b - 1);
      YearStep(b - 1);
    }
  }

  lemma {:induction false} MonthsGrow(year: int, a: int, b: int)
    requires 1 <= a < b <= 12
    ensures DaysToMonth(year, b) >= DaysToMonth(year, a) + MonthLength(year, a)
    decreases b - a
  {
    if a < b - 1 {
      MonthsGrow(year, a, b - 1);
    }
  }

  lemma WithinYear(date: Date)
    requires ValidDate(date)
    ensures DaysToYear(date.year) <= CountDays(date) < DaysToYear(date.year + 1)
  {
    YearStep(date.year);
    if date.month < 12 {
      MonthsGrow(date.year, date.month, 12);
    }
  }

  lemma CountGrows(a: Date, b: Date)
    requires ValidDate(a) && ValidDate(b) && Before(a, b)
    ensures CountDays(a) < CountDays(b)
  {
    if a.year < b.year {
      WithinYear(a);
      WithinYear(b);
      YearsGrow(a.year + 1, b.year);
    } else if a.month < b.month {
      MonthsGrow(a.year, a.month, b.month);
    }
  }

  /** Dates and their counts are in the same order, so no two dates share one. */
  lemma CountOrdersDates(a: Date, b: Date)
    requires ValidDate(a) && ValidDate(b)
    ensures DaysFromCivil(a.year, a.month, a.day) < DaysFromCivil(b.year, b.month, b.day) <==> Before(a, b)
    ensures DaysFromCivil(a.year, a.month, a.day) == DaysFromCivil(b.year, b.month, b.day) <==> a == b
  {
    CivilMatchesCalendar(a);
    CivilMatchesCalendar(b);
    if Before(a, b) {
      CountGrows(a, b);
    } else if Before(b, a) {
      CountGrows(b, a);
    }
  }

  /** Every integer is the count of a date. */
  lemma {:induction false} EveryDayHasADate(n: int) returns (date: Date)
    ensures ValidDate(date) && DaysFromCivil(date.year, date.month, date.day) == n
    decreases if n >= 0 then n else -n
  {
    if n == 0 {
      date := Date(1970, 1, 1);
      CivilMatchesCalendar(date);
    } else if n > 0 {
      var d := EveryDayHasADate(n - 1);
      NextDayCountsOne(d);
      date := NextDay(d);
    } else {
      var d := EveryDayHasADate(n + 1);
      date := PreviousDay(d);
      NextDayCountsOne(d);
      NextDayCountsOne(date);
    }
  }

  // ── On 64-bit integers ──────────────────────────────────────────────────

  const MIN_64: int := -0x8000_0000_0000_0000
  const MAX_64: int := 0x7FFF_FFFF_FFFF_FFFF

  predicate Fits64(x: int) {
    MIN_64 <= x <= MAX_64
  }

  /** The computation with every intermediate result in 64 bits, or nothing when
      one of them does not fit: the arithmetic of an overflow-checked build. */
  function DaysFromCivil64(date: Date): Option<int>
    requires ValidDate(date)
  {
    var y := MarchYear(date.year, date.month);
    var era := Era(y);
    var doe := DayOfEra(y - era * 400, date.month, date.day);
    if Fits64(y) && Fits64(if y >= 0 then y else y - 399) && Fits64(era * 400) && Fits64(era * 146097)
       && Fits64(era * 146097 + doe) && Fits64(era * 146097 + doe - 719468)
    then Some(era * 146097 + doe - 719468)
    else None
  }

  /** The first and last date it can count. */
  const FIRST_DATE := Date(-25252734927764585, 6, 7)
  const LAST_DATE := Date(25252734927766554, 9, 25)

  lemma ExtremeCounts()
    ensures ValidDate(FIRST_DATE) && ValidDate(LAST_DATE)
    ensures DaysFromCivil(FIRST_DATE.year, FIRST_DATE.month, FIRST_DATE.day) == MIN_64
    ensures DaysFromCivil(LAST_DATE.year, LAST_DATE.month, LAST_DATE.day) == MAX_64 - 719468
  {
  }

  lemma FitsIffCountFits(date: Date)
    requires ValidDate(date)
    ensures var n := DaysFromCivil(date.year, date.month, date.day);
      DaysFromCivil64(date) == if MIN_64 <= n <= MAX_64 - 719468 then Some(n) else None
  {
    var y := MarchYear(date.year, date.month);
    EraIsFloor(y);
    DayOfEraBounds(y - y / 400 * 400, date);
    var n := DaysFromCivil(date.year, date.month, date.day);
    if MIN_64 <= n <= MAX_64 - 719468 {
      ChainFits(y, y / 400, n - y / 400 * 146097 + 719468);
    }
  }

  /** If the last two results fit, everything before them does. */
  lemma ChainFits(y: int, era: int, doe: int)
    requires era * 400 <= y < era * 400 + 400 && 0 <= doe <= 146096
    requires MIN_64 <= era * 146097 + doe - 719468 && era * 146097 + doe <= MAX_64
    ensures Fits64(y) && Fits64(y - 399) && Fits64(era * 400) && Fits64(era * 146097)
  {
  }

  /** The day of the era stays below 146097, as the source's comment says. */
  lemma DayOfEraBounds(yoe: int, date: Date)
    requires 0 <= yoe <= 399 && ValidDate(date)
    ensures 0 <= DayOfEra(yoe, date.month, date.day) <= 146096
  {
    assert (date.month + 9) % 12 == if date.month <= 2 then date.month + 9 else date.month - 3;
  }

  /** The checked computation is right for exactly the dates from the first to
      the last it can count - not for every 64-bit year, as its comment has it. */
  lemma CountsExactlyBetween(date: Date)
    requires ValidDate(date)
    ensures DaysFromCivil64(date) == Some(CountDays(date)) <==> !Before(date, FIRST_DATE) && !Before(LAST_DATE, date)
    ensures DaysFromCivil64(date) == None <==> Before(date, FIRST_DATE) || Before(LAST_DATE, date)
  {
    FitsIffCountFits(date);
    CivilMatchesCalendar(date);
    ExtremeCounts();
    CountOrdersDates(date, FIRST_DATE);
    CountOrdersDates(LAST_DATE, date);
  }

  /** What 64-bit arithmetic without checks makes of `x`. */
  function Wrap64(x: int): (r: int)
    ensures Fits64(r) && (Fits64(x) ==> r == x)
  {
    (x + 0x8000_0000_0000_0000) % 0x1_0000_0000_0000_0000 - 0x8000_0000_0000_0000
  }

  /** The computation of a build without overflow checks. Reducing a sum or
      product once is as good as reducing at each step of it; what is divided is
      reduced before. */
  function DaysFromCivilWrapping(date: Date): int
    requires ValidDate(date) && Fits64(date.year)
  {
    var y := Wrap64(MarchYear(date.year, date.month));
    var era := Quotient(if y >= 0 then y else Wrap64(y - 399), 400);
    var doe := DayOfEra(Wrap64(y - era * 400), date.month, date.day);
    Wrap64(era * 146097 + doe - 719468)
  }

  /** The last date whose count fits 64 bits. */
  const LAST_WRAPPING_DATE := Date(25252734927768524, 7, 27)

  lemma LastWrappingCount()
    ensures ValidDate(LAST_WRAPPING_DATE)
    ensures DaysFromCivil(LAST_WRAPPING_DATE.year, LAST_WRAPPING_DATE.month, LAST_WRAPPING_DATE.day) == MAX_64
  {
  }

  lemma FittingYearsAreSmall(date: Date)
    requires ValidDate(date) && Fits64(DaysFromCivil(date.year, date.month, date.day))
    ensures var y := MarchYear(date.year, date.month); Fits64(y) && Fits64(y - 399)
  {
    var y := MarchYear(date.year, date.month);
    EraIsFloor(y);
    DayOfEraBounds(y - y / 400 * 400, date);
  }

  lemma WrappingIsExactWhenItFits(date: Date)
    requires ValidDate(date) && Fits64(date.year) && Fits64(DaysFromCivil(date.year, date.month, date.day))
    ensures DaysFromCivilWrapping(date) == DaysFromCivil(date.year, date.month, date.day)
  {
    FittingYearsAreSmall(date);
    var y := MarchYear(date.year, date.month);
    EraIsFloor(y);
    assert Era(y) == Quotient(if y >= 0 then y else Wrap64(y - 399), 400);
  }

  /** Without overflow checks the count is right for exactly the dates whose
      count fits 64 bits: it may leave them on the way, 719468 days further. */
  lemma WrappingCountsExactlyBetween(date: Date)
    requires ValidDate(date) && Fits64(date.year)
    ensures DaysFromCivilWrapping(date) == CountDays(date) <==>
      !Before(date, FIRST_DATE) && !Before(LAST_WRAPPING_DATE, date)
  {
    CivilMatchesCalendar(date);
    ExtremeCounts();
    LastWrappingCount();
    CountOrdersDates(date, FIRST_DATE);
    CountOrdersDates(LAST_WRAPPING_DATE, date);
    if Fits64(CountDays(date)) {
      WrappingIsExactWhenItFits(date);
    }
  }

  /** New Year of the largest 64-bit year is counted by neither. */
  lemma LargestYearOverflows()
    ensures var date := Date(MAX_64, 1, 1);
      ValidDate(date) && DaysFromCivil64(date) == None && DaysFromCivilWrapping(date) != CountDays(date)
  {
    CountsExactlyBetween(Date(MAX_64, 1, 1));
    WrappingCountsExactlyBetween(Date(MAX_64, 1, 1));
  }
}
