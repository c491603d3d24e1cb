/**
 `Retry-After` values, src/http.rs: delta-seconds or an IMF-fixdate. Text is
 modelled as its bytes, one character each. Section 5.6.7 of RFC 9110 gives the
 date format.
 */
module HttpDate {
  import opened Prelude
  import opened Integers
  import opened Calendar

  const MONTHS: seq<string> :=
    ["Jan", "Feb", "Mar", "Apr", "May", "Jun", "Jul", "Aug", "Sep", "Oct", "Nov", "Dec"]

  // ── Numbers ─────────────────────────────────────────────────────────────

  predicate IsDigit(c: char) {
    '0' <= c <= '9'
  }

  function DigitValue(c: char): (r: nat)
    requires IsDigit(c)
    ensures r <= 9
  {
    var d: int := c as int - '0' as int;
    d
  }

  predicate AllDigits(s: string) {
    forall i :: 0 <= i < |s| ==> IsDigit(s[i])
  }

  function DecimalValue(s: string): nat
    requires AllDigits(s)
  {
    if |s| == 0 then 0 else 10 * DecimalValue(s[..|s| - 1]) + DigitValue(s[|s| - 1])
  }

  /** A signed decimal of the standard integer parser: an optional sign and at
      least one digit. The fields read here are too short to overflow. */
  function ParseInteger(s: string): Option<int> {
    if s == "" then None
    else
      var digits := if s[0] in "+-" then s[1..] else s;
      if digits == "" || !AllDigits(digits) then None
      else
        var value: int := DecimalValue(digits);
        Some(if s[0] == '-' then -value else value)
  }

  /** A field may carry either sign, and is otherwise digits alone. */
  lemma SignsAreRead(digits: string)
    requires digits != "" && AllDigits(digits)
    ensures ParseInteger(digits) == ParseInteger("+" + digits) == Some(DecimalValue(digits))
    ensures var value: int := DecimalValue(digits); ParseInteger("-" + digits) == Some(-value)
  {
    assert IsDigit(digits[0]);
    assert ("+" + digits)[1..] == digits && ("-" + digits)[1..] == digits;
  }

  /** The same for unsigned 64-bit integers, which take no minus sign. */
  function ParseU64(s: string): Option<u64> {
    if s == "" then None
    else
      var digits := if s[0] == '+' then s[1..] else s;
      if digits == "" || !AllDigits(digits) || DecimalValue(digits) >= TWO_64 then None
      else Some(DecimalValue(digits))
  }

  // ── Dates ───────────────────────────────────────────────────────────────

  function MonthNumber(name: string, from: nat): Option<int>
    requires from <= 12
    decreases 12 - from
  {
    if from == 12 then None
    else if MONTHS[from] == name then Some(from + 1)
    else MonthNumber(name, from + 1)
  }

  datatype Fields = Fields(date: Date, hour: int, minute: int, second: int)

  predicate InRange(f: Fields) {
    && 1 <= f.date.month <= 12 && 1 <= f.date.day <= 31
    && 0 <= f.hour <= 23 && 0 <= f.minute <= 59 && 0 <= f.second <= 60
  }

  function ParseFields(b: string): Option<Fields> {
    if |b| != 29 || b[25..] != " GMT" || b[3] != ',' || b[4] != ' ' then None
    else
      var day, year := ParseInteger(b[5..7]), ParseInteger(b[12..16]);
      var hour, minute, second := ParseInteger(b[17..19]), ParseInteger(b[20..22]), ParseInteger(b[23..25]);
      var month := MonthNumber(b[8..11], 0);
      if day.None? || year.None? || hour.None? || minute.None? || second.None? || month.None? then None
      else Some(Fields(Date(year.value, month.value, day.value), hour.value, minute.value, second.value))
  }

  function ParseHttpDate(b: string): Option<int> {
    var fields := ParseFields(b);
    if fields.None? || !InRange(fields.value) then None
    else
      var f := fields.value;
      Some(DaysFromCivil(f.date.year, f.date.month, f.date.day) * 86400 + f.hour * 3600 + f.minute * 60 + f.second)
  }

  /** The moment by the calendar: seconds since 1970-01-01 00:00:00. */
  function UnixSeconds(f: Fields): int
    requires InRange(f)
  {
    CountDays(f.date) * 86400 + f.hour * 3600 + f.minute * 60 + f.second
  }

  function DigitOf(n: int): char
    requires 0 <= n <= 9
  {
    (n + '0' as int) as char
  }

  function TwoDigits(n: int): string
    requires 0 <= n <= 99
  {
    [DigitOf(n / 10), DigitOf(n % 10)]
  }

  function FourDigits(n: int): string
    requires 0 <= n <= 9999
  {
    TwoDigits(n / 100) + TwoDigits(n % 100)
  }

  /** The IMF-fixdate of a moment in the years 0 to 9999. */
  function ImfFixdate(weekday: string, f: Fields): string
    requires |weekday| == 3 && InRange(f) && 0 <= f.date.year <= 9999
  {
    weekday + ", " + TwoDigits(f.date.day) + " " + MONTHS[f.date.month - 1] + " " + FourDigits(f.date.year) + " "
    + TwoDigits(f.hour) + ":" + TwoDigits(f.minute) + ":" + TwoDigits(f.second) + " GMT"
  }

  /** What stands where in one. */
  ghost predicate IsImfFixdate(b: string, f: Fields) {
    && 0 <= f.date.year <= 9999 && 1 <= f.date.month <= 12 && 1 <= f.date.day <= 31
    && 0 <= f.hour <= 23 && 0 <= f.minute <= 59 && 0 <= f.second <= 60
    && |b| == 29 && b[3..5] == ", " && b[25..] == " GMT"
    && b[5..7] == TwoDigits(f.date.day) && b[8..11] == MONTHS[f.date.month - 1]
    && b[12..16] == FourDigits(f.date.year)
    && b[17..19] == TwoDigits(f.hour) && b[20..22] == TwoDigits(f.minute) && b[23..25] == TwoDigits(f.second)
  }

  lemma ImfFixdateParts(weekday: string, f: Fields)
    requires |weekday| == 3 && InRange(f) && 0 <= f.date.year <= 9999
    ensures IsImfFixdate(ImfFixdate(weekday, f), f)
  {
  }

  lemma DecimalAppend(s: string, n: int)
    requires AllDigits(s) && 0 <= n <= 9
    ensures AllDigits(s + [DigitOf(n)]) && DecimalValue(s + [DigitOf(n)]) == 10 * DecimalValue(s) + n
  {
    assert (s + [DigitOf(n)])[..|s|] == s;
  }

  lemma TwoDigitsValue(n: int)
    requires 0 <= n <= 99
    ensures AllDigits(TwoDigits(n)) && DecimalValue(TwoDigits(n)) == n
  {
    DecimalAppend("", n / 10);
    DecimalAppend("" + [DigitOf(n / 10)], n % 10);
    assert TwoDigits(n) == "" + [DigitOf(n / 10)] + [DigitOf(n % 10)];
  }

  lemma ParseTwoDigits(n: int)
    requires 0 <= n <= 99
    ensures ParseInteger(TwoDigits(n)) == Some(n)
  {
    TwoDigitsValue(n);
  }

  lemma ParseFourDigits(n: int)
    requires 0 <= n <= 9999
    ensures ParseInteger(FourDigits(n)) == Some(n)
  {
    var high, low := TwoDigits(n / 100), n % 100;
    TwoDigitsValue(n / 100);
    DecimalAppend(high, low / 10);
    DecimalAppend(high + [DigitOf(low / 10)], low % 10);
    assert FourDigits(n) == high + [DigitOf(low / 10)] + [DigitOf(low % 10)];
  }

  lemma {:induction false} MonthNames(month: int, from: nat)
    requires 1 <= month <= 12 && from < month
    ensures MonthNumber(MONTHS[month - 1], from) == Some(month)
    decreases 12 - from
  {
    if from + 1 < month {
      MonthsDiffer(from, month - 1);
      MonthNames(month, from + 1);
    }
  }

  /** The second and third letters tell the months apart. */
  lemma MonthsDiffer(i: nat, j: nat)
    requires i < j < 12
    ensures MONTHS[i] != MONTHS[j]
  {
    assert MONTHS[0][1..] == "an" && MONTHS[1][1..] == "eb" && MONTHS[2][1..] == "ar" && MONTHS[3][1..] == "pr";
    assert MONTHS[4][1..] == "ay" && MONTHS[5][1..] == "un" && MONTHS[6][1..] == "ul" && MONTHS[7][1..] == "ug";
    assert MONTHS[8][1..] == "ep" && MONTHS[9][1..] == "ct" && MONTHS[10][1..] == "ov" && MONTHS[11][1..] == "ec";
    var a, b := MONTHS[i][1..], MONTHS[j][1..];
    assert a[0] != b[0] || a[1] != b[1];
  }

  /** Every date of the years 0 to 9999 is read back field by field. */
  lemma FieldsRoundTrip(b: string, f: Fields)
    requires IsImfFixdate(b, f)
    ensures ParseFields(b) == Some(f)
  {
    MonthNames(f.date.month, 0);
    ParseTwoDigits(f.date.day);
    ParseFourDigits(f.date.year);
    ParseTwoDigits(f.hour);
    ParseTwoDigits(f.minute);
    ParseTwoDigits(f.second);
    assert b[3..5][0] == b[3] && b[3..5][1] == b[4];
  }

  lemma FieldsToSeconds(b: string, f: Fields)
    requires ParseFields(b) == Some(f) && InRange(f)
    ensures ParseHttpDate(b) == Some(UnixSeconds(f))
  {
    CivilMatchesCalendar(f.date);
  }

  /** ... and comes to the calendar's day count and the time of day. */
  lemma ParseImfFixdate(b: string, f: Fields)
    requires IsImfFixdate(b, f)
    ensures ParseHttpDate(b) == Some(UnixSeconds(f))
  {
    FieldsRoundTrip(b, f);
    FieldsToSeconds(b, f);
  }

  /** Moments are in the order of their dates and times of day. */
  lemma SecondsFollowDates(a: Fields, b: Fields)
    requires InRange(a) && InRange(b) && ValidDate(a.date) && ValidDate(b.date)
    requires a.second <= 59 && Before(a.date, b.date)
    ensures UnixSeconds(a) < UnixSeconds(b)
  {
    CountGrows(a.date, b.date);
  }

  lemma NextDayIsCounted(date: Date)
    requires ValidDate(date)
    ensures CountDays(NextDay(date)) == CountDays(date) + 1
  {
    NextDayCountsOne(date);
    CivilMatchesCalendar(date);
    CivilMatchesCalendar(NextDay(date));
  }

  /** Moments are counted in seconds: within a minute, over minutes, over hours,
      from one day to the next, and from the start of 1970. */
  lemma SecondsAreCounted(f: Fields)
    requires InRange(f) && ValidDate(f.date)
    ensures UnixSeconds(f.(second := 0)) == UnixSeconds(f) - f.second
    ensures f.minute < 59 ==> UnixSeconds(f.(minute := f.minute + 1)) == UnixSeconds(f) + 60
    ensures f.hour < 23 ==> UnixSeconds(f.(hour := f.hour + 1)) == UnixSeconds(f) + 60 * 60
    ensures InRange(f.(date := NextDay(f.date)))
    ensures UnixSeconds(f.(date := NextDay(f.date))) == UnixSeconds(f) + 24 * 60 * 60
  {
    NextDayIsCounted(f.date);
  }

  lemma EpochIsZero()
    ensures UnixSeconds(Fields(Date(1970, 1, 1), 0, 0, 0)) == 0
  {
  }

  function Pow10(n: nat): nat {
    if n == 0 then 1 else 10 * Pow10(n - 1)
  }

  lemma {:induction false} DecimalBound(s: string)
    requires AllDigits(s)
    ensures DecimalValue(s) < Pow10(|s|)
  {
    if s != "" {
      assert IsDigit(s[|s| - 1]);
      DecimalBound(s[..|s| - 1]);
    }
  }

  lemma YearBound(y: string)
    requires |y| == 4 && ParseInteger(y).Some?
    ensures -999 <= ParseInteger(y).value <= 9999
  {
    if y[0] in "+-" {
      DecimalBound(y[1..]);
      assert Pow10(3) == 1000;
    } else {
      DecimalBound(y);
      assert Pow10(4) == 10000;
    }
  }

  /** Whatever is accepted - signs and impossible days of a month included - is
      a calendar count that 64-bit integers hold. */
  lemma AcceptedDate(b: string)
    requires ParseHttpDate(b).Some?
    ensures ParseFields(b).Some? && InRange(ParseFields(b).value)
    ensures var f := ParseFields(b).value;
      && ParseHttpDate(b) == Some(UnixSeconds(f))
      && -999 <= f.date.year <= 9999
  {
    FieldsToSeconds(b, ParseFields(b).value);
    YearBound(b[12..16]);
  }

  // ── The header value ────────────────────────────────────────────────────

  /** The delay a trimmed header value asks for at the time `now`. */
  function RetryAfterMs(value: string, now: nat): Option<nat> {
    match ParseU64(value)
    case Some(seconds) => Some(if seconds * 1000 < TWO_64 then seconds * 1000 else TWO_64 - 1)
    case None =>
      match ParseHttpDate(value)
      case None => None
      case Some(target) => Some(if target > now then (target - now) * 1000 else 0)
  }

  lemma SpacesAreNotSeconds(b: string)
    requires |b| > 4 && b[4] == ' '
    ensures ParseU64(b) == None
  {
    assert !IsDigit(b[4]);
    assert b[1..][3] == b[4];
  }

  /** The decimal digits of a number. */
  function Decimal(n: nat): string {
    if n < 10 then [DigitOf(n)] else Decimal(n / 10) + [DigitOf(n % 10)]
  }

  lemma {:induction false} DecimalRoundTrip(n: nat)
    ensures Decimal(n) != "" && AllDigits(Decimal(n)) && DecimalValue(Decimal(n)) == n
  {
    if n < 10 {
      DecimalAppend("", n);
      assert "" + [DigitOf(n)] == [DigitOf(n)];
    } else {
      DecimalRoundTrip(n / 10);
      DecimalAppend(Decimal(n / 10), n % 10);
    }
  }

  lemma ParseDecimal(n: nat, b: string)
    requires b == Decimal(n) || b == "+" + Decimal(n)
    ensures ParseU64(b) == if n < TWO_64 then Some(n) else None
    ensures ParseHttpDate(b) == None
  {
    DecimalRoundTrip(n);
    assert IsDigit(Decimal(n)[0]);
    assert ("+" + Decimal(n))[1..] == Decimal(n);
    if |b| == 29 {
      assert b[25..][0] == b[25];
      assert b[0] == '+' ==> b[25] == Decimal(n)[24];
    }
  }

  /** A number of seconds, signed or not, asks for 1000 times as many milliseconds,
      held to 64 bits; a number beyond 64 bits asks for nothing. */
  lemma SecondsAreMilliseconds(n: nat, b: string, now: nat)
    requires b == Decimal(n) || b == "+" + Decimal(n)
    ensures RetryAfterMs(b, now) ==
      if n >= 0x1_0000_0000_0000_0000 then None
      else Some(if 1000 * n <= 0xFFFF_FFFF_FFFF_FFFF then 1000 * n else 0xFFFF_FFFF_FFFF_FFFF)
  {
    ParseDecimal(n, b);
  }

  lemma DateDelay(b: string, target: int, now: nat)
    requires ParseU64(b) == None && ParseHttpDate(b) == Some(target)
    ensures RetryAfterMs(b, now) == Some(if target <= now then 0 else 1000 * (target - now))
  {
  }

  /** A date asks for the time left until it, and for none once it has passed. */
  lemma DateIsTimeLeft(b: string, f: Fields, now: nat)
    requires IsImfFixdate(b, f)
    ensures RetryAfterMs(b, now) == Some(if UnixSeconds(f) <= now then 0 else 1000 * (UnixSeconds(f) - now))
  {
    ParseImfFixdate(b, f);
    assert b[3..5][1] == b[4];
    SpacesAreNotSeconds(b);
    DateDelay(b, UnixSeconds(f), now);
  }
}
