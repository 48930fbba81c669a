/** Naive UTC datetimes in the way Python's `datetime` handles them: an instant
    is a count of microseconds since 0001-01-01T00:00:00 (the first instant
    `datetime` can hold), which `datetime.utcnow()` would return. The clock
    itself is never read here: every operation that reads it takes the
    instant as a parameter. */
module Calendar {

  import opened Common

  type Instant = nat

  const MICROS_PER_SECOND: nat := 1_000_000
  const MICROS_PER_MINUTE: nat := 60_000_000
  const MICROS_PER_HOUR: nat := 3_600_000_000
  const MICROS_PER_DAY: nat := 86_400_000_000

  /** `timedelta(days=n)` in microseconds. */
  function Days(n: nat): nat { n * MICROS_PER_DAY }

  // ---------------------------------------------------------------- time of day

  /** `datetime.time`: the clock fields of an instant. */
  datatype Time = Time(hour: nat, minute: nat, second: nat, microsecond: nat)

  predicate ValidTime(t: Time) {
    t.hour < 24 && t.minute < 60 && t.second < 60 && t.microsecond < MICROS_PER_SECOND
  }

  /** Microseconds since midnight. */
  function Micros(t: Time): nat {
    t.hour * MICROS_PER_HOUR + t.minute * MICROS_PER_MINUTE + t.second * MICROS_PER_SECOND + t.microsecond
  }

  /** `dt.time()`. */
  function TimeOf(t: Instant): (r: Time)
    ensures ValidTime(r) && Micros(r) == t % MICROS_PER_DAY
  {
    var m := t % MICROS_PER_DAY;
    var r := Time(m / MICROS_PER_HOUR, (m % MICROS_PER_HOUR) / MICROS_PER_MINUTE,
                  (m % MICROS_PER_MINUTE) / MICROS_PER_SECOND, m % MICROS_PER_SECOND);
    assert m % MICROS_PER_HOUR == r.minute * MICROS_PER_MINUTE + m % MICROS_PER_MINUTE;
    assert m % MICROS_PER_MINUTE == r.second * MICROS_PER_SECOND + r.microsecond;
    r
  }

  /** Python compares `time` values field by field, hour first. */
  predicate TimeBefore(a: Time, b: Time) {
    || a.hour < b.hour
    || (a.hour == b.hour && a.minute < b.minute)
    || (a.hour == b.hour && a.minute == b.minute && a.second < b.second)
    || (a.hour == b.hour && a.minute == b.minute && a.second == b.second && a.microsecond < b.microsecond)
  }

  /** The field-by-field order is the chronological order of the instants. */
  lemma TimeBeforeIsChronological(a: Time, b: Time)
    requires ValidTime(a) && ValidTime(b)
    ensures TimeBefore(a, b) <==> Micros(a) < Micros(b)
  {
    var ra := a.minute * MICROS_PER_MINUTE + a.second * MICROS_PER_SECOND + a.microsecond;
    var rb := b.minute * MICROS_PER_MINUTE + b.second * MICROS_PER_SECOND + b.microsecond;
    assert ra < MICROS_PER_HOUR && rb < MICROS_PER_HOUR;
    assert a.second * MICROS_PER_SECOND + a.microsecond < MICROS_PER_MINUTE;
    assert b.second * MICROS_PER_SECOND + b.microsecond < MICROS_PER_MINUTE;
  }

  /** `dt.weekday()`: Monday is 0. 0001-01-01 was a Monday. */
  function Weekday(t: Instant): (w: nat)
    ensures w < 7
  {
    (t / MICROS_PER_DAY) % 7
  }

  // ---------------------------------------------------------------- dates

  datatype Date = Date(year: nat, month: nat, day: nat)

  predicate IsLeap(y: nat) {
    y % 4 == 0 && (y % 100 != 0 || y % 400 == 0)
  }

  function DaysInYear(y: nat): nat {
    if IsLeap(y) then 366 else 365
  }

  function DaysInMonth(y: nat, m: nat): nat
    requires 1 <= m <= 12
  {
    if m == 2 then (if IsLeap(y) then 29 else 28)
    else if m == 4 || m == 6 || m == 9 || m == 11 then 30
    else 31
  }

  /** Days of the months before month `m` of year `y` (`m == 13` gives the whole year). */
  function DaysBeforeMonth(y: nat, m: nat): (n: nat)
    requires 1 <= m <= 13
    ensures m == 13 ==> n == DaysInYear(y)
  {
    var table := [0, 31, 59, 90, 120, 151, 181, 212, 243, 273, 304, 334, 365];
    table[m - 1] + (if m > 2 && IsLeap(y) then 1 else 0)
  }

  function DaysBeforeYear(y: nat): nat
    requires y >= 1
  {
    if y == 1 then 0 else DaysBeforeYear(y - 1) + DaysInYear(y - 1)
  }

  predicate ValidDate(d: Date) {
    1 <= d.year && 1 <= d.month <= 12 && 1 <= d.day <= DaysInMonth(d.year, d.month)
  }

  /** `d.toordinal() - 1`: days since 0001-01-01. */
  function DayIndex(d: Date): nat
    requires ValidDate(d)
  {
    DaysBeforeYear(d.year) + DaysBeforeMonth(d.year, d.month) + d.day - 1
  }

  /** `date.fromordinal(n + 1)`, the calendar date of day `n`. */
  function DateOf(n: nat): (d: Date)
    ensures ValidDate(d) && DayIndex(d) == n
  {
    YearFrom(n, 1)
  }

  function YearFrom(rem: nat, y: nat): (d: Date)
    requires y >= 1
    ensures ValidDate(d) && d.year >= y && DayIndex(d) == DaysBeforeYear(y) + rem
    decreases rem
  {
    if rem < DaysInYear(y) then MonthFrom(rem, y, 1)
    else YearFrom(rem - DaysInYear(y), y + 1)
  }

  function MonthFrom(rem: nat, y: nat, m: nat): (d: Date)
    requires y >= 1 && 1 <= m <= 12
    requires DaysBeforeMonth(y, m) + rem < DaysInYear(y)
    ensures ValidDate(d) && d.year == y && d.month >= m
    ensures DayIndex(d) == DaysBeforeYear(y) + DaysBeforeMonth(y, m) + rem
    decreases 12 - m
  {
    if rem < DaysInMonth(y, m) then Date(y, m, rem + 1)
    else MonthFrom(rem - DaysInMonth(y, m), y, m + 1)
  }

  lemma {:induction false} DaysBeforeYearGrows(y: nat, z: nat)
    requires 1 <= y < z
    ensures DaysBeforeYear(z) >= DaysBeforeYear(y) + DaysInYear(y)
    decreases z - y
  {
    if z > y + 1 {
      DaysBeforeYearGrows(y, z - 1);
    }
  }

  lemma NextMonth(y: nat, m: nat)
    requires 1 <= m <= 12
    ensures DaysBeforeMonth(y, m + 1) == DaysBeforeMonth(y, m) + DaysInMonth(y, m)
  {
  }

  lemma {:induction false} MonthFromAt(d: Date, m: nat, rem: nat)
    requires ValidDate(d) && 1 <= m <= d.month
    requires DaysBeforeMonth(d.year, m) + rem == DaysBeforeMonth(d.year, d.month) + d.day - 1
    ensures DaysBeforeMonth(d.year, m) + rem < DaysInYear(d.year)
    ensures MonthFrom(rem, d.year, m) == d
    decreases d.month - m
  {
    NextMonth(d.year, d.month);
    MonthsGrow(d.year, d.month + 1, 13);
    if m < d.month {
      NextMonth(d.year, m);
      MonthsGrow(d.year, m + 1, d.month);
      MonthFromAt(d, m + 1, rem - DaysInMonth(d.year, m));
    }
  }

  lemma MonthsGrow(y: nat, m: nat, k: nat)
    requires 1 <= m <= k <= 13
    ensures DaysBeforeMonth(y, m) <= DaysBeforeMonth(y, k)
  {
  }

  lemma {:induction false} YearFromAt(d: Date, y: nat, rem: nat)
    requires ValidDate(d) && 1 <= y <= d.year
    requires DaysBeforeYear(y) + rem == DayIndex(d)
    ensures YearFrom(rem, y) == d
    decreases d.year - y
  {
    if y < d.year {
      DaysBeforeYearGrows(y, d.year);
      YearFromAt(d, y + 1, rem - DaysInYear(y));
    } else {
      MonthFromAt(d, 1, rem);
    }
  }

  /** Day numbering and calendar dates are inverse to each other. */
  lemma DateOfDayIndex(d: Date)
    requires ValidDate(d)
    ensures DateOf(DayIndex(d)) == d
  {
    YearFromAt(d, 1, DayIndex(d));
  }

  // ---------------------------------------------------------------- text

  function Digit(n: nat): (c: char)
    requires n < 10
    ensures '0' <= c <= '9' && c as int - '0' as int == n
  {
    "0123456789"[n]
  }

  predicate AllDigits(s: string) {
    forall i :: 0 <= i < |s| ==> '0' <= s[i] <= '9'
  }

  function Pow10(n: nat): (p: nat)
    ensures p >= 1
  {
    if n == 0 then 1 else 10 * Pow10(n - 1)
  }

  /** `n` in decimal, zero-padded on the left to at least `width` digits
      (`'%0*d' % (width, n)`); `width` is at least one wherever this is used. */
  function Padded(n: nat, width: nat): (s: string)
    ensures AllDigits(s) && |s| >= width
    ensures n < Pow10(width) ==> |s| == width
    decreases n + width
  {
    if n == 0 && width == 0 then ""
    else Padded(n / 10, if width > 0 then width - 1 else 0) + [Digit(n % 10)]
  }

  /** The value of a string of decimal digits. */
  function DecimalValue(s: string): nat
    requires AllDigits(s)
  {
    if s == [] then 0 else 10 * DecimalValue(s[..|s| - 1]) + (s[|s| - 1] as int - '0' as int)
  }

  lemma {:induction false} PaddedValue(n: nat, width: nat)
    ensures DecimalValue(Padded(n, width)) == n
    decreases n + width
  {
    if !(n == 0 && width == 0) {
      var w := if width > 0 then width - 1 else 0;
      PaddedValue(n / 10, w);
      var s := Padded(n, width);
      assert s[..|s| - 1] == Padded(n / 10, w);
    }
  }

  /** `date.strftime('%Y-%m-%d')`. */
  function FormatDate(d: Date): string {
    Padded(d.year, 4) + "-" + Padded(d.month, 2) + "-" + Padded(d.day, 2)
  }

  /** Reads back a `YYYY-MM-DD` text. */
  function ParseDate(s: string): Option<Date> {
    if |s| == 10 && s[4] == '-' && s[7] == '-' && AllDigits(s[..4]) && AllDigits(s[5..7]) && AllDigits(s[8..])
    then Some(Date(DecimalValue(s[..4]), DecimalValue(s[5..7]), DecimalValue(s[8..])))
    else None
  }

  lemma ParseDateParts(y: string, m: string, d: string)
    requires |y| == 4 && |m| == 2 && |d| == 2 && AllDigits(y) && AllDigits(m) && AllDigits(d)
    ensures ParseDate(y + "-" + m + "-" + d) == Some(Date(DecimalValue(y), DecimalValue(m), DecimalValue(d)))
  {
    var s := y + "-" + m + "-" + d;
    assert |s| == 10 && s[4] == '-' && s[7] == '-';
    assert s[..4] == y by {
      assert forall i :: 0 <= i < 4 ==> s[i] == y[i];
    }
    assert s[5..7] == m by {
      assert forall i :: 0 <= i < 2 ==> s[5 + i] == m[i];
    }
    assert s[8..] == d by {
      assert forall i :: 0 <= i < 2 ==> s[8 + i] == d[i];
    }
  }

  /** A date of a four-digit year prints as ten characters and reads back unchanged. */
  lemma FormatDateRoundTrip(d: Date)
    requires ValidDate(d) && d.year < 10000
    ensures |FormatDate(d)| == 10
    ensures ParseDate(FormatDate(d)) == Some(d)
  {
    assert Pow10(4) == 10000 && Pow10(2) == 100;
    assert d.month < Pow10(2) && d.day < Pow10(2);
    PaddedValue(d.year, 4);
    PaddedValue(d.month, 2);
    PaddedValue(d.day, 2);
    ParseDateParts(Padded(d.year, 4), Padded(d.month, 2), Padded(d.day, 2));
  }

  /** `dt.isoformat()`: `YYYY-MM-DDTHH:MM:SS`, followed by `.ffffff` when the
      microsecond field is not zero. */
  function IsoFormat(t: Instant): (s: string)
    ensures |s| >= 19
  {
    var tm := TimeOf(t);
    FormatDate(DateOf(t / MICROS_PER_DAY)) + "T" + Padded(tm.hour, 2) + ":" + Padded(tm.minute, 2) + ":" + Padded(tm.second, 2)
      + (if tm.microsecond != 0 then "." + Padded(tm.microsecond, 6) else "")
  }
}
