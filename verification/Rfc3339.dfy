/** `rfc3339` of `crates/kr0ki-core/src/audit_log.rs` against the Gregorian calendar. */
module Rfc3339 {
  import opened Text

  datatype Civil = Civil(y: int, m: int, d: int)

  // ---------------------------------------------------------------- the calendar

  predicate Leap(y: int) {
    y % 4 == 0 && (y % 100 != 0 || y % 400 == 0)
  }

  function DaysInMonth(y: int, m: int): int {
    if m == 2 then (if Leap(y) then 29 else 28)
    else if m == 4 || m == 6 || m == 9 || m == 11 then 30 else 31
  }

  predicate ValidDate(c: Civil) {
    c.y >= 1970 && 1 <= c.m <= 12 && 1 <= c.d <= DaysInMonth(c.y, c.m)
  }

  function DaysInYear(y: int): int {
    if Leap(y) then 366 else 365
  }

  /** Days of the years from 1970 up to `y`. */
  function DaysBeforeYear(y: int): int
    requires y >= 1970
  {
    if y == 1970 then 0 else DaysBeforeYear(y - 1) + DaysInYear(y - 1)
  }

  function DaysBeforeMonth(y: int, m: int): int
    requires 1 <= m <= 12
  {
    if m == 1 then 0 else DaysBeforeMonth(y, m - 1) + DaysInMonth(y, m - 1)
  }

  /** Days from 1970-01-01, counted year by year and month by month. */
  function DayNumber(c: Civil): int
    requires ValidDate(c)
  {
    DaysBeforeYear(c.y) + DaysBeforeMonth(c.y, c.m) + c.d - 1
  }

  function NextDay(c: Civil): Civil {
    if c.d < DaysInMonth(c.y, c.m) then Civil(c.y, c.m, c.d + 1)
    else if c.m < 12 then Civil(c.y, c.m + 1, 1)
    else Civil(c.y + 1, 1, 1)
  }

  lemma NextDayCounts(c: Civil)
    requires ValidDate(c)
    ensures ValidDate(NextDay(c)) && DayNumber(NextDay(c)) == DayNumber(c) + 1
  {
    YearSum(c.y);
  }

  lemma YearSum(y: int)
    ensures DaysBeforeMonth(y, 12) + DaysInMonth(y, 12) == DaysInYear(y)
  {
    Months(y);
  }

  lemma Months(y: int)
    ensures forall m :: 1 <= m <= 12 ==>
              DaysBeforeMonth(y, m) == [0, 31, 59, 90, 120, 151, 181, 212, 243, 273, 304, 334][m - 1]
                                       + (if m > 2 && Leap(y) then 1 else 0)
  {
    hide Leap;
    var l := DaysInMonth(y, 2);
    assert DaysBeforeMonth(y, 2) == 31;
    assert DaysBeforeMonth(y, 3) == 31 + l;
    assert DaysBeforeMonth(y, 4) == 62 + l;
    assert DaysBeforeMonth(y, 5) == 92 + l;
    assert DaysBeforeMonth(y, 6) == 123 + l;
    assert DaysBeforeMonth(y, 7) == 153 + l;
    assert DaysBeforeMonth(y, 8) == 184 + l;
    assert DaysBeforeMonth(y, 9) == 215 + l;
    assert DaysBeforeMonth(y, 10) == 245 + l;
    assert DaysBeforeMonth(y, 11) == 276 + l;
    assert DaysBeforeMonth(y, 12) == 306 + l;
  }

  // ---------------------------------------------------------------- the code

  /** Every intermediate value of `rfc3339`, in the order the code computes them. */
  datatype Trace = Trace(days: int, z: int, era: int, doe: int, yoe: int, y0: int, doy: int, mp: int, date: Civil)

  function Compute(secs: nat): Trace {
    var days := secs / 86400;
    var z := days + 719468;
    var era := z / 146097;
    var doe := z % 146097;
    var yoe := (doe - doe / 1460 + doe / 36524 - doe / 146096) / 365;
    var y0 := yoe + era * 400;
    var doy := doe - (365 * yoe + yoe / 4 - yoe / 100);
    var mp := (5 * doy + 2) / 153;
    var d := doy - (153 * mp + 2) / 5 + 1;
    var m := if mp < 10 then mp + 3 else mp - 9;
    Trace(days, z, era, doe, yoe, y0, doy, mp, Civil(if m <= 2 then y0 + 1 else y0, m, d))
  }

  // ---------------------------------------------------------------- the year of the era

  /** A day of the era by century, four-year cycle, year and day: 36524 days in a century
      (one more in the last), 1461 in a cycle (one less in a century's last), 365 in a year. */
  lemma YearOfEra(doe: int, c: int, q: int, y: int, t: int)
    requires 0 <= doe < 146097 && doe == 36524 * c + 1461 * q + 365 * y + t
    requires 0 <= c <= 3 && 0 <= q <= 24 && 0 <= y <= 3 && 0 <= t <= 365 && (t == 365 ==> y == 3)
    requires 1461 * q + 365 * y + t <= 36524 && (1461 * q + 365 * y + t == 36524 ==> c == 3)
    ensures (doe - doe / 1460 + doe / 36524 - doe / 146096) / 365 == 100 * c + 4 * q + y
  {
    var over := if 24 * c + q + 365 * y + t >= 1460 then 1 else 0;
    assert doe / 1460 == 25 * c + q + over;
    var last := if doe == 146096 then 1 else 0;
    assert doe / 36524 == c + last && doe / 146096 == last;
    assert doe - doe / 1460 + doe / 36524 - doe / 146096 == 365 * (100 * c + 4 * q + y) + (t - over);
  }

  lemma EraDigits(doe: int) returns (c: int, q: int, y: int, t: int)
    requires 0 <= doe < 146097
    ensures doe == 36524 * c + 1461 * q + 365 * y + t
    ensures 0 <= c <= 3 && 0 <= q <= 24 && 0 <= y <= 3 && 0 <= t <= 365 && (t == 365 ==> y == 3)
    ensures 1461 * q + 365 * y + t <= 36524 && (1461 * q + 365 * y + t == 36524 ==> c == 3)
  {
    c := if doe == 146096 then 3 else doe / 36524;
    var n := doe - 36524 * c;
    q := n / 1461;
    var r := n - 1461 * q;
    y := if r == 1460 then 3 else r / 365;
    t := r - 365 * y;
  }

  /** The year of the era and the day of that year, which starts on 1 March. */
  lemma EraSplit(doe: int)
    requires 0 <= doe < 146097
    ensures var yoe := (doe - doe / 1460 + doe / 36524 - doe / 146096) / 365;
            var doy := doe - (365 * yoe + yoe / 4 - yoe / 100);
            && 0 <= yoe <= 399 && 0 <= doy <= 365
            && (doy == 365 ==> Leap(yoe + 1))
  {
    var c, q, y, t := EraDigits(doe);
    YearOfEra(doe, c, q, y, t);
    var yoe := 100 * c + 4 * q + y;
    assert yoe / 4 == 25 * c + q && yoe / 100 == c;
    if t == 365 {
      assert yoe + 1 == 100 * c + 4 * (q + 1);
      if q == 24 { assert c == 3; }
    }
  }

  // ---------------------------------------------------------------- the date is right

  /** Leap days up to the end of year `y`. */
  function LeapDays(y: int): int {
    y / 4 - y / 100 + y / 400
  }

  lemma LeapDaysStep(y: int)
    requires y > 0
    ensures LeapDays(y) == LeapDays(y - 1) + if Leap(y) then 1 else 0
  {
    assert y / 4 == (y - 1) / 4 + if y % 4 == 0 then 1 else 0;
    assert y / 100 == (y - 1) / 100 + if y % 100 == 0 then 1 else 0;
    assert y / 400 == (y - 1) / 400 + if y % 400 == 0 then 1 else 0;
  }

  lemma {:induction false} YearsClosed(y: int)
    requires y >= 1970
    ensures DaysBeforeYear(y) == 365 * (y - 1970) + LeapDays(y - 1) - 477
    decreases y
  {
    if y > 1970 {
      YearsClosed(y - 1);
      LeapDaysStep(y - 1);
    }
  }

  lemma EraLeaps(yoe: int, era: int)
    requires 0 <= yoe <= 399
    ensures LeapDays(yoe + era * 400) == 97 * era + yoe / 4 - yoe / 100
  {
    var y := yoe + era * 400;
    assert y / 4 == yoe / 4 + 100 * era;
    assert y / 100 == yoe / 100 + 4 * era;
    assert y / 400 == era;
  }

  lemma EraLeap(yoe: int, era: int)
    ensures Leap(yoe + 1) == Leap(yoe + era * 400 + 1)
  {
    var x, y := yoe + 1, yoe + 1 + era * 400;
    assert y % 400 == x % 400;
    SmallerModulus(x, y, era);
  }

  lemma SmallerModulus(x: int, y: int, era: int)
    requires y == x + 400 * era
    ensures y % 4 == x % 4 && y % 100 == x % 100
  {
    var p, q := 100 * era, 4 * era;
    assert y == x + 4 * p;
    assert y == x + 100 * q;
  }

  /** A day counted from the March year it falls in. */
  predicate InMarchYear(z: int, y: int, doy: int) {
    && z == 365 * y + LeapDays(y) + doy && 0 <= doy <= 365 && (doy == 365 ==> Leap(y + 1))
  }

  /** The March year and the day of it that the code computes. */
  lemma MarchYear(secs: nat)
    ensures var t := Compute(secs); InMarchYear(secs / 86400 + 719468, t.y0, t.doy) && t.y0 >= 0
  {
    var t := Compute(secs);
    EraSplit(t.doe);
    hide LeapDays, Leap;
    EraLeaps(t.yoe, t.era);
    EraLeap(t.yoe, t.era);
    assert t.z == 146097 * t.era + t.doe;
  }

  lemma MarchYearStart(z: int, y: int, doy: int)
    requires InMarchYear(z, y, doy) && z >= 719468 && y >= 0
    ensures y >= 1970 || (y == 1969 && doy >= 306)
  {
    assert LeapDays(y) <= y / 4;
    assert y <= 1969 ==> y / 4 <= 492;
  }

  /** How the months of a March year add up. */
  lemma MonthFormula(y: int, m: int)
    requires 1 <= m <= 12
    ensures DaysBeforeMonth(y, m)
            == if m <= 2 then (153 * (m + 9) + 2) / 5 - 306
              else (153 * (m - 3) + 2) / 5 + 59 + (if Leap(y) then 1 else 0)
  {
    hide Leap;
    Months(y);
  }

  /** The month and the day of the month from the day of the March year. */
  lemma MonthOfYear(doy: int, y: int)
    requires 0 <= doy <= 365 && (doy == 365 ==> Leap(y + 1))
    ensures var mp := (5 * doy + 2) / 153;
            var d := doy - (153 * mp + 2) / 5 + 1;
            var m := if mp < 10 then mp + 3 else mp - 9;
            && 0 <= mp <= 11 && (doy >= 306 <==> mp >= 10)
            && 1 <= d <= DaysInMonth(if m <= 2 then y + 1 else y, m)
  {
    hide Leap;
    var mp := (5 * doy + 2) / 153;
    assert 0 <= mp <= 11;
    assert 153 * mp <= 5 * doy + 2 < 153 * (mp + 1);
  }

  /** The date is valid and is exactly `secs / 86400` days after 1970-01-01. */
  lemma DateIsRight(secs: nat)
    ensures ValidDate(Compute(secs).date) && DayNumber(Compute(secs).date) == secs / 86400
  {
    var t := Compute(secs);
    MarchYear(secs);
    MonthOfYear(t.doy, t.y0);
    MarchYearStart(secs / 86400 + 719468, t.y0, t.doy);
    assert ValidDate(t.date) by { hide LeapDays, Leap, DaysInMonth; }
    CountFromMarch(secs / 86400 + 719468, t.y0, t.doy, t.date);
  }

  lemma CountFromMarch(z: int, y: int, doy: int, c: Civil)
    requires InMarchYear(z, y, doy) && ValidDate(c)
    requires var mp := (5 * doy + 2) / 153;
             && c.d == doy - (153 * mp + 2) / 5 + 1
             && c.m == (if mp < 10 then mp + 3 else mp - 9)
             && c.y == (if c.m <= 2 then y + 1 else y)
    ensures DayNumber(c) == z - 719468
  {
    hide Leap, LeapDays, DaysInMonth;
    YearsClosed(c.y);
    MonthFormula(c.y, c.m);
    if c.m > 2 { LeapDaysStep(c.y); }
  }

  // ---------------------------------------------------------------- order

  predicate DateBefore(a: Civil, b: Civil) {
    a.y < b.y || (a.y == b.y && (a.m < b.m || (a.m == b.m && a.d < b.d)))
  }

  lemma {:induction false} MonthsGrow(y: int, m: int, n: int)
    requires 1 <= m < n <= 12
    ensures DaysBeforeMonth(y, m) + DaysInMonth(y, m) <= DaysBeforeMonth(y, n)
    decreases n
  {
    hide Leap;
    if m < n - 1 { MonthsGrow(y, m, n - 1); }
  }

  lemma {:induction false} YearsGrow(y: int, z: int)
    requires 1970 <= y < z
    ensures DaysBeforeYear(y) + DaysInYear(y) <= DaysBeforeYear(z)
    decreases z
  {
    hide Leap;
    if y < z - 1 { YearsGrow(y, z - 1); }
  }

  lemma WithinYear(c: Civil)
    requires ValidDate(c)
    ensures 0 <= DaysBeforeMonth(c.y, c.m) + c.d - 1 < DaysInYear(c.y)
  {
    hide Leap;
    YearSum(c.y);
    Months(c.y);
    if c.m < 12 { MonthsGrow(c.y, c.m, 12); }
  }

  /** Counting days keeps the order of dates, so no two dates share a number. */
  lemma LaterDateCountsMore(a: Civil, b: Civil)
    requires ValidDate(a) && ValidDate(b)
    ensures DateBefore(a, b) <==> DayNumber(a) < DayNumber(b)
    ensures DayNumber(a) == DayNumber(b) ==> a == b
  {
    if DateBefore(a, b) {
      LaterMore(a, b);
    } else if DateBefore(b, a) {
      LaterMore(b, a);
    }
  }

  lemma LaterMore(a: Civil, b: Civil)
    requires ValidDate(a) && ValidDate(b) && DateBefore(a, b)
    ensures DayNumber(a) < DayNumber(b)
  {
    hide Leap, DaysBeforeYear, DaysBeforeMonth, DaysInMonth, DaysInYear;
    if a.y < b.y {
      YearsGrow(a.y, b.y);
      WithinYear(a);
      WithinYear(b);
    } else if a.m < b.m {
      MonthsGrow(a.y, a.m, b.m);
    }
  }

  /** Consecutive days get consecutive dates under the leap-year rule. */
  lemma ConsecutiveDays(secs: nat)
    ensures Compute(secs + 86400).date == NextDay(Compute(secs).date)
  {
    var a, b := Compute(secs).date, Compute(secs + 86400).date;
    DateIsRight(secs);
    DateIsRight(secs + 86400);
    NextDayCounts(a);
    LaterDateCountsMore(b, NextDay(a));
  }

  lemma EpochDate()
    ensures Compute(0).date == Civil(1970, 1, 1)
  {
    hide Compute;
    DateOf(0, Civil(1970, 1, 1));
  }

  /** The date `k` days after 1 January 1970, one day at a time by the calendar's own rule. */
  function DateAfter(k: nat): Civil {
    if k == 0 then Civil(1970, 1, 1) else NextDay(DateAfter(k - 1))
  }

  /** The closed formula is the calendar walked day by day from the epoch. */
  lemma {:induction false} CalendarWalk(secs: nat)
    ensures Compute(secs).date == DateAfter(secs / 86400)
    decreases secs
  {
    hide Compute, NextDay, DayNumber;
    if secs < 86400 {
      EpochDate();
      DateIsRight(secs);
      DateIsRight(0);
      LaterDateCountsMore(Compute(secs).date, Compute(0).date);
    } else {
      CalendarWalk(secs - 86400);
      ConsecutiveDays(secs - 86400);
    }
  }

  const I64_MAX := 0x7fff_ffff_ffff_ffff

  predicate FitsI64(x: int) {
    -I64_MAX - 1 <= x <= I64_MAX
  }

  /** No intermediate value of any `u64` input leaves `i64`. */
  lemma NoOverflow(secs: nat)
    requires secs <= 0xffff_ffff_ffff_ffff
    ensures var t := Compute(secs);
            && FitsI64(t.days) && FitsI64(t.z) && FitsI64(t.era) && FitsI64(t.doe) && FitsI64(t.yoe)
            && FitsI64(t.era * 400)
            && FitsI64(t.y0) && FitsI64(365 * t.yoe) && FitsI64(t.doy) && FitsI64(5 * t.doy + 2) && FitsI64(t.mp)
            && FitsI64(153 * t.mp + 2) && FitsI64(t.date.y) && FitsI64(t.date.m) && FitsI64(t.date.d)
  {
    hide Compute;
    Ranges(secs);
    DateRanges(secs);
  }

  lemma Ranges(secs: nat)
    ensures var t := Compute(secs);
            && t.days == secs / 86400 && t.z == t.days + 719468 && 0 <= t.era <= t.z && 0 <= t.doe < 146097
            && 0 <= t.yoe <= 399 && 146097 * t.era <= t.z && t.y0 == t.yoe + t.era * 400 && 0 <= t.doy <= 365
  {
    EraSplit(Compute(secs).doe);
  }

  lemma DateRanges(secs: nat)
    ensures var t := Compute(secs);
            && 0 <= t.mp <= 11 && 1 <= t.date.m <= 12 && 1 <= t.date.d <= 31 && t.y0 <= t.date.y <= t.y0 + 1
  {
    var t := Compute(secs);
    MarchYear(secs);
    MonthOfYear(t.doy, t.y0);
    hide Leap, LeapDays;
  }

  // ---------------------------------------------------------------- the text

  /** `{n:02}` and, below 10000, `{n:04}`. */
  function Padded(n: nat, width: nat): (s: string)
    ensures |s| == width
  {
    if width == 0 then "" else Padded(n / 10, width - 1) + [Digit(n % 10)]
  }

  function Year(y: nat): string {
    if y < 10000 then Padded(y, 4) else Decimal(y)
  }

  function Format(c: Civil, rem: nat): string
    requires ValidDate(c)
  {
    Year(c.y) + "-" + Padded(c.m, 2) + "-" + Padded(c.d, 2) + "T"
      + Padded(rem / 3600, 2) + ":" + Padded(rem % 3600 / 60, 2) + ":" + Padded(rem % 60, 2) + "Z"
  }

  function Rfc3339(secs: nat): string {
    DateIsRight(secs);
    Format(Compute(secs).date, secs % 86400)
  }

  // ---------------------------------------------------------------- reading the text

  predicate AllDigits(s: string) {
    forall k :: 0 <= k < |s| ==> IsDigit(s[k])
  }

  predicate Denotes(s: string, n: nat) {
    AllDigits(s) && Value(s) == n
  }

  lemma {:induction false} PaddedDenotes(n: nat, width: nat)
    requires n < Power(width)
    ensures Denotes(Padded(n, width), n)
    decreases width
  {
    if width > 0 {
      PaddedDenotes(n / 10, width - 1);
      var s := Padded(n, width);
      assert s[..|s| - 1] == Padded(n / 10, width - 1);
    }
  }

  lemma {:induction false} DecimalDenotes(n: nat)
    ensures Denotes(Decimal(n), n)
  {
    ValueOfDecimal(n);
  }

  /** The fields of a timestamp by position: two digits each between their separators, counted from the
      end, and the year in front. */
  predicate Reads(t: string, year: nat, month: nat, day: nat, hour: nat, minute: nat, second: nat) {
    var n := |t|;
    && n >= 20
    && t[n - 16] == '-' && t[n - 13] == '-' && t[n - 10] == 'T' && t[n - 7] == ':' && t[n - 4] == ':' && t[n - 1] == 'Z'
    && Denotes(t[..n - 16], year) && Denotes(t[n - 15..n - 13], month) && Denotes(t[n - 12..n - 10], day)
    && Denotes(t[n - 9..n - 7], hour) && Denotes(t[n - 6..n - 4], minute) && Denotes(t[n - 3..n - 1], second)
  }

  lemma LaidOut(y: string, m: string, d: string, h: string, mi: string, s: string)
    requires |y| >= 4 && |m| == |d| == |h| == |mi| == |s| == 2
    ensures var t := y + "-" + m + "-" + d + "T" + h + ":" + mi + ":" + s + "Z";
            var n := |t|;
            && n == |y| + 16 >= 20
            && t[n - 16] == '-' && t[n - 13] == '-' && t[n - 10] == 'T' && t[n - 7] == ':' && t[n - 4] == ':'
            && t[n - 1] == 'Z'
            && t[..n - 16] == y && t[n - 15..n - 13] == m && t[n - 12..n - 10] == d
            && t[n - 9..n - 7] == h && t[n - 6..n - 4] == mi && t[n - 3..n - 1] == s
  {
  }

  lemma YearDenotes(y: nat)
    ensures Denotes(Year(y), y) && |Year(y)| >= 4
  {
    if y < 10000 {
      PaddedDenotes(y, 4);
    } else {
      DecimalDenotes(y);
      FiveDigits(y);
    }
  }

  lemma FiveDigits(y: nat)
    requires y >= 10000
    ensures |Decimal(y)| >= 4
  {
    assert |Decimal(y)| == |Decimal(y / 10)| + 1 && |Decimal(y / 10)| == |Decimal(y / 10 / 10)| + 1;
    assert |Decimal(y / 10 / 10)| == |Decimal(y / 10 / 10 / 10)| + 1;
  }

  /** Reading the text gives back the date and the time of day, for every number of seconds, and these
      make up the seconds again. */
  lemma TextReadsBack(secs: nat) returns (hour: nat, minute: nat, second: nat)
    ensures var c := Compute(secs).date;
            && ValidDate(c) && c.y >= 0
            && Reads(Rfc3339(secs), c.y, c.m, c.d, hour, minute, second)
            && hour < 24 && minute < 60 && second < 60
            && DayNumber(c) * 86400 + hour * 3600 + minute * 60 + second == secs
  {
    DateIsRight(secs);
    var c, rem := Compute(secs).date, secs % 86400;
    hour, minute, second := rem / 3600, rem % 3600 / 60, rem % 60;
    YearDenotes(c.y);
    TwoDigits(c.m);
    TwoDigits(c.d);
    TwoDigits(hour);
    TwoDigits(minute);
    TwoDigits(second);
    LaidOut(Year(c.y), Padded(c.m, 2), Padded(c.d, 2), Padded(hour, 2), Padded(minute, 2), Padded(second, 2));
    hide Compute, DayNumber, Year, Padded, Denotes;
    ClockRecombines(rem);
  }

  lemma TwoDigits(n: nat)
    requires n < 100
    ensures Denotes(Padded(n, 2), n) && |Padded(n, 2)| == 2
  {
    PaddedDenotes(n, 2);
  }

  lemma ClockRecombines(rem: nat)
    requires rem < 86400
    ensures rem / 3600 < 24 && rem % 3600 / 60 < 60
    ensures rem / 3600 * 3600 + rem % 3600 / 60 * 60 + rem % 60 == rem
  {
  }

  /** Lexicographic order of strings. */
  predicate Less(a: string, b: string) {
    exists i :: 0 <= i < |b| && Differs(a, b, i)
  }

  predicate Differs(a: string, b: string, i: nat)
    requires i < |b|
  {
    i <= |a| && a[..i] == b[..i] && (i < |a| ==> a[i] < b[i])
  }

  lemma {:induction false} PaddedOrder(m: nat, n: nat, width: nat)
    requires m < n < Power(width)
    ensures Less(Padded(m, width), Padded(n, width))
    decreases width
  {
    if width > 0 {
      var a, b := Padded(m, width), Padded(n, width);
      if m / 10 < n / 10 {
        PaddedOrder(m / 10, n / 10, width - 1);
        LessThen(Padded(m / 10, width - 1), Padded(n / 10, width - 1), "", [Digit(m % 10)], [Digit(n % 10)]);
        assert "" + Padded(m / 10, width - 1) + [Digit(m % 10)] == a;
        assert "" + Padded(n / 10, width - 1) + [Digit(n % 10)] == b;
      } else {
        assert Differs(a, b, width - 1);
      }
    }
  }

  function Power(width: nat): nat {
    if width == 0 then 1 else 10 * Power(width - 1)
  }

  /** Fields of equal length that differ decide the order, whatever follows them. */
  lemma LessThen(a: string, b: string, before: string, x: string, y: string)
    requires Less(a, b) && |a| == |b|
    ensures Less(before + a + x, before + b + y)
  {
    var i :| 0 <= i < |b| && Differs(a, b, i);
    var s, t := before + a + x, before + b + y;
    var k := |before| + i;
    assert s[..k] == before + a[..i] && t[..k] == before + b[..i];
    assert s[k] == a[i] && t[k] == b[i];
    assert Differs(s, t, k);
  }

  lemma FieldDecides(before: string, m: nat, n: nat, width: nat, x: string, y: string)
    requires m < n < Power(width)
    ensures Less(before + Padded(m, width) + x, before + Padded(n, width) + y)
  {
    PaddedOrder(m, n, width);
    LessThen(Padded(m, width), Padded(n, width), before, x, y);
  }

  /** A time of day: hours, minutes and seconds. */
  function Clock(rem: nat): string {
    Joined(Padded(rem / 3600, 2), Padded(rem % 3600 / 60, 2), Padded(rem % 60, 2))
  }

  function Joined(h: string, m: string, s: string): string {
    h + ":" + m + ":" + s + "Z"
  }

  lemma FormatParts(c: Civil, rem: nat)
    requires ValidDate(c) && c.y < 10000
    ensures Format(c, rem) == Padded(c.y, 4) + ("-" + Padded(c.m, 2) + "-" + Padded(c.d, 2) + "T" + Clock(rem))
    ensures Format(c, rem) == (Padded(c.y, 4) + "-") + Padded(c.m, 2) + ("-" + Padded(c.d, 2) + "T" + Clock(rem))
    ensures Format(c, rem) == (Padded(c.y, 4) + "-" + Padded(c.m, 2) + "-") + Padded(c.d, 2) + ("T" + Clock(rem))
    ensures |Format(c, rem)| == 20
  {
    hide Padded, ValidDate;
  }

  lemma EarlierDateEarlierText(a: Civil, b: Civil, r: nat, q: nat)
    requires ValidDate(a) && ValidDate(b) && b.y < 10000 && DateBefore(a, b)
    ensures Less(Format(a, r), Format(b, q))
  {
    FormatParts(a, r);
    FormatParts(b, q);
    assert Power(4) == 10000 && Power(2) == 100;
    hide Padded, Less, Clock, Format, DaysInMonth;
    var x := "-" + Padded(a.m, 2) + "-" + Padded(a.d, 2) + "T" + Clock(r);
    var y := "-" + Padded(b.m, 2) + "-" + Padded(b.d, 2) + "T" + Clock(q);
    if a.y < b.y {
      FieldDecides("", a.y, b.y, 4, x, y);
      assert "" + Padded(a.y, 4) + x == Padded(a.y, 4) + x && "" + Padded(b.y, 4) + y == Padded(b.y, 4) + y;
    } else if a.m < b.m {
      FieldDecides(Padded(a.y, 4) + "-", a.m, b.m, 2, "-" + Padded(a.d, 2) + "T" + Clock(r),
                   "-" + Padded(b.d, 2) + "T" + Clock(q));
    } else {
      assert b.d < 100 by { DayBelow100(b); }
      FieldDecides(Padded(a.y, 4) + "-" + Padded(a.m, 2) + "-", a.d, b.d, 2, "T" + Clock(r), "T" + Clock(q));
    }
  }

  lemma DayBelow100(c: Civil)
    requires ValidDate(c)
    ensures c.d < 100
  {
    hide Leap;
  }

  lemma EarlierClock(r: nat, q: nat)
    requires r < q < 86400
    ensures Less(Clock(r), Clock(q))
  {
    assert Power(2) == 100;
    hide Less, Power;
    EarlierFields(r / 3600, r % 3600 / 60, r % 60, q / 3600, q % 3600 / 60, q % 60, 2);
  }

  lemma {:induction false} EarlierFields(h: nat, m: nat, s: nat, h': nat, m': nat, s': nat, w: nat)
    requires h < h' < Power(w) || (h == h' && (m < m' < Power(w) || (m == m' && s < s' < Power(w))))
    ensures Less(Joined(Padded(h, w), Padded(m, w), Padded(s, w)), Joined(Padded(h', w), Padded(m', w), Padded(s', w)))
  {
    hide *;
    if h < h' {
      PaddedOrder(h, h', w);
      HoursDecide(Padded(h, w), Padded(m, w), Padded(s, w), Padded(h', w), Padded(m', w), Padded(s', w));
    } else if m < m' {
      PaddedOrder(m, m', w);
      MinutesDecide(Padded(h, w), Padded(m, w), Padded(s, w), Padded(m', w), Padded(s', w));
    } else {
      PaddedOrder(s, s', w);
      SecondsDecide(Padded(h, w), Padded(m, w), Padded(s, w), Padded(s', w));
    }
  }

  lemma HoursDecide(h: string, m: string, s: string, h': string, m': string, s': string)
    requires |h| == |h'| && Less(h, h')
    ensures Less(Joined(h, m, s), Joined(h', m', s'))
  {
    hide Less;
    LessThen(h, h', "", ":" + m + ":" + s + "Z", ":" + m' + ":" + s' + "Z");
    assert Joined(h, m, s) == "" + h + (":" + m + ":" + s + "Z");
    assert Joined(h', m', s') == "" + h' + (":" + m' + ":" + s' + "Z");
  }

  lemma MinutesDecide(h: string, m: string, s: string, m': string, s': string)
    requires |m| == |m'| && Less(m, m')
    ensures Less(Joined(h, m, s), Joined(h, m', s'))
  {
    hide Less;
    LessThen(m, m', h + ":", ":" + s + "Z", ":" + s' + "Z");
    assert Joined(h, m, s) == (h + ":") + m + (":" + s + "Z");
    assert Joined(h, m', s') == (h + ":") + m' + (":" + s' + "Z");
  }

  lemma SecondsDecide(h: string, m: string, s: string, s': string)
    requires |s| == |s'| && Less(s, s')
    ensures Less(Joined(h, m, s), Joined(h, m, s'))
  {
    hide Less;
    LessThen(s, s', h + ":" + m + ":", "Z", "Z");
  }

  lemma SameDateClock(c: Civil, r: nat, q: nat)
    requires ValidDate(c) && c.y < 10000 && r < q < 86400
    ensures Less(Format(c, r), Format(c, q))
  {
    EarlierClock(r, q);
    assert |Clock(r)| == |Clock(q)|;
    var before := Padded(c.y, 4) + "-" + Padded(c.m, 2) + "-" + Padded(c.d, 2) + "T";
    hide Less, Padded;
    LessThen(Clock(r), Clock(q), before, "", "");
    assert Format(c, r) == before + Clock(r) + "" && Format(c, q) == before + Clock(q) + "";
  }

  // ---------------------------------------------------------------- exactly how far the order goes

  /** The first second of year 10000. */
  const END_OF_9999 := 253402300800

  lemma YearsUpTo9999(secs: nat)
    ensures Compute(secs).date.y < 10000 <==> secs < END_OF_9999
  {
    var c := Compute(secs).date;
    DateIsRight(secs);
    YearsClosed(10000);
    var start := Civil(10000, 1, 1);
    LaterDateCountsMore(c, start);
    assert DayNumber(start) == END_OF_9999 / 86400;
  }

  lemma TextOrder(a: nat, b: nat)
    requires a < b < END_OF_9999
    ensures |Rfc3339(a)| == |Rfc3339(b)| == 20 && Less(Rfc3339(a), Rfc3339(b))
  {
    var c, d := Compute(a).date, Compute(b).date;
    DateIsRight(a);
    DateIsRight(b);
    YearsUpTo9999(a);
    YearsUpTo9999(b);
    LaterDateCountsMore(c, d);
    hide Compute, Less, Format, DayNumber, ValidDate;
    FormatParts(c, a % 86400);
    FormatParts(d, b % 86400);
    if a / 86400 < b / 86400 {
      EarlierDateEarlierText(c, d, a % 86400, b % 86400);
    } else {
      SameDateClock(c, a % 86400, b % 86400);
    }
  }

  /** Timestamps below a bound sort as their seconds do exactly when the bound is within year 9999. */
  lemma OrderExactlyTo9999(bound: nat)
    ensures (forall a, b :: 0 <= a < b < bound ==> Less(Rfc3339(a), Rfc3339(b))) <==> bound <= END_OF_9999
  {
    if bound <= END_OF_9999 {
      forall a, b | 0 <= a < b < bound ensures Less(Rfc3339(a), Rfc3339(b)) { TextOrder(a, b); }
    } else {
      Year10000SortsBefore9999();
      assert 0 <= END_OF_9999 - 1 < END_OF_9999 < bound;
    }
  }

  lemma Year10000SortsBefore9999()
    ensures !Less(Rfc3339(END_OF_9999 - 1), Rfc3339(END_OF_9999))
  {
    hide Compute, Rfc3339, Year, Less, Padded, Decimal;
    var a, b := END_OF_9999 - 1, END_OF_9999;
    TurnOfTheMillennium();
    FirstDigits();
    StartsWithYear(a);
    StartsWithYear(b);
    LeadingDigit(Rfc3339(a), Rfc3339(b));
  }

  lemma TurnOfTheMillennium()
    ensures Compute(END_OF_9999 - 1).date == Civil(9999, 12, 31) && Compute(END_OF_9999).date == Civil(10000, 1, 1)
  {
    YearsClosed(9999);
    YearsClosed(10000);
    Months(9999);
    hide Compute;
    DateOf(END_OF_9999 - 1, Civil(9999, 12, 31));
    DateOf(END_OF_9999, Civil(10000, 1, 1));
  }

  /** The date is the only one with that day number. */
  lemma DateOf(secs: nat, c: Civil)
    requires ValidDate(c) && DayNumber(c) == secs / 86400
    ensures Compute(secs).date == c
  {
    DateIsRight(secs);
    LaterDateCountsMore(c, Compute(secs).date);
  }

  lemma FirstDigits()
    ensures Year(9999) != "" && Year(9999)[0] == '9' && Year(10000) != "" && Year(10000)[0] == '1'
  {
    Nines();
    Ten();
    hide Padded, Decimal;
  }

  lemma Nines()
    ensures |Padded(9999, 4)| == 4 && Padded(9999, 4)[0] == '9'
  {
    assert Padded(9999, 4) == Padded(999, 3) + ['9'] && Padded(999, 3) == Padded(99, 2) + ['9'];
    assert Padded(99, 2) == Padded(9, 1) + ['9'] && Padded(9, 1) == Padded(0, 0) + ['9'];
  }

  lemma Ten()
    ensures |Decimal(10000)| == 5 && Decimal(10000)[0] == '1'
  {
    assert Decimal(10000) == Decimal(1000) + ['0'] && Decimal(1000) == Decimal(100) + ['0'];
    assert Decimal(100) == Decimal(10) + ['0'] && Decimal(10) == Decimal(1) + ['0'] && Decimal(1) == ['1'];
  }

  lemma StartsWithYear(secs: nat)
    requires Compute(secs).date.y >= 0 && Year(Compute(secs).date.y) != ""
    ensures Rfc3339(secs) != "" && Rfc3339(secs)[0] == Year(Compute(secs).date.y)[0]
  {
    hide Year, Padded, Compute;
    DateIsRight(secs);
  }

  lemma LeadingDigit(a: string, b: string)
    requires a != "" && b != "" && a[0] > b[0]
    ensures !Less(a, b)
  {
    forall i | 0 <= i < |b| ensures !Differs(a, b, i) {
      if i > 0 && i <= |a| { assert a[..i][0] != b[..i][0]; }
    }
  }
}
