/** The proleptic Gregorian calendar of Python's `datetime.date`: years 1 to
    9999, day ordinals counted from 0001-01-01 (ordinal 1, a Monday), weekdays
    numbered 0 (Monday) to 6 (Sunday). */
module Calendar {
  import opened Outcomes

  const MinYear := 1
  const MaxYear := 9999

  /** A year, month and day, not necessarily a real date. */
  datatype Ymd = Ymd(year: int, month: int, day: int)

  predicate IsLeap(y: int) {
    y % 4 == 0 && (y % 100 != 0 || y % 400 == 0)
  }

  function DaysInMonth(y: int, m: int): int
    requires 1 <= m <= 12
  {
    if m == 2 then (if IsLeap(y) then 29 else 28)
    else if m == 4 || m == 6 || m == 9 || m == 11 then 30
    else 31
  }

  function DaysInYear(y: int): int {
    if IsLeap(y) then 366 else 365
  }

  predicate IsValidYmd(d: Ymd) {
    MinYear <= d.year <= MaxYear && 1 <= d.month <= 12 && 1 <= d.day <= DaysInMonth(d.year, d.month)
  }

  /** A calendar date, as `datetime.date` admits it. */
  type Date = d: Ymd | IsValidYmd(d) witness Ymd(1, 1, 1)

  const LastDate: Date := Ymd(MaxYear, 12, 31)
  const MaxOrdinal := 3652059

  /** Days in the years before year `y`. */
  function DaysBeforeYear(y: int): int
    requires y >= 1
  {
    var p := y - 1;
    p * 365 + p / 4 - p / 100 + p / 400
  }

  /** Days in the months of year `y` before month `m`. */
  function DaysBeforeMonth(y: int, m: int): int
    requires 1 <= m <= 12
  {
    var common :=
      match m
      case 1 => 0   case 2 => 31  case 3 => 59  case 4 => 90
      case 5 => 120 case 6 => 151 case 7 => 181 case 8 => 212
      case 9 => 243 case 10 => 273 case 11 => 304 case _ => 334;
    common + (if m > 2 && IsLeap(y) then 1 else 0)
  }

  /** `date.toordinal()`. */
  function ToOrdinal(d: Date): int {
    DaysBeforeYear(d.year) + DaysBeforeMonth(d.year, d.month) + d.day
  }

  /** `date.weekday()`: 0 is Monday, 6 is Sunday. */
  function Weekday(d: Date): int {
    (ToOrdinal(d) + 6) % 7
  }

  /** `d1 < d2` on dates: year, then month, then day. */
  predicate Before(d1: Date, d2: Date) {
    d1.year < d2.year
    || (d1.year == d2.year && d1.month < d2.month)
    || (d1.year == d2.year && d1.month == d2.month && d1.day < d2.day)
  }

  lemma {:induction false} MulGrows(k: int, d: int)
    requires k > 0 && d >= 1
    ensures k * d >= k
    decreases d
  {
    if d > 1 {
      MulGrows(k, d - 1);
      assert k * d == k * (d - 1) + k;
    }
  }

  /** Division with remainder determines quotient and remainder. */
  lemma DivUnique(n: int, k: int, q: int, r: int)
    requires k > 0 && 0 <= r < k && n == k * q + r
    ensures n / k == q && n % k == r
  {
    var q', r' := n / k, n % k;
    assert k * q' + r' == k * q + r;
    if q > q' {
      assert k * (q - q') == r' - r;
      MulGrows(k, q - q');
    } else if q < q' {
      assert k * (q' - q) == r - r';
      MulGrows(k, q' - q);
    }
  }

  /** Going one number up, the quotient grows exactly at a multiple. */
  lemma DivStep(p: int, k: int)
    requires p >= 0 && k > 0
    ensures (p + 1) / k == p / k + (if (p + 1) % k == 0 then 1 else 0)
  {
    var q, r := p / k, p % k;
    if r == k - 1 {
      DivUnique(p + 1, k, q + 1, 0);
    } else {
      DivUnique(p + 1, k, q, r + 1);
    }
  }

  lemma DaysBeforeYearStep(y: int)
    requires y >= 1
    ensures DaysBeforeYear(y + 1) == DaysBeforeYear(y) + DaysInYear(y)
  {
    var p := y - 1;
    DivStep(p, 4);
    DivStep(p, 100);
    DivStep(p, 400);
    var a4 := if y % 4 == 0 then 1 else 0;
    var a100 := if y % 100 == 0 then 1 else 0;
    var a400 := if y % 400 == 0 then 1 else 0;
    assert DaysBeforeYear(y + 1) - DaysBeforeYear(y) == 365 + a4 - a100 + a400;
    if y % 400 == 0 {
      DivUnique(y, 100, 4 * (y / 400), 0);
    }
    if y % 100 == 0 {
      DivUnique(y, 4, 25 * (y / 100), 0);
    }
  }

  lemma {:induction false} DaysBeforeYearMonotone(a: int, b: int)
    requires 1 <= a <= b
    ensures DaysBeforeYear(a) + 365 * (b - a) <= DaysBeforeYear(b)
    decreases b - a
  {
    if a < b {
      DaysBeforeYearMonotone(a, b - 1);
      DaysBeforeYearStep(b - 1);
    }
  }

  lemma MonthsFillYear(y: int, m: int)
    requires 1 <= m <= 12
    ensures DaysBeforeMonth(y, m) + DaysInMonth(y, m) <= DaysInYear(y)
    ensures m < 12 ==> DaysBeforeMonth(y, m + 1) == DaysBeforeMonth(y, m) + DaysInMonth(y, m)
    ensures m == 12 ==> DaysBeforeMonth(y, m) + DaysInMonth(y, m) == DaysInYear(y)
  {
  }

  lemma {:induction false} DaysBeforeMonthMonotone(y: int, m: int, n: int)
    requires 1 <= m < n <= 12
    ensures DaysBeforeMonth(y, m) + DaysInMonth(y, m) <= DaysBeforeMonth(y, n)
    decreases n - m
  {
    MonthsFillYear(y, m);
    if m + 1 < n {
      DaysBeforeMonthMonotone(y, m + 1, n);
    }
  }

  /** A date's ordinal lies within the span of its own year. */
  lemma OrdinalInYear(d: Date)
    ensures DaysBeforeYear(d.year) < ToOrdinal(d) <= DaysBeforeYear(d.year + 1)
  {
    MonthsFillYear(d.year, d.month);
    DaysBeforeYearStep(d.year);
  }

  /** Ordinals run from 1 to that of 9999-12-31. */
  lemma OrdinalRange(d: Date)
    ensures 1 <= ToOrdinal(d) <= MaxOrdinal
  {
    OrdinalInYear(d);
    DaysBeforeYearMonotone(d.year + 1, MaxYear + 1);
  }

  /** An earlier date has a smaller ordinal. */
  lemma OrdinalBefore(d1: Date, d2: Date)
    requires Before(d1, d2)
    ensures ToOrdinal(d1) < ToOrdinal(d2)
  {
    if d1.year < d2.year {
      OrdinalInYear(d1);
      OrdinalInYear(d2);
      DaysBeforeYearMonotone(d1.year + 1, d2.year);
    } else if d1.month < d2.month {
      DaysBeforeMonthMonotone(d1.year, d1.month, d2.month);
    }
  }

  /** Comparing ordinals is comparing dates, so ordinals identify dates. */
  lemma OrdinalOrder(d1: Date, d2: Date)
    ensures ToOrdinal(d1) < ToOrdinal(d2) <==> Before(d1, d2)
    ensures ToOrdinal(d1) == ToOrdinal(d2) <==> d1 == d2
  {
    if Before(d1, d2) {
      OrdinalBefore(d1, d2);
    } else if Before(d2, d1) {
      OrdinalBefore(d2, d1);
    }
  }

  lemma LastDateIsFriday()
    ensures ToOrdinal(LastDate) == MaxOrdinal
    ensures Weekday(LastDate) == 4
  {
  }

  /** `d + timedelta(days=1)`, for every date but the last. */
  function NextDay(d: Date): (r: Date)
    requires d != LastDate
    ensures ToOrdinal(r) == ToOrdinal(d) + 1
  {
    if d.day < DaysInMonth(d.year, d.month) then Ymd(d.year, d.month, d.day + 1)
    else if d.month < 12 then MonthsFillYear(d.year, d.month); Ymd(d.year, d.month + 1, 1)
    else
      MonthsFillYear(d.year, d.month);
      DaysBeforeYearStep(d.year);
      Ymd(d.year + 1, 1, 1)
  }

  /** Weekday arithmetic on ordinals: stepping from ordinal `x`, whose
      weekday `(x + 6) % 7` is not `target`, to `x + 1` brings the target one
      day closer and leaves the day reached unchanged. */
  lemma WeekdayStep(x: int, w: int, w': int, target: int)
    requires 0 <= target < 7 && w == (x + 6) % 7 && w' == (x + 7) % 7 && w != target
    ensures (target - w') % 7 == (target - w) % 7 - 1
    ensures x + 1 + (target - w') % 7 == x + (target - w) % 7
  {
  }

  /** `find_next_weekday`: the first date on or after `d` whose weekday is
      `target`, found day by day; stepping past 9999-12-31 is an error. */
  function FindNextWeekday(d: Date, target: int): (r: Result<Date>)
    requires 0 <= target < 7
    ensures r.Ok? ==> Weekday(r.value) == target
    ensures r.Err? ==> r.error == DateOutOfRange
    decreases (target - Weekday(d)) % 7
  {
    if Weekday(d) == target then Ok(d)
    else if d == LastDate then Err(DateOutOfRange)
    else
      var next := NextDay(d);
      WeekdayStep(ToOrdinal(d), Weekday(d), Weekday(next), target);
      FindNextWeekday(next, target)
  }

  /** The search stops at the nearest date with the wanted weekday, and fails
      exactly when that date would lie after 9999-12-31. */
  lemma {:induction false} FindNextWeekdayNearest(d: Date, target: int)
    requires 0 <= target < 7
    ensures FindNextWeekday(d, target).Ok? <==> ToOrdinal(d) + (target - Weekday(d)) % 7 <= MaxOrdinal
    ensures FindNextWeekday(d, target).Ok? ==>
      ToOrdinal(FindNextWeekday(d, target).value) == ToOrdinal(d) + (target - Weekday(d)) % 7
    decreases (target - Weekday(d)) % 7
  {
    if Weekday(d) == target {
    } else if d == LastDate {
      LastDateIsFriday();
    } else {
      var next := NextDay(d);
      WeekdayStep(ToOrdinal(d), Weekday(d), Weekday(next), target);
      FindNextWeekdayNearest(next, target);
    }
  }

  /** `date.replace(year=y)`: the same month and day in year `y`. */
  function ReplaceYear(d: Date, y: int): (r: Result<Date>)
    ensures r.Ok? <==> MinYear <= y <= MaxYear && !(d.month == 2 && d.day == 29 && !IsLeap(y))
    ensures r.Ok? ==> r.value == Ymd(y, d.month, d.day)
    ensures r.Err? ==> r.error == DateOutOfRange
  {
    if MinYear <= y <= MaxYear && d.day <= DaysInMonth(y, d.month) then Ok(Ymd(y, d.month, d.day))
    else Err(DateOutOfRange)
  }
}
