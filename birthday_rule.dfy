/** The date on which a stored birthday is congratulated: its next
    anniversary on or after today, moved off a weekend onto the Monday. */
module BirthdayRule {
  import opened Outcomes
  import opened Calendar

  predicate IsLeapDay(d: Date) {
    d.month == 2 && d.day == 29
  }

  /** The birthday's month and day come earlier in the year than today's. */
  predicate PassedInYear(birthday: Date, today: Date) {
    birthday.month < today.month || (birthday.month == today.month && birthday.day < today.day)
  }

  /** This year's anniversary, or next year's when this year's is already
      past; `date.replace` raises when the day does not exist in that year. */
  function Anniversary(birthday: Date, today: Date): (r: Result<Date>)
    ensures r.Ok? ==> r.value.month == birthday.month && r.value.day == birthday.day
    ensures r.Ok? ==> ToOrdinal(today) <= ToOrdinal(r.value)
    ensures r.Ok? ==> today.year <= r.value.year <= today.year + 1
    ensures r.Err? ==> r.error == DateOutOfRange
  {
    match ReplaceYear(birthday, today.year)
    case Err(e) => Err(e)
    case Ok(thisYear) =>
      if ToOrdinal(thisYear) < ToOrdinal(today) then
        var nextYear := ReplaceYear(birthday, today.year + 1);
        if nextYear.Ok? then OrdinalOrder(today, nextYear.value); nextYear else nextYear
      else Ok(thisYear)
  }

  /** No date with the birthday's month and day lies between today and the
      anniversary: it is the earliest such date on or after today. */
  lemma AnniversaryIsEarliest(birthday: Date, today: Date, d: Date)
    requires Anniversary(birthday, today).Ok?
    requires d.month == birthday.month && d.day == birthday.day
    requires ToOrdinal(today) <= ToOrdinal(d)
    ensures ToOrdinal(Anniversary(birthday, today).value) <= ToOrdinal(d)
  {
    var a := Anniversary(birthday, today).value;
    OrdinalOrder(d, today);
    OrdinalOrder(a, d);
  }

  /** The anniversary cannot be taken exactly when the year it falls in has
      no such day: a 29 February outside a leap year, or a year after 9999. */
  lemma AnniversaryFails(birthday: Date, today: Date)
    ensures Anniversary(birthday, today).Err? <==>
      (IsLeapDay(birthday) && !IsLeap(today.year))
      || (PassedInYear(birthday, today)
          && (today.year == MaxYear || (IsLeapDay(birthday) && !IsLeap(today.year + 1))))
  {
    var thisYear := ReplaceYear(birthday, today.year);
    if thisYear.Ok? {
      OrdinalOrder(thisYear.value, today);
    }
  }

  /** A weekend ordinal is at least two days before 9999-12-31, a Friday. */
  lemma WeekendBeforeLastDay(x: int)
    requires 1 <= x <= MaxOrdinal && (x + 6) % 7 >= 5
    ensures (0 - (x + 6) % 7) % 7 == 7 - (x + 6) % 7
    ensures x + 2 <= MaxOrdinal
  {
  }

  /** Saturday and Sunday move forward to Monday; weekdays stay. */
  function ShiftWeekend(d: Date): (r: Date)
    ensures Weekday(d) == 5 ==> ToOrdinal(r) == ToOrdinal(d) + 2
    ensures Weekday(d) == 6 ==> ToOrdinal(r) == ToOrdinal(d) + 1
    ensures Weekday(d) < 5 ==> r == d
    ensures Weekday(r) < 5
  {
    if Weekday(d) >= 5 then
      OrdinalRange(d);
      WeekendBeforeLastDay(ToOrdinal(d));
      FindNextWeekdayNearest(d, 0);
      match FindNextWeekday(d, 0)
      case Ok(monday) => monday
      case Err(_) => assert false; d
    else d
  }

  /** The date the birthday is congratulated on, before the window check. */
  function CongratulationDate(birthday: Date, today: Date): (r: Result<Date>)
    ensures r.Ok? <==> Anniversary(birthday, today).Ok?
    ensures r.Ok? ==> r.value == ShiftWeekend(Anniversary(birthday, today).value)
    ensures r.Ok? ==> Weekday(r.value) < 5 && ToOrdinal(today) <= ToOrdinal(r.value)
  {
    match Anniversary(birthday, today)
    case Err(e) => Err(e)
    case Ok(a) => Ok(ShiftWeekend(a))
  }

  /** Every congratulation falls on a working day, no earlier than today and
      at most two days after the anniversary. */
  lemma CongratulationOnWorkingDay(birthday: Date, today: Date)
    requires CongratulationDate(birthday, today).Ok?
    ensures Weekday(CongratulationDate(birthday, today).value) < 5
    ensures var a := Anniversary(birthday, today).value;
      var c := CongratulationDate(birthday, today).value;
      ToOrdinal(today) <= ToOrdinal(a) <= ToOrdinal(c) <= ToOrdinal(a) + 2
  {
  }
}
