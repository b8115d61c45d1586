// Civil dates, the day count used to compare them, and the JavaScript month arithmetic
// (`setMonth`) that the loan service uses for due dates.
module Calendar {

  // month counts months since January of year 0; day is the day of the month, from 1.
  datatype CivilDate = CivilDate(month: nat, day: nat)

  type Date = d: CivilDate | 1 <= d.day <= DaysInMonth(d.month) witness CivilDate(0, 1)

  // A reading of the process clock: the local date and the milliseconds since midnight.
  datatype Reading = Reading(date: Date, ms: nat)

  type Clock = c: Reading | c.ms < MS_PER_DAY witness Reading(CivilDate(0, 1), 0)

  const MS_PER_DAY: nat := 86_400_000
  const MS_PER_MONTH: nat := 30 * MS_PER_DAY

  predicate IsLeapYear(y: nat) {
    y % 4 == 0 && (y % 100 != 0 || y % 400 == 0)
  }

  function DaysInMonth(m: nat): (n: nat)
    ensures 28 <= n <= 31
  {
    var k := m % 12;
    if k == 1 then (if IsLeapYear(m / 12) then 29 else 28)
    else if k == 3 || k == 5 || k == 8 || k == 10 then 30
    else 31
  }

  function MonthStart(m: nat): nat {
    if m == 0 then 0 else MonthStart(m - 1) + DaysInMonth(m - 1)
  }

  // Days since 1 January of year 0.
  function Serial(d: CivilDate): int {
    MonthStart(d.month) + d.day - 1
  }

  // Milliseconds since the start of day 0, as getTime() counts them.
  function Instant(c: Clock): int {
    Serial(c.date) * MS_PER_DAY + c.ms
  }

  // setHours(0, 0, 0, 0)
  function Midnight(c: Clock): Clock {
    Reading(c.date, 0)
  }

  // calculateDaysBetween: the difference in milliseconds, floored to days.
  function DaysBetween(from: Clock, to: Clock): int {
    (Instant(to) - Instant(from)) / MS_PER_DAY
  }

  predicate NotBefore(later: Clock, earlier: Clock) {
    || Serial(earlier.date) < Serial(later.date)
    || (Serial(earlier.date) == Serial(later.date) && earlier.ms <= later.ms)
  }

  function NextDay(d: Date): Date {
    if d.day < DaysInMonth(d.month) then CivilDate(d.month, d.day + 1) else CivilDate(d.month + 1, 1)
  }

  // The source's test: tomorrow is the first of a month.
  predicate IsLastDayOfMonth(d: Date) {
    NextDay(d).day == 1
  }

  // JavaScript `setMonth(getMonth() + k)`: keep the day number, and let it run over into
  // the following month when the target month is too short.
  function AddMonths(d: Date, k: nat): Date {
    var m := d.month + k;
    if d.day <= DaysInMonth(m) then CivilDate(m, d.day) else CivilDate(m + 1, d.day - DaysInMonth(m))
  }

  lemma {:induction false} MonthStartGrows(a: nat, b: nat)
    requires a < b
    ensures MonthStart(a) + DaysInMonth(a) <= MonthStart(b)
  {
    if a + 1 == b {
    } else {
      MonthStartGrows(a, b - 1);
    }
  }

  // The day count orders dates as the calendar does, so it identifies a date.
  lemma SerialIsCalendarOrder(a: Date, b: Date)
    ensures Serial(a) < Serial(b) <==> a.month < b.month || (a.month == b.month && a.day < b.day)
    ensures Serial(a) == Serial(b) <==> a == b
  {
    if a.month < b.month {
      MonthStartGrows(a.month, b.month);
    } else if b.month < a.month {
      MonthStartGrows(b.month, a.month);
    }
  }

  // Midnight to midnight, the floored difference of instants is the difference of the day
  // counts; and a time lies before a midnight exactly when its day does.
  lemma DayCountsSuffice(due: Clock, now: Clock)
    ensures DaysBetween(Midnight(due), Midnight(now)) == Serial(now.date) - Serial(due.date)
    ensures Instant(due) < Instant(Midnight(now)) <==> Serial(due.date) < Serial(now.date)
  {
    var (d, n) := (Serial(due.date), Serial(now.date));
    assert (n * MS_PER_DAY - d * MS_PER_DAY) == (n - d) * MS_PER_DAY;
    hide Serial;
  }

  // Overflow never loses a day: k months on, the day count moved exactly as the months did.
  lemma AddMonthsSerial(d: Date, k: nat)
    ensures Serial(AddMonths(d, k)) == MonthStart(d.month + k) + d.day - 1
  {
  }

  // Consecutive monthly due dates lie one whole month apart, even when one of them overflowed.
  lemma MonthlyGap(d: Date, k: nat)
    ensures Serial(AddMonths(d, k + 1)) - Serial(AddMonths(d, k)) == DaysInMonth(d.month + k)
    ensures 28 <= Serial(AddMonths(d, k + 1)) - Serial(AddMonths(d, k)) <= 31
  {
    hide DaysInMonth, AddMonths, Serial;
    AddMonthsSerial(d, k);
    AddMonthsSerial(d, k + 1);
  }

  lemma {:induction false} AddMonthsGrows(d: Date, j: nat, k: nat)
    requires j < k
    ensures Serial(AddMonths(d, j)) + 28 * (k - j) <= Serial(AddMonths(d, k))
  {
    MonthlyGap(d, k - 1);
    if j + 1 == k {
    } else {
      AddMonthsGrows(d, j, k - 1);
    }
  }

  lemma AddZeroMonths(d: Date)
    ensures AddMonths(d, 0) == d
  {
  }

  // Two month ends in one month are the same day.
  lemma OneLastDayPerMonth(a: Date, b: Date)
    requires IsLastDayOfMonth(a) && IsLastDayOfMonth(b) && a.month == b.month
    ensures a == b
  {
  }
}
