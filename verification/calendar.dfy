/**
 * The proleptic Gregorian calendar used by Python's `date`, `timedelta` and
 * `relativedelta`: valid dates, the next and previous day, shifting by whole
 * months with the day clamped to the length of the target month, and the
 * chronological (lexicographic) order on dates.
 */
module Calendar {

  datatype Date = Date(year: int, month: nat, day: nat)

  /** A point in time to the minute: a date and the minutes since its midnight. */
  datatype Moment = Moment(date: Date, minute: int)

  const MinutesPerDay := 1440

  predicate IsLeapYear(y: int) {
    y % 4 == 0 && (y % 100 != 0 || y % 400 == 0)
  }

  function DaysInMonth(y: int, m: int): (n: int)
    requires 1 <= m <= 12
    ensures 28 <= n <= 31
    ensures n == 29 <==> m == 2 && IsLeapYear(y)
  {
    if m == 2 then (if IsLeapYear(y) then 29 else 28)
    else if m == 4 || m == 6 || m == 9 || m == 11 then 30
    else 31
  }

  predicate ValidDate(d: Date) {
    1 <= d.month <= 12 && 1 <= d.day <= DaysInMonth(d.year, d.month)
  }

  predicate ValidMoment(t: Moment) {
    ValidDate(t.date) && 0 <= t.minute < MinutesPerDay
  }

  /** Strict chronological order: years, then months, then days. */
  predicate Before(a: Date, b: Date) {
    a.year < b.year
    || (a.year == b.year && a.month < b.month)
    || (a.year == b.year && a.month == b.month && a.day < b.day)
  }

  predicate NotAfter(a: Date, b: Date) {
    a == b || Before(a, b)
  }

  /** Chronological order on moments: `a <= b`. */
  predicate MomentNotAfter(a: Moment, b: Moment) {
    Before(a.date, b.date) || (a.date == b.date && a.minute <= b.minute)
  }

  /** Midnight at the start of a date, as a date compares with a `DateTimeField`. */
  function Midnight(d: Date): Moment {
    Moment(d, 0)
  }

  /** `d + timedelta(days=1)` */
  function NextDay(d: Date): (r: Date)
    requires ValidDate(d)
    ensures ValidDate(r) && Before(d, r)
  {
    if d.day < DaysInMonth(d.year, d.month) then Date(d.year, d.month, d.day + 1)
    else if d.month < 12 then Date(d.year, d.month + 1, 1)
    else Date(d.year + 1, 1, 1)
  }

  /** No valid date lies strictly between a date and the next day. */
  lemma NextDayIsSuccessor(d: Date, e: Date)
    requires ValidDate(d) && ValidDate(e) && Before(d, e)
    ensures NotAfter(NextDay(d), e)
  {
  }

  /** `d - timedelta(days=1)` */
  function PrevDay(d: Date): (r: Date)
    requires ValidDate(d)
    ensures ValidDate(r) && NextDay(r) == d
  {
    if d.day > 1 then Date(d.year, d.month, d.day - 1)
    else if d.month > 1 then Date(d.year, d.month - 1, DaysInMonth(d.year, d.month - 1))
    else Date(d.year - 1, 12, 31)
  }

  /** `d + timedelta(days=k)` */
  function AddDays(d: Date, k: nat): (r: Date)
    requires ValidDate(d)
    ensures ValidDate(r)
    decreases k
  {
    if k == 0 then d else AddDays(NextDay(d), k - 1)
  }

  /** `d - timedelta(days=k)` */
  function SubDays(d: Date, k: nat): (r: Date)
    requires ValidDate(d)
    ensures ValidDate(r)
    decreases k
  {
    if k == 0 then d else SubDays(PrevDay(d), k - 1)
  }

  lemma {:induction false} AddDaysLast(d: Date, k: nat)
    requires ValidDate(d) && k > 0
    ensures AddDays(d, k) == NextDay(AddDays(d, k - 1))
    decreases k
  {
    if k > 1 {
      AddDaysLast(NextDay(d), k - 1);
    }
  }

  lemma {:induction false} AddDaysIsLater(d: Date, k: nat)
    requires ValidDate(d) && k > 0
    ensures Before(d, AddDays(d, k))
    decreases k
  {
    if k > 1 {
      AddDaysIsLater(NextDay(d), k - 1);
    }
  }

  /** Going back k days and then forward k days returns to the same date. */
  lemma {:induction false} AddSubDays(d: Date, k: nat)
    requires ValidDate(d)
    ensures AddDays(SubDays(d, k), k) == d
    decreases k
  {
    if k > 0 {
      var p := PrevDay(d);
      AddSubDays(p, k - 1);
      AddDaysLast(SubDays(p, k - 1), k);
    }
  }

  /** Within one month, adding days only moves the day of the month. */
  lemma {:induction false} AddDaysInMonth(y: int, m: int, k: nat)
    requires 1 <= m <= 12 && 1 + k <= DaysInMonth(y, m)
    ensures AddDays(Date(y, m, 1), k) == Date(y, m, 1 + k)
  {
    if k > 0 {
      AddDaysInMonth(y, m, k - 1);
      AddDaysLast(Date(y, m, 1), k);
    }
  }

  /** Months counted from January of year 0, so that consecutive months differ by one. */
  function MonthIndex(d: Date): int {
    d.year * 12 + d.month - 1
  }

  /** The month number (1 to 12) of a month index. */
  function MonthOfIndex(i: int): (m: int)
    ensures 1 <= m <= 12
  {
    i % 12 + 1
  }

  function Min(a: int, b: int): int {
    if a <= b then a else b
  }

  /** `d + relativedelta(months=k)`: the day is clamped to the target month's length. */
  function AddMonths(d: Date, k: int): (r: Date)
    requires ValidDate(d)
    ensures ValidDate(r)
    ensures MonthIndex(r) == MonthIndex(d) + k
    ensures r.month == MonthOfIndex(MonthIndex(d) + k)
    ensures r.day == Min(d.day, DaysInMonth(r.year, r.month))
  {
    var i := MonthIndex(d) + k;
    var y, m := i / 12, i % 12 + 1;
    Date(y, m, Min(d.day, DaysInMonth(y, m)))
  }

  /** Month names as `strftime("%B")` prints them in the C locale. */
  const MonthNames: seq<string> := ["January", "February", "March", "April", "May", "June",
    "July", "August", "September", "October", "November", "December"]

  function MonthName(m: int): string
    requires 1 <= m <= 12
  {
    MonthNames[m - 1]
  }

  lemma MonthNameInjective(m: int, n: int)
    requires 1 <= m <= 12 && 1 <= n <= 12
    ensures MonthName(m) == MonthName(n) <==> m == n
  {
  }
}
