/**
 * `count_orders_by_time_interval`: the line chart's time series. For the two
 * day windows it walks day by day from the window's start through today and
 * records one count per ISO date; for the three-month window it walks month
 * by month and records one count per month name.
 */
module TimeBuckets {
  import opened Wrappers
  import opened Calendar
  import opened IsoDates
  import opened Orders
  import opened PyDict

  // ---------------------------------------------------------------- days

  /** The dates from `from` up to, not including, `stop`, one day apart. */
  function DaysFrom(from: Date, stop: Date): (ds: seq<Date>)
    requires ValidDate(from) && ValidDate(stop) && NotAfter(from, stop)
    ensures forall i :: 0 <= i < |ds| ==> ValidDate(ds[i])
    decreases stop.year - from.year, 12 - from.month, 31 - from.day
  {
    if from == stop then []
    else
      NextDayIsSuccessor(from, stop);
      [from] + DaysFrom(NextDay(from), stop)
  }

  /**
   * As written: `start_time__range=(d, d + timedelta(days=1))` turns both
   * dates into midnights and includes both ends.
   */
  predicate InDayRangeAsWritten(o: Order, d: Date)
    requires ValidDate(d)
  {
    MomentNotAfter(Midnight(d), o.start) && MomentNotAfter(o.start, Midnight(NextDay(d)))
  }

  /**
   * As written, the bucket of day d counts the orders that start on d and
   * also those that start exactly at the midnight that opens the next day.
   */
  function DayCountAsWritten(orders: seq<Order>, d: Date): (r: nat)
    requires ValidDate(d)
    ensures (forall i :: 0 <= i < |orders| ==> ValidMoment(orders[i].start)) ==>
      r == DayCount(orders, d) + MidnightCount(orders, NextDay(d))
  {
    if orders == [] then 0
    else
      InDayRangeAsWrittenIff(orders[|orders| - 1], d);
      DayCountAsWritten(orders[..|orders| - 1], d)
      + (if InDayRangeAsWritten(orders[|orders| - 1], d) then 1 else 0)
  }

  /** The orders that start exactly at the midnight that opens day e. */
  function MidnightCount(orders: seq<Order>, e: Date): nat {
    if orders == [] then 0
    else MidnightCount(orders[..|orders| - 1], e) + (if orders[|orders| - 1].start == Midnight(e) then 1 else 0)
  }

  lemma InDayRangeAsWrittenIff(o: Order, d: Date)
    requires ValidDate(d)
    ensures ValidMoment(o.start) ==>
      (InDayRangeAsWritten(o, d) <==> o.start.date == d || o.start == Midnight(NextDay(d)))
  {
    if ValidMoment(o.start) && Before(d, o.start.date) {
      NextDayIsSuccessor(d, o.start.date);
    }
  }

  /** Corrected: the orders that start on day d, from its midnight up to, not including, the next. */
  function DayCount(orders: seq<Order>, d: Date): nat {
    if orders == [] then 0
    else DayCount(orders[..|orders| - 1], d) + (if orders[|orders| - 1].start.date == d then 1 else 0)
  }

  /** One (label, count) pair per date. */
  function DayPairs(orders: seq<Order>, ds: seq<Date>): (ps: seq<(string, nat)>)
    ensures |ps| == |ds|
  {
    if ds == [] then []
    else DayPairs(orders, ds[..|ds| - 1]) + [(IsoLabel(ds[|ds| - 1]), DayCount(orders, ds[|ds| - 1]))]
  }

  lemma {:induction false} DayPairsAt(orders: seq<Order>, ds: seq<Date>, i: nat)
    requires i < |ds|
    ensures DayPairs(orders, ds)[i] == (IsoLabel(ds[i]), DayCount(orders, ds[i]))
  {
    if i < |ds| - 1 {
      DayPairsAt(orders, ds[..|ds| - 1], i);
    }
  }

  /**
   * The day loop as a function: from `d` until `stop`, assign each day's
   * count under its ISO label, then move to the next day.
   */
  function DayLoop(orders: seq<Order>, acc: Dict<string, nat>, d: Date, stop: Date): Dict<string, nat>
    requires ValidDate(d) && ValidDate(stop) && NotAfter(d, stop)
    decreases stop.year - d.year, 12 - d.month, 31 - d.day
  {
    if d == stop then acc
    else
      NextDayIsSuccessor(d, stop);
      DayLoop(orders, Assign(acc, IsoLabel(d), DayCount(orders, d)), NextDay(d), stop)
  }

  /** The day buckets from `start` through `today`, as the dictionary the loop builds. */
  function DayBuckets(orders: seq<Order>, start: Date, today: Date): Dict<string, nat>
    requires ValidDate(start) && ValidDate(today) && NotAfter(start, NextDay(today))
  {
    DayLoop(orders, [], start, NextDay(today))
  }

  method CountByDay(orders: seq<Order>, start: Date, today: Date) returns (buckets: Dict<string, nat>)
    requires ValidDate(start) && ValidDate(today) && NotAfter(start, NextDay(today))
    ensures buckets == DayBuckets(orders, start, today)
  {
    var stop := NextDay(today);
    buckets := [];
    var newDate := start;
    while newDate != stop
      invariant ValidDate(newDate) && NotAfter(newDate, stop)
      invariant DayLoop(orders, buckets, newDate, stop) == DayLoop(orders, [], start, stop)
      decreases stop.year - newDate.year, 12 - newDate.month, 31 - newDate.day
    {
      NextDayIsSuccessor(newDate, stop);
      var count := DayCount(orders, newDate);
      buckets := Assign(buckets, IsoLabel(newDate), count);
      newDate := NextDay(newDate);
    }
  }

  lemma DaysFromStep(pre: seq<Date>, d: Date, stop: Date)
    requires ValidDate(d) && ValidDate(stop) && Before(d, stop)
    ensures NotAfter(NextDay(d), stop)
    ensures pre + [d] + DaysFrom(NextDay(d), stop) == pre + DaysFrom(d, stop)
  {
    NextDayIsSuccessor(d, stop);
    assert DaysFrom(d, stop) == [d] + DaysFrom(NextDay(d), stop);
  }

  /** The loop's dictionary is `dict(...)` of the (label, count) pairs of the days it walks. */
  lemma {:induction false} DayLoopIsFromPairs(orders: seq<Order>, pre: seq<Date>, d: Date, stop: Date)
    requires ValidDate(d) && ValidDate(stop) && NotAfter(d, stop)
    ensures DayLoop(orders, FromPairs(DayPairs(orders, pre)), d, stop)
            == FromPairs(DayPairs(orders, pre + DaysFrom(d, stop)))
    decreases stop.year - d.year, 12 - d.month, 31 - d.day
  {
    if d == stop {
      assert pre + DaysFrom(d, stop) == pre;
    } else {
      DaysFromStep(pre, d, stop);
      DayPairsSnoc(orders, pre, d);
      DayLoopIsFromPairs(orders, pre + [d], NextDay(d), stop);
    }
  }

  lemma DayPairsSnoc(orders: seq<Order>, done: seq<Date>, d: Date)
    ensures FromPairs(DayPairs(orders, done + [d]))
            == Assign(FromPairs(DayPairs(orders, done)), IsoLabel(d), DayCount(orders, d))
  {
    assert (done + [d])[..|done|] == done;
  }

  lemma {:induction false} DaysFromMembers(from: Date, stop: Date, x: Date)
    requires ValidDate(from) && ValidDate(stop) && NotAfter(from, stop)
    ensures x in DaysFrom(from, stop) <==> ValidDate(x) && NotAfter(from, x) && Before(x, stop)
    decreases stop.year - from.year, 12 - from.month, 31 - from.day
  {
    if from != stop {
      DaysFromMembers(NextDay(from), stop, x);
    }
  }

  /** The walk visits the days in chronological order. */
  lemma {:induction false} DaysFromChronological(from: Date, stop: Date, i: nat, j: nat)
    requires ValidDate(from) && ValidDate(stop) && NotAfter(from, stop)
    requires i < j < |DaysFrom(from, stop)|
    ensures Before(DaysFrom(from, stop)[i], DaysFrom(from, stop)[j])
    decreases stop.year - from.year, 12 - from.month, 31 - from.day
  {
    var rest := DaysFrom(NextDay(from), stop);
    if i == 0 {
      DaysFromMembers(NextDay(from), stop, rest[j - 1]);
    } else {
      DaysFromChronological(NextDay(from), stop, i - 1, j - 1);
    }
  }

  /** Walking from d to the date n days later visits d + 0, ..., d + (n - 1). */
  lemma {:induction false} DaysFromAddDays(d: Date, n: nat)
    requires ValidDate(d)
    ensures NotAfter(d, AddDays(d, n))
    ensures DaysFrom(d, AddDays(d, n)) == seq(n, k requires 0 <= k => AddDays(d, k))
    decreases n
  {
    if n > 0 {
      AddDaysIsLater(d, n);
      DaysFromAddDays(NextDay(d), n - 1);
      var ds := DaysFrom(d, AddDays(d, n));
      assert ds == [d] + DaysFrom(NextDay(d), AddDays(NextDay(d), n - 1));
      forall k | 0 <= k < n ensures ds[k] == AddDays(d, k) {
        if k > 0 {
          assert AddDays(d, k) == AddDays(NextDay(d), k - 1);
        }
      }
    }
  }

  /** Every day bucket has its own label, so the loop's assignments only append. */
  lemma DayBucketsArePairs(orders: seq<Order>, start: Date, today: Date)
    requires ValidDate(start) && ValidDate(today) && NotAfter(start, NextDay(today))
    ensures DayBuckets(orders, start, today) == DayPairs(orders, DaysFrom(start, NextDay(today)))
  {
    var ds := DaysFrom(start, NextDay(today));
    var ps := DayPairs(orders, ds);
    assert DistinctKeys(ps) by {
      forall i, j | 0 <= i < j < |ps| ensures ps[i].0 != ps[j].0 {
        DaysFromChronological(start, NextDay(today), i, j);
        DayPairsAt(orders, ds, i);
        DayPairsAt(orders, ds, j);
        IsoLabelInjective(ds[i], ds[j]);
      }
    }
    FromPairsOfDistinct(ps);
    DayLoopIsFromPairs(orders, [], start, NextDay(today));
    assert [] + ds == ds;
  }

  /**
   * The buckets are labelled with the ISO dates of n consecutive days
   * ending today, in order, and each holds that day's order count.
   */
  lemma DayBucketsEndingToday(orders: seq<Order>, start: Date, today: Date, n: nat)
    requires ValidDate(start) && ValidDate(today) && n > 0 && AddDays(start, n - 1) == today
    ensures NotAfter(start, NextDay(today))
    ensures var b := DayBuckets(orders, start, today);
      |b| == n
      && (forall k :: 0 <= k < n ==> b[k] == (IsoLabel(AddDays(start, k)), DayCount(orders, AddDays(start, k))))
      && b[n - 1].0 == IsoLabel(today)
  {
    var stop := NextDay(today);
    assert AddDays(start, n) == stop by {
      AddDaysLast(start, n);
    }
    DaysFromAddDays(start, n);
    var ds := DaysFrom(start, stop);
    assert |ds| == n && forall k :: 0 <= k < n ==> ds[k] == AddDays(start, k);
    DayBucketsArePairs(orders, start, today);
    forall k | 0 <= k < n
      ensures DayBuckets(orders, start, today)[k] == (IsoLabel(ds[k]), DayCount(orders, ds[k]))
    {
      DayPairsAt(orders, ds, k);
    }
  }

  /** "lastSevenDays": seven buckets, from six days ago through today. */
  lemma LastSevenDaysBuckets(orders: seq<Order>, today: Date)
    requires ValidDate(today)
    ensures NotAfter(SubDays(today, 6), NextDay(today))
    ensures var start := SubDays(today, 6); var b := DayBuckets(orders, start, today);
      |b| == 7
      && (forall k :: 0 <= k < 7 ==> b[k] == (IsoLabel(AddDays(start, k)), DayCount(orders, AddDays(start, k))))
      && b[6].0 == IsoLabel(today)
  {
    AddSubDays(today, 6);
    DayBucketsEndingToday(orders, SubDays(today, 6), today, 7);
  }

  /** "currentMonth": one bucket per day of the month so far, the k-th for day k + 1. */
  lemma CurrentMonthBuckets(orders: seq<Order>, today: Date)
    requires ValidDate(today)
    ensures var start := Date(today.year, today.month, 1);
      ValidDate(start) && NotAfter(start, NextDay(today))
    ensures var b := DayBuckets(orders, Date(today.year, today.month, 1), today);
      |b| == today.day
      && forall k :: 0 <= k < today.day ==>
           b[k] == (IsoLabel(Date(today.year, today.month, k + 1)),
                    DayCount(orders, Date(today.year, today.month, k + 1)))
  {
    var start := Date(today.year, today.month, 1);
    AddDaysInMonth(today.year, today.month, today.day - 1);
    DayBucketsEndingToday(orders, start, today, today.day);
    forall k | 0 <= k < today.day ensures AddDays(start, k) == Date(today.year, today.month, k + 1) {
      AddDaysInMonth(today.year, today.month, k);
    }
  }

  // ---------------------------------------------------------------- counting days

  /** The number of orders that start on one of the dates ds. */
  function CountOnDays(orders: seq<Order>, ds: seq<Date>): nat {
    if orders == [] then 0
    else CountOnDays(orders[..|orders| - 1], ds) + (if orders[|orders| - 1].start.date in ds then 1 else 0)
  }

  /** The number of orders that start between `start` and `today`, both included. */
  function CountInWindow(orders: seq<Order>, start: Date, today: Date): nat {
    if orders == [] then 0
    else
      var d := orders[|orders| - 1].start.date;
      CountInWindow(orders[..|orders| - 1], start, today)
      + (if ValidDate(d) && NotAfter(start, d) && NotAfter(d, today) then 1 else 0)
  }

  lemma {:induction false} CountOnDaysSnoc(orders: seq<Order>, ds: seq<Date>, d: Date)
    requires d !in ds
    ensures CountOnDays(orders, ds + [d]) == CountOnDays(orders, ds) + DayCount(orders, d)
  {
    if orders != [] {
      CountOnDaysSnoc(orders[..|orders| - 1], ds, d);
    }
  }

  lemma SumDayPairsLast(orders: seq<Order>, ds: seq<Date>)
    requires ds != []
    ensures SumValues(DayPairs(orders, ds))
         == SumValues(DayPairs(orders, ds[..|ds| - 1])) + DayCount(orders, ds[|ds| - 1])
  {
    var p := DayPairs(orders, ds);
    assert p[..|p| - 1] == DayPairs(orders, ds[..|ds| - 1]);
  }

  lemma DistinctSplit(ds: seq<Date>)
    requires ds != [] && forall i, j :: 0 <= i < j < |ds| ==> ds[i] != ds[j]
    ensures var init := ds[..|ds| - 1];
      (forall i, j :: 0 <= i < j < |init| ==> init[i] != init[j])
      && ds[|ds| - 1] !in init && init + [ds[|ds| - 1]] == ds
  {
    var init := ds[..|ds| - 1];
    forall i, j | 0 <= i < j < |init| ensures init[i] != init[j] {
      assert init[i] == ds[i] && init[j] == ds[j];
    }
    forall i | 0 <= i < |init| ensures init[i] != ds[|ds| - 1] {
      assert init[i] == ds[i];
    }
  }

  lemma {:induction false} SumDayPairs(orders: seq<Order>, ds: seq<Date>)
    requires forall i, j :: 0 <= i < j < |ds| ==> ds[i] != ds[j]
    ensures SumValues(DayPairs(orders, ds)) == CountOnDays(orders, ds)
  {
    if ds == [] {
      CountOnDaysEmpty(orders);
    } else {
      var init, last := ds[..|ds| - 1], ds[|ds| - 1];
      DistinctSplit(ds);
      SumDayPairs(orders, init);
      SumDayPairsLast(orders, ds);
      CountOnDaysSnoc(orders, init, last);
    }
  }

  lemma {:induction false} CountOnDaysEmpty(orders: seq<Order>)
    ensures CountOnDays(orders, []) == 0
  {
    if orders != [] {
      CountOnDaysEmpty(orders[..|orders| - 1]);
    }
  }

  lemma {:induction false} CountOnWindowDays(orders: seq<Order>, start: Date, today: Date)
    requires ValidDate(start) && ValidDate(today) && NotAfter(start, NextDay(today))
    ensures CountOnDays(orders, DaysFrom(start, NextDay(today))) == CountInWindow(orders, start, today)
  {
    if orders != [] {
      CountOnWindowDays(orders[..|orders| - 1], start, today);
      DaysFromMembers(start, NextDay(today), orders[|orders| - 1].start.date);
    }
  }

  /**
   * Corrected day buckets partition the window: their counts add up to the
   * number of orders that start between the first day and today.
   */
  lemma DayBucketsSum(orders: seq<Order>, start: Date, today: Date)
    requires ValidDate(start) && ValidDate(today) && NotAfter(start, NextDay(today))
    ensures SumValues(DayBuckets(orders, start, today)) == CountInWindow(orders, start, today)
  {
    var ds := DaysFrom(start, NextDay(today));
    DayBucketsArePairs(orders, start, today);
    forall i, j | 0 <= i < j < |ds| ensures ds[i] != ds[j] {
      DaysFromChronological(start, NextDay(today), i, j);
    }
    SumDayPairs(orders, ds);
    CountOnWindowDays(orders, start, today);
  }

  /**
   * As written, an order that starts exactly at midnight falls in two day
   * buckets: the day it starts and the day before.
   */
  lemma MidnightOrderCountedTwice(o: Order, d: Date)
    requires ValidDate(d) && o.start == Midnight(NextDay(d))
    ensures DayCountAsWritten([o], d) == 1 && DayCountAsWritten([o], NextDay(d)) == 1
    ensures DayCount([o], d) == 0 && DayCount([o], NextDay(d)) == 1
  {
    assert [o][..0] == [];
  }

  /** Away from midnight, the as-written and corrected bucket counts agree. */
  lemma {:induction false} DayCountAgreesOffMidnight(orders: seq<Order>, d: Date)
    requires ValidDate(d)
    requires forall i :: 0 <= i < |orders| ==> ValidMoment(orders[i].start) && orders[i].start.minute != 0
    ensures DayCountAsWritten(orders, d) == DayCount(orders, d)
  {
    if orders != [] {
      DayCountAgreesOffMidnight(orders[..|orders| - 1], d);
    }
  }

  // ---------------------------------------------------------------- months

  /** `orders.filter(start_time__month=m).count()`: the month number alone, in any year. */
  function MonthCount(orders: seq<Order>, m: nat): nat {
    if orders == [] then 0
    else MonthCount(orders[..|orders| - 1], m) + (if orders[|orders| - 1].start.date.month == m then 1 else 0)
  }

  lemma MonthOfMonthIndex(d: Date)
    requires ValidDate(d)
    ensures MonthOfIndex(MonthIndex(d)) == d.month
  {
    assert MonthIndex(d) == d.year * 12 + (d.month - 1);
    assert (d.year * 12 + (d.month - 1)) % 12 == d.month - 1;
  }

  /** Two month indices less than a year apart name different months. */
  lemma MonthOfIndexWithinYear(i: int, j: int)
    requires i < j < i + 12
    ensures MonthOfIndex(i) != MonthOfIndex(j)
  {
    var q := i / 12;
    assert i == q * 12 + i % 12;
    assert j == q * 12 + (i % 12 + (j - i));
    if i % 12 + (j - i) < 12 {
      assert j % 12 == i % 12 + (j - i);
    } else {
      assert j == (q + 1) * 12 + (i % 12 + (j - i) - 12);
      assert j % 12 == i % 12 + (j - i) - 12;
    }
  }

  /**
   * The month loop, corrected. Its state is the month index of `new_date`
   * (adding `relativedelta(months=1)` adds one to it); from index i until the
   * index `stop`, assign each month's count under its name.
   */
  function MonthLoop(orders: seq<Order>, acc: Dict<string, nat>, i: int, stop: int): Dict<string, nat>
    requires i <= stop
    decreases stop - i
  {
    if i == stop then acc
    else MonthLoop(orders, Assign(acc, MonthName(MonthOfIndex(i)), MonthCount(orders, MonthOfIndex(i))), i + 1, stop)
  }

  /** The month buckets from the month of `start` through the current month. */
  function MonthBuckets(orders: seq<Order>, start: Date, today: Date): Dict<string, nat>
    requires MonthIndex(start) <= MonthIndex(today) + 1
  {
    MonthLoop(orders, [], MonthIndex(start), MonthIndex(today) + 1)
  }

  method CountByMonth(orders: seq<Order>, start: Date, today: Date) returns (buckets: Dict<string, nat>)
    requires ValidDate(start) && ValidDate(today) && MonthIndex(start) <= MonthIndex(today) + 1
    ensures buckets == MonthBuckets(orders, start, today)
  {
    var stop := MonthIndex(today) + 1;
    buckets := [];
    var newDate := start;
    while MonthIndex(newDate) != stop
      invariant ValidDate(newDate) && MonthIndex(newDate) <= stop
      invariant MonthLoop(orders, buckets, MonthIndex(newDate), stop) == MonthLoop(orders, [], MonthIndex(start), stop)
      decreases stop - MonthIndex(newDate)
    {
      MonthOfMonthIndex(newDate);
      MonthLoopStep(orders, buckets, MonthIndex(newDate), stop);
      var count := MonthCount(orders, newDate.month);
      buckets := Assign(buckets, MonthName(newDate.month), count);
      newDate := AddMonths(newDate, 1);
    }
  }

  lemma MonthLoopStep(orders: seq<Order>, acc: Dict<string, nat>, i: int, stop: int)
    requires i < stop
    ensures MonthLoop(orders, acc, i, stop)
         == MonthLoop(orders, Assign(acc, MonthName(MonthOfIndex(i)), MonthCount(orders, MonthOfIndex(i))), i + 1, stop)
  {
  }

  /**
   * The month loop as written: it stops when the month number equals the
   * current month's number plus one. `fuel` bounds the number of steps;
   * `None` means the loop had not stopped when the fuel ran out.
   */
  function MonthLoopAsWritten(orders: seq<Order>, acc: Dict<string, nat>, i: int, currentMonth: int, fuel: nat)
    : (r: Option<Dict<string, nat>>)
    ensures r.Some? ==> exists j :: i <= j <= i + fuel && MonthOfIndex(j) == currentMonth + 1
    decreases fuel
  {
    if MonthOfIndex(i) == currentMonth + 1 then Some(acc)
    else if fuel == 0 then None
    else MonthLoopAsWritten(orders, Assign(acc, MonthName(MonthOfIndex(i)), MonthCount(orders, MonthOfIndex(i))),
                            i + 1, currentMonth, fuel - 1)
  }

  lemma AsWrittenStep(orders: seq<Order>, acc: Dict<string, nat>, i: int, currentMonth: int, fuel: nat)
    requires MonthOfIndex(i) != currentMonth + 1 && fuel > 0
    ensures MonthLoopAsWritten(orders, acc, i, currentMonth, fuel)
         == MonthLoopAsWritten(orders, Assign(acc, MonthName(MonthOfIndex(i)), MonthCount(orders, MonthOfIndex(i))),
                               i + 1, currentMonth, fuel - 1)
  {
  }

  /**
   * In December the as-written exit test never holds: no month number is 13.
   * With unbounded years the loop does not stop; Python's dates end at 9999.
   */
  lemma {:induction false} DecemberLoopNeverEnds(orders: seq<Order>, acc: Dict<string, nat>, i: int, fuel: nat)
    ensures MonthLoopAsWritten(orders, acc, i, 12, fuel) == None
    decreases fuel
  {
    if fuel > 0 {
      DecemberLoopNeverEnds(orders, Assign(acc, MonthName(MonthOfIndex(i)), MonthCount(orders, MonthOfIndex(i))),
                            i + 1, fuel - 1);
    }
  }

  /**
   * Outside December, and for a start less than eleven months back, the
   * as-written loop stops after as many steps as the corrected one and
   * builds the same dictionary.
   */
  lemma {:induction false} MonthLoopAgrees(orders: seq<Order>, acc: Dict<string, nat>, i: int, today: Date, fuel: nat)
    requires ValidDate(today) && today.month != 12
    requires MonthIndex(today) - 10 <= i <= MonthIndex(today) + 1
    requires fuel >= MonthIndex(today) + 1 - i
    ensures MonthLoopAsWritten(orders, acc, i, today.month, fuel) == Some(MonthLoop(orders, acc, i, MonthIndex(today) + 1))
    decreases MonthIndex(today) + 1 - i
  {
    StopMonth(today);
    if i != MonthIndex(today) + 1 {
      NotStopMonth(i, today);
      AsWrittenStep(orders, acc, i, today.month, fuel);
      MonthLoopStep(orders, acc, i, MonthIndex(today) + 1);
      MonthLoopAgrees(orders, Assign(acc, MonthName(MonthOfIndex(i)), MonthCount(orders, MonthOfIndex(i))),
                      i + 1, today, fuel - 1);
    }
  }

  /** Outside December, the month after the current one has the next month number. */
  lemma StopMonth(today: Date)
    requires ValidDate(today) && today.month != 12
    ensures MonthOfIndex(MonthIndex(today) + 1) == today.month + 1
  {
    var i := MonthIndex(today);
    MonthOfMonthIndex(today);
    assert i % 12 == today.month - 1;
    assert i + 1 == (i / 12) * 12 + (i % 12 + 1);
  }

  /** No month of the eleven up to the current one has the next month number. */
  lemma NotStopMonth(i: int, today: Date)
    requires ValidDate(today) && today.month != 12
    requires MonthIndex(today) - 10 <= i <= MonthIndex(today)
    ensures MonthOfIndex(i) != today.month + 1
  {
    StopMonth(today);
    MonthOfIndexWithinYear(i, MonthIndex(today) + 1);
  }

  /** The (label, count) pair of month number m. */
  function MonthBucket(orders: seq<Order>, m: int): (string, nat)
    requires 1 <= m <= 12
  {
    (MonthName(m), MonthCount(orders, m))
  }

  /**
   * "lastThreeMonthes": three buckets, named after the month two months back,
   * the previous month and the current month, each counting its month number.
   */
  lemma ThreeMonthBuckets(orders: seq<Order>, today: Date)
    requires ValidDate(today)
    ensures MonthIndex(AddMonths(today, -2)) <= MonthIndex(today) + 1
    ensures MonthBuckets(orders, AddMonths(today, -2), today)
         == [MonthBucket(orders, MonthOfIndex(MonthIndex(today) - 2)),
             MonthBucket(orders, MonthOfIndex(MonthIndex(today) - 1)),
             MonthBucket(orders, today.month)]
  {
    var i := MonthIndex(today) - 2;
    MonthOfMonthIndex(today);
    ThreeDistinctMonths(i);
    MonthLoopThreeSteps(orders, i);
    AssignThree(MonthBucket(orders, MonthOfIndex(i)), MonthBucket(orders, MonthOfIndex(i + 1)),
                MonthBucket(orders, MonthOfIndex(i + 2)));
  }

  lemma MonthLoopThreeSteps(orders: seq<Order>, i: int)
    ensures var b0, b1, b2 := MonthBucket(orders, MonthOfIndex(i)), MonthBucket(orders, MonthOfIndex(i + 1)),
                              MonthBucket(orders, MonthOfIndex(i + 2));
      MonthLoop(orders, [], i, i + 3) == Assign(Assign(Assign([], b0.0, b0.1), b1.0, b1.1), b2.0, b2.1)
  {
    var b0, b1, b2 := MonthBucket(orders, MonthOfIndex(i)), MonthBucket(orders, MonthOfIndex(i + 1)),
                      MonthBucket(orders, MonthOfIndex(i + 2));
    var e1 := Assign([], b0.0, b0.1);
    var e2 := Assign(e1, b1.0, b1.1);
    var e3 := Assign(e2, b2.0, b2.1);
    assert MonthLoop(orders, e3, i + 3, i + 3) == e3;
    assert MonthLoop(orders, e2, i + 2, i + 3) == e3;
    assert MonthLoop(orders, e1, i + 1, i + 3) == e3;
  }

  /** Three consecutive months have three different names. */
  lemma ThreeDistinctMonths(i: int)
    ensures MonthName(MonthOfIndex(i)) != MonthName(MonthOfIndex(i + 1))
    ensures MonthName(MonthOfIndex(i)) != MonthName(MonthOfIndex(i + 2))
    ensures MonthName(MonthOfIndex(i + 1)) != MonthName(MonthOfIndex(i + 2))
  {
    MonthOfIndexWithinYear(i, i + 1);
    MonthOfIndexWithinYear(i, i + 2);
    MonthOfIndexWithinYear(i + 1, i + 2);
    MonthNameInjective(MonthOfIndex(i), MonthOfIndex(i + 1));
    MonthNameInjective(MonthOfIndex(i), MonthOfIndex(i + 2));
    MonthNameInjective(MonthOfIndex(i + 1), MonthOfIndex(i + 2));
  }

  /** The two day selectors take the day loop; every other value takes the month loop. */
  predicate IsDayInterval(timeInterval: string) {
    timeInterval == "lastSevenDays" || timeInterval == "currentMonth"
  }

  /** What `count_orders_by_time_interval` returns, with both loops corrected. */
  function IntervalBuckets(orders: seq<Order>, timeInterval: string, start: Date, today: Date): Dict<string, nat>
    requires ValidDate(start) && ValidDate(today)
    requires IsDayInterval(timeInterval) ==> NotAfter(start, NextDay(today))
    requires !IsDayInterval(timeInterval) ==> MonthIndex(start) <= MonthIndex(today) + 1
  {
    if IsDayInterval(timeInterval) then DayBuckets(orders, start, today) else MonthBuckets(orders, start, today)
  }

  method CountOrdersByTimeInterval(orders: seq<Order>, timeInterval: string, start: Date, today: Date)
    returns (buckets: Dict<string, nat>)
    requires ValidDate(start) && ValidDate(today)
    requires IsDayInterval(timeInterval) ==> NotAfter(start, NextDay(today))
    requires !IsDayInterval(timeInterval) ==> MonthIndex(start) <= MonthIndex(today) + 1
    ensures buckets == IntervalBuckets(orders, timeInterval, start, today)
  {
    if timeInterval == "lastSevenDays" || timeInterval == "currentMonth" {
      buckets := CountByDay(orders, start, today);
    } else {
      buckets := CountByMonth(orders, start, today);
    }
  }
}
