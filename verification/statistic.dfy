/**
 * `StatisticView.get` and the two report builders: resolve the time window
 * named by `timeInterval`, fetch the business's orders since its start, and
 * assemble the line chart, the general statistic and one entry per
 * specialist. The orders and the clock reading `now` are parameters.
 */
module Statistic {
  import opened Wrappers
  import opened Calendar
  import opened IsoDates
  import opened Orders
  import opened PyDict
  import opened Charts
  import opened TimeBuckets
  import opened Aggregates
  import opened Popularity

  // ---------------------------------------------------------------- dispatch

  const InvalidSelector := "timeInterval value is not provided or invalid"

  predicate IsSelector(timeInterval: Option<string>) {
    timeInterval == Some("lastSevenDays") || timeInterval == Some("currentMonth")
    || timeInterval == Some("lastThreeMonthes")
  }

  /**
   * `orders_date`: the start of the window. The day windows start at a
   * date, which compares with a start time as its midnight; the three-month
   * window starts two months before `now`, at the same time of day.
   */
  function OrdersDate(timeInterval: Option<string>, now: Moment): (r: Result<Moment, string>)
    requires ValidMoment(now)
    ensures r.Failure? <==> !IsSelector(timeInterval)
    ensures r.Failure? ==> r.error == InvalidSelector
    ensures r.Success? ==> ValidMoment(r.value) && MomentNotAfter(r.value, now)
    ensures timeInterval == Some("lastSevenDays") ==>
      r.value.minute == 0 && AddDays(r.value.date, 6) == now.date
    ensures timeInterval == Some("currentMonth") ==>
      r.value.minute == 0 && r.value.date.day == 1
      && r.value.date.year == now.date.year && r.value.date.month == now.date.month
    ensures timeInterval == Some("lastThreeMonthes") ==>
      r.value == Moment(AddMonths(now.date, -2), now.minute)
      && MonthIndex(r.value.date) == MonthIndex(now.date) - 2
  {
    var today := now.date;
    if timeInterval == Some("lastSevenDays") then
      AddSubDays(today, 6);
      AddDaysIsLater(SubDays(today, 6), 6);
      Success(Midnight(SubDays(today, 6)))
    else if timeInterval == Some("currentMonth") then
      Success(Midnight(Date(today.year, today.month, 1)))
    else if timeInterval == Some("lastThreeMonthes") then
      EarlierMonthIsBefore(AddMonths(today, -2), today);
      Success(Moment(AddMonths(today, -2), now.minute))
    else
      Failure(InvalidSelector)
  }

  lemma EarlierMonthIsBefore(a: Date, b: Date)
    requires ValidDate(a) && ValidDate(b) && MonthIndex(a) < MonthIndex(b)
    ensures Before(a, b)
  {
  }

  /**
   * `business.get_orders_by_date(orders_date)`: the orders that start at or
   * after the window's start.
   */
  function OrdersSince(orders: seq<Order>, since: Moment): (r: seq<Order>)
    ensures |r| <= |orders|
    ensures forall o :: o in r <==> o in orders && MomentNotAfter(since, o.start)
  {
    if orders == [] then []
    else
      var init := OrdersSince(orders[..|orders| - 1], since);
      var o := orders[|orders| - 1];
      assert forall x :: x in orders <==> x in orders[..|orders| - 1] || x == o;
      if MomentNotAfter(since, o.start) then init + [o] else init
  }

  /** Every order from the window's start on is fetched as often as it occurs, and no other order. */
  lemma {:induction false} OrdersSinceCounts(orders: seq<Order>, since: Moment)
    ensures forall o :: multiset(OrdersSince(orders, since))[o] == if MomentNotAfter(since, o.start) then multiset(orders)[o] else 0
  {
    if orders != [] {
      var init := orders[..|orders| - 1];
      assert orders == init + [orders[|orders| - 1]];
      OrdersSinceCounts(init, since);
    }
  }

  // ---------------------------------------------------------------- general statistic

  datatype GeneralStat = GeneralStat(
    detailedCount: Dict<string, nat>,
    ordersCount: nat,
    profit: nat,          // cents
    averageOrder: nat,    // cents
    mostPopularService: string,
    leastPopularService: string)

  /**
   * `_general_statistic`: the order count is the number of orders, the
   * status breakdown adds up to it, and the revenue is at most the sum of all
   * prices. The popularity pair is the corrected one: "No orders" exactly
   * when there are no orders, and otherwise the as-written pair.
   */
  function GeneralStatistic(orders: seq<Order>): (g: GeneralStat)
    ensures g.ordersCount == |orders| && SumValues(g.detailedCount) == g.ordersCount
    ensures g.profit <= PriceSum(orders)
    ensures (g.mostPopularService, g.leastPopularService) == (NoOrders, NoOrders) <==> orders == []
    ensures orders != [] ==> (g.mostPopularService, g.leastPopularService) == MostLeastPopAsWritten(orders)
  {
    StatusCountsSum(orders);
    NoOrdersCase(orders);
    var (most, least) := MostLeastPop(orders);
    GeneralStat(StatusCounts(orders), |orders|, CalcSumOrdersPrice(orders), AverageOrder(orders), most, least)
  }

  /**
   * With no orders: zero counts under every status key and zero money. The
   * services read "No orders", where the code as written reports "Not enought data".
   */
  lemma EmptyGeneralStatistic(s: Status)
    ensures var g := GeneralStatistic([]);
      g.ordersCount == 0 && g.profit == 0 && g.averageOrder == 0
      && Get(g.detailedCount, StatusKey(s)) == Some(0)
      && g.mostPopularService == NoOrders && g.leastPopularService == NoOrders
      && MostLeastPopAsWritten([]) == (NotEnoughData, NotEnoughData)
  {
    StatusCountsCoverAll([], s);
    EmptyAsWrittenLosesNoOrders();
  }

  // ---------------------------------------------------------------- per specialist

  datatype SpecialistStat = SpecialistStat(
    mostPopService: string,
    leastPopService: string,
    ordersCount: nat,
    statuses: Dict<string, nat>,
    profit: nat)

  /** The entry of one specialist, computed from that specialist's orders alone. */
  function SpecialistStatOf(orders: seq<Order>, sp: Specialist): SpecialistStat {
    var mine := OrdersOf(orders, sp.id);
    var (most, least) := MostLeastPop(mine);
    SpecialistStat(most, least, |mine|, StatusCounts(mine), CalcSumOrdersPrice(mine))
  }

  /**
   * An entry's status breakdown adds up to its order count, which is at most
   * the number of orders; its popularity pair is "No orders" exactly when the
   * specialist has no order, and otherwise the as-written pair.
   */
  lemma SpecialistStatTotals(orders: seq<Order>, sp: Specialist)
    ensures var st := SpecialistStatOf(orders, sp);
      SumValues(st.statuses) == st.ordersCount <= |orders|
      && ((st.mostPopService, st.leastPopService) == (NoOrders, NoOrders) <==> st.ordersCount == 0)
      && (st.ordersCount > 0 ==>
            (st.mostPopService, st.leastPopService) == MostLeastPopAsWritten(OrdersOf(orders, sp.id)))
  {
    var mine := OrdersOf(orders, sp.id);
    StatusCountsSum(mine);
    NoOrdersCase(mine);
  }

  /** One (full name, entry) pair per specialist, in iteration order. */
  function SpecialistPairs(orders: seq<Order>, specialists: seq<Specialist>): (ps: seq<(string, SpecialistStat)>)
    ensures |ps| == |specialists|
  {
    if specialists == [] then []
    else
      var sp := specialists[|specialists| - 1];
      SpecialistPairs(orders, specialists[..|specialists| - 1]) + [(sp.fullName, SpecialistStatOf(orders, sp))]
  }

  lemma {:induction false} SpecialistPairsNames(orders: seq<Order>, specialists: seq<Specialist>)
    ensures forall j :: 0 <= j < |specialists| ==> SpecialistPairs(orders, specialists)[j].0 == specialists[j].fullName
  {
    if specialists != [] {
      var pre := specialists[..|specialists| - 1];
      SpecialistPairsNames(orders, pre);
      assert forall j :: 0 <= j < |pre| ==> specialists[j] == pre[j];
    }
  }

  lemma {:induction false} SpecialistPairsAt(orders: seq<Order>, specialists: seq<Specialist>, i: nat)
    requires i < |specialists|
    ensures SpecialistPairs(orders, specialists)[i] == (specialists[i].fullName, SpecialistStatOf(orders, specialists[i]))
  {
    if i < |specialists| - 1 {
      var pre := specialists[..|specialists| - 1];
      SpecialistPairsAt(orders, pre, i);
    }
  }

  /** `_detailed_statistic`: the entries assigned one by one under the specialists' full names. */
  method DetailedStatistic(orders: seq<Order>, specialists: seq<Specialist>)
    returns (report: Dict<string, SpecialistStat>)
    ensures report == FromPairs(SpecialistPairs(orders, specialists))
  {
    report := [];
    var i := 0;
    while i < |specialists|
      invariant 0 <= i <= |specialists|
      invariant report == FromPairs(SpecialistPairs(orders, specialists[..i]))
    {
      var sp := specialists[i];
      var stat := SpecialistStatOf(orders, sp);
      SpecialistPairsSnoc(orders, specialists, i);
      FromPairsSnoc(SpecialistPairs(orders, specialists[..i]), (sp.fullName, stat));
      report := Assign(report, sp.fullName, stat);
      i := i + 1;
    }
    assert specialists[..i] == specialists;
  }

  lemma SpecialistPairsSnoc(orders: seq<Order>, specialists: seq<Specialist>, i: nat)
    requires i < |specialists|
    ensures SpecialistPairs(orders, specialists[..i + 1])
         == SpecialistPairs(orders, specialists[..i]) + [(specialists[i].fullName, SpecialistStatOf(orders, specialists[i]))]
  {
    assert specialists[..i + 1][..i] == specialists[..i];
  }

  /** The report has an entry for a name exactly when some specialist has that full name. */
  lemma DetailedKeys(orders: seq<Order>, specialists: seq<Specialist>, name: string)
    ensures name in Keys(FromPairs(SpecialistPairs(orders, specialists)))
        <==> exists i :: 0 <= i < |specialists| && specialists[i].fullName == name
  {
    var ps := SpecialistPairs(orders, specialists);
    SpecialistPairsNames(orders, specialists);
    FromPairsKeys(ps, name);
    if name in Keys(ps) {
      var i :| 0 <= i < |ps| && Keys(ps)[i] == name;
      assert specialists[i].fullName == name;
    }
    if exists i :: 0 <= i < |specialists| && specialists[i].fullName == name {
      var i :| 0 <= i < |specialists| && specialists[i].fullName == name;
      assert Keys(ps)[i] == name;
    }
  }

  /**
   * The entry under a full name is the one of the last specialist with that
   * name: an earlier specialist with the same name is overwritten.
   */
  lemma DetailedLastWins(orders: seq<Order>, specialists: seq<Specialist>, i: nat)
    requires i < |specialists|
    requires forall j :: i < j < |specialists| ==> specialists[j].fullName != specialists[i].fullName
    ensures Get(FromPairs(SpecialistPairs(orders, specialists)), specialists[i].fullName)
         == Some(SpecialistStatOf(orders, specialists[i]))
  {
    var ps := SpecialistPairs(orders, specialists);
    SpecialistPairsNames(orders, specialists);
    SpecialistPairsAt(orders, specialists, i);
    FromPairsGet(ps, specialists[i].fullName);
    LastValueAt(ps, i);
  }

  lemma {:induction false} OrdersOfIdempotent(orders: seq<Order>, id: nat)
    ensures OrdersOf(OrdersOf(orders, id), id) == OrdersOf(orders, id)
  {
    if orders != [] {
      var init, o := orders[..|orders| - 1], orders[|orders| - 1];
      OrdersOfIdempotent(init, id);
      if o.specialist == id {
        var r := OrdersOf(init, id) + [o];
        assert r[..|r| - 1] == OrdersOf(init, id);
      }
    }
  }

  lemma OrdersOfOther(orders: seq<Order>, o: Order, id: nat)
    requires o.specialist != id
    ensures OrdersOf(orders + [o], id) == OrdersOf(orders, id)
  {
    assert (orders + [o])[..|orders|] == orders;
  }

  /**
   * A specialist's entry depends on that specialist's orders only: it is the
   * same when computed from them alone, and another specialist's order does
   * not change it.
   */
  lemma SpecialistStatIsLocal(orders: seq<Order>, sp: Specialist, o: Order)
    requires o.specialist != sp.id
    ensures SpecialistStatOf(OrdersOf(orders, sp.id), sp) == SpecialistStatOf(orders, sp)
    ensures SpecialistStatOf(orders + [o], sp) == SpecialistStatOf(orders, sp)
  {
    OrdersOfIdempotent(orders, sp.id);
    OrdersOfOther(orders, o, sp.id);
  }

  // ---------------------------------------------------------------- the view

  datatype Report = Report(
    labels: seq<string>,
    data: seq<nat>,
    general: GeneralStat,
    specialists: Dict<string, SpecialistStat>)

  datatype Response = BadRequest(detail: string) | Ok(report: Report)

  /** The line chart's buckets for a valid selector: the fetched orders, counted per day or per month. */
  function Chart(orders: seq<Order>, timeInterval: string, now: Moment): Dict<string, nat>
    requires ValidMoment(now) && IsSelector(Some(timeInterval))
  {
    var start := OrdersDate(Some(timeInterval), now).value;
    WindowFitsLoops(timeInterval, start, now);
    IntervalBuckets(OrdersSince(orders, start), timeInterval, start.date, now.date)
  }

  /**
   * The response of `get`, with both loops corrected: a bad request with the
   * selector message exactly when the selector is invalid; otherwise one data
   * point per label, and a general statistic over at most the given orders.
   */
  function StatisticResponse(orders: seq<Order>, specialists: seq<Specialist>, timeInterval: Option<string>, now: Moment)
    : (r: Response)
    requires ValidMoment(now)
    ensures r.BadRequest? <==> !IsSelector(timeInterval)
    ensures r.BadRequest? ==> r.detail == InvalidSelector
    ensures r.Ok? ==> |r.report.labels| == |r.report.data| && r.report.general.ordersCount <= |orders|
  {
    match OrdersDate(timeInterval, now)
    case Failure(e) => BadRequest(e)
    case Success(start) =>
      var fetched := OrdersSince(orders, start);
      var chart := Chart(orders, timeInterval.value, now);
      Ok(Report(Keys(chart), Values(chart), GeneralStatistic(fetched),
                FromPairs(SpecialistPairs(fetched, specialists))))
  }

  /** Each window's start satisfies what its loop needs to stop. */
  lemma WindowFitsLoops(timeInterval: string, start: Moment, now: Moment)
    requires ValidMoment(now) && IsSelector(Some(timeInterval))
    requires OrdersDate(Some(timeInterval), now) == Success(start)
    ensures ValidDate(start.date) && ValidDate(now.date)
    ensures IsDayInterval(timeInterval) ==> NotAfter(start.date, NextDay(now.date))
    ensures !IsDayInterval(timeInterval) ==> MonthIndex(start.date) <= MonthIndex(now.date) + 1
  {
  }

  /** `StatisticView.get` */
  method GetStatistics(orders: seq<Order>, specialists: seq<Specialist>, timeInterval: Option<string>, now: Moment)
    returns (resp: Response)
    requires ValidMoment(now)
    ensures resp.BadRequest? <==> !IsSelector(timeInterval)
    ensures resp == StatisticResponse(orders, specialists, timeInterval, now)
  {
    var ordersDate := OrdersDate(timeInterval, now);
    if ordersDate.Failure? {
      return BadRequest(ordersDate.error);
    }
    var start := ordersDate.value;
    var fetched := OrdersSince(orders, start);
    WindowFitsLoops(timeInterval.value, start, now);
    var buckets := CountOrdersByTimeInterval(fetched, timeInterval.value, start.date, now.date);
    var labels, data := Keys(buckets), Values(buckets);
    TypedValuesAccepted(labels, data);
    var chart := NewLineChart(StrValues(labels), IntValues(data));
    if chart.Failure? {
      assert false;
    }
    var general := GeneralStatistic(fetched);
    var detailed := DetailedStatistic(fetched, specialists);
    resp := Ok(Report(labels, data, general, detailed));
  }

  /**
   * "lastSevenDays": the chart has seven points, labelled with the ISO dates
   * of the last seven days in order, each counting the fetched orders that
   * start on that day.
   */
  lemma LastSevenDaysChart(orders: seq<Order>, now: Moment)
    requires ValidMoment(now)
    ensures var c := Chart(orders, "lastSevenDays", now);
      var start := SubDays(now.date, 6);
      var fetched := OrdersSince(orders, Midnight(start));
      |c| == 7
      && (forall k :: 0 <= k < 7 ==> c[k] == (IsoLabel(AddDays(start, k)), DayCount(fetched, AddDays(start, k))))
      && c[6].0 == IsoLabel(now.date)
  {
    LastSevenDaysBuckets(OrdersSince(orders, Midnight(SubDays(now.date, 6))), now.date);
  }

  /**
   * "currentMonth": one point per day of the month so far, the k-th for day
   * k + 1, each counting the fetched orders that start on that day.
   */
  lemma CurrentMonthChart(orders: seq<Order>, now: Moment)
    requires ValidMoment(now)
    ensures var c := Chart(orders, "currentMonth", now);
      var today := now.date;
      var fetched := OrdersSince(orders, Midnight(Date(today.year, today.month, 1)));
      |c| == today.day
      && forall k :: 0 <= k < today.day ==>
           c[k] == (IsoLabel(Date(today.year, today.month, k + 1)), DayCount(fetched, Date(today.year, today.month, k + 1)))
  {
    var today := now.date;
    CurrentMonthBuckets(OrdersSince(orders, Midnight(Date(today.year, today.month, 1))), today);
  }

  /**
   * For a day window, the chart's counts add up to the number of fetched
   * orders that start no later than today.
   */
  lemma DayChartSum(orders: seq<Order>, timeInterval: string, now: Moment)
    requires ValidMoment(now) && IsDayInterval(timeInterval)
    ensures var start := OrdersDate(Some(timeInterval), now).value;
      SumValues(Chart(orders, timeInterval, now)) == CountInWindow(OrdersSince(orders, start), start.date, now.date)
  {
    var start := OrdersDate(Some(timeInterval), now).value;
    WindowFitsLoops(timeInterval, start, now);
    DayBucketsSum(OrdersSince(orders, start), start.date, now.date);
  }

  /**
   * "lastThreeMonthes": three points, for the month two back, the previous
   * month and the current month, in that order, each labelled with its month
   * name and counting the fetched orders with that month number.
   */
  lemma LastThreeMonthesChart(orders: seq<Order>, now: Moment)
    requires ValidMoment(now)
    ensures var fetched := OrdersSince(orders, Moment(AddMonths(now.date, -2), now.minute));
      var m := MonthIndex(now.date);
      Chart(orders, "lastThreeMonthes", now)
      == [MonthBucket(fetched, MonthOfIndex(m - 2)), MonthBucket(fetched, MonthOfIndex(m - 1)),
          MonthBucket(fetched, now.date.month)]
  {
    var start := Moment(AddMonths(now.date, -2), now.minute);
    assert OrdersDate(Some("lastThreeMonthes"), now).value == start;
    assert !IsDayInterval("lastThreeMonthes");
    ThreeMonthBuckets(OrdersSince(orders, start), now.date);
  }
}
