# Business statistics of the beauty-salon API, modelled in Dafny

This project models the statistics view of the salon-booking API
(`beauty/api/views/statistic.py`). A business owner asks for one of three
time windows: `lastSevenDays`, `currentMonth` or `lastThreeMonthes`. The
view then answers with three things:

- a line chart of order counts per day or per month;
- a general statistic: orders per status, order count, revenue from
  completed orders, average order value, and the most and least popular
  service;
- one entry per specialist, keyed by the specialist's full name.

How the model is organised:

- Each queryset becomes a `seq<Order>`. A Python `dict` becomes an
  association list in insertion order (`PyDict`).
- Reading the clock becomes a parameter `now`. The time of day of `now` is
  kept to the minute, because the three-month window starts at that time.
- The two bucketing loops of `count_orders_by_time_interval` become methods
  with `while` loops. Each is proved equal to a tail-recursive function of
  its inputs, and the properties are proved about those functions.
- The per-specialist loop of `_detailed_statistic` is a method proved equal
  to `dict(pairs)`.
- `LineChart` is a class whose constructor stores the labels and the data.

Modules, one per file:

| file | module | what it holds |
|---|---|---|
| wrappers.dfy | Wrappers | `Option`, `Result` |
| calendar.dfy | Calendar | proleptic Gregorian dates; `timedelta(days=k)`, `relativedelta(months=k)`; month names |
| iso_dates.dfy | IsoDates | `str(date)` and its inverse |
| py_dict.dfy | PyDict | dict assignment, `dict(pairs)`, `get`, `sum(values())` |
| orders.dfy | Orders | `Order`, `Status`, `Specialist`, `str.capitalize`, the status and specialist filters |
| charts.dfy | Charts | `LineChart` and its type checks |
| time_buckets.dfy | TimeBuckets | `count_orders_by_time_interval` |
| aggregates.dfy | Aggregates | `count_orders_by_status`, `calc_sum_orders_price`, the average |
| popularity.dfy | Popularity | `get_most_least_pop_service` |
| statistic.dfy | Statistic | `StatisticView.get`, `_general_statistic`, `_detailed_statistic` |

The model keeps the code's spellings:

- The three-month selector is spelled `lastThreeMonthes`.
- The tie sentinel is spelled `Not enought data`.

In three places the code as written is evidently not what was intended
(see "## Findings"). The model states each as written, and the report is
built from the corrected version:

- the month loop's exit test;
- the day buckets' inclusive range;
- the "No orders" result for an empty order set. The code always
  overwrites it with `Not enought data`; the report says "No orders".

## Model

| member | source | states |
|---|---|---|
| Charts.AllStr | beauty/api/views/statistic.py:26 | the `all(isinstance(label, str) ...)` test holds exactly when every element is a string |
| Charts.AllInt | beauty/api/views/statistic.py:32 | the `all(isinstance(el, int) ...)` test holds exactly when every element is an int (a bool counts as an int) |
| Charts.ConstructionError | beauty/api/views/statistic.py:24-34 | no error exactly when all labels are strings and all data are ints; the labels error exactly when some label is not a string; the data error exactly when the labels pass and some data element is not an int |
| Charts.LineChart.constructor | beauty/api/views/statistic.py:36-37 | the chart stores the labels and the data unchanged |
| Charts.NewLineChart | beauty/api/views/statistic.py:24-37 | construction fails exactly when a check fails, with that check's message; otherwise a new chart holds the inputs unchanged |
| Charts.TypedValuesAccepted | beauty/api/views/statistic.py:75-78 | the view's string labels and integer counts always pass both checks |
| Statistic.OrdersDate | beauty/api/views/statistic.py:51-66 | failure, with the 400 message, exactly when the selector is missing or not one of the three names; "lastSevenDays" starts at midnight six days before today, "currentMonth" at midnight of the first of the month, "lastThreeMonthes" at `now - relativedelta(months=2)` to the minute; every start is a valid moment no later than now |
| Statistic.OrdersSince | beauty/api/views/statistic.py:69 | an order is fetched exactly when it starts at or after the window start |
| Statistic.OrdersSinceCounts | beauty/api/views/statistic.py:69 | each fetched order occurs as often as in the business's orders, and no other order occurs |
| Statistic.WindowFitsLoops | beauty/api/views/statistic.py:52-60 | each window start lies where its loop stops: a day window starts no later than tomorrow; the month window starts no later than next month |
| Statistic.GetStatistics | beauty/api/views/statistic.py:47-91 | a bad request exactly when the selector is invalid; otherwise the chart labels and data are the keys and values of the buckets of the fetched orders, with the general and detailed statistics of the same orders |
| Statistic.StatisticResponse | beauty/api/views/statistic.py:47-91 | a bad request with the selector message exactly when the selector is invalid; otherwise as many data points as labels, and a general statistic over at most the given orders |
| Statistic.LastSevenDaysChart | beauty/api/views/statistic.py:52-53 | corrected: "lastSevenDays" gives exactly seven points, labelled with the ISO dates from six days ago through today in order; each counts the fetched orders of its day |
| Statistic.CurrentMonthChart | beauty/api/views/statistic.py:55-56 | corrected: "currentMonth" gives `today.day` points; point k is for day k + 1 of the month |
| Statistic.DayChartSum | beauty/api/views/statistic.py:71-76 | corrected: for a day window the chart's data add up to the fetched orders that start between the window start and today |
| Statistic.LastThreeMonthesChart | beauty/api/views/statistic.py:58-60 | corrected month loop: "lastThreeMonthes" gives three points, for the month two back, the previous month and the current month, in order; each is labelled with its month name and counts the fetched orders with that month number |
| Statistic.GeneralStatistic | beauty/api/views/statistic.py:97-124 | the order count is the number of orders and the status breakdown adds up to it; the revenue is at most the sum of all prices; the services are "No orders" exactly for no orders (corrected), and otherwise the as-written pair |
| Statistic.EmptyGeneralStatistic | beauty/api/views/statistic.py:97-124 | with no orders, the count, revenue and average are 0 and every status key maps to 0; the services read "No orders", where the code as written gives "Not enought data" |
| Statistic.SpecialistStatTotals | beauty/api/views/statistic.py:130-151 | the entry `SpecialistStatOf` builds: its status breakdown adds up to its order count, which is at most the number of orders; its services are "No orders" exactly when the specialist has no order (corrected), and otherwise the as-written pair |
| Statistic.DetailedStatistic | beauty/api/views/statistic.py:126-155 | the loop builds `dict(pairs)` of the specialists' (full name, entry) pairs |
| Statistic.DetailedKeys | beauty/api/views/statistic.py:153 | the report has a key exactly when some specialist has that full name |
| Statistic.DetailedLastWins | beauty/api/views/statistic.py:153 | under a repeated full name, the report holds the entry of the last specialist with that name |
| Statistic.OrdersOfIdempotent | beauty/api/views/statistic.py:132 | filtering by specialist twice is filtering once |
| Statistic.SpecialistStatIsLocal | beauty/api/views/statistic.py:132-151 | an entry depends only on that specialist's orders; another specialist's order leaves it unchanged |
| Orders.OrdersOf | beauty/api/views/statistic.py:132 | an order is kept exactly when it belongs to the specialist |
| Orders.OrdersOfCounts | beauty/api/views/statistic.py:132-133 | each of the specialist's orders is kept as often as it occurs, and no other order, so the count is the specialist's number of orders |
| Orders.CapitalizeChars | beauty/api/views/statistic.py:175 | `capitalize` keeps the length, upper-cases the first character and lower-cases the rest |
| Aggregates.StatusKeyInjective | beauty/api/views/statistic.py:175 | two statuses get the same key exactly when they are the same status |
| Aggregates.StatusCountsKeys | beauty/api/views/statistic.py:172-178 | the keys are "Pending", "Approved", "Declined", "Completed", "Cancelled", in that order |
| Aggregates.StatusCountsDistinct | beauty/api/views/statistic.py:174-177 | the comprehension's keys are distinct, so no status overwrites another |
| Aggregates.StatusCountsCoverAll | beauty/api/views/statistic.py:172-178 | every status is present under its key, even with a count of 0, and maps to its number of orders |
| Aggregates.StatusCountsSum | beauty/api/views/statistic.py:172-178 | the values add up to the number of orders |
| Aggregates.CompletedOnly | beauty/api/views/statistic.py:160-162 | keeps exactly the completed orders; its length is their count |
| Aggregates.CompletedOnlyCounts | beauty/api/views/statistic.py:160-162 | each completed order is kept as often as it occurs, and no other order |
| Aggregates.CalcSumOrdersPrice | beauty/api/views/statistic.py:158-169 | the revenue of the completed orders never exceeds the sum of all prices |
| Aggregates.RevenueStep | beauty/api/views/statistic.py:158-169 | one more order adds its price to the revenue when it is completed, and nothing otherwise |
| Aggregates.RevenueAppend | beauty/api/views/statistic.py:158-169 | the revenue of two order lists joined is the sum of their revenues |
| Aggregates.RevenueWithoutCompleted | beauty/api/views/statistic.py:166-167 | with no completed order the revenue is 0 |
| Aggregates.RevenueIgnoresOtherPrices | beauty/api/views/statistic.py:160-164 | changing the price of an order that is not completed leaves the revenue unchanged |
| Aggregates.DivRoundHalfEven | beauty/api/views/statistic.py:111 | the quotient rounded to the nearest cent; a tie goes to the even neighbour |
| Aggregates.AverageOrder | beauty/api/views/statistic.py:104-111 | 0 with no orders; otherwise the whole number of cents nearest to the mean price |
| Aggregates.AverageOfEqualPrices | beauty/api/views/statistic.py:104-111 | when every order has the same price, the average is that price |
| Popularity.ServiceNames | beauty/api/views/statistic.py:211-213 | the service groups are distinct names |
| Popularity.ServiceNamesMembers | beauty/api/views/statistic.py:211-213 | a name is a group exactly when some order has that service |
| Popularity.ServiceTotalsPartition | beauty/api/views/statistic.py:211-213 | the groups have distinct names, a name has a group exactly when some order has that service, and the group totals add up to the number of orders |
| Popularity.FirstMaxIndex | beauty/api/views/statistic.py:216-217 | `max` picks a row with the largest total, the first such row |
| Popularity.FirstMinIndex | beauty/api/views/statistic.py:218-219 | `min` picks a row with the smallest total, the first such row |
| Popularity.MaxIsMinIffTied | beauty/api/views/statistic.py:216-219 | `max` and `min` pick the same row exactly when all totals are equal |
| Popularity.MostLeastPopAsWritten | beauty/api/views/statistic.py:209-229 | as written: two equal results are always "Not enought data", never "No orders"; two different results are both service names |
| Popularity.MostLeastPop | beauty/api/views/statistic.py:209-229 | corrected: two equal results are "No orders" or "Not enought data"; two different results are both service names |
| Popularity.EmptyAsWrittenLosesNoOrders | beauty/api/views/statistic.py:221-227 | as written, no orders yields "Not enought data"; the corrected version yields "No orders" |
| Popularity.AsWrittenAgreesOnOrders | beauty/api/views/statistic.py:215-229 | on at least one order the as-written and corrected versions agree |
| Popularity.NoOrdersCase | beauty/api/views/statistic.py:221-227 | corrected: "No orders" exactly when there are no orders; on any other input the as-written result |
| Popularity.NotEnoughDataIffTied | beauty/api/views/statistic.py:225-227 | on at least one order: "Not enought data" exactly when all services are tied |
| Popularity.MostAndLeastAreExtremes | beauty/api/views/statistic.py:215-219 | without a tie, the most popular service has the largest count, the least popular the smallest, and they differ |
| Popularity.SingleServiceNotEnoughData | beauty/api/views/statistic.py:225-227 | orders of a single service yield "Not enought data" |
| TimeBuckets.CountOrdersByTimeInterval | beauty/api/views/statistic.py:181-206 | the two day selectors take the day loop and every other value takes the month loop |
| TimeBuckets.CountByDay | beauty/api/views/statistic.py:185-193 | the day loop builds the day buckets from the start date through today |
| TimeBuckets.DayLoopIsFromPairs | beauty/api/views/statistic.py:187-193 | the day loop's dictionary is `dict` of the (ISO label, count) pairs of the days it walks |
| TimeBuckets.DaysFromMembers | beauty/api/views/statistic.py:187-193 | the loop visits exactly the valid dates from the start up to, not including, its stop date |
| TimeBuckets.DaysFromChronological | beauty/api/views/statistic.py:187-193 | the loop visits the dates in strictly increasing order |
| TimeBuckets.DayBucketsArePairs | beauty/api/views/statistic.py:192 | every day has its own label, so the loop only appends: one bucket per day, in order |
| TimeBuckets.DayBucketsEndingToday | beauty/api/views/statistic.py:187-193 | for a start n - 1 days before today: n buckets, labelled with consecutive ISO dates ending today, each counting its day |
| TimeBuckets.LastSevenDaysBuckets | beauty/api/views/statistic.py:185-193 | starting six days back: exactly seven buckets, the last labelled today |
| TimeBuckets.CurrentMonthBuckets | beauty/api/views/statistic.py:185-193 | starting on the first of the month: `today.day` buckets, bucket k for day k + 1 |
| TimeBuckets.DayBucketsSum | beauty/api/views/statistic.py:185-193 | corrected: the day counts add up to the orders that start between the first day and today |
| TimeBuckets.MidnightOrderCountedTwice | beauty/api/views/statistic.py:189-191 | as written, an order starting exactly at midnight counts in two day buckets; corrected, in one |
| TimeBuckets.DayCountAgreesOffMidnight | beauty/api/views/statistic.py:189-191 | for orders that do not start on the minute of midnight, the as-written and corrected day counts agree |
| TimeBuckets.DayCountAsWritten | beauty/api/views/statistic.py:189-191 | as written, day d's count is the orders that start on d plus those that start exactly at the next midnight |
| TimeBuckets.CountByMonth | beauty/api/views/statistic.py:195-204 | the corrected month loop builds the month buckets from the start month through the current month |
| TimeBuckets.MonthLoopAsWritten | beauty/api/views/statistic.py:196-204 | as written, the loop stops only on reaching a month whose number is the current month's plus one |
| TimeBuckets.DecemberLoopNeverEnds | beauty/api/views/statistic.py:197-199 | as written, in December the exit test never holds, from any month and however many steps are allowed; with years unbounded the loop does not stop |
| TimeBuckets.MonthLoopAgrees | beauty/api/views/statistic.py:196-204 | outside December, for a start at most ten months back, the as-written loop stops and builds the same dictionary as the corrected one |
| TimeBuckets.ThreeMonthBuckets | beauty/api/views/statistic.py:195-204 | from two months back: three buckets, for the month two back, the previous month and the current month, in that order, each counting its month number |
| TimeBuckets.ThreeDistinctMonths | beauty/api/views/statistic.py:203 | three consecutive months have three different names |
| IsoDates.IsoLabelRoundTrip | beauty/api/views/statistic.py:192 | `str(date)` reads back as the same date |
| IsoDates.IsoLabelInjective | beauty/api/views/statistic.py:192 | two dates get the same label exactly when they are equal |
| Calendar.NextDay | beauty/api/views/statistic.py:193 | `+ timedelta(days=1)` gives a valid, later date |
| Calendar.NextDayIsSuccessor | beauty/api/views/statistic.py:188 | no valid date lies strictly between a date and the next day |
| Calendar.AddSubDays | beauty/api/views/statistic.py:53 | going six days back and six forward returns to today; likewise for any k |
| Calendar.AddMonths | beauty/api/views/statistic.py:60 | `relativedelta(months=k)` moves the month index by k and clamps the day to the target month |
| Calendar.MonthNameInjective | beauty/api/views/statistic.py:203 | `strftime("%B")` names two months alike exactly when they are the same month |
| PyDict.AssignGet | beauty/api/views/statistic.py:192 | after `d[k] = v`, k reads as v and every other key as before |
| PyDict.AssignNew | beauty/api/views/statistic.py:203 | assigning a new key appends it at the end |
| PyDict.AssignKeys | beauty/api/views/statistic.py:153 | assigning keeps every key in place and adds the key if it was missing |
| PyDict.AssignDistinct | beauty/api/views/statistic.py:153 | assigning keeps the keys distinct |
| PyDict.FromPairsGet | beauty/api/views/statistic.py:153 | after assigning pairs one by one, a key reads as the value of its last pair |
| PyDict.FromPairsKeys | beauty/api/views/statistic.py:153 | after assigning pairs one by one, the keys are exactly the keys of the pairs |
| PyDict.FromPairsOfDistinct | beauty/api/views/statistic.py:192 | with no repeated key, assigning pairs one by one keeps every pair in order |

## Left out

- The database, `get_object`, the permission classes, the serializer and the `Response` objects are not modelled. Querysets are sequences; the response is a datatype.
- The `print(data)` at line 30 is not modelled.
- The clock is the parameter `now`, read once. The source reads `date.today()` and `datetime.now()` separately, so a request that straddles midnight may see two different days.
- `business.get_orders_by_date` is not part of this model. `Statistic.OrdersSince` assumes it keeps the orders that start at or after the window start.
- `Order.StatusChoices` is not part of this model. The model uses its five documented members, in declaration order: pending, approved, declined, completed, cancelled.
- `get_all_specialists` and `get_full_name` are not part of this model. The specialists are a sequence of (id, full name) records.
- The order of the service groups from `values().annotate()` is the database's. The model takes the order of first occurrence, which decides only which of several tied rows `max` and `min` return.
- Prices are whole cents, so `round(sum, 2)` of the revenue is the identity. The average uses Decimal rounding to cents, half to even. Floating-point prices are not modelled.
- Python's date range (years 1 to 9999) is not modelled. Years are unbounded, so the model cannot show the exception that stepping past 9999 raises (`OverflowError` from `timedelta`, `ValueError` from `relativedelta`).
- Seconds and microseconds are not modelled: moments, both `datetime.now()` and the orders' start times, are kept to the minute. For "lastThreeMonthes" the model fetches an order that starts in the start minute but before its second; the code does not. An order that starts within the first minute of day d + 1 but after 00:00:00 (at 00:00:30, say) is counted under day d by `TimeBuckets.DayCountAsWritten` and `TimeBuckets.MidnightOrderCountedTwice`; the inclusive range of the code puts it there only at exactly 00:00:00.
- `count_orders_by_time_interval` is modelled only for the start dates the view passes. `TimeBuckets.CountByDay` requires a start no later than tomorrow: in the code, a day loop starting after tomorrow never meets its exit test and walks until the date overflows. `TimeBuckets.CountByMonth` requires a start no later than next month, as its corrected month-index test needs; the code as written instead stops at the first month whose number is `current_month + 1`, wherever that falls (`TimeBuckets.MonthLoopAsWritten`).
- TimeBuckets.CountByMonth: models the loop with the exit test corrected to compare month indices. The test as written is `TimeBuckets.MonthLoopAsWritten`; `TimeBuckets.MonthLoopAgrees` proves the two agree outside December.
- TimeBuckets.CountByDay: counts an order in the bucket of the day it starts. The inclusive range as written is `TimeBuckets.DayCountAsWritten`; the two agree except for orders that start exactly at midnight.
- TimeBuckets.MonthLoopAsWritten: its step count is bounded by a fuel parameter. `None` stands for "has not stopped yet".
- Statistic.GeneralStatistic: reports "No orders" for the services of an empty order set, the intended result; the code as written reports "Not enought data" (see "## Findings"). On any other order set the two agree.
- Statistic.SpecialistStatOf: likewise reports "No orders" for a specialist with no order, where the code as written reports "Not enought data".

## Findings

| source | as written | input that shows it | evidently intended | confidence | as-written member | corrected member |
|---|---|---|---|---|---|---|
| beauty/api/views/statistic.py:199 | the month loop stops when `new_date.month == current_month + 1` | any "lastThreeMonthes" request in December: no month number is 13, so the exit test never holds; the loop runs one count query per month until `relativedelta` would pass year 9999 and raises `ValueError` | stop after the current month, comparing year and month | not executed | TimeBuckets.DecemberLoopNeverEnds | TimeBuckets.CountByMonth |
| beauty/api/views/statistic.py:222-227 | "No orders" is assigned to both results, which are then equal and replaced by "Not enought data" | a business with no orders in the window | "No orders" for an empty order set | not executed | Popularity.EmptyAsWrittenLosesNoOrders | Popularity.NoOrdersCase |
| beauty/api/views/statistic.py:189-191 | `start_time__range=(d, d + 1 day)` includes both midnights | an order that starts at 00:00 on day d + 1 counts under d and under d + 1 | each order counted on the day it starts, so the buckets add up to the orders in the window | not executed | TimeBuckets.MidnightOrderCountedTwice | TimeBuckets.DayBucketsSum |
