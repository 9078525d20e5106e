/**
 * The per-set aggregates of the report: `count_orders_by_status`,
 * `calc_sum_orders_price` and the average order value. Prices are whole
 * cents, so a sum of prices is already rounded to two decimal places.
 */
module Aggregates {
  import opened Orders
  import opened Wrappers
  import opened PyDict

  // ---------------------------------------------------------------- statuses

  /** The position of a status in declaration order. */
  function StatusIndex(s: Status): (i: nat)
    ensures i < |AllStatuses| && AllStatuses[i] == s
  {
    match s
    case Pending => 0
    case Approved => 1
    case Declined => 2
    case Completed => 3
    case Cancelled => 4
  }

  /** One (capitalised member name, count) pair per status, in declaration order. */
  function StatusCounts(orders: seq<Order>): (d: Dict<string, nat>)
    ensures |d| == |AllStatuses|
    ensures forall i :: 0 <= i < |d| ==> d[i] == (StatusKey(AllStatuses[i]), CountStatus(orders, AllStatuses[i]))
  {
    seq(|AllStatuses|, i requires 0 <= i < |AllStatuses| => (StatusKey(AllStatuses[i]), CountStatus(orders, AllStatuses[i])))
  }

  /** A string is the capitalisation of s when it agrees with s character by character. */
  lemma CapitalizeIs(s: string, t: string)
    requires |s| == |t| > 0 && t[0] == Upper(s[0])
    requires forall i :: 1 <= i < |s| ==> t[i] == Lower(s[i])
    ensures Capitalize(s) == t
  {
    CapitalizeChars(s);
  }

  lemma PendingKey() ensures StatusKey(Pending) == "Pending" { CapitalizeIs("PENDING", "Pending"); }
  lemma ApprovedKey() ensures StatusKey(Approved) == "Approved" { CapitalizeIs("APPROVED", "Approved"); }
  lemma DeclinedKey() ensures StatusKey(Declined) == "Declined" { CapitalizeIs("DECLINED", "Declined"); }
  lemma CompletedKey() ensures StatusKey(Completed) == "Completed" { CapitalizeIs("COMPLETED", "Completed"); }
  lemma CancelledKey() ensures StatusKey(Cancelled) == "Cancelled" { CapitalizeIs("CANCELLED", "Cancelled"); }

  /** The keys are the capitalised member names, so different statuses have different keys. */
  lemma StatusKeyInjective(a: Status, b: Status)
    ensures StatusKey(a) == StatusKey(b) <==> a == b
  {
    PendingKey();
    ApprovedKey();
    DeclinedKey();
    CompletedKey();
    CancelledKey();
  }

  lemma IndexOfStatus(i: nat)
    requires i < |AllStatuses|
    ensures StatusIndex(AllStatuses[i]) == i
  {
  }

  /** The keys are the five capitalised member names, in declaration order. */
  lemma StatusCountsKeys(orders: seq<Order>)
    ensures Keys(StatusCounts(orders)) == ["Pending", "Approved", "Declined", "Completed", "Cancelled"]
  {
    var ks := Keys(StatusCounts(orders));
    SeqOfFive(ks);
    StatusCountsKeyAt(orders, 0);
    StatusCountsKeyAt(orders, 1);
    StatusCountsKeyAt(orders, 2);
    StatusCountsKeyAt(orders, 3);
    StatusCountsKeyAt(orders, 4);
    PendingKey();
    ApprovedKey();
    DeclinedKey();
    CompletedKey();
    CancelledKey();
  }

  lemma SeqOfFive<T>(a: seq<T>)
    requires |a| == 5
    ensures a == [a[0], a[1], a[2], a[3], a[4]]
  {
  }

  lemma StatusCountsKeyAt(orders: seq<Order>, i: nat)
    requires i < 5
    ensures |Keys(StatusCounts(orders))| == 5 && Keys(StatusCounts(orders))[i] == StatusKey(AllStatuses[i])
  {
  }

  /** No two statuses share a key. */
  lemma StatusCountsDistinct(orders: seq<Order>)
    ensures DistinctKeys(StatusCounts(orders))
  {
    var d := StatusCounts(orders);
    forall i, j | 0 <= i < j < |d| ensures d[i].0 != d[j].0 {
      var a, b := AllStatuses[i], AllStatuses[j];
      IndexOfStatus(i);
      IndexOfStatus(j);
      StatusKeyInjective(a, b);
    }
  }

  /** Every status appears under its own key, even with a count of 0. */
  lemma StatusCountsCoverAll(orders: seq<Order>, s: Status)
    ensures DistinctKeys(StatusCounts(orders))
    ensures Get(StatusCounts(orders), StatusKey(s)) == Some(CountStatus(orders, s))
  {
    var d := StatusCounts(orders);
    StatusCountsDistinct(orders);
    var i := StatusIndex(s);
    assert d[i] == (StatusKey(s), CountStatus(orders, s));
    GetAt(d, i);
  }

  /** The status counts add up to the number of orders. */
  lemma StatusCountsSum(orders: seq<Order>)
    ensures SumValues(StatusCounts(orders)) == |orders|
  {
    SumValuesFive(StatusCounts(orders));
    StatusTotal(orders);
  }

  lemma {:induction false} StatusTotal(orders: seq<Order>)
    ensures CountStatus(orders, Pending) + CountStatus(orders, Approved) + CountStatus(orders, Declined)
          + CountStatus(orders, Completed) + CountStatus(orders, Cancelled) == |orders|
  {
    if orders != [] {
      StatusTotal(orders[..|orders| - 1]);
    }
  }

  // ---------------------------------------------------------------- revenue

  /** `Sum("service__price")`, with the empty sum as 0 (the `None` case). */
  function PriceSum(orders: seq<Order>): nat {
    if orders == [] then 0 else PriceSum(orders[..|orders| - 1]) + orders[|orders| - 1].price
  }

  /** `filter(status=StatusChoices.COMPLETED)` */
  function CompletedOnly(orders: seq<Order>): (r: seq<Order>)
    ensures |r| == CountStatus(orders, Completed)
    ensures forall o :: o in r <==> o in orders && o.status == Completed
  {
    if orders == [] then []
    else
      var init := CompletedOnly(orders[..|orders| - 1]);
      var o := orders[|orders| - 1];
      assert forall x :: x in orders <==> x in orders[..|orders| - 1] || x == o;
      if o.status == Completed then init + [o] else init
  }

  /** Every completed order is kept as often as it occurs, and no other order. */
  lemma {:induction false} CompletedOnlyCounts(orders: seq<Order>)
    ensures forall o :: multiset(CompletedOnly(orders))[o] == if o.status == Completed then multiset(orders)[o] else 0
  {
    if orders != [] {
      var init := orders[..|orders| - 1];
      assert orders == init + [orders[|orders| - 1]];
      CompletedOnlyCounts(init);
    }
  }

  /**
   * `calc_sum_orders_price`: the prices of the completed orders, added up.
   * Only completed orders count, so it never exceeds the sum of all prices.
   */
  function CalcSumOrdersPrice(orders: seq<Order>): (r: nat)
    ensures r <= PriceSum(orders)
  {
    CompletedPriceAtMostTotal(orders);
    PriceSum(CompletedOnly(orders))
  }

  lemma {:induction false} CompletedPriceAtMostTotal(orders: seq<Order>)
    ensures PriceSum(CompletedOnly(orders)) <= PriceSum(orders)
  {
    if orders != [] {
      var init, o := orders[..|orders| - 1], orders[|orders| - 1];
      CompletedPriceAtMostTotal(init);
      if o.status == Completed {
        var r := CompletedOnly(init) + [o];
        assert r[..|r| - 1] == CompletedOnly(init);
      }
    }
  }

  lemma {:induction false} PriceSumAppend(a: seq<Order>, b: seq<Order>)
    ensures PriceSum(a + b) == PriceSum(a) + PriceSum(b)
    decreases |b|
  {
    if b == [] {
      assert a + b == a;
    } else {
      assert (a + b)[..|a + b| - 1] == a + b[..|b| - 1];
      assert (a + b)[|a + b| - 1] == b[|b| - 1];
      PriceSumAppend(a, b[..|b| - 1]);
    }
  }

  /** Revenue grows by the price of a completed order and ignores every other status. */
  lemma RevenueStep(orders: seq<Order>, o: Order)
    ensures CalcSumOrdersPrice(orders + [o])
         == CalcSumOrdersPrice(orders) + (if o.status == Completed then o.price else 0)
  {
    assert (orders + [o])[..|orders|] == orders;
    if o.status == Completed {
      PriceSumAppend(CompletedOnly(orders), [o]);
      assert [o][..0] == [];
    }
  }

  /** Revenue is additive over a split of the orders. */
  lemma {:induction false} RevenueAppend(a: seq<Order>, b: seq<Order>)
    ensures CalcSumOrdersPrice(a + b) == CalcSumOrdersPrice(a) + CalcSumOrdersPrice(b)
    decreases |b|
  {
    if b == [] {
      assert a + b == a;
    } else {
      var init, last := b[..|b| - 1], b[|b| - 1];
      assert a + b == (a + init) + [last];
      assert b == init + [last];
      RevenueAppend(a, init);
      RevenueStep(a + init, last);
      RevenueStep(init, last);
    }
  }

  /** With no completed order the revenue is 0. */
  lemma {:induction false} RevenueWithoutCompleted(orders: seq<Order>)
    requires forall i :: 0 <= i < |orders| ==> orders[i].status != Completed
    ensures CalcSumOrdersPrice(orders) == 0
  {
    if orders != [] {
      RevenueWithoutCompleted(orders[..|orders| - 1]);
    }
  }

  /** Changing the price of an order that is not completed does not change the revenue. */
  lemma {:induction false} RevenueIgnoresOtherPrices(orders: seq<Order>, i: nat, price: nat)
    requires i < |orders| && orders[i].status != Completed
    ensures CalcSumOrdersPrice(orders[i := orders[i].(price := price)]) == CalcSumOrdersPrice(orders)
  {
    var other := orders[i := orders[i].(price := price)];
    assert orders == orders[..i] + [orders[i]] + orders[i + 1..];
    assert other == orders[..i] + [other[i]] + orders[i + 1..];
    RevenueAppend(orders[..i] + [orders[i]], orders[i + 1..]);
    RevenueAppend(orders[..i] + [other[i]], orders[i + 1..]);
    RevenueStep(orders[..i], orders[i]);
    RevenueStep(orders[..i], other[i]);
  }

  // ---------------------------------------------------------------- average

  /**
   * `round(x, 2)` of the quotient n / d, in cents: the nearest whole number,
   * ties to even (the default rounding of Python's Decimal).
   */
  function DivRoundHalfEven(n: nat, d: nat): (q: nat)
    requires d > 0
    ensures 2 * (q * d) <= 2 * n + d && 2 * n <= 2 * (q * d) + d
    ensures (2 * (q * d) == 2 * n + d || 2 * n == 2 * (q * d) + d) ==> q % 2 == 0
  {
    var q, r := n / d, n % d;
    DivModParts(n, d);
    if 2 * r < d then
      RoundedDown(n, d, q, r);
      q
    else if 2 * r > d || q % 2 == 1 then
      RoundedUp(n, d, q, r);
      q + 1
    else
      RoundedDown(n, d, q, r);
      q
  }

  lemma DivModParts(n: nat, d: nat)
    requires d > 0
    ensures n == (n / d) * d + n % d && 0 <= n % d < d
  {
  }

  lemma RoundedDown(n: nat, d: nat, q: nat, r: nat)
    requires d > 0 && n == q * d + r && 2 * r <= d
    ensures 2 * (q * d) <= 2 * n + d && 2 * n <= 2 * (q * d) + d
    ensures 2 * (q * d) != 2 * n + d
    ensures 2 * n == 2 * (q * d) + d ==> 2 * r == d
  {
  }

  lemma RoundedUp(n: nat, d: nat, q: nat, r: nat)
    requires n == q * d + r && r < d && 2 * r >= d
    ensures 2 * ((q + 1) * d) <= 2 * n + d && 2 * n <= 2 * ((q + 1) * d) + d
    ensures 2 * n != 2 * ((q + 1) * d) + d
    ensures 2 * ((q + 1) * d) == 2 * n + d ==> 2 * r == d
  {
    assert (q + 1) * d == q * d + d;
  }

  /**
   * `Avg("service__price")` rounded to cents, or 0 when there are no orders:
   * the whole number of cents nearest to the mean price.
   */
  function AverageOrder(orders: seq<Order>): (r: nat)
    ensures orders == [] ==> r == 0
    ensures orders != [] ==>
      2 * (r * |orders|) <= 2 * PriceSum(orders) + |orders| && 2 * PriceSum(orders) <= 2 * (r * |orders|) + |orders|
  {
    if orders == [] then 0 else DivRoundHalfEven(PriceSum(orders), |orders|)
  }

  /** When every order has the same price, the average is that price. */
  lemma AverageOfEqualPrices(orders: seq<Order>, p: nat)
    requires orders != []
    requires forall i :: 0 <= i < |orders| ==> orders[i].price == p
    ensures AverageOrder(orders) == p
  {
    EqualPricesSum(orders, p);
    var q := AverageOrder(orders);
    if q < p {
      MulMono(q, p, |orders|);
    } else if q > p {
      MulMono(p, q, |orders|);
    }
  }

  lemma MulMono(a: nat, b: nat, n: nat)
    requires a < b
    ensures a * n + n <= b * n
  {
    assert (a + 1) * n == a * n + n;
    assert (a + 1) * n <= b * n;
  }

  lemma {:induction false} EqualPricesSum(orders: seq<Order>, p: nat)
    requires forall i :: 0 <= i < |orders| ==> orders[i].price == p
    ensures PriceSum(orders) == p * |orders|
  {
    if orders != [] {
      EqualPricesSum(orders[..|orders| - 1], p);
      assert p * (|orders| - 1) + p == p * |orders|;
    }
  }
}
