/**
 * `get_most_least_pop_service`: group the orders by service name, take the
 * name with the largest and the name with the smallest order count, and
 * fall back to sentinel messages in the degenerate cases.
 */
module Popularity {
  import opened Orders
  import opened PyDict

  const NoOrders := "No orders"
  /** The sentinel for a tie, spelled as the source spells it. */
  const NotEnoughData := "Not enought data"

  /** The distinct service names of the orders, in order of first occurrence. */
  function ServiceNames(orders: seq<Order>): (names: seq<string>)
    ensures forall i, j :: 0 <= i < j < |names| ==> names[i] != names[j]
  {
    if orders == [] then []
    else
      var init := ServiceNames(orders[..|orders| - 1]);
      var s := orders[|orders| - 1].service;
      if s in init then init else init + [s]
  }

  /** `Count("service__name")` within the group of one name. */
  function ServiceCount(orders: seq<Order>, name: string): nat {
    if orders == [] then 0
    else ServiceCount(orders[..|orders| - 1], name) + (if orders[|orders| - 1].service == name then 1 else 0)
  }

  /** A name is a group exactly when some order has that service. */
  lemma {:induction false} ServiceNamesMembers(orders: seq<Order>, name: string)
    ensures name in ServiceNames(orders) <==> ServiceCount(orders, name) > 0
  {
    if orders != [] {
      ServiceNamesMembers(orders[..|orders| - 1], name);
    }
  }

  /** The rows of `values("service__name").annotate(total=...)`: one (name, total) per group. */
  function ServiceTotals(orders: seq<Order>): (ts: seq<(string, nat)>)
    ensures |ts| == |ServiceNames(orders)|
    ensures forall i :: 0 <= i < |ts| ==> ts[i] == (ServiceNames(orders)[i], ServiceCount(orders, ServiceNames(orders)[i]))
  {
    var names := ServiceNames(orders);
    seq(|names|, i requires 0 <= i < |names| => (names[i], ServiceCount(orders, names[i])))
  }

  /** The sum of the counts of the given names. */
  function SumCounts(orders: seq<Order>, names: seq<string>): nat {
    if names == [] then 0
    else SumCounts(orders, names[..|names| - 1]) + ServiceCount(orders, names[|names| - 1])
  }

  lemma {:induction false} SumValuesOfTotals(orders: seq<Order>, names: seq<string>)
    ensures SumValues(seq(|names|, i requires 0 <= i < |names| => (names[i], ServiceCount(orders, names[i]))))
         == SumCounts(orders, names)
  {
    if names != [] {
      var pre := names[..|names| - 1];
      var c := seq(|names|, i requires 0 <= i < |names| => (names[i], ServiceCount(orders, names[i])));
      assert c[..|c| - 1] == seq(|pre|, i requires 0 <= i < |pre| => (pre[i], ServiceCount(orders, pre[i])));
      SumValuesOfTotals(orders, pre);
    }
  }

  /** One more order adds one to the sum over distinct names exactly when its service is among them. */
  lemma {:induction false} SumCountsStep(orders: seq<Order>, o: Order, names: seq<string>)
    requires forall i, j :: 0 <= i < j < |names| ==> names[i] != names[j]
    ensures SumCounts(orders + [o], names) == SumCounts(orders, names) + (if o.service in names then 1 else 0)
  {
    if names != [] {
      var pre, n := names[..|names| - 1], names[|names| - 1];
      assert (orders + [o])[..|orders|] == orders;
      assert o.service in names <==> o.service in pre || o.service == n;
      assert n !in pre;
      SumCountsStep(orders, o, pre);
    }
  }

  lemma SumCountsSnoc(orders: seq<Order>, names: seq<string>, s: string)
    ensures SumCounts(orders, names + [s]) == SumCounts(orders, names) + ServiceCount(orders, s)
  {
    assert (names + [s])[..|names|] == names;
  }

  /** Every order falls in exactly one group, so the group totals add up to the number of orders. */
  lemma {:induction false} SumCountsOfNames(orders: seq<Order>)
    ensures SumCounts(orders, ServiceNames(orders)) == |orders|
  {
    if orders != [] {
      var init, o := orders[..|orders| - 1], orders[|orders| - 1];
      assert orders == init + [o];
      SumCountsOfNames(init);
      SumCountsStep(init, o, ServiceNames(init));
      if o.service !in ServiceNames(init) {
        SumCountsSnoc(orders, ServiceNames(init), o.service);
        ServiceNamesMembers(init, o.service);
      }
    }
  }

  /**
   * The rows partition the orders: their names are distinct, a name has a
   * row exactly when some order has that service, and the totals add up to
   * the number of orders.
   */
  lemma ServiceTotalsPartition(orders: seq<Order>, name: string)
    ensures DistinctKeys(ServiceTotals(orders))
    ensures name in Keys(ServiceTotals(orders)) <==> ServiceCount(orders, name) > 0
    ensures SumValues(ServiceTotals(orders)) == |orders|
  {
    var names, ts := ServiceNames(orders), ServiceTotals(orders);
    assert Keys(ts) == names;
    ServiceNamesMembers(orders, name);
    SumValuesOfTotals(orders, names);
    SumCountsOfNames(orders);
  }

  /** `max(rows, key=total)`: Python returns the first row with the largest total. */
  function FirstMaxIndex(ts: seq<(string, nat)>): (r: nat)
    requires |ts| > 0
    ensures r < |ts|
    ensures forall j :: 0 <= j < |ts| ==> ts[j].1 <= ts[r].1
    ensures forall j :: 0 <= j < r ==> ts[j].1 < ts[r].1
  {
    if |ts| == 1 then 0
    else
      var i := FirstMaxIndex(ts[..|ts| - 1]);
      if ts[|ts| - 1].1 > ts[i].1 then |ts| - 1 else i
  }

  /** `min(rows, key=total)`: Python returns the first row with the smallest total. */
  function FirstMinIndex(ts: seq<(string, nat)>): (r: nat)
    requires |ts| > 0
    ensures r < |ts|
    ensures forall j :: 0 <= j < |ts| ==> ts[r].1 <= ts[j].1
    ensures forall j :: 0 <= j < r ==> ts[r].1 < ts[j].1
  {
    if |ts| == 1 then 0
    else
      var i := FirstMinIndex(ts[..|ts| - 1]);
      if ts[|ts| - 1].1 < ts[i].1 then |ts| - 1 else i
  }

  predicate AllTied(ts: seq<(string, nat)>) {
    forall i, j :: 0 <= i < |ts| && 0 <= j < |ts| ==> ts[i].1 == ts[j].1
  }

  /** The first maximum and the first minimum are the same row exactly when all totals are equal. */
  lemma MaxIsMinIffTied(ts: seq<(string, nat)>)
    requires |ts| > 0
    ensures FirstMaxIndex(ts) == FirstMinIndex(ts) <==> AllTied(ts)
  {
    var hi, lo := FirstMaxIndex(ts), FirstMinIndex(ts);
    if AllTied(ts) {
      assert ts[0].1 == ts[hi].1 && ts[lo].1 == ts[0].1;
    }
  }

  /**
   * As written: the "No orders" pair is equal, so the test at the end
   * replaces it too. Two equal results are therefore always the tie
   * sentinel; two different results are both service names.
   */
  function MostLeastPopAsWritten(orders: seq<Order>): (r: (string, string))
    ensures r.0 == r.1 ==> r == (NotEnoughData, NotEnoughData)
    ensures r.0 != r.1 ==> r.0 in ServiceNames(orders) && r.1 in ServiceNames(orders)
  {
    var ts := ServiceTotals(orders);
    var (most, least) :=
      if |ts| > 0 then (ts[FirstMaxIndex(ts)].0, ts[FirstMinIndex(ts)].0) else (NoOrders, NoOrders);
    if most == least then (NotEnoughData, NotEnoughData) else (most, least)
  }

  /**
   * Corrected: "No orders" for no orders, "Not enought data" for a tie, else
   * the extremes. Two equal results are one of the two sentinels; two
   * different results are both service names.
   */
  function MostLeastPop(orders: seq<Order>): (r: (string, string))
    ensures r.0 == r.1 ==> r == (NoOrders, NoOrders) || r == (NotEnoughData, NotEnoughData)
    ensures r.0 != r.1 ==> r.0 in ServiceNames(orders) && r.1 in ServiceNames(orders)
  {
    var ts := ServiceTotals(orders);
    if |ts| == 0 then (NoOrders, NoOrders)
    else
      var most, least := ts[FirstMaxIndex(ts)].0, ts[FirstMinIndex(ts)].0;
      if most == least then (NotEnoughData, NotEnoughData) else (most, least)
  }

  /** As written, an empty order set reports "Not enought data", never "No orders". */
  lemma EmptyAsWrittenLosesNoOrders()
    ensures MostLeastPopAsWritten([]) == (NotEnoughData, NotEnoughData)
    ensures MostLeastPop([]) == (NoOrders, NoOrders)
  {
  }

  /** On at least one order the two versions agree. */
  lemma AsWrittenAgreesOnOrders(orders: seq<Order>)
    requires orders != []
    ensures MostLeastPopAsWritten(orders) == MostLeastPop(orders)
  {
    ServiceNamesMembers(orders, orders[|orders| - 1].service);
    assert ServiceCount(orders, orders[|orders| - 1].service) > 0;
  }

  /** Corrected, "No orders" comes exactly with no orders; on any other input it is the as-written result. */
  lemma NoOrdersCase(orders: seq<Order>)
    ensures MostLeastPop(orders) == (NoOrders, NoOrders) <==> orders == []
    ensures orders != [] ==> MostLeastPop(orders) == MostLeastPopAsWritten(orders)
  {
    if orders != [] {
      AsWrittenAgreesOnOrders(orders);
      ServiceNamesMembers(orders, orders[|orders| - 1].service);
      var ts := ServiceTotals(orders);
      assert |ts| > 0;
    }
  }

  /**
   * On at least one order, both results are "Not enought data" exactly when
   * every service was ordered equally often (a single service included).
   */
  lemma NotEnoughDataIffTied(orders: seq<Order>)
    requires orders != []
    ensures MostLeastPop(orders) == (NotEnoughData, NotEnoughData) <==> AllTied(ServiceTotals(orders))
  {
    var ts := ServiceTotals(orders);
    ServiceNamesMembers(orders, orders[|orders| - 1].service);
    assert |ts| > 0;
    MaxIsMinIffTied(ts);
    var hi, lo := FirstMaxIndex(ts), FirstMinIndex(ts);
    if hi != lo {
      assert ts[hi].0 == ServiceNames(orders)[hi] && ts[lo].0 == ServiceNames(orders)[lo];
    }
  }

  /**
   * Otherwise the most popular name has the largest count of any service, the
   * least popular the smallest, and the two differ.
   */
  lemma MostAndLeastAreExtremes(orders: seq<Order>, name: string)
    requires orders != [] && !AllTied(ServiceTotals(orders))
    requires name in ServiceNames(orders)
    ensures var (most, least) := MostLeastPop(orders);
      most != least
      && most in ServiceNames(orders) && least in ServiceNames(orders)
      && ServiceCount(orders, least) <= ServiceCount(orders, name) <= ServiceCount(orders, most)
  {
    var names := ServiceNames(orders);
    var ts := ServiceTotals(orders);
    NotEnoughDataIffTied(orders);
    MaxIsMinIffTied(ts);
    var hi, lo := FirstMaxIndex(ts), FirstMinIndex(ts);
    var k :| 0 <= k < |names| && names[k] == name;
    assert ts[k].1 <= ts[hi].1 && ts[lo].1 <= ts[k].1;
    assert ts[hi].0 != ts[lo].0;
  }

  lemma {:induction false} ServiceCountOther(orders: seq<Order>, s: string, name: string)
    requires forall i :: 0 <= i < |orders| ==> orders[i].service == s
    requires name != s
    ensures ServiceCount(orders, name) == 0
  {
    if orders != [] {
      ServiceCountOther(orders[..|orders| - 1], s, name);
    }
  }

  /** When every order is for one and the same service, both results are "Not enought data". */
  lemma SingleServiceNotEnoughData(orders: seq<Order>)
    requires orders != []
    requires forall i :: 0 <= i < |orders| ==> orders[i].service == orders[0].service
    ensures MostLeastPop(orders) == (NotEnoughData, NotEnoughData)
  {
    var s := orders[0].service;
    var names := ServiceNames(orders);
    ServiceNamesMembers(orders, s);
    assert ServiceCount(orders, s) > 0 by {
      ServiceNamesMembers(orders, orders[|orders| - 1].service);
    }
    forall i | 0 <= i < |names| ensures names[i] == s {
      if names[i] != s {
        ServiceNamesMembers(orders, names[i]);
        ServiceCountOther(orders, s, names[i]);
      }
    }
    NotEnoughDataIffTied(orders);
  }
}
