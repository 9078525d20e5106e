/**
 * The records the statistics read: orders with their status, service, price
 * and start time, and the specialists of a business. Prices are whole cents.
 */
module Orders {
  import opened Calendar

  /** The members of `Order.StatusChoices`, in declaration order. */
  datatype Status = Pending | Approved | Declined | Completed | Cancelled

  const AllStatuses: seq<Status> := [Pending, Approved, Declined, Completed, Cancelled]

  /** The enumeration member's name, as `StatusChoices.__members__` lists it. */
  function MemberName(s: Status): string {
    match s
    case Pending => "PENDING"
    case Approved => "APPROVED"
    case Declined => "DECLINED"
    case Completed => "COMPLETED"
    case Cancelled => "CANCELLED"
  }

  function Upper(c: char): char {
    if 'a' <= c <= 'z' then (c as int - 32) as char else c
  }

  function Lower(c: char): char {
    if 'A' <= c <= 'Z' then (c as int + 32) as char else c
  }

  function LowerAll(s: string): string {
    if s == [] then [] else [Lower(s[0])] + LowerAll(s[1..])
  }

  /** `s.capitalize()` on ASCII text: the first character upper case, the rest lower case. */
  function Capitalize(s: string): string {
    if s == [] then [] else [Upper(s[0])] + LowerAll(s[1..])
  }

  lemma {:induction false} LowerAllChars(s: string)
    ensures |LowerAll(s)| == |s| && forall i :: 0 <= i < |s| ==> LowerAll(s)[i] == Lower(s[i])
  {
    if s != [] {
      LowerAllChars(s[1..]);
    }
  }

  /** Capitalising keeps the length, raises the first character and lowers the others. */
  lemma CapitalizeChars(s: string)
    ensures |Capitalize(s)| == |s|
    ensures |s| > 0 ==> Capitalize(s)[0] == Upper(s[0])
    ensures forall i :: 1 <= i < |s| ==> Capitalize(s)[i] == Lower(s[i])
  {
    if s != [] {
      LowerAllChars(s[1..]);
    }
  }

  /** The key under which a status is reported. */
  function StatusKey(s: Status): string {
    Capitalize(MemberName(s))
  }

  datatype Order = Order(
    specialist: nat,   // primary key of the specialist who serves the order
    service: string,   // name of the ordered service
    price: nat,        // price of the service, in cents
    status: Status,
    start: Moment)     // start_time

  datatype Specialist = Specialist(id: nat, fullName: string)

  /** `orders.filter(status=s).count()` */
  function CountStatus(orders: seq<Order>, s: Status): nat {
    if orders == [] then 0
    else CountStatus(orders[..|orders| - 1], s) + (if orders[|orders| - 1].status == s then 1 else 0)
  }

  /** `orders.filter(specialist=id)` */
  function OrdersOf(orders: seq<Order>, id: nat): (r: seq<Order>)
    ensures |r| <= |orders|
    ensures forall o :: o in r <==> o in orders && o.specialist == id
  {
    if orders == [] then []
    else
      var init := OrdersOf(orders[..|orders| - 1], id);
      var o := orders[|orders| - 1];
      assert forall x :: x in orders <==> x in orders[..|orders| - 1] || x == o;
      if o.specialist == id then init + [o] else init
  }

  /** Every order of the specialist is kept as often as it occurs, and no other order. */
  lemma {:induction false} OrdersOfCounts(orders: seq<Order>, id: nat)
    ensures forall o :: multiset(OrdersOf(orders, id))[o] == if o.specialist == id then multiset(orders)[o] else 0
  {
    if orders != [] {
      var init := orders[..|orders| - 1];
      assert orders == init + [orders[|orders| - 1]];
      OrdersOfCounts(init, id);
    }
  }
}
