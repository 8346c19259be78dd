/** The order screen of outbound operations: the `Order` / `OrderItem`
    records, the search-and-filter query over the order list, the four
    status counters, the per-order progress, the item badges and the
    actions offered per order. Order statuses are fixed data here; nothing
    on this screen changes them. */
module Outbound {
  import Seqs
  import Search
  import Progress

  datatype OrderStatus = Pending | Picking | Packing | Shipped

  datatype Priority = Low | Medium | High

  datatype OrderItem = OrderItem(
    id: string,
    orderId: string,
    productId: string,
    quantity: nat,
    picked: nat)

  datatype Order = Order(
    id: string,
    orderNumber: string,
    customerName: string,
    status: OrderStatus,
    priority: Priority,
    createdAt: string,
    items: seq<OrderItem>)

  /** The three filter controls above the order table. */
  datatype OrderQuery = OrderQuery(
    term: string,
    status: Search.Choice<OrderStatus>,
    priority: Search.Choice<Priority>)

  /** The filter callback of `filteredOrders`. */
  predicate OrderMatches(q: OrderQuery, o: Order) {
    && (Search.MatchesTerm(o.orderNumber, q.term) || Search.MatchesTerm(o.customerName, q.term))
    && Search.Accepts(q.status, o.status)
    && Search.Accepts(q.priority, o.priority)
  }

  /** `filteredOrders`: the orders shown in the table. */
  function FilteredOrders(orders: seq<Order>, q: OrderQuery): (r: seq<Order>)
    ensures forall i :: 0 <= i < |r| ==> r[i] in orders && OrderMatches(q, r[i])
    ensures forall i :: 0 <= i < |orders| && OrderMatches(q, orders[i]) ==> orders[i] in r
    ensures Seqs.IsSubsequence(r, orders)
    ensures forall o :: multiset(r)[o] == if OrderMatches(q, o) then multiset(orders)[o] else 0
  {
    Seqs.FilterIsSubsequence(orders, o => OrderMatches(q, o));
    Seqs.FilterCounts(orders, o => OrderMatches(q, o));
    Seqs.Filter(orders, o => OrderMatches(q, o))
  }

  /** With an empty search box and both selects on `all`, the table shows
      every order. */
  lemma UnfilteredShowsAll(orders: seq<Order>)
    ensures FilteredOrders(orders, OrderQuery([], Search.Any, Search.Any)) == orders
  {
    forall o: Order {
      Search.MatchesTermSpec(o.orderNumber, []);
    }
    Seqs.FilterKeepsAll(orders, o => OrderMatches(OrderQuery([], Search.Any, Search.Any), o));
  }

  /** How many orders have status `s`. */
  function CountStatus(orders: seq<Order>, s: OrderStatus): nat {
    |Seqs.Filter(orders, HasStatus(s))|
  }

  /** The test of the status counters' filter. */
  function HasStatus(s: OrderStatus): Order -> bool {
    (o: Order) => o.status == s
  }

  datatype OrderStats = OrderStats(pending: nat, picking: nat, packing: nat, shipped: nat)

  /** The positions of the orders with status `s`. */
  ghost function WithStatus(orders: seq<Order>, s: OrderStatus): set<int> {
    set i | 0 <= i < |orders| && orders[i].status == s
  }

  /** `getOrderStats`: the four counters at the top of the screen. Each
      counts the orders of its own status; since an order has exactly one of
      the four statuses, the counters add up to the number of orders. */
  function GetOrderStats(orders: seq<Order>): (r: OrderStats)
    ensures r.pending == |WithStatus(orders, Pending)|
    ensures r.picking == |WithStatus(orders, Picking)|
    ensures r.packing == |WithStatus(orders, Packing)|
    ensures r.shipped == |WithStatus(orders, Shipped)|
    ensures r.pending + r.picking + r.packing + r.shipped == |orders|
  {
    StatsPartition(orders);
    CountIsPositions(orders, Pending);
    CountIsPositions(orders, Picking);
    CountIsPositions(orders, Packing);
    CountIsPositions(orders, Shipped);
    OrderStats(
      CountStatus(orders, Pending),
      CountStatus(orders, Picking),
      CountStatus(orders, Packing),
      CountStatus(orders, Shipped))
  }

  /** The counter of a status is the number of positions holding an order
      of that status. */
  lemma CountIsPositions(orders: seq<Order>, s: OrderStatus)
    ensures CountStatus(orders, s) == |WithStatus(orders, s)|
  {
    Seqs.FilterLength(orders, HasStatus(s));
    assert Seqs.Passing(orders, HasStatus(s)) == WithStatus(orders, s);
  }

  lemma {:induction false} StatsPartition(orders: seq<Order>)
    ensures CountStatus(orders, Pending) + CountStatus(orders, Picking)
          + CountStatus(orders, Packing) + CountStatus(orders, Shipped) == |orders|
    decreases |orders|
  {
    if |orders| > 0 {
      StatsPartition(orders[1..]);
    }
  }

  function ItemQuantity(item: OrderItem): nat { item.quantity }

  function ItemPicked(item: OrderItem): nat { item.picked }

  /** No item is picked beyond its quantity (the mock data keeps this). */
  predicate PickedWithinQuantity(items: seq<OrderItem>) {
    forall i :: 0 <= i < |items| ==> items[i].picked <= items[i].quantity
  }

  /** `calculateOrderProgress`: picked units over ordered units, as a
      percentage, and 0 for an order with no units. */
  function OrderProgress(items: seq<OrderItem>): (r: Progress.Percent)
    ensures r.den > 0
    ensures Seqs.Sum(items, ItemQuantity) == 0 ==> r.num == 0
    ensures Seqs.Sum(items, ItemQuantity) > 0 ==>
      r.num * Seqs.Sum(items, ItemQuantity) == 100 * Seqs.Sum(items, ItemPicked) * r.den
  {
    Progress.PercentOf(Seqs.Sum(items, ItemPicked), Seqs.Sum(items, ItemQuantity))
  }

  /** While no item is over-picked, progress never exceeds 100%, and it is
      100% exactly when the order has units and every item is `Complete`. */
  lemma OrderProgressBounds(items: seq<OrderItem>)
    requires PickedWithinQuantity(items)
    ensures OrderProgress(items).num <= 100 * OrderProgress(items).den
    ensures OrderProgress(items).num == 100 * OrderProgress(items).den <==>
      Seqs.Sum(items, ItemQuantity) > 0 && forall i :: 0 <= i < |items| ==> ItemLabel(items[i]) == Progress.Complete
  {
    Progress.AllCompleteIffFull(items, ItemPicked, ItemQuantity);
  }

  /** The status badge of an item in the order details dialog. */
  function ItemLabel(item: OrderItem): Progress.LineLabel {
    Progress.Label(item.picked, item.quantity)
  }

  /** The status badge of an item in the pick dialog. */
  datatype PickMark = Picked | NotYetPicked

  /** The pick dialog marks an item picked when its picked quantity equals
      its quantity, which is exactly when the details dialog shows
      `Complete`. */
  function PickDialogMark(item: OrderItem): (r: PickMark)
    ensures r == Picked <==> item.picked == item.quantity
    ensures r == Picked <==> ItemLabel(item) == Progress.Complete
  {
    if item.picked == item.quantity then Picked else NotYetPicked
  }

  /** The buttons in an order's row. */
  datatype OrderAction = ViewDetails | StartPicking | StartPacking

  /** Every row has a details button; the pick button only for a `pending`
      order, the pack button only for a `packing` order, so no row offers
      both. */
  function OfferedActions(o: Order): (r: set<OrderAction>)
    ensures ViewDetails in r
    ensures StartPicking in r <==> o.status == Pending
    ensures StartPacking in r <==> o.status == Packing
    ensures !(StartPicking in r && StartPacking in r)
  {
    {ViewDetails}
    + (if o.status == Pending then {StartPicking} else {})
    + (if o.status == Packing then {StartPacking} else {})
  }
}
