/** The purchase-order screen of inbound operations: the `PurchaseOrder` /
    `POItem` records, the search-and-status query, the status counters and
    the "Items Expected" total, per-order progress, the line badges, the
    remaining quantity and the bound on the manual receive input, and the
    receive action. Purchase-order statuses are fixed data here; nothing on
    this screen changes them, and the receive dialog's "Complete Receiving"
    button only closes the dialog. */
module Inbound {
  import Seqs
  import Search
  import Progress

  datatype POStatus = Pending | Receiving | Completed

  datatype POItem = POItem(
    id: string,
    poId: string,
    productId: string,
    expected: nat,
    received: nat)

  datatype PurchaseOrder = PurchaseOrder(
    id: string,
    poNumber: string,
    supplier: string,
    status: POStatus,
    expectedDate: string,
    createdAt: string,
    items: seq<POItem>)

  /** The search box and the status select above the purchase-order table. */
  datatype POQuery = POQuery(term: string, status: Search.Choice<POStatus>)

  /** The filter callback of `filteredOrders`. */
  predicate POMatches(q: POQuery, po: PurchaseOrder) {
    && (Search.MatchesTerm(po.poNumber, q.term) || Search.MatchesTerm(po.supplier, q.term))
    && Search.Accepts(q.status, po.status)
  }

  /** `filteredOrders`: the purchase orders shown in the table. */
  function FilteredPOs(pos: seq<PurchaseOrder>, q: POQuery): (r: seq<PurchaseOrder>)
    ensures forall i :: 0 <= i < |r| ==> r[i] in pos && POMatches(q, r[i])
    ensures forall i :: 0 <= i < |pos| && POMatches(q, pos[i]) ==> pos[i] in r
    ensures Seqs.IsSubsequence(r, pos)
    ensures forall po :: multiset(r)[po] == if POMatches(q, po) then multiset(pos)[po] else 0
  {
    Seqs.FilterIsSubsequence(pos, po => POMatches(q, po));
    Seqs.FilterCounts(pos, po => POMatches(q, po));
    Seqs.Filter(pos, po => POMatches(q, po))
  }

  /** How many purchase orders have status `s`. */
  function CountStatus(pos: seq<PurchaseOrder>, s: POStatus): nat {
    |Seqs.Filter(pos, HasStatus(s))|
  }

  /** The test of the status counters' filter. */
  function HasStatus(s: POStatus): PurchaseOrder -> bool {
    (po: PurchaseOrder) => po.status == s
  }

  /** The positions of the purchase orders with status `s`. */
  ghost function WithStatus(pos: seq<PurchaseOrder>, s: POStatus): set<int> {
    set i | 0 <= i < |pos| && pos[i].status == s
  }

  /** The counter of a status is the number of positions holding a purchase
      order of that status. */
  lemma CountIsPositions(pos: seq<PurchaseOrder>, s: POStatus)
    ensures CountStatus(pos, s) == |WithStatus(pos, s)|
  {
    Seqs.FilterLength(pos, HasStatus(s));
    assert Seqs.Passing(pos, HasStatus(s)) == WithStatus(pos, s);
  }

  datatype POStats = POStats(pending: nat, receiving: nat, completed: nat, itemsExpected: nat)

  function Expected(item: POItem): nat { item.expected }

  function Received(item: POItem): nat { item.received }

  /** The inner `reduce`: the units expected on one purchase order. */
  function POExpected(po: PurchaseOrder): nat {
    Seqs.Sum(po.items, Expected)
  }

  /** Every line of every purchase order, in order. */
  function AllLines(pos: seq<PurchaseOrder>): seq<POItem>
    decreases |pos|
  {
    if |pos| == 0 then [] else pos[0].items + AllLines(pos[1..])
  }

  /** The four cards at the top of the screen. Each status counter counts
      the purchase orders of its own status, and the three add up to the
      number of purchase orders; "Items Expected" is the expected quantity
      summed over every line of every purchase order. */
  function GetPOStats(pos: seq<PurchaseOrder>): (r: POStats)
    ensures r.pending == |WithStatus(pos, Pending)|
    ensures r.receiving == |WithStatus(pos, Receiving)|
    ensures r.completed == |WithStatus(pos, Completed)|
    ensures r.pending + r.receiving + r.completed == |pos|
    ensures r.itemsExpected == Seqs.Sum(AllLines(pos), Expected)
  {
    StatsPartition(pos);
    CountIsPositions(pos, Pending);
    CountIsPositions(pos, Receiving);
    CountIsPositions(pos, Completed);
    ItemsExpectedIsLineSum(pos);
    POStats(
      CountStatus(pos, Pending),
      CountStatus(pos, Receiving),
      CountStatus(pos, Completed),
      Seqs.Sum(pos, POExpected))
  }

  lemma {:induction false} StatsPartition(pos: seq<PurchaseOrder>)
    ensures CountStatus(pos, Pending) + CountStatus(pos, Receiving) + CountStatus(pos, Completed) == |pos|
    decreases |pos|
  {
    if |pos| > 0 {
      StatsPartition(pos[1..]);
    }
  }

  /** The nested `reduce` of "Items Expected" equals one sum over the
      flattened lines. */
  lemma {:induction false} ItemsExpectedIsLineSum(pos: seq<PurchaseOrder>)
    ensures Seqs.Sum(pos, POExpected) == Seqs.Sum(AllLines(pos), Expected)
    decreases |pos|
  {
    if |pos| > 0 {
      ItemsExpectedIsLineSum(pos[1..]);
      Seqs.SumConcat(pos[0].items, AllLines(pos[1..]), Expected);
    }
  }

  /** `calculateProgress`: received units over expected units, as a
      percentage, and 0 for a purchase order expecting nothing. */
  function POProgress(items: seq<POItem>): (r: Progress.Percent)
    ensures r.den > 0
    ensures Seqs.Sum(items, Expected) == 0 ==> r.num == 0
    ensures Seqs.Sum(items, Expected) > 0 ==>
      r.num * Seqs.Sum(items, Expected) == 100 * Seqs.Sum(items, Received) * r.den
  {
    Progress.PercentOf(Seqs.Sum(items, Received), Seqs.Sum(items, Expected))
  }

  /** No line holds more than was expected. */
  predicate ReceivedWithinExpected(items: seq<POItem>) {
    forall i :: 0 <= i < |items| ==> items[i].received <= items[i].expected
  }

  /** Without over-receipt, progress never exceeds 100%, and it is 100%
      exactly when something is expected and every line is `Complete`. */
  lemma POProgressBounds(items: seq<POItem>)
    requires ReceivedWithinExpected(items)
    ensures POProgress(items).num <= 100 * POProgress(items).den
    ensures POProgress(items).num == 100 * POProgress(items).den <==>
      Seqs.Sum(items, Expected) > 0 && forall i :: 0 <= i < |items| ==> LineLabel(items[i]) == Progress.Complete
  {
    Progress.AllCompleteIffFull(items, Received, Expected);
  }

  /** With over-receipt the summed progress says nothing about the lines:
      one line received twice over and another not received at all read as
      100% although no line is `Complete`. */
  lemma OverReceiptMasksPendingLine()
    ensures var items := [POItem("l1", "po", "p1", 1, 2), POItem("l2", "po", "p2", 1, 0)];
      && POProgress(items).num == 100 * POProgress(items).den
      && LineLabel(items[0]) == Progress.Partial
      && LineLabel(items[1]) == Progress.Pending
  {
    var items := [POItem("l1", "po", "p1", 1, 2), POItem("l2", "po", "p2", 1, 0)];
    assert Seqs.Sum(items, Received) == 2 by {
      assert items[1..][1..] == [];
    }
    assert Seqs.Sum(items, Expected) == 2 by {
      assert items[1..][1..] == [];
    }
  }

  /** The status badge of a line in the purchase-order details dialog. A
      line received beyond its expected quantity is labelled `Partial`. */
  function LineLabel(item: POItem): (r: Progress.LineLabel)
    ensures item.received > item.expected ==> r == Progress.Partial
    ensures r == Progress.Complete <==> item.received == item.expected
  {
    Progress.Label(item.received, item.expected)
  }

  /** The "Remaining" column: what is still to come in. It is negative
      exactly after an over-receipt and zero exactly when the line reads
      `Complete`. */
  function Remaining(item: POItem): (r: int)
    ensures item.received + r == item.expected
    ensures r < 0 <==> item.received > item.expected
    ensures r == 0 <==> LineLabel(item) == Progress.Complete
  {
    item.expected - item.received
  }

  /** The manual receive input: `min="0"` and `max` the remaining quantity. */
  predicate ReceiveInputAllows(item: POItem, qty: int) {
    0 <= qty <= Remaining(item)
  }

  /** Any quantity the input allows keeps the line within its expected
      quantity; receiving exactly the remaining quantity makes the line
      `Complete`; and an over-received line allows no quantity at all. */
  lemma ReceiveInputBound(item: POItem, qty: int)
    ensures ReceiveInputAllows(item, qty) ==> item.received + qty <= item.expected
    ensures ReceiveInputAllows(item, Remaining(item)) <==> item.received <= item.expected
    ensures item.received <= item.expected ==>
      Progress.Label(item.received + Remaining(item), item.expected) == Progress.Complete
    ensures item.received > item.expected ==> !ReceiveInputAllows(item, qty)
  {
  }

  /** The buttons in a purchase order's row. */
  datatype POAction = ViewDetails | ReceiveItems

  /** Every row has a details button; the receive button only for a
      `pending` purchase order. */
  function OfferedActions(po: PurchaseOrder): (r: set<POAction>)
    ensures ViewDetails in r
    ensures ReceiveItems in r <==> po.status == Pending
  {
    {ViewDetails} + (if po.status == Pending then {ReceiveItems} else {})
  }
}
