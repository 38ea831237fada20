/** The seller side of fulfilment (sellerOrderController.js): the per-line status
    transition table, the outcome of a seller's status update to one order line,
    and the seller's order list. The update is given twice: as the handler is
    written against the order records of Order.js, and as corrected. */
module SellerOrders {
  import opened Wrappers
  import opened ProductModel
  import opened CartModel
  import opened OrderModel

  // ---------------------------------------------------------------------------
  // validStatusTransitions (sellerOrderController.js:10-15)
  // ---------------------------------------------------------------------------

  function AllowedNext(s: Status): seq<Status>
  {
    match s
    case Pending => [Shipped]
    case Shipped => [Delivered]
    case Delivered => []
    case Cancelled => []
  }

  /** The only legal moves are pending to shipped and shipped to delivered: no move
      stays in place, goes back, skips a step or reaches `cancelled`. */
  lemma OnlyLegalTransitions(s: Status, t: Status)
    ensures t in AllowedNext(s) <==> (s == Pending && t == Shipped) || (s == Shipped && t == Delivered)
    ensures t in AllowedNext(s) ==> t != s && t != Cancelled && t != Pending
  {
  }

  /** `delivered` and `cancelled` are final. */
  lemma FinalStatuses(s: Status)
    ensures AllowedNext(s) == [] <==> s == Delivered || s == Cancelled
  {
  }

  // ---------------------------------------------------------------------------
  // updateOrderStatus (sellerOrderController.js:46-112)
  // ---------------------------------------------------------------------------

  /** The answer of `updateOrderStatus`. */
  datatype StatusReply =
    | StatusUpdated                    // 200 "Order status updated"
    | LineNotFound                     // 404 "Order item not found"
    | InvalidTransition(message: string)  // 400
    | StatusUpdateFailed               // 500 "Failed to update order status"

  function TransitionMessage(from: string, to: string): string
  {
    "Invalid status transition from " + from + " to " + to
  }

  /** The ownership query as written: the order has the id, SOME line has the item
      id and SOME line has the caller as seller; the two line conditions are
      independent (no `$elemMatch`). */
  predicate QueryMatchesAsWritten(o: Order, seller: SellerId, orderId: nat, itemId: nat)
  {
    && o.id == orderId
    && (exists j :: 0 <= j < |o.items| && o.items[j].id == itemId)
    && (exists j :: 0 <= j < |o.items| && o.items[j].seller == seller)
  }

  /** The ownership query as intended: one line has both the item id and the
      caller as seller. */
  predicate QueryMatches(o: Order, seller: SellerId, orderId: nat, itemId: nat)
  {
    o.id == orderId && exists j :: 0 <= j < |o.items| && o.items[j].id == itemId && o.items[j].seller == seller
  }

  /** `Order.findOne(query)` as written: the position of the first matching order. */
  function FindOrderAsWritten(orders: seq<Order>, seller: SellerId, orderId: nat, itemId: nat): (r: Option<nat>)
    ensures r.Some? ==> r.value < |orders| && QueryMatchesAsWritten(orders[r.value], seller, orderId, itemId)
    ensures r.None? <==> forall i :: 0 <= i < |orders| ==> !QueryMatchesAsWritten(orders[i], seller, orderId, itemId)
  {
    if orders == [] then None
    else if QueryMatchesAsWritten(orders[0], seller, orderId, itemId) then Some(0)
    else match FindOrderAsWritten(orders[1..], seller, orderId, itemId)
      case None => None
      case Some(k) => Some(k + 1)
  }

  /** The first line with the item id: `order.items.id(itemId)`. */
  function FirstLineWithId(lines: seq<OrderLine>, itemId: nat): (r: Option<nat>)
    ensures r.Some? ==> r.value < |lines| && lines[r.value].id == itemId
    ensures r.None? <==> forall j :: 0 <= j < |lines| ==> lines[j].id != itemId
  {
    if lines == [] then None
    else if lines[0].id == itemId then Some(0)
    else match FirstLineWithId(lines[1..], itemId)
      case None => None
      case Some(k) => Some(k + 1)
  }

  /** The status a stored line carries. Order.js declares no `status` path on a
      line, so what it stores of a line is a `PersistedLine`, which has none. */
  function StoredStatus(l: PersistedLine): Option<Status>
  {
    None
  }

  /** The handler as written, on the lines as Order.js stores them: the status of
      the line is looked up in the table; for an absent status the entry is
      undefined and `.includes` on it throws, which the handler answers with 500.
      Since `StoredStatus` is always `None`, the `Some` arm never runs; it is kept
      to show the table lookup the handler makes when a status is present. */
  function UpdateOrderStatusAsWritten(orders: seq<Order>, seller: SellerId, orderId: nat, itemId: nat,
                                      status: string): (r: StatusReply)
    ensures r == LineNotFound <==> FindOrderAsWritten(orders, seller, orderId, itemId).None?
  {
    match FindOrderAsWritten(orders, seller, orderId, itemId)
    case None => LineNotFound
    case Some(i) =>
      var j := FirstLineWithId(orders[i].items, itemId).value;
      var stored := StoredStatus(Persist(orders[i].items[j]));
      match stored
      case None => StatusUpdateFailed
      case Some(current) =>
        if exists t :: t in AllowedNext(current) && StatusName(t) == status then StatusUpdated
        else InvalidTransition(TransitionMessage(StatusName(current), status))
  }

  /** Finding: no status update ever succeeds as written, whatever the order, the
      line's status or the requested status. */
  lemma AsWrittenNeverTransitions(orders: seq<Order>, seller: SellerId, orderId: nat, itemId: nat, status: string)
    requires exists i :: 0 <= i < |orders| && QueryMatchesAsWritten(orders[i], seller, orderId, itemId)
    ensures UpdateOrderStatusAsWritten(orders, seller, orderId, itemId, status) == StatusUpdateFailed
  {
    var i :| 0 <= i < |orders| && QueryMatchesAsWritten(orders[i], seller, orderId, itemId);
    assert FindOrderAsWritten(orders, seller, orderId, itemId).Some?;
  }

  /** Finding: as written, seller "a" reaches the line of seller "b" on a shared
      order, which the intended query refuses. */
  lemma CrossSellerLineReachable()
    ensures var o := Order(7, "u", [OrderLine(1, "p", "x", 10, 1, "a", Pending),
                                    OrderLine(2, "q", "y", 20, 1, "b", Pending)], 30, Pending, "COD");
      QueryMatchesAsWritten(o, "a", 7, 2) && !QueryMatches(o, "a", 7, 2)
  {
    var o := Order(7, "u", [OrderLine(1, "p", "x", 10, 1, "a", Pending),
                            OrderLine(2, "q", "y", 20, 1, "b", Pending)], 30, Pending, "COD");
    assert o.items[1].id == 2 && o.items[0].seller == "a";
  }

  /** The intended query never admits more than the written one. */
  lemma QueryNarrower(o: Order, seller: SellerId, orderId: nat, itemId: nat)
    ensures QueryMatches(o, seller, orderId, itemId) ==> QueryMatchesAsWritten(o, seller, orderId, itemId)
  {
  }

  /** The line a corrected request addresses: in the first order with that id, the
      first line with both the item id and the caller as seller. */
  function LocateLine(orders: seq<Order>, seller: SellerId, orderId: nat, itemId: nat): (r: Option<(nat, nat)>)
    ensures r.Some? ==> r.value.0 < |orders| && r.value.1 < |orders[r.value.0].items|
    ensures r.Some? ==> var l := orders[r.value.0].items[r.value.1];
      orders[r.value.0].id == orderId && l.id == itemId && l.seller == seller
    ensures r.None? <==> forall i :: 0 <= i < |orders| ==> !QueryMatches(orders[i], seller, orderId, itemId)
  {
    if orders == [] then None
    else
      var here := LocateInOrder(orders[0].items, seller, itemId);
      if orders[0].id == orderId && here.Some? then Some((0, here.value))
      else
        assert !QueryMatches(orders[0], seller, orderId, itemId);
        TailShift(orders, seller, orderId, itemId);
        match LocateLine(orders[1..], seller, orderId, itemId)
        case None => None
        case Some(p) => Some((p.0 + 1, p.1))
  }

  /** An order list with no match at its head matches exactly where its tail does. */
  lemma TailShift(orders: seq<Order>, seller: SellerId, orderId: nat, itemId: nat)
    requires orders != [] && !QueryMatches(orders[0], seller, orderId, itemId)
    ensures (forall i :: 0 <= i < |orders| ==> !QueryMatches(orders[i], seller, orderId, itemId)) <==>
            (forall i :: 0 <= i < |orders[1..]| ==> !QueryMatches(orders[1..][i], seller, orderId, itemId))
  {
    var tail := orders[1..];
    assert forall i :: 0 <= i < |tail| ==> tail[i] == orders[i + 1];
  }

  /** The first line of `lines` with the item id and the seller. */
  function LocateInOrder(lines: seq<OrderLine>, seller: SellerId, itemId: nat): (r: Option<nat>)
    ensures r.Some? ==> r.value < |lines| && lines[r.value].id == itemId && lines[r.value].seller == seller
    ensures r.None? <==> forall j :: 0 <= j < |lines| ==> !(lines[j].id == itemId && lines[j].seller == seller)
  {
    if lines == [] then None
    else if lines[0].id == itemId && lines[0].seller == seller then Some(0)
    else match LocateInOrder(lines[1..], seller, itemId)
      case None => None
      case Some(k) => Some(k + 1)
  }

  /** The status the request names, if it is a legal move from `current`. */
  function NextStatus(current: Status, requested: string): (r: Option<Status>)
    ensures r.Some? <==> exists t :: t in AllowedNext(current) && StatusName(t) == requested
    ensures r.Some? ==> r.value in AllowedNext(current) && StatusName(r.value) == requested
  {
    match ParseStatus(requested)
    case None => None
    case Some(t) =>
      if t in AllowedNext(current) then Some(t)
      else
        assert forall t' :: StatusName(t') == requested ==> t' == t by {
          forall t' | StatusName(t') == requested ensures t' == t { ParseStatusName(t'); }
        }
        None
  }

  /** The orders after `item.status = status` on line `j` of order `i`. */
  function WithLineStatus(orders: seq<Order>, i: nat, j: nat, t: Status): seq<Order>
    requires i < |orders| && j < |orders[i].items|
  {
    orders[i := orders[i].(items := orders[i].items[j := orders[i].items[j].(status := t)])]
  }

  /** The corrected handler: the reply, and the orders afterwards. */
  function UpdateOrderStatus(orders: seq<Order>, seller: SellerId, orderId: nat, itemId: nat,
                             status: string): (r: (StatusReply, seq<Order>))
    ensures LocateLine(orders, seller, orderId, itemId).None? ==> r == (LineNotFound, orders)
    ensures LocateLine(orders, seller, orderId, itemId).Some? ==>
      var (i, j) := LocateLine(orders, seller, orderId, itemId).value;
      var current := orders[i].items[j].status;
      match NextStatus(current, status)
      case None => r == (InvalidTransition(TransitionMessage(StatusName(current), status)), orders)
      case Some(t) => r == (StatusUpdated, WithLineStatus(orders, i, j, t))
  {
    match LocateLine(orders, seller, orderId, itemId)
    case None => (LineNotFound, orders)
    case Some((i, j)) =>
      var current := orders[i].items[j].status;
      match NextStatus(current, status)
      case None => (InvalidTransition(TransitionMessage(StatusName(current), status)), orders)
      case Some(t) => (StatusUpdated, WithLineStatus(orders, i, j, t))
  }

  /** A successful update changes only the status of the addressed line, and only
      by a legal move; the order header, every other line and every other order
      are untouched. A refused update changes nothing. */
  lemma UpdateChangesOnlyTheLine(orders: seq<Order>, seller: SellerId, orderId: nat, itemId: nat, status: string)
    ensures var (reply, after) := UpdateOrderStatus(orders, seller, orderId, itemId, status);
      reply != StatusUpdated ==> after == orders
    ensures var (reply, after) := UpdateOrderStatus(orders, seller, orderId, itemId, status);
      reply == StatusUpdated ==>
        && LocateLine(orders, seller, orderId, itemId).Some?
        && var (i, j) := LocateLine(orders, seller, orderId, itemId).value;
           && |after| == |orders|
           && (forall k :: 0 <= k < |orders| && k != i ==> after[k] == orders[k])
           && after[i].id == orders[i].id && after[i].user == orders[i].user
           && after[i].status == orders[i].status && after[i].totalAmount == orders[i].totalAmount
           && |after[i].items| == |orders[i].items|
           && (forall k :: 0 <= k < |orders[i].items| && k != j ==> after[i].items[k] == orders[i].items[k])
           && after[i].items[j] == orders[i].items[j].(status := after[i].items[j].status)
           && after[i].items[j].status in AllowedNext(orders[i].items[j].status)
           && StatusName(after[i].items[j].status) == status
  {
  }

  /** A seller update never cancels a line. */
  lemma UpdateNeverCancels(orders: seq<Order>, seller: SellerId, orderId: nat, itemId: nat, status: string)
    requires UpdateOrderStatus(orders, seller, orderId, itemId, status).0 == StatusUpdated
    ensures var (i, j) := LocateLine(orders, seller, orderId, itemId).value;
      UpdateOrderStatus(orders, seller, orderId, itemId, status).1[i].items[j].status != Cancelled
  {
    var (i, j) := LocateLine(orders, seller, orderId, itemId).value;
    OnlyLegalTransitions(orders[i].items[j].status, UpdateOrderStatus(orders, seller, orderId, itemId, status).1[i].items[j].status);
  }

  /** The line statuses do not enter the total; a status update keeps the header's
      total equal to the sum over the lines. */
  lemma {:induction false} LinesTotalIgnoresStatus(lines: seq<OrderLine>, j: nat, t: Status)
    requires j < |lines|
    ensures LinesTotal(lines[j := lines[j].(status := t)]) == LinesTotal(lines)
  {
    var n := |lines| - 1;
    var after := lines[j := lines[j].(status := t)];
    if j < n {
      assert after[..n] == lines[..n][j := lines[j].(status := t)];
      LinesTotalIgnoresStatus(lines[..n], j, t);
    } else {
      assert after[..n] == lines[..n];
    }
  }

  /** Starting from `pending`, "shipped" and then "delivered" both succeed, after
      which every further request for the line is refused. */
  lemma PendingShippedDelivered(o: Order, seller: SellerId, j: nat, status: string)
    requires j < |o.items| && o.items[j].seller == seller && o.items[j].status == Pending
    requires forall k :: 0 <= k < |o.items| && k != j ==> o.items[k].id != o.items[j].id
    ensures var itemId := o.items[j].id;
      var (r1, s1) := UpdateOrderStatus([o], seller, o.id, itemId, "shipped");
      var (r2, s2) := UpdateOrderStatus(s1, seller, o.id, itemId, "delivered");
      && r1 == StatusUpdated && r2 == StatusUpdated
      && s2[0].items[j].status == Delivered
      && UpdateOrderStatus(s2, seller, o.id, itemId, status).0.InvalidTransition?
  {
    var itemId := o.items[j].id;
    var o1 := SingleLineStep(o, seller, j, Shipped);
    assert StatusName(Shipped) == "shipped";
    var o2 := SingleLineStep(o1, seller, j, Delivered);
    assert StatusName(Delivered) == "delivered";
    SingleLineLocated(o2, seller, j);
    assert LocateLine([o2], seller, o.id, itemId) == Some((0, j));
    assert NextStatus(Delivered, status).None?;
  }

  /** The request reaches line `j` of a one-order list when no other line shares
      its id. */
  lemma SingleLineLocated(o: Order, seller: SellerId, j: nat)
    requires j < |o.items| && o.items[j].seller == seller
    requires forall k :: 0 <= k < |o.items| && k != j ==> o.items[k].id != o.items[j].id
    ensures LocateLine([o], seller, o.id, o.items[j].id) == Some((0, j))
  {
    var r := LocateInOrder(o.items, seller, o.items[j].id);
    assert r.Some?;
    assert [o][1..] == [];
  }

  /** One legal move of line `j` on a one-order list succeeds and changes just
      that line's status; the line keeps its id and seller. */
  lemma SingleLineStep(o: Order, seller: SellerId, j: nat, t: Status) returns (o': Order)
    requires j < |o.items| && o.items[j].seller == seller && t in AllowedNext(o.items[j].status)
    requires forall k :: 0 <= k < |o.items| && k != j ==> o.items[k].id != o.items[j].id
    ensures o' == o.(items := o.items[j := o.items[j].(status := t)])
    ensures UpdateOrderStatus([o], seller, o.id, o.items[j].id, StatusName(t)) == (StatusUpdated, [o'])
    ensures o'.id == o.id && j < |o'.items| && o'.items[j].id == o.items[j].id && o'.items[j].seller == seller
    ensures o'.items[j].status == t
    ensures forall k :: 0 <= k < |o'.items| && k != j ==> o'.items[k].id != o'.items[j].id
  {
    o' := o.(items := o.items[j := o.items[j].(status := t)]);
    SingleLineLocated(o, seller, j);
    ParseStatusName(t);
    assert WithLineStatus([o], 0, j, t) == [o'];
  }

  // ---------------------------------------------------------------------------
  // getSellerOrders (sellerOrderController.js:17-44)
  // ---------------------------------------------------------------------------

  /** `'items.seller': seller`: some line of the order is the seller's. */
  predicate HasLineOf(o: Order, seller: SellerId)
  {
    exists j :: 0 <= j < |o.items| && o.items[j].seller == seller
  }

  /** The orders with a line of the seller, newest first. */
  function SellerOrdersOf(orders: seq<Order>, seller: SellerId): (r: seq<Order>)
    ensures forall o :: o in r <==> o in orders && HasLineOf(o, seller)
  {
    if orders == [] then []
    else
      var rest := SellerOrdersOf(orders[1..], seller);
      assert forall o :: o in orders <==> o == orders[0] || o in orders[1..];
      rest + (if HasLineOf(orders[0], seller) then [orders[0]] else [])
  }

  predicate IdsDecreasing(r: seq<Order>)
  {
    forall a, b :: 0 <= a < b < |r| ==> r[a].id > r[b].id
  }

  /** The seller's list is newest first when ids increase with creation. */
  lemma {:induction false} SellerOrdersNewestFirst(orders: seq<Order>, seller: SellerId)
    requires forall i, j :: 0 <= i < j < |orders| ==> orders[i].id < orders[j].id
    ensures IdsDecreasing(SellerOrdersOf(orders, seller))
  {
    if orders != [] {
      var tail := orders[1..];
      SellerOrdersNewestFirst(tail, seller);
      var rest := SellerOrdersOf(tail, seller);
      forall k | 0 <= k < |rest| ensures rest[k].id > orders[0].id {
        assert rest[k] in tail;
        var i :| 0 <= i < |tail| && tail[i] == rest[k];
        assert tail[i] == orders[i + 1];
      }
      var r := SellerOrdersOf(orders, seller);
      if HasLineOf(orders[0], seller) {
        assert r == rest + [orders[0]];
        forall a, b | 0 <= a < b < |r| ensures r[a].id > r[b].id {
          if b == |rest| { assert r[a] == rest[a]; } else { assert r[a] == rest[a] && r[b] == rest[b]; }
        }
      } else {
        assert r == rest;
      }
    }
  }
}
