/** The rules of OrderController.js stated on values: when checkout succeeds, the
    order lines it snapshots, the stock changes of checkout and cancellation, the
    order a cancel may address, and the order history. The handlers themselves
    are methods of `Store.Database`. */
module OrderRules {
  import opened Wrappers
  import opened ProductModel
  import opened CartModel
  import opened OrderModel
  import CartRules

  const EmptyCartMessage: string := "Your cart is empty"
  const OrderNotFoundMessage: string := "Order not found"

  // ---------------------------------------------------------------------------
  // The all-or-nothing check of processOrder (OrderController.js:19-36)
  // ---------------------------------------------------------------------------

  /** The product an entry populates to: `match: { isActive: true }` leaves a
      missing or inactive product as null. */
  function Populated(products: map<ProductId, Product>, pid: ProductId): (r: Option<Product>)
    ensures r.Some? <==> pid in products && products[pid].isActive
    ensures r.Some? ==> r.value == products[pid]
  {
    if pid in products && products[pid].isActive then Some(products[pid]) else None
  }

  /** An entry checkout accepts: an active product with enough stock. */
  predicate EntryOk(products: map<ProductId, Product>, item: CartItem)
  {
    Populated(products, item.product).Some? && Populated(products, item.product).value.stock >= item.quantity
  }

  /** `` `${product?.name || 'Product'} is out of stock` ``. */
  function OutOfStockMessage(p: Option<Product>): (m: string)
    ensures p.Some? && p.value.name != "" ==> m == p.value.name + " is out of stock"
    ensures !(p.Some? && p.value.name != "") ==> m == "Product is out of stock"
  {
    (if p.Some? && p.value.name != "" then p.value.name else "Product") + " is out of stock"
  }

  /** The first entry the check refuses, as the `reduce` throws at it. */
  function FirstUnavailable(items: seq<CartItem>, products: map<ProductId, Product>): (r: Option<nat>)
    ensures r.None? <==> forall j :: 0 <= j < |items| ==> EntryOk(products, items[j])
    ensures r.Some? ==> r.value < |items| && !EntryOk(products, items[r.value])
    ensures r.Some? ==> forall j :: 0 <= j < r.value ==> EntryOk(products, items[j])
  {
    if items == [] then None
    else if !EntryOk(products, items[0]) then Some(0)
    else match FirstUnavailable(items[1..], products)
      case None => None
      case Some(k) => Some(k + 1)
  }

  /** The first refused entry is the one after the accepted prefix. */
  lemma FirstUnavailableAt(items: seq<CartItem>, products: map<ProductId, Product>, i: nat)
    requires i < |items| && !EntryOk(products, items[i])
    requires forall j :: 0 <= j < i ==> EntryOk(products, items[j])
    ensures FirstUnavailable(items, products) == Some(i)
  {
  }

  // ---------------------------------------------------------------------------
  // The order lines (OrderController.js:38-45): one per entry, in cart order
  // ---------------------------------------------------------------------------

  /** The line an accepted entry becomes; line ids come from the id generator. */
  function SnapshotLine(item: CartItem, p: Product, id: nat): (l: OrderLine)
    ensures l.productId == item.product && l.quantity == item.quantity && l.id == id
    ensures l.name == p.name && l.price == p.price && l.seller == p.seller && l.status == Pending
  {
    OrderLine(id, item.product, p.name, p.price, item.quantity, p.seller, Pending)
  }

  /** The lines of the order, the `j`-th with id `base + j`. */
  function Snapshot(items: seq<CartItem>, products: map<ProductId, Product>, base: nat): (r: seq<OrderLine>)
    requires forall j :: 0 <= j < |items| ==> items[j].product in products
    ensures |r| == |items|
    ensures forall j :: 0 <= j < |items| ==> r[j] == SnapshotLine(items[j], products[items[j].product], base + j)
  {
    if items == [] then []
    else
      var n := |items| - 1;
      Snapshot(items[..n], products, base) + [SnapshotLine(items[n], products[items[n].product], base + n)]
  }

  /** Snapshotting one more entry appends its line. */
  lemma SnapshotSnoc(items: seq<CartItem>, products: map<ProductId, Product>, base: nat, i: nat)
    requires i < |items| && forall j :: 0 <= j <= i ==> items[j].product in products
    ensures Snapshot(items[..i + 1], products, base)
      == Snapshot(items[..i], products, base) + [SnapshotLine(items[i], products[items[i].product], base + i)]
  {
    assert items[..i + 1][..i] == items[..i];
  }

  // ---------------------------------------------------------------------------
  // Stock movements (OrderController.js:47-52, 67 and 142-147)
  // ---------------------------------------------------------------------------

  /** Σ quantity over the lines for product `pid`. */
  function Reserved(lines: seq<OrderLine>, pid: ProductId): int
  {
    if lines == [] then 0
    else
      var n := |lines| - 1;
      Reserved(lines[..n], pid) + (if lines[n].productId == pid then lines[n].quantity else 0)
  }

  /** Σ quantity over the cart entries for product `pid`. */
  function Requested(items: seq<CartItem>, pid: ProductId): int
  {
    if items == [] then 0
    else
      var n := |items| - 1;
      Requested(items[..n], pid) + (if items[n].product == pid then items[n].quantity else 0)
  }

  /** `$inc: { stock: delta(line) }` applied line after line; a line whose product
      is not in the store matches nothing. `sign` is -1 for checkout, +1 for
      cancellation. */
  function Moved(products: map<ProductId, Product>, lines: seq<OrderLine>, sign: int): map<ProductId, Product>
  {
    if lines == [] then products
    else
      var n := |lines| - 1;
      var m := Moved(products, lines[..n], sign);
      var pid := lines[n].productId;
      if pid in m then m[pid := m[pid].(stock := m[pid].stock + sign * lines[n].quantity)] else m
  }

  /** The stock decrement of checkout. */
  function Decremented(products: map<ProductId, Product>, lines: seq<OrderLine>): map<ProductId, Product>
  {
    Moved(products, lines, -1)
  }

  /** The restock of cancellation. */
  function Restocked(products: map<ProductId, Product>, lines: seq<OrderLine>): map<ProductId, Product>
  {
    Moved(products, lines, 1)
  }

  /** A movement touches only the stock, never which products exist. */
  lemma {:induction false} MovedKeys(products: map<ProductId, Product>, lines: seq<OrderLine>, sign: int)
    ensures Moved(products, lines, sign).Keys == products.Keys
  {
    if lines != [] {
      MovedKeys(products, lines[..|lines| - 1], sign);
    }
  }

  /** The closed form of a movement at one product: its stock moves by its reserved
      quantity, and nothing else about it changes. */
  lemma {:induction false} MovedAt(products: map<ProductId, Product>, lines: seq<OrderLine>, sign: int, pid: ProductId)
    requires pid in products
    ensures pid in Moved(products, lines, sign)
    ensures Moved(products, lines, sign)[pid] == products[pid].(stock := products[pid].stock + sign * Reserved(lines, pid))
  {
    if lines != [] {
      var n := |lines| - 1;
      MovedAt(products, lines[..n], sign, pid);
      var before := Reserved(lines[..n], pid);
      if pid == lines[n].productId {
        assert sign * Reserved(lines, pid) == sign * before + sign * lines[n].quantity;
      }
    }
  }

  lemma MovedClosedForm(products: map<ProductId, Product>, lines: seq<OrderLine>, sign: int)
    ensures Moved(products, lines, sign).Keys == products.Keys
    ensures forall pid :: pid in products ==>
      Moved(products, lines, sign)[pid] == products[pid].(stock := products[pid].stock + sign * Reserved(lines, pid))
  {
    MovedKeys(products, lines, sign);
    forall pid | pid in products
      ensures Moved(products, lines, sign)[pid] == products[pid].(stock := products[pid].stock + sign * Reserved(lines, pid))
    {
      MovedAt(products, lines, sign, pid);
    }
  }

  /** Checkout moves each product's stock down by exactly what the lines reserve
      for it. */
  lemma DecrementedStock(products: map<ProductId, Product>, lines: seq<OrderLine>)
    ensures Decremented(products, lines).Keys == products.Keys
    ensures forall pid :: pid in products ==>
      Decremented(products, lines)[pid] == products[pid].(stock := products[pid].stock - Reserved(lines, pid))
  {
    MovedClosedForm(products, lines, -1);
  }

  /** Cancellation moves each product's stock up by exactly what the lines reserve
      for it. */
  lemma RestockedStock(products: map<ProductId, Product>, lines: seq<OrderLine>)
    ensures Restocked(products, lines).Keys == products.Keys
    ensures forall pid :: pid in products ==>
      Restocked(products, lines)[pid] == products[pid].(stock := products[pid].stock + Reserved(lines, pid))
  {
    MovedClosedForm(products, lines, 1);
  }

  /** Restocking the lines of an order gives back the store as it was before their
      decrement. */
  lemma RestockUndoesDecrement(products: map<ProductId, Product>, lines: seq<OrderLine>)
    ensures Restocked(Decremented(products, lines), lines) == products
  {
    DecrementedStock(products, lines);
    RestockedStock(Decremented(products, lines), lines);
  }

  /** Lines of non-negative quantity reserve a non-negative amount. */
  lemma {:induction false} ReservedNonNegative(lines: seq<OrderLine>, pid: ProductId)
    requires forall j :: 0 <= j < |lines| ==> lines[j].quantity >= 0
    ensures Reserved(lines, pid) >= 0
  {
    if lines != [] {
      ReservedNonNegative(lines[..|lines| - 1], pid);
    }
  }

  /** The lines of a snapshot reserve what the entries request. */
  lemma {:induction false} SnapshotReserves(items: seq<CartItem>, products: map<ProductId, Product>, base: nat, pid: ProductId)
    requires forall j :: 0 <= j < |items| ==> items[j].product in products
    ensures Reserved(Snapshot(items, products, base), pid) == Requested(items, pid)
  {
    if items != [] {
      var n := |items| - 1;
      SnapshotReserves(items[..n], products, base, pid);
      assert Snapshot(items, products, base)[..n] == Snapshot(items[..n], products, base);
    }
  }

  lemma {:induction false} RequestedAbsent(items: seq<CartItem>, pid: ProductId)
    requires forall j :: 0 <= j < |items| ==> items[j].product != pid
    ensures Requested(items, pid) == 0
  {
    if items != [] {
      RequestedAbsent(items[..|items| - 1], pid);
    }
  }

  /** With one entry per product, the entries request for `pid` exactly the entry's
      quantity. */
  lemma {:induction false} RequestedDistinct(items: seq<CartItem>, pid: ProductId)
    requires CartRules.DistinctProducts(items)
    ensures Requested(items, pid) == CartRules.QuantityOf(items, pid)
  {
    if items != [] {
      var n := |items| - 1;
      var init := items[..n];
      assert CartRules.DistinctProducts(init);
      if items[n].product == pid {
        RequestedAbsent(init, pid);
        assert FindProduct(items, pid) == Some(n);
      } else {
        RequestedDistinct(init, pid);
        assert FindProduct(items, pid) == FindProduct(init, pid) by {
          match FindProduct(init, pid)
          case None =>
          case Some(k) => assert items[k] == init[k];
        }
      }
    }
  }

  /** The check of line 34 protects the stock: with one entry per product and every
      entry accepted, no stock goes negative after the decrement. */
  lemma CheckoutKeepsStock(items: seq<CartItem>, products: map<ProductId, Product>, base: nat)
    requires CartRules.DistinctProducts(items)
    requires forall j :: 0 <= j < |items| ==> EntryOk(products, items[j])
    requires forall pid :: pid in products ==> products[pid].stock >= 0
    ensures forall j :: 0 <= j < |items| ==> items[j].product in products
    ensures forall pid :: pid in Decremented(products, Snapshot(items, products, base)) ==>
      Decremented(products, Snapshot(items, products, base))[pid].stock >= 0
  {
    var lines := Snapshot(items, products, base);
    DecrementedStock(products, lines);
    forall pid | pid in products ensures products[pid].stock - Reserved(lines, pid) >= 0 {
      SnapshotReserves(items, products, base, pid);
      RequestedDistinct(items, pid);
      match FindProduct(items, pid)
      case None =>
      case Some(k) => assert EntryOk(products, items[k]);
    }
  }

  /** The lines of a snapshot are accepted lines: positive quantities and the
      non-negative prices of the products. */
  lemma SnapshotLinesValid(items: seq<CartItem>, products: map<ProductId, Product>, base: nat)
    requires forall j :: 0 <= j < |items| ==> items[j].product in products && items[j].quantity >= 1
    requires forall pid :: pid in products ==> products[pid].price >= 0
    ensures forall j :: 0 <= j < |items| ==>
      Snapshot(items, products, base)[j].quantity >= 1 && Snapshot(items, products, base)[j].price >= 0
  {
  }

  // ---------------------------------------------------------------------------
  // cancelOrder (OrderController.js:131-160)
  // ---------------------------------------------------------------------------

  /** `Order.findOne({ _id, user, status: 'pending' })`, as a position. */
  function FindCancellable(orders: seq<Order>, user: UserId, orderId: nat): (r: Option<nat>)
    ensures r.Some? ==>
      r.value < |orders| && orders[r.value].id == orderId && orders[r.value].user == user && orders[r.value].status == Pending
    ensures r.None? ==> forall i :: 0 <= i < |orders| ==>
      !(orders[i].id == orderId && orders[i].user == user && orders[i].status == Pending)
  {
    if orders == [] then None
    else if orders[0].id == orderId && orders[0].user == user && orders[0].status == Pending then Some(0)
    else match FindCancellable(orders[1..], user, orderId)
      case None => None
      case Some(k) => Some(k + 1)
  }

  /** Order ids are unique. */
  predicate IdsUnique(orders: seq<Order>)
  {
    forall i, j :: 0 <= i < j < |orders| ==> orders[i].id != orders[j].id
  }

  /** Increasing ids are unique. */
  lemma IncreasingUnique(orders: seq<Order>)
    requires IdsIncreasing(orders)
    ensures IdsUnique(orders)
  {
    forall i, j | 0 <= i < j < |orders| ensures orders[i].id != orders[j].id {
      assert orders[i].id < orders[j].id;
    }
  }

  /** The newest order, while pending, is the one its owner's cancel finds. */
  lemma NewestCancellable(orders: seq<Order>)
    requires IdsIncreasing(orders) && orders != [] && orders[|orders| - 1].status == Pending
    ensures var last := orders[|orders| - 1];
      FindCancellable(orders, last.user, last.id) == Some(|orders| - 1)
  {
  }

  /** Once an order is cancelled, no request can cancel it again. */
  lemma CancelledNotCancellable(orders: seq<Order>, k: nat, user: UserId)
    requires IdsUnique(orders) && k < |orders|
    ensures FindCancellable(orders[k := orders[k].(status := Cancelled)], user, orders[k].id).None?
  {
    var after := orders[k := orders[k].(status := Cancelled)];
    forall i | 0 <= i < |after| ensures !(after[i].id == orders[k].id && after[i].user == user && after[i].status == Pending) {
      if i != k {
        assert after[i].id == orders[i].id;
        assert orders[i].id != orders[k].id by {
          if i < k { assert orders[i].id != orders[k].id; } else { assert orders[k].id != orders[i].id; }
        }
      }
    }
  }

  // ---------------------------------------------------------------------------
  // getOrderHistory (OrderController.js:106-128)
  // ---------------------------------------------------------------------------

  /** One row of the history: id, total and status (the creation date is left
      out; creation order is the order of the store). */
  datatype Summary = Summary(id: nat, totalAmount: int, status: Status)

  function SummaryOf(o: Order): Summary { Summary(o.id, o.totalAmount, o.status) }

  /** `s` is the summary of one of the user's orders. */
  predicate HasOrder(orders: seq<Order>, user: UserId, s: Summary)
  {
    exists i :: 0 <= i < |orders| && orders[i].user == user && SummaryOf(orders[i]) == s
  }

  lemma HasOrderUnfold(orders: seq<Order>, user: UserId, s: Summary)
    requires orders != []
    ensures HasOrder(orders, user, s) <==>
      (orders[0].user == user && SummaryOf(orders[0]) == s) || HasOrder(orders[1..], user, s)
  {
    if HasOrder(orders, user, s) {
      var i :| 0 <= i < |orders| && orders[i].user == user && SummaryOf(orders[i]) == s;
      if i > 0 { assert orders[1..][i - 1] == orders[i]; }
    }
    if HasOrder(orders[1..], user, s) {
      var i :| 0 <= i < |orders[1..]| && orders[1..][i].user == user && SummaryOf(orders[1..][i]) == s;
      assert orders[i + 1] == orders[1..][i];
    }
  }

  /** `Order.find({ user }).sort('-createdAt')`: the summaries of the user's orders
      and of nothing else, newest first (the store keeps creation order). */
  function OrderHistory(orders: seq<Order>, user: UserId): (r: seq<Summary>)
    ensures forall s :: s in r <==> HasOrder(orders, user, s)
  {
    if orders == [] then []
    else
      var rest := OrderHistory(orders[1..], user);
      forall s ensures HasOrder(orders, user, s) <==>
        (orders[0].user == user && SummaryOf(orders[0]) == s) || HasOrder(orders[1..], user, s)
      {
        HasOrderUnfold(orders, user, s);
      }
      rest + (if orders[0].user == user then [SummaryOf(orders[0])] else [])
  }

  /** Order ids increase with creation. */
  predicate IdsIncreasing(orders: seq<Order>)
  {
    forall i, j :: 0 <= i < j < |orders| ==> orders[i].id < orders[j].id
  }

  /** Strictly decreasing ids. */
  predicate NewestFirst(r: seq<Summary>)
  {
    forall a, b :: 0 <= a < b < |r| ==> r[a].id > r[b].id
  }

  /** The history is newest first: when ids increase with creation, the ids of the
      history strictly decrease. */
  lemma {:induction false} HistoryNewestFirst(orders: seq<Order>, user: UserId)
    requires IdsIncreasing(orders)
    ensures NewestFirst(OrderHistory(orders, user))
  {
    if orders != [] {
      var tail := orders[1..];
      assert IdsIncreasing(tail);
      HistoryNewestFirst(tail, user);
      var rest := OrderHistory(tail, user);
      forall k | 0 <= k < |rest| ensures rest[k].id > orders[0].id {
        assert HasOrder(tail, user, rest[k]);
        var i :| 0 <= i < |tail| && tail[i].user == user && SummaryOf(tail[i]) == rest[k];
        assert tail[i] == orders[i + 1];
      }
      var r := OrderHistory(orders, user);
      if orders[0].user == user {
        assert r == rest + [SummaryOf(orders[0])];
        forall a, b | 0 <= a < b < |r| ensures r[a].id > r[b].id {
          if b == |rest| { assert r[a] == rest[a]; } else { assert r[a] == rest[a] && r[b] == rest[b]; }
        }
      } else {
        assert r == rest;
      }
    }
  }
}
