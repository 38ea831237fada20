/** The database the cart, order and seller handlers share, as one object: the
    product store, one cart per user, the orders in creation order, and the id
    generator for cart items, orders and order lines. Each handler is a method;
    its contract ties the reply and the new state to the rules of CartRules,
    OrderRules, SellerOrders and SellerProducts, and every method keeps the
    invariant `Valid()`. */
module Store {
  import opened Wrappers
  import opened ProductModel
  import opened CartModel
  import opened OrderModel
  import opened CartRules
  import opened OrderRules
  import Validation
  import SellerOrders
  import SellerProducts

  /** A stored order: ids from the generator, at least one line, accepted lines,
      and the total of its lines. */
  predicate OrderValid(o: Order, nextId: nat)
  {
    && o.id < nextId
    && |o.items| >= 1
    && o.totalAmount == LinesTotal(o.items)
    && (forall j :: 0 <= j < |o.items| ==> o.items[j].quantity >= 1)
  }

  /** Stock and price are never negative. */
  predicate AmountsValid(products: map<ProductId, Product>)
  {
    forall pid :: pid in products ==> products[pid].stock >= 0 && products[pid].price >= 0
  }

  /** Every cart is valid and its ids come from the generator. */
  predicate CartsValid(carts: map<UserId, seq<CartItem>>, nextId: nat)
  {
    forall u :: u in carts ==> CartValid(carts[u]) && forall j :: 0 <= j < |carts[u]| ==> carts[u][j].id < nextId
  }

  /** Orders are stored valid, in creation order. */
  predicate OrdersValid(orders: seq<Order>, nextId: nat)
  {
    IdsIncreasing(orders) && forall i :: 0 <= i < |orders| ==> OrderValid(orders[i], nextId)
  }

  /** The invariant of the database. */
  predicate Consistent(products: map<ProductId, Product>, carts: map<UserId, seq<CartItem>>, orders: seq<Order>, nextId: nat)
  {
    AmountsValid(products) && KeysUnique(products) && CartsValid(carts, nextId) && OrdersValid(orders, nextId)
  }

  /** The items of the user's cart; a user without a cart has none. */
  function ItemsOf(carts: map<UserId, seq<CartItem>>, user: UserId): seq<CartItem>
  {
    if user in carts then carts[user] else []
  }

  /** The user's cart, if there is one. */
  function CartOf(carts: map<UserId, seq<CartItem>>, user: UserId): (r: Option<seq<CartItem>>)
    ensures r.Some? <==> user in carts
    ensures r.Some? ==> r.value == carts[user]
  {
    if user in carts then Some(carts[user]) else None
  }

  datatype RemoveReply = ItemRemoved | RemoveFailed   // 200, or 500 when there is no cart
  datatype CheckoutReply = Placed(order: Order) | CheckoutFailed(message: string)   // 201 or 400
  datatype CancelReply = OrderCancelled | CancelFailed(message: string)             // 200 or 400

  /** Replacing one cart by a valid cart whose ids come from the generator keeps
      the carts valid, also when the generator moves on. */
  lemma WithCart(carts: map<UserId, seq<CartItem>>, nextId: nat, user: UserId, items: seq<CartItem>, nextId': nat)
    requires CartsValid(carts, nextId) && nextId <= nextId'
    requires CartValid(items) && forall j :: 0 <= j < |items| ==> items[j].id < nextId'
    ensures CartsValid(carts[user := items], nextId')
  {
  }

  /** A successful add keeps the database consistent: the merged cart is valid and
      its new entry, if any, takes the generator's next id. */
  lemma AddedConsistent(products: map<ProductId, Product>, carts: map<UserId, seq<CartItem>>, orders: seq<Order>,
                        nextId: nat, user: UserId, productId: ProductId, q: int)
    requires Consistent(products, carts, orders, nextId) && q >= 1
    ensures Consistent(products, carts[user := MergeAdd(ItemsOf(carts, user), productId, q, nextId)], orders, nextId + 1)
  {
    var items := ItemsOf(carts, user);
    var merged := MergeAdd(items, productId, q, nextId);
    assert CartValid(merged) && forall j :: 0 <= j < |merged| ==> merged[j].id < nextId + 1 by {
      MergeAddValid(items, productId, q, nextId);
      MergeAddEffect(items, productId, q, nextId);
    }
    assert CartsValid(carts[user := merged], nextId + 1) by {
      WithCart(carts, nextId, user, merged, nextId + 1);
    }
    assert OrdersValid(orders, nextId + 1) by {
      OrdersLater(orders, nextId, nextId + 1);
    }
  }

  /** The orders stay valid when the generator moves on. */
  lemma OrdersLater(orders: seq<Order>, nextId: nat, nextId': nat)
    requires OrdersValid(orders, nextId) && nextId <= nextId'
    ensures OrdersValid(orders, nextId')
  {
    forall i | 0 <= i < |orders| ensures OrderValid(orders[i], nextId') {
      assert OrderValid(orders[i], nextId);
    }
  }

  /** A stock movement keeps the catalog: the same products, the same prices, and
      the same unique keys. */
  lemma MovedKeepsCatalog(products: map<ProductId, Product>, lines: seq<OrderLine>, sign: int)
    requires KeysUnique(products)
    ensures var m := Moved(products, lines, sign);
      && m.Keys == products.Keys
      && KeysUnique(m)
      && forall pid :: pid in m ==> m[pid].price == products[pid].price && m[pid].stock == products[pid].stock + sign * Reserved(lines, pid)
  {
    MovedClosedForm(products, lines, sign);
  }

  /** Appending an order with the generator's next id keeps the orders valid. */
  lemma AppendOrder(orders: seq<Order>, nextId: nat, order: Order, nextId': nat)
    requires OrdersValid(orders, nextId) && order.id == nextId && OrderValid(order, nextId')
    ensures OrdersValid(orders + [order], nextId')
  {
    var orders' := orders + [order];
    forall i | 0 <= i < |orders'| ensures OrderValid(orders'[i], nextId') {
      if i < |orders| { assert OrderValid(orders[i], nextId); }
    }
    forall i, j | 0 <= i < j < |orders'| ensures orders'[i].id < orders'[j].id {
      if j == |orders| { assert OrderValid(orders[i], nextId); }
    }
  }

  /** The order of a checkout that passes the check of every entry is a valid
      order, and the decrement leaves a valid catalog: no stock goes negative. */
  lemma PlacedOrderValid(products: map<ProductId, Product>, items: seq<CartItem>, user: UserId, nextId: nat,
                         lines: seq<OrderLine>)
    requires AmountsValid(products) && KeysUnique(products)
    requires CartValid(items) && items != [] && FirstUnavailable(items, products).None?
    requires forall j :: 0 <= j < |items| ==> items[j].product in products
    requires lines == Snapshot(items, products, nextId + 1)
    ensures OrderValid(Order(nextId, user, lines, LinesTotal(lines), DefaultStatus, DefaultPaymentMethod), nextId + 1 + |lines|)
    ensures AmountsValid(Decremented(products, lines)) && KeysUnique(Decremented(products, lines))
  {
    var base := nextId + 1;
    CheckoutKeepsStock(items, products, base);
    SnapshotLinesValid(items, products, base);
    MovedKeepsCatalog(products, lines, -1);
  }

  /** Storing a valid new order with the generator's next id, decrementing to a
      valid catalog and emptying the user's cart keeps the database consistent. */
  lemma PlacedConsistent(products: map<ProductId, Product>, carts: map<UserId, seq<CartItem>>, orders: seq<Order>,
                         nextId: nat, user: UserId, order: Order, after: map<ProductId, Product>, nextId': nat)
    requires Consistent(products, carts, orders, nextId) && nextId <= nextId'
    requires order.id == nextId && OrderValid(order, nextId')
    requires AmountsValid(after) && KeysUnique(after)
    ensures Consistent(after, carts[user := []], orders + [order], nextId')
  {
    WithCart(carts, nextId, user, [], nextId');
    AppendOrder(orders, nextId, order, nextId');
  }

  /** Cancelling a stored order keeps the database consistent: the restock only
      raises stock, and the status is not part of an order's validity. */
  lemma CancelledConsistent(products: map<ProductId, Product>, carts: map<UserId, seq<CartItem>>, orders: seq<Order>,
                            nextId: nat, k: nat)
    requires Consistent(products, carts, orders, nextId) && k < |orders|
    ensures Consistent(Restocked(products, orders[k].items), carts, orders[k := orders[k].(status := Cancelled)], nextId)
  {
    var lines := orders[k].items;
    assert OrderValid(orders[k], nextId);
    var orders' := orders[k := orders[k].(status := Cancelled)];
    assert OrdersValid(orders', nextId) by {
      forall i | 0 <= i < |orders'| ensures OrderValid(orders'[i], nextId) {
        assert OrderValid(orders[i], nextId);
      }
    }
    forall pid | pid in products ensures Reserved(lines, pid) >= 0 {
      ReservedNonNegative(lines, pid);
    }
    MovedKeepsCatalog(products, lines, 1);
  }

  /** The corrected seller update keeps the database consistent: the total does
      not depend on line statuses. */
  lemma StatusUpdateConsistent(products: map<ProductId, Product>, carts: map<UserId, seq<CartItem>>, orders: seq<Order>,
                               nextId: nat, seller: SellerId, orderId: nat, itemId: nat, status: string)
    requires Consistent(products, carts, orders, nextId)
    ensures Consistent(products, carts, SellerOrders.UpdateOrderStatus(orders, seller, orderId, itemId, status).1, nextId)
  {
    SellerOrders.UpdateChangesOnlyTheLine(orders, seller, orderId, itemId, status);
    var (reply, after) := SellerOrders.UpdateOrderStatus(orders, seller, orderId, itemId, status);
    if reply == SellerOrders.StatusUpdated {
      var (i, j) := SellerOrders.LocateLine(orders, seller, orderId, itemId).value;
      assert OrderValid(orders[i], nextId);
      SellerOrders.LinesTotalIgnoresStatus(orders[i].items, j, after[i].items[j].status);
      assert after[i].items == orders[i].items[j := orders[i].items[j].(status := after[i].items[j].status)];
      assert OrderValid(after[i], nextId);
    }
  }

  /** The `reduce` of `processOrder` (OrderController.js:31-55): the entries are
      checked in cart order and the lines collected; the first refused entry
      ends the walk. */
  method CollectLines(items: seq<CartItem>, products: map<ProductId, Product>, base: nat)
    returns (bad: Option<nat>, lines: seq<OrderLine>)
    ensures bad == FirstUnavailable(items, products)
    ensures bad.None? ==>
      && (forall j :: 0 <= j < |items| ==> items[j].product in products)
      && lines == Snapshot(items, products, base)
  {
    lines := [];
    var i := 0;
    while i < |items|
      invariant 0 <= i <= |items|
      invariant forall j :: 0 <= j < i ==> EntryOk(products, items[j])
      invariant lines == Snapshot(items[..i], products, base)
    {
      var product := Populated(products, items[i].product);
      if product.None? || product.value.stock < items[i].quantity {
        FirstUnavailableAt(items, products, i);
        return Some(i), lines;
      }
      SnapshotSnoc(items, products, base, i);
      lines := lines + [SnapshotLine(items[i], product.value, base + i)];
      i := i + 1;
    }
    assert items[..i] == items;
    bad := None;
  }

  /** `Product.bulkWrite` of one `$inc` per line, line after line. */
  method Move(products: map<ProductId, Product>, lines: seq<OrderLine>, sign: int) returns (m: map<ProductId, Product>)
    ensures m == Moved(products, lines, sign)
  {
    m := products;
    var k := 0;
    while k < |lines|
      invariant 0 <= k <= |lines|
      invariant m == Moved(products, lines[..k], sign)
    {
      var l := lines[k];
      assert lines[..k + 1][..k] == lines[..k];
      if l.productId in m {
        m := m[l.productId := m[l.productId].(stock := m[l.productId].stock + sign * l.quantity)];
      }
      k := k + 1;
    }
    assert lines[..k] == lines;
  }

  /** The answer of `createOrder` (OrderController.js:16-75 and 78-103) for the
      user's cart: 400 with "Your cart is empty", 400 with the first refused
      entry's message, or 201 with the new order, whose lines snapshot the cart
      entries in cart order and take ids after the order's own. */
  function CheckoutReplyOf(products: map<ProductId, Product>, carts: map<UserId, seq<CartItem>>, nextId: nat,
                           user: UserId): (r: CheckoutReply)
    ensures ItemsOf(carts, user) == [] ==> r == CheckoutFailed(EmptyCartMessage)
    ensures r.Placed? <==> ItemsOf(carts, user) != [] && FirstUnavailable(ItemsOf(carts, user), products).None?
    ensures ItemsOf(carts, user) != [] && FirstUnavailable(ItemsOf(carts, user), products).Some? ==>
      var k := FirstUnavailable(ItemsOf(carts, user), products).value;
      r == CheckoutFailed(OutOfStockMessage(Populated(products, ItemsOf(carts, user)[k].product)))
    ensures r.Placed? ==>
      var items := ItemsOf(carts, user);
      && r.order.id == nextId && r.order.user == user
      && r.order.status == Pending && r.order.paymentMethod == DefaultPaymentMethod
      && r.order.totalAmount == LinesTotal(r.order.items)
      && |r.order.items| == |items|
      && forall j :: 0 <= j < |items| ==>
           items[j].product in products && r.order.items[j] == SnapshotLine(items[j], products[items[j].product], nextId + 1 + j)
  {
    var items := ItemsOf(carts, user);
    if items == [] then CheckoutFailed(EmptyCartMessage)
    else
      match FirstUnavailable(items, products)
      case Some(k) => CheckoutFailed(OutOfStockMessage(Populated(products, items[k].product)))
      case None =>
        assert forall j :: 0 <= j < |items| ==> EntryOk(products, items[j]);
        var lines := Snapshot(items, products, nextId + 1);
        Placed(Order(nextId, user, lines, LinesTotal(lines), DefaultStatus, DefaultPaymentMethod))
  }

  class Database {
    var products: map<ProductId, Product>
    var carts: map<UserId, seq<CartItem>>
    var orders: seq<Order>
    var nextId: nat

    ghost predicate Valid()
      reads this
    {
      Consistent(products, carts, orders, nextId)
    }

    /** A database with a catalog and no carts or orders. */
    constructor (catalog: map<ProductId, Product>)
      requires AmountsValid(catalog) && KeysUnique(catalog)
      ensures Valid()
      ensures products == catalog && carts == map[] && orders == [] && nextId == 0
    {
      products := catalog;
      carts := map[];
      orders := [];
      nextId := 0;
    }

    // -------------------------------------------------------------------------
    // CartController.js
    // -------------------------------------------------------------------------

    /** `addToCart` (CartController.js:109-191): the cart is created lazily, the
        entry for the product grows or one entry is appended, and a refused
        request changes nothing. */
    method AddToCart(user: UserId, productId: ProductId, quantity: Option<int>) returns (r: AddReply)
      requires Valid()
      modifies this
      ensures Valid()
      ensures r == AddReplyOf(ItemsOf(old(carts), user), old(products), productId, quantity, old(nextId))
      ensures r.Added? ==>
        && carts == old(carts)[user := MergeAdd(ItemsOf(old(carts), user), ProductKey(productId), quantity.value, old(nextId))]
        && nextId == old(nextId) + 1
      ensures !r.Added? ==> carts == old(carts) && nextId == old(nextId)
      ensures products == old(products) && orders == old(orders)
    {
      var items := ItemsOf(carts, user);
      r := AddReplyOf(items, products, productId, quantity, nextId);
      if !r.Added? {
        return;
      }
      var key := ProductKey(productId);
      var q := quantity.value;
      var existing := FindProduct(items, key);
      var merged: seq<CartItem>;
      if existing.Some? {
        var k := existing.value;
        merged := items[k := items[k].(quantity := items[k].quantity + q)];
      } else {
        merged := items + [CartItem(nextId, key, q)];
      }
      assert merged == MergeAdd(items, key, q, nextId);
      AddedConsistent(products, carts, orders, nextId, user, key, q);
      carts := carts[user := merged];
      nextId := nextId + 1;
    }

    /** `updateCartItem` (CartController.js:195-244): only the addressed entry's
        quantity is replaced, and only when the reply is a success. Cart
        quantities here are whole numbers, so an accepted fraction or absent
        quantity gives the success reply and leaves the cart as it was. */
    method UpdateCartItem(user: UserId, itemId: nat, quantity: QuantityBody) returns (r: UpdateReply)
      requires Valid()
      modifies this
      ensures Valid()
      ensures r == UpdateReplyOf(CartOf(old(carts), user), old(products), itemId, quantity)
      ensures r == CartUpdated && WholeQuantity(quantity) ==>
        carts == old(carts)[user := SetQuantity(old(carts)[user], itemId, quantity.x.Floor)]
      ensures !(r == CartUpdated && WholeQuantity(quantity)) ==> carts == old(carts)
      ensures products == old(products) && orders == old(orders) && nextId == old(nextId)
    {
      if user !in carts {
        return UpdateFailed;
      }
      var items := carts[user];
      var found := FindItem(items, itemId);
      if found.None? {
        return ItemNotFound;
      }
      var k := found.value;
      var pid := items[k].product;
      if pid !in products {
        return QuantityUnavailable;
      }
      if quantity.Absent? {
        return CartUpdated;
      }
      if quantity.x > products[pid].stock as real {
        return QuantityUnavailable;
      }
      if quantity.x < 1.0 {
        return UpdateFailed;
      }
      r := CartUpdated;
      if quantity.x.Floor as real == quantity.x {
        var n := quantity.x.Floor;
        var updated := items[k := items[k].(quantity := n)];
        SetQuantityEffect(items, itemId, n);
        WithCart(carts, nextId, user, updated, nextId);
        carts := carts[user := updated];
      }
    }

    /** `removeFromCart` (CartController.js:246-274): `cart.items` on a missing
        cart throws, which the handler answers with 500. */
    method RemoveFromCart(user: UserId, itemId: nat) returns (r: RemoveReply)
      requires Valid()
      modifies this
      ensures Valid()
      ensures user !in old(carts) ==> r == RemoveFailed && carts == old(carts)
      ensures user in old(carts) ==> r == ItemRemoved && carts == old(carts)[user := RemoveItem(old(carts)[user], itemId)]
      ensures products == old(products) && orders == old(orders) && nextId == old(nextId)
    {
      if user !in carts {
        return RemoveFailed;
      }
      var remaining := RemoveItem(carts[user], itemId);
      RemoveItemValid(carts[user], itemId);
      RemoveItemKeeps(carts[user], itemId);
      WithCart(carts, nextId, user, remaining, nextId);
      carts := carts[user := remaining];
      r := ItemRemoved;
    }

    /** `clearCart` (CartController.js:276-302): always a success. */
    method ClearCart(user: UserId)
      requires Valid()
      modifies this
      ensures Valid()
      ensures carts == Cleared(old(carts), user)
      ensures products == old(products) && orders == old(orders) && nextId == old(nextId)
    {
      if user in carts {
        WithCart(carts, nextId, user, [], nextId);
        carts := carts[user := []];
      }
    }

    // -------------------------------------------------------------------------
    // OrderController.js
    // -------------------------------------------------------------------------

    /** `processOrder` (OrderController.js:16-75): the empty-cart test, the check
        of every entry while the lines are collected, then the order, the stock
        decrement and the emptied cart, one after another. The shipping address
        is not a parameter: Order.js stores none. */
    method Checkout(user: UserId) returns (r: CheckoutReply)
      requires Valid()
      modifies this
      ensures Valid()
      ensures r == CheckoutReplyOf(old(products), old(carts), old(nextId), user)
      ensures r.Placed? ==>
        && orders == old(orders) + [r.order]
        && products == Decremented(old(products), r.order.items)
        && carts == old(carts)[user := []]
        && nextId == old(nextId) + 1 + |r.order.items|
      ensures !r.Placed? ==> unchanged(this)
    {
      var items := ItemsOf(carts, user);
      if |items| == 0 {
        return CheckoutFailed(EmptyCartMessage);
      }
      var bad, lines := CollectLines(items, products, nextId + 1);
      if bad.Some? {
        return CheckoutFailed(OutOfStockMessage(Populated(products, items[bad.value].product)));
      }
      assert && OrderValid(Order(nextId, user, lines, LinesTotal(lines), DefaultStatus, DefaultPaymentMethod), nextId + 1 + |lines|)
             && AmountsValid(Decremented(products, lines)) && KeysUnique(Decremented(products, lines)) by {
        assert CartValid(items);
        PlacedOrderValid(products, items, user, nextId, lines);
      }
      var order := Commit(user, lines);
      r := Placed(order);
    }

    /** The writes of a checkout that passed the check (OrderController.js:57-68):
        `Order.create`, the stock `bulkWrite`, then the emptied cart. */
    method Commit(user: UserId, lines: seq<OrderLine>) returns (order: Order)
      requires Valid()
      requires OrderValid(Order(nextId, user, lines, LinesTotal(lines), DefaultStatus, DefaultPaymentMethod), nextId + 1 + |lines|)
      requires AmountsValid(Decremented(products, lines)) && KeysUnique(Decremented(products, lines))
      modifies this
      ensures Valid()
      ensures order == Order(old(nextId), user, lines, LinesTotal(lines), DefaultStatus, DefaultPaymentMethod)
      ensures orders == old(orders) + [order]
      ensures products == Decremented(old(products), lines)
      ensures carts == old(carts)[user := []]
      ensures nextId == old(nextId) + 1 + |lines|
    {
      order := Order(nextId, user, lines, LinesTotal(lines), DefaultStatus, DefaultPaymentMethod);
      var decremented := Move(products, lines, -1);
      PlacedConsistent(products, carts, orders, nextId, user, order, decremented, nextId + 1 + |lines|);
      products := decremented;
      orders := orders + [order];
      carts := carts[user := []];
      nextId := nextId + 1 + |lines|;
    }

    /** `cancelOrder` (OrderController.js:131-160): only a pending order of the
        caller is cancelled; each line's quantity goes back to its product and the
        header's status becomes `cancelled`, the lines untouched. */
    method CancelOrder(user: UserId, orderId: nat) returns (r: CancelReply)
      requires Valid()
      modifies this
      ensures Valid()
      ensures FindCancellable(old(orders), user, orderId).None? ==>
        r == CancelFailed(OrderNotFoundMessage) && products == old(products) && orders == old(orders)
      ensures FindCancellable(old(orders), user, orderId).Some? ==>
        var k := FindCancellable(old(orders), user, orderId).value;
        && r == OrderCancelled
        && products == Restocked(old(products), old(orders)[k].items)
        && orders == old(orders)[k := old(orders)[k].(status := Cancelled)]
      ensures carts == old(carts) && nextId == old(nextId)
    {
      var found := FindCancellable(orders, user, orderId);
      if found.None? {
        return CancelFailed(OrderNotFoundMessage);
      }
      var k := found.value;
      CancelledConsistent(products, carts, orders, nextId, k);
      products := Move(products, orders[k].items, 1);
      orders := orders[k := orders[k].(status := Cancelled)];
      r := OrderCancelled;
    }

    // -------------------------------------------------------------------------
    // sellerOrderController.js and SellerProductController.js
    // -------------------------------------------------------------------------

    /** `updateOrderStatus` as corrected (sellerOrderController.js:46-112). */
    method UpdateOrderStatus(seller: SellerId, orderId: nat, itemId: nat, status: string)
      returns (r: SellerOrders.StatusReply)
      requires Valid()
      modifies this
      ensures Valid()
      ensures (r, orders) == SellerOrders.UpdateOrderStatus(old(orders), seller, orderId, itemId, status)
      ensures products == old(products) && carts == old(carts) && nextId == old(nextId)
    {
      StatusUpdateConsistent(products, carts, orders, nextId, seller, orderId, itemId, status);
      var located := SellerOrders.LocateLine(orders, seller, orderId, itemId);
      if located.None? {
        return SellerOrders.LineNotFound;
      }
      var (i, j) := located.value;
      var current := orders[i].items[j].status;
      var next := SellerOrders.NextStatus(current, status);
      if next.None? {
        return SellerOrders.InvalidTransition(SellerOrders.TransitionMessage(StatusName(current), status));
      }
      var lines := orders[i].items;
      lines := lines[j := lines[j].(status := next.value)];
      orders := orders[i := orders[i].(items := lines)];
      r := SellerOrders.StatusUpdated;
    }

    /** `addProduct` (SellerProductController.js:49-109); `freshId` is the id the
        database assigns. */
    method AddProduct(categories: seq<Category>, seller: SellerId, req: SellerProducts.NewProductRequest,
                      freshId: ProductId) returns (r: SellerProducts.AddProductReply)
      requires Valid() && freshId !in products
      modifies this
      ensures Valid()
      ensures (r, products) == SellerProducts.AddProduct(old(products), categories, seller, req, freshId)
      ensures carts == old(carts) && orders == old(orders) && nextId == old(nextId)
    {
      var check := SellerProducts.CheckCategorySubcats(categories, req.categoryName, req.subcategories);
      if !check.CategoryOk? {
        return SellerProducts.AddRejected(check);
      }
      var doc := check.category;
      if SellerProducts.DuplicateExists(products, seller, req.name, doc.id) {
        return SellerProducts.DuplicateProduct("Product '" + req.name + "' exists in " + doc.name);
      }
      var p := SellerProducts.Created(seller, req, doc);
      if !SchemaValid(categories, p) {
        return SellerProducts.CreationFailed;
      }
      products := products[freshId := p];
      r := SellerProducts.ProductCreated(freshId, p);
    }

    /** `updateProduct` (SellerProductController.js:113-161). */
    method UpdateProduct(categories: seq<Category>, seller: SellerId, id: ProductId, u: SellerProducts.ProductUpdate)
      returns (r: SellerProducts.UpdateProductReply)
      requires Valid()
      modifies this
      ensures Valid()
      ensures (r, products) == SellerProducts.UpdateProduct(old(products), categories, seller, id, u)
      ensures carts == old(carts) && orders == old(orders) && nextId == old(nextId)
    {
      var category: Option<Category> := None;
      if u.category.Some? {
        var check := SellerProducts.CheckCategorySubcats(categories, u.category.value, u.subcategories.GetOr([]));
        if !check.CategoryOk? {
          return SellerProducts.UpdateRejected(check);
        }
        category := Some(check.category);
      }
      if !Validation.HexObjectId(id) || SellerProducts.UpdateRefused(u) {
        return SellerProducts.UpdateFailed;
      }
      if !SellerProducts.SellerOwns(products, seller, id) {
        return SellerProducts.ProductNotFound;
      }
      var key := ProductKey(id);
      var q := SellerProducts.Apply(products[key], u, category);
      if SellerProducts.WritesSubcategories(u) && !SubcategoriesBelong(categories, q) {
        return SellerProducts.UpdateFailed;
      }
      if !KeysUnique(products[key := q]) {
        return SellerProducts.UpdateFailed;
      }
      products := products[key := q];
      r := SellerProducts.ProductUpdated(q);
    }

    /** `deactivateProduct` (SellerProductController.js:201-227). */
    method DeactivateProduct(seller: SellerId, id: ProductId) returns (r: SellerProducts.DeactivateReply)
      requires Valid()
      modifies this
      ensures Valid()
      ensures (r, products) == SellerProducts.DeactivateProduct(old(products), seller, id)
      ensures carts == old(carts) && orders == old(orders) && nextId == old(nextId)
    {
      if !Validation.HexObjectId(id) {
        return SellerProducts.DeactivateFailed;
      }
      if !SellerProducts.SellerOwns(products, seller, id) {
        return SellerProducts.DeactivateNotFound;
      }
      var key := ProductKey(id);
      products := products[key := products[key].(isActive := false)];
      r := SellerProducts.Deactivated;
    }
  }

  /** A deactivated product can no longer be added to a cart, whatever the case
      of the hex digits the request spells its id with, and a cart holding it can
      no longer be checked out. */
  lemma DeactivatedUnavailable(products: map<ProductId, Product>, seller: SellerId, id: ProductId,
                               items: seq<CartItem>, pid: ProductId, quantity: Option<int>, freshId: nat)
    requires SellerProducts.DeactivateProduct(products, seller, id).0 == SellerProducts.Deactivated
    requires ProductKey(pid) == ProductKey(id)
    ensures var after := SellerProducts.DeactivateProduct(products, seller, id).1;
      && !AddReplyOf(items, after, pid, quantity, freshId).Added?
      && ((exists j :: 0 <= j < |items| && items[j].product == ProductKey(id)) ==> FirstUnavailable(items, after).Some?)
  {
  }

  /** Checkout followed by cancelling the new order restores every product's stock
      exactly, leaves the order cancelled, and a second cancel is refused. */
  method PlaceThenCancel(db: Database, user: UserId) returns (again: CancelReply)
    requires db.Valid()
    requires ItemsOf(db.carts, user) != [] && FirstUnavailable(ItemsOf(db.carts, user), db.products).None?
    modifies db
    ensures again == CancelFailed(OrderNotFoundMessage)
    ensures db.Valid()
    ensures db.products == old(db.products)
    ensures |db.orders| == |old(db.orders)| + 1 && db.orders[|db.orders| - 1].status == Cancelled
    ensures ItemsOf(db.carts, user) == []
  {
    var placed := db.Checkout(user);
    var order := placed.order;
    var n := |db.orders| - 1;
    ghost var placedOrders := db.orders;
    assert FindCancellable(placedOrders, user, order.id) == Some(n) && IdsUnique(placedOrders) by {
      NewestCancellable(placedOrders);
      IncreasingUnique(placedOrders);
    }
    var cancelled := db.CancelOrder(user, order.id);
    assert db.products == old(db.products) by {
      RestockUndoesDecrement(old(db.products), order.items);
    }
    assert FindCancellable(db.orders, user, order.id).None? by {
      CancelledNotCancellable(placedOrders, n, user);
    }
    again := db.CancelOrder(user, order.id);
  }
}
