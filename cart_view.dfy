/** The read-only cart view of `getCart` (CartController.js:12-105): every entry is
    shown with its live availability, line total and warning, and the meta block
    sums them up. */
module CartView {
  import opened Wrappers
  import opened Text
  import opened ProductModel
  import opened CartModel

  datatype StockStatus = InStock | LowStock | OutOfStock

  /** CartController.js:59-60. */
  function StockStatusOf(stock: int): (r: StockStatus)
    ensures r == InStock <==> stock > 5
    ensures r == LowStock <==> 0 < stock <= 5
    ensures r == OutOfStock <==> stock <= 0
  {
    if stock > 5 then InStock else if stock > 0 then LowStock else OutOfStock
  }

  /** A shortage warning, rendered by `WarningText`. */
  datatype Warning = Shortage(available: int, requested: int)

  function IntToString(i: int): string
  {
    if i < 0 then "-" + NatToString(-i) else NatToString(i)
  }

  /** CartController.js:66. */
  function WarningText(w: Warning): string
  {
    "Only " + IntToString(w.available) + " items available (requested " + IntToString(w.requested) + ")"
  }

  datatype ViewLine = ViewLine(
    id: nat, productId: ProductId, name: string, price: int, images: seq<string>,
    category: string, stockStatus: StockStatus,
    requestedQuantity: int, availableQuantity: int, lineTotal: int, warnings: seq<Warning>)

  /** The `meta` block. `hasIssues` is present only when a cart exists. */
  datatype Meta = Meta(
    totalItems: int, totalAmount: int, currency: string, warnings: seq<Warning>,
    hasIssues: Option<bool>)

  datatype View = View(items: seq<ViewLine>, meta: Meta)

  /** `Viewed` is the 200 answer; `RetrievalFailed` the 500 `CART_RETRIEVAL_FAILED`
      answer the handler gives when an entry's product no longer exists (the
      populated `product` is null and `product._id` throws). */
  datatype ViewResult = Viewed(view: View) | RetrievalFailed

  const Currency: string := "INR"

  function Min(a: int, b: int): int { if a <= b then a else b }

  /** One viewed entry (CartController.js:48-68). */
  function ViewOf(item: CartItem, p: Product): (r: ViewLine)
    ensures !p.isActive ==> r.availableQuantity == 0
    ensures p.isActive && p.stock >= item.quantity ==> r.availableQuantity == item.quantity
    ensures p.isActive && p.stock < item.quantity ==> r.availableQuantity == p.stock
    ensures r.lineTotal == p.price * r.availableQuantity
    ensures r.requestedQuantity == item.quantity && r.id == item.id
    ensures r.warnings != [] <==> r.availableQuantity < item.quantity
    ensures r.warnings != [] ==> r.warnings == [Shortage(r.availableQuantity, item.quantity)]
    ensures r.stockStatus == StockStatusOf(p.stock)
  {
    var available := if p.isActive then Min(item.quantity, p.stock) else 0;
    ViewLine(item.id, item.product, p.name, p.price, p.images, p.category.name,
             StockStatusOf(p.stock), item.quantity, available, p.price * available,
             if available < item.quantity then [Shortage(available, item.quantity)] else [])
  }

  /** `cart.items.map(...)`: fails as soon as an entry's product is missing. */
  function ViewLines(items: seq<CartItem>, products: map<ProductId, Product>): (r: Option<seq<ViewLine>>)
    ensures r.None? <==> exists i :: 0 <= i < |items| && items[i].product !in products
    ensures r.Some? ==> |r.value| == |items|
    ensures r.Some? ==> forall i :: 0 <= i < |items| ==> r.value[i] == ViewOf(items[i], products[items[i].product])
  {
    if items == [] then Some([])
    else if items[0].product !in products then None
    else match ViewLines(items[1..], products)
      case None =>
        assert exists i :: 0 <= i < |items| && items[i].product !in products by {
          var i :| 0 <= i < |items[1..]| && items[1..][i].product !in products;
          assert items[i + 1].product !in products;
        }
        None
      case Some(rest) => Some([ViewOf(items[0], products[items[0].product])] + rest)
  }

  /** `reduce((sum, item) => sum + item.lineTotal, 0)`. */
  function SumLineTotals(lines: seq<ViewLine>): int
  {
    if lines == [] then 0 else lines[0].lineTotal + SumLineTotals(lines[1..])
  }

  /** `reduce((sum, item) => sum + item.availableQuantity, 0)`. */
  function SumAvailable(lines: seq<ViewLine>): int
  {
    if lines == [] then 0 else lines[0].availableQuantity + SumAvailable(lines[1..])
  }

  /** `flatMap(item => item.warnings)`. */
  function AllWarnings(lines: seq<ViewLine>): seq<Warning>
  {
    if lines == [] then [] else lines[0].warnings + AllWarnings(lines[1..])
  }

  /** The reply of `getCart` for the user's cart (`None` when the user has none). */
  function GetCart(cart: Option<seq<CartItem>>, products: map<ProductId, Product>): (r: ViewResult)
    ensures cart.None? ==> r == Viewed(View([], Meta(0, 0, Currency, [], None)))
    ensures cart.Some? ==> (r == RetrievalFailed <==> exists i :: 0 <= i < |cart.value| && cart.value[i].product !in products)
    ensures cart.Some? && r.Viewed? ==>
      && |r.view.items| == |cart.value|
      && (forall i :: 0 <= i < |cart.value| ==> r.view.items[i] == ViewOf(cart.value[i], products[cart.value[i].product]))
      && r.view.meta.currency == Currency
  {
    match cart
    case None => Viewed(View([], Meta(0, 0, Currency, [], None)))
    case Some(items) =>
      match ViewLines(items, products)
      case None => RetrievalFailed
      case Some(lines) =>
        var warnings := AllWarnings(lines);
        Viewed(View(lines, Meta(SumAvailable(lines), SumLineTotals(lines), Currency, warnings, Some(|warnings| > 0))))
  }

  // ---------------------------------------------------------------------------
  // What the meta block means
  // ---------------------------------------------------------------------------

  /** Σ requested quantity over the entries. */
  function SumRequested(items: seq<CartItem>): int
  {
    if items == [] then 0 else items[0].quantity + SumRequested(items[1..])
  }

  /** Σ price × requested quantity over the entries. */
  function SumRequestedValue(items: seq<CartItem>, products: map<ProductId, Product>): int
    requires forall i :: 0 <= i < |items| ==> items[i].product in products
  {
    if items == [] then 0
    else products[items[0].product].price * items[0].quantity + SumRequestedValue(items[1..], products)
  }

  lemma {:induction false} WarningsNonEmptyIff(lines: seq<ViewLine>)
    ensures AllWarnings(lines) != [] <==> exists i :: 0 <= i < |lines| && lines[i].warnings != []
  {
    if lines != [] {
      WarningsNonEmptyIff(lines[1..]);
      if AllWarnings(lines[1..]) != [] {
        var i :| 0 <= i < |lines[1..]| && lines[1..][i].warnings != [];
        assert lines[i + 1].warnings != [];
      }
      if exists i :: 0 <= i < |lines| && lines[i].warnings != [] {
        var i :| 0 <= i < |lines| && lines[i].warnings != [];
        if i > 0 { assert lines[1..][i - 1].warnings != []; }
      }
    }
  }

  /** `hasIssues` holds exactly when some entry cannot be served in full. */
  lemma HasIssuesIff(items: seq<CartItem>, products: map<ProductId, Product>)
    requires GetCart(Some(items), products).Viewed?
    ensures GetCart(Some(items), products).view.meta.hasIssues ==
      Some(exists i :: 0 <= i < |items| && GetCart(Some(items), products).view.items[i].availableQuantity < items[i].quantity)
  {
    var lines := ViewLines(items, products).value;
    WarningsNonEmptyIff(lines);
    assert (exists i :: 0 <= i < |lines| && lines[i].warnings != [])
      <==> (exists i :: 0 <= i < |items| && lines[i].availableQuantity < items[i].quantity);
  }

  lemma {:induction false} SumsBounded(items: seq<CartItem>, products: map<ProductId, Product>, lines: seq<ViewLine>)
    requires forall i :: 0 <= i < |items| ==> items[i].product in products && items[i].quantity >= 1
    requires forall p :: p in products ==> products[p].stock >= 0 && products[p].price >= 0
    requires |lines| == |items|
    requires forall i :: 0 <= i < |items| ==> lines[i] == ViewOf(items[i], products[items[i].product])
    ensures 0 <= SumAvailable(lines) <= SumRequested(items)
    ensures 0 <= SumLineTotals(lines) <= SumRequestedValue(items, products)
    ensures AllWarnings(lines) == [] ==> SumAvailable(lines) == SumRequested(items)
    ensures AllWarnings(lines) == [] ==> SumLineTotals(lines) == SumRequestedValue(items, products)
  {
    if items != [] {
      var tail, rest := items[1..], lines[1..];
      assert forall i :: 0 <= i < |tail| ==> tail[i] == items[i + 1] && rest[i] == lines[i + 1];
      SumsBounded(tail, products, rest);
      LineBounds(items[0], products[items[0].product]);
    }
  }

  /** One viewed entry serves between nothing and the whole request, and its
      total lies between 0 and the requested value. */
  lemma LineBounds(item: CartItem, p: Product)
    requires item.quantity >= 1 && p.stock >= 0 && p.price >= 0
    ensures var l := ViewOf(item, p);
      && 0 <= l.availableQuantity <= item.quantity
      && 0 <= l.lineTotal <= p.price * item.quantity
      && (l.warnings == [] ==> l.availableQuantity == item.quantity && l.lineTotal == p.price * item.quantity)
  {
    var l := ViewOf(item, p);
    assert 0 <= l.availableQuantity <= item.quantity;
    MulMonotone(p.price, l.availableQuantity, item.quantity);
  }

  lemma MulMonotone(x: int, a: int, b: int)
    requires x >= 0 && 0 <= a <= b
    ensures 0 <= x * a <= x * b
  {
    assert x * b - x * a == x * (b - a);
  }

  /** The viewed totals never exceed what was requested, and a view without
      warnings serves the whole request at its full value. */
  lemma TotalsBounded(items: seq<CartItem>, products: map<ProductId, Product>)
    requires forall i :: 0 <= i < |items| ==> items[i].quantity >= 1
    requires forall p :: p in products ==> products[p].stock >= 0 && products[p].price >= 0
    requires GetCart(Some(items), products).Viewed?
    ensures forall i :: 0 <= i < |items| ==> items[i].product in products
    ensures var m := GetCart(Some(items), products).view.meta;
      && 0 <= m.totalItems <= SumRequested(items)
      && 0 <= m.totalAmount <= SumRequestedValue(items, products)
      && (m.hasIssues == Some(false) ==> m.totalItems == SumRequested(items))
      && (m.hasIssues == Some(false) ==> m.totalAmount == SumRequestedValue(items, products))
  {
    SumsBounded(items, products, ViewLines(items, products).value);
  }
}
