/** The rules of the cart handlers of CartController.js (`addToCart`,
    `updateCartItem`, `removeFromCart`, `clearCart`) stated on values: what each
    handler answers for a given cart and product store, and what it makes of the
    cart's items. The handlers themselves are methods of `Store.Database`. */
module CartRules {
  import opened Wrappers
  import opened ProductModel
  import opened CartModel
  import Validation
  import Text

  /** At most one entry per product: `addToCart` merges into an existing entry. */
  predicate DistinctProducts(items: seq<CartItem>)
  {
    forall i, j :: 0 <= i < j < |items| ==> items[i].product != items[j].product
  }

  /** The invariant every stored cart keeps. */
  predicate CartValid(items: seq<CartItem>)
  {
    ItemsValid(items) && DistinctProducts(items)
  }

  /** `existingItem?.quantity || 0`: the quantity of the entry for `p`, or 0. */
  function QuantityOf(items: seq<CartItem>, p: ProductId): (q: int)
    ensures FindProduct(items, p).None? ==> q == 0
    ensures ItemsValid(items) ==> q >= 0
    ensures ItemsValid(items) ==> (q == 0 <==> forall j :: 0 <= j < |items| ==> items[j].product != p)
  {
    match FindProduct(items, p)
    case None => 0
    case Some(k) => items[k].quantity
  }

  /** Two item lists with the same products position by position locate every
      product at the same place. */
  lemma {:induction false} FindProductSameProducts(a: seq<CartItem>, b: seq<CartItem>, p: ProductId)
    requires |a| == |b| && forall j :: 0 <= j < |a| ==> a[j].product == b[j].product
    ensures FindProduct(a, p) == FindProduct(b, p)
  {
    if a != [] {
      FindProductSameProducts(a[1..], b[1..], p);
    }
  }

  // ---------------------------------------------------------------------------
  // addToCart (CartController.js:109-191)
  // ---------------------------------------------------------------------------

  /** The items after a successful add of `q` units of `p`: the existing entry
      grows (`existingItem.quantity += quantity`), otherwise a new entry with the
      fresh id `freshId` is pushed. */
  function MergeAdd(items: seq<CartItem>, p: ProductId, q: int, freshId: nat): seq<CartItem>
  {
    match FindProduct(items, p)
    case Some(k) => items[k := items[k].(quantity := items[k].quantity + q)]
    case None => items + [CartItem(freshId, p, q)]
  }

  /** The id the reply of a successful add names: `existingItem?._id` or the id
      of the pushed entry. */
  function AddedItemId(items: seq<CartItem>, p: ProductId, freshId: nat): nat
  {
    match FindProduct(items, p)
    case Some(k) => items[k].id
    case None => freshId
  }

  /** What adding does to the cart: the entry for `p` grows by exactly `q`, or one
      new entry is appended; every other entry is unchanged, so the products stay
      distinct and a valid cart stays valid. */
  lemma MergeAddEffect(items: seq<CartItem>, p: ProductId, q: int, freshId: nat)
    requires DistinctProducts(items)
    ensures var r := MergeAdd(items, p, q, freshId);
      && DistinctProducts(r)
      && QuantityOf(r, p) == QuantityOf(items, p) + q
      && (forall p' :: p' != p ==> QuantityOf(r, p') == QuantityOf(items, p'))
      && (FindProduct(items, p).Some? ==>
            |r| == |items| && forall j :: 0 <= j < |r| ==> r[j].id == items[j].id && r[j].product == items[j].product)
      && (FindProduct(items, p).None? ==> r == items + [CartItem(freshId, p, q)])
      && r[AddedItemIndex(items, p)].id == AddedItemId(items, p, freshId)
      && r[AddedItemIndex(items, p)].product == p
  {
    if FindProduct(items, p).Some? {
      MergeAddGrows(items, p, q, freshId);
    } else {
      MergeAddAppends(items, p, q, freshId);
    }
  }

  /** The case of `MergeAddEffect` where the product already has an entry. */
  lemma MergeAddGrows(items: seq<CartItem>, p: ProductId, q: int, freshId: nat)
    requires FindProduct(items, p).Some?
    ensures var r := MergeAdd(items, p, q, freshId);
      && QuantityOf(r, p) == QuantityOf(items, p) + q
      && (forall p' :: p' != p ==> QuantityOf(r, p') == QuantityOf(items, p'))
      && |r| == |items| && forall j :: 0 <= j < |r| ==> r[j].id == items[j].id && r[j].product == items[j].product
  {
    var k := FindProduct(items, p).value;
    GrowAt(items, p, q, k);
  }

  /** Growing the entry at `k`, where `p` is first found. */
  lemma GrowAt(items: seq<CartItem>, p: ProductId, q: int, k: nat)
    requires FindProduct(items, p) == Some(k)
    ensures var r := items[k := items[k].(quantity := items[k].quantity + q)];
      && QuantityOf(r, p) == QuantityOf(items, p) + q
      && (forall p' :: p' != p ==> QuantityOf(r, p') == QuantityOf(items, p'))
      && |r| == |items| && forall j :: 0 <= j < |r| ==> r[j].id == items[j].id && r[j].product == items[j].product
  {
    var r := items[k := items[k].(quantity := items[k].quantity + q)];
    assert forall j :: 0 <= j < |r| ==> r[j].id == items[j].id && r[j].product == items[j].product;
    assert forall j :: 0 <= j < |r| && j != k ==> r[j] == items[j];
    forall p' | p' != p ensures QuantityOf(r, p') == QuantityOf(items, p') {
      QuantityElsewhere(items, r, k, p');
    }
    FindProductSameProducts(r, items, p);
  }

  /** Changing the entry at `k` leaves the quantity of every other product alone. */
  lemma QuantityElsewhere(items: seq<CartItem>, r: seq<CartItem>, k: nat, p: ProductId)
    requires k < |items| == |r| && items[k].product != p
    requires forall j :: 0 <= j < |r| ==> r[j].product == items[j].product
    requires forall j :: 0 <= j < |r| && j != k ==> r[j] == items[j]
    ensures QuantityOf(r, p) == QuantityOf(items, p)
  {
    FindProductSameProducts(r, items, p);
  }

  /** The case of `MergeAddEffect` where the product has no entry yet. */
  lemma MergeAddAppends(items: seq<CartItem>, p: ProductId, q: int, freshId: nat)
    requires FindProduct(items, p).None?
    ensures var r := MergeAdd(items, p, q, freshId);
      && QuantityOf(r, p) == q
      && (forall p' :: p' != p ==> QuantityOf(r, p') == QuantityOf(items, p'))
  {
    var r := MergeAdd(items, p, q, freshId);
    assert r == items + [CartItem(freshId, p, q)];
    FindProductAt(r, p, |items|);
    forall p' | p' != p ensures QuantityOf(r, p') == QuantityOf(items, p') {
      match FindProduct(items, p')
      case None =>
        assert forall j :: 0 <= j < |r| ==> r[j].product != p' by {
          assert forall j :: 0 <= j < |items| ==> r[j] == items[j];
        }
        FindProductAbsent(r, p');
      case Some(k) =>
        assert forall j :: 0 <= j <= k ==> r[j] == items[j];
        FindProductAt(r, p', k);
    }
  }

  /** `FindProduct` answers the first position holding the product.  */
  lemma FindProductAt(items: seq<CartItem>, p: ProductId, k: nat)
    requires k < |items| && items[k].product == p
    requires forall j :: 0 <= j < k ==> items[j].product != p
    ensures FindProduct(items, p) == Some(k)
  {
  }

  /** `FindProduct` answers nothing when no position holds the product. */
  lemma FindProductAbsent(items: seq<CartItem>, p: ProductId)
    requires forall j :: 0 <= j < |items| ==> items[j].product != p
    ensures FindProduct(items, p) == None
  {
  }

  /** The position of the entry a successful add touches. */
  function AddedItemIndex(items: seq<CartItem>, p: ProductId): (k: nat)
    ensures FindProduct(items, p).Some? ==> k < |items|
    ensures FindProduct(items, p).None? ==> k == |items|
  {
    match FindProduct(items, p)
    case Some(k) => k
    case None => |items|
  }

  /** A valid cart stays valid when a positive quantity is added under an id no
      entry has. */
  lemma MergeAddValid(items: seq<CartItem>, p: ProductId, q: int, freshId: nat)
    requires CartValid(items) && q >= 1
    requires forall j :: 0 <= j < |items| ==> items[j].id != freshId
    ensures CartValid(MergeAdd(items, p, q, freshId))
  {
    MergeAddEffect(items, p, q, freshId);
  }

  /** The answer of `addToCart`. */
  datatype AddReply =
    | Added(cartItemId: nat, productId: ProductId, quantity: int)   // 200
    | InvalidProductId                                              // 400 INVALID_PRODUCT_ID
    | InvalidQuantity                                               // 400 INVALID_QUANTITY
    | ProductUnavailable                                            // 404 PRODUCT_UNAVAILABLE
    | InsufficientStock(available: int, maximumAllowed: int)        // 409 INSUFFICIENT_STOCK

  /** The stored form of a product id: the ObjectId the request's id casts to,
      printed in lower-case hex. The cast in `Product.findOne` and the comparison
      `item.product.equals(productId)` both go through it, so the case of the hex
      digits in the request does not matter. */
  function ProductKey(productId: ProductId): ProductId { Text.Lower(productId) }

  /** `addToCart` for a cart holding `items` (the empty list when the user has no
      cart yet), with `quantity` `None` when the request's quantity is not a whole
      number. The product id is checked as the 24-hex text of an ObjectId; the
      reply echoes the id as sent. */
  function AddReplyOf(items: seq<CartItem>, products: map<ProductId, Product>, productId: ProductId,
                      quantity: Option<int>, freshId: nat): (r: AddReply)
    ensures r == InvalidProductId <==> !Validation.HexObjectId(productId)
    ensures r == InvalidQuantity <==>
      Validation.HexObjectId(productId) && !(quantity.Some? && quantity.value >= 1)
    ensures r == ProductUnavailable <==>
      Validation.ValidAddItem(productId, quantity) &&
      !(ProductKey(productId) in products && products[ProductKey(productId)].isActive)
    ensures r.InsufficientStock? <==>
      && Validation.ValidAddItem(productId, quantity)
      && ProductKey(productId) in products && products[ProductKey(productId)].isActive
      && QuantityOf(items, ProductKey(productId)) + quantity.value > products[ProductKey(productId)].stock
    ensures r.InsufficientStock? ==>
      var left := products[ProductKey(productId)].stock - QuantityOf(items, ProductKey(productId));
      r.available == r.maximumAllowed && r.available >= 0
      && (left > 0 ==> r.available == left) && (left <= 0 ==> r.available == 0)
    ensures r.Added? ==>
      && r.productId == productId
      && r.cartItemId == AddedItemId(items, ProductKey(productId), freshId)
      && r.quantity == QuantityOf(items, ProductKey(productId)) + quantity.value
      && r.quantity <= products[ProductKey(productId)].stock
  {
    if !Validation.HexObjectId(productId) then InvalidProductId
    else if !(quantity.Some? && quantity.value >= 1) then InvalidQuantity
    else
      var key := ProductKey(productId);
      if !(key in products && products[key].isActive) then ProductUnavailable
      else
        var existing := QuantityOf(items, key);
        var q := quantity.value;
        var stock := products[key].stock;
        if existing + q > stock then
          var available := stock - existing;
          InsufficientStock(if available > 0 then available else 0, if available > 0 then available else 0)
        else Added(AddedItemId(items, key, freshId), productId, existing + q)
  }

  /** Upper- and lower-case hex digits name the same ObjectId. */
  lemma HexIgnoresCase(s: string)
    ensures Validation.HexObjectId(s) <==> Validation.HexObjectId(Text.Lower(s))
  {
    assert forall i :: 0 <= i < |s| ==> (Text.IsHexDigit(s[i]) <==> Text.IsHexDigit(Text.Lower(s)[i]));
  }

  /** Two spellings of one id that differ only in the case of their hex digits
      get the same answer; only the echoed id differs. */
  lemma AddIgnoresHexCase(items: seq<CartItem>, products: map<ProductId, Product>, a: ProductId, b: ProductId,
                          quantity: Option<int>, freshId: nat)
    requires Text.Lower(a) == Text.Lower(b)
    ensures var ra := AddReplyOf(items, products, a, quantity, freshId);
      var rb := AddReplyOf(items, products, b, quantity, freshId);
      (ra.Added? <==> rb.Added?) && (ra.Added? ==> ra.(productId := b) == rb) && (!ra.Added? ==> ra == rb)
  {
    HexIgnoresCase(a);
    HexIgnoresCase(b);
  }

  /** A successful add never asks for more than the stock: the merged quantity of
      the product stays within its stock whenever it was within it before. */
  lemma AddWithinStock(items: seq<CartItem>, products: map<ProductId, Product>, productId: ProductId,
                       quantity: Option<int>, freshId: nat)
    requires DistinctProducts(items)
    requires AddReplyOf(items, products, productId, quantity, freshId).Added?
    ensures QuantityOf(MergeAdd(items, ProductKey(productId), quantity.value, freshId), ProductKey(productId))
      <= products[ProductKey(productId)].stock
    ensures QuantityOf(MergeAdd(items, ProductKey(productId), quantity.value, freshId), ProductKey(productId))
      == AddReplyOf(items, products, productId, quantity, freshId).quantity
  {
    MergeAddEffect(items, ProductKey(productId), quantity.value, freshId);
  }

  // ---------------------------------------------------------------------------
  // updateCartItem (CartController.js:195-244)
  // ---------------------------------------------------------------------------

  /** The answer of `updateCartItem`. */
  datatype UpdateReply =
    | CartUpdated            // 200 "Cart updated"
    | ItemNotFound           // 404 "Cart item not found"
    | QuantityUnavailable    // 400 "Requested quantity not available"
    | UpdateFailed           // 500 "Failed to update cart"

  /** The `quantity` of an `updateCartItem` body. The cart routes apply no
      validator, so it is any JSON number, or absent. */
  datatype QuantityBody = Number(x: real) | Absent

  /** A body quantity that is a whole number. */
  predicate WholeQuantity(q: QuantityBody) { q.Number? && q.x.Floor as real == q.x }

  /** `updateCartItem` for the user's cart (`None`: no cart, and `cart.items` on
      null throws). The item is looked up by id, its product by id whether active
      or not. The only test is `quantity > product.stock`: `undefined > stock` is
      false, so an absent quantity passes, and so does a fraction within stock.
      A number below 1 then fails the schema's `min: 1` when the cart is saved;
      an unset path is not checked by `min`, so an absent quantity is saved. */
  function UpdateReplyOf(cart: Option<seq<CartItem>>, products: map<ProductId, Product>,
                         itemId: nat, quantity: QuantityBody): (r: UpdateReply)
    ensures cart.None? ==> r == UpdateFailed
    ensures cart.Some? ==> (r == ItemNotFound <==> forall j :: 0 <= j < |cart.value| ==> cart.value[j].id != itemId)
    ensures r == QuantityUnavailable <==>
      cart.Some? && FindItem(cart.value, itemId).Some? &&
      var item := cart.value[FindItem(cart.value, itemId).value];
      (item.product !in products || (quantity.Number? && quantity.x > products[item.product].stock as real))
    ensures r == CartUpdated <==>
      cart.Some? && FindItem(cart.value, itemId).Some? &&
      var item := cart.value[FindItem(cart.value, itemId).value];
      item.product in products && (quantity.Absent? || 1.0 <= quantity.x <= products[item.product].stock as real)
  {
    match cart
    case None => UpdateFailed
    case Some(items) =>
      match FindItem(items, itemId)
      case None => ItemNotFound
      case Some(k) =>
        var product := items[k].product;
        if product !in products then QuantityUnavailable
        else match quantity
          case Absent => CartUpdated
          case Number(x) =>
            if x > products[product].stock as real then QuantityUnavailable
            else if x < 1.0 then UpdateFailed
            else CartUpdated
  }

  /** `item.quantity = quantity` on the entry with that id. */
  function SetQuantity(items: seq<CartItem>, itemId: nat, quantity: int): seq<CartItem>
  {
    match FindItem(items, itemId)
    case None => items
    case Some(k) => items[k := items[k].(quantity := quantity)]
  }

  /** Replacing a quantity changes only that entry's quantity: ids and products
      stay where they were, every other entry is unchanged, and a valid cart stays
      valid for a quantity of at least 1. */
  lemma SetQuantityEffect(items: seq<CartItem>, itemId: nat, quantity: int)
    requires FindItem(items, itemId).Some?
    ensures var r := SetQuantity(items, itemId, quantity); var k := FindItem(items, itemId).value;
      && |r| == |items|
      && r[k].quantity == quantity && r[k].id == itemId && r[k].product == items[k].product
      && (forall j :: 0 <= j < |r| && j != k ==> r[j] == items[j])
      && (CartValid(items) && quantity >= 1 ==> CartValid(r))
  {
  }

  // ---------------------------------------------------------------------------
  // removeFromCart and clearCart (CartController.js:246-302)
  // ---------------------------------------------------------------------------

  /** `cart.items.pull(itemId)`: every entry with that id is dropped. */
  function RemoveItem(items: seq<CartItem>, itemId: nat): (r: seq<CartItem>)
    ensures |r| <= |items|
    ensures forall j :: 0 <= j < |r| ==> r[j].id != itemId
    ensures (forall j :: 0 <= j < |items| ==> items[j].id != itemId) ==> r == items
  {
    if items == [] then []
    else if items[0].id == itemId then RemoveItem(items[1..], itemId)
    else [items[0]] + RemoveItem(items[1..], itemId)
  }

  /** Pulling keeps only entries the cart had. */
  lemma {:induction false} RemoveItemKeeps(items: seq<CartItem>, itemId: nat)
    ensures forall j :: 0 <= j < |RemoveItem(items, itemId)| ==> RemoveItem(items, itemId)[j] in items
  {
    if items != [] {
      var tail := items[1..];
      RemoveItemKeeps(tail, itemId);
      assert forall y :: y in tail ==> y in items;
    }
  }

  /** With distinct ids, pulling an id that is present cuts out exactly that entry. */
  lemma {:induction false} RemoveItemCuts(items: seq<CartItem>, itemId: nat)
    requires forall i, j :: 0 <= i < j < |items| ==> items[i].id != items[j].id
    requires FindItem(items, itemId).Some?
    ensures var k := FindItem(items, itemId).value;
      RemoveItem(items, itemId) == items[..k] + items[k + 1..]
  {
    var k := FindItem(items, itemId).value;
    forall j | 0 <= j < |items| && j != k ensures items[j].id != itemId {
      if j < k { assert items[j].id != items[k].id; } else { assert items[k].id != items[j].id; }
    }
    RemoveAtPosition(items, itemId, k);
  }

  /** Pulling an id that only position `k` holds cuts out exactly that entry. */
  lemma {:induction false} RemoveAtPosition(items: seq<CartItem>, itemId: nat, k: nat)
    requires k < |items| && items[k].id == itemId
    requires forall j :: 0 <= j < |items| && j != k ==> items[j].id != itemId
    ensures RemoveItem(items, itemId) == items[..k] + items[k + 1..]
  {
    if k == 0 {
      RemoveAtFront(items, itemId);
    } else {
      var tail := items[1..];
      ShiftedPosition(items, itemId, k);
      RemoveAtPosition(tail, itemId, k - 1);
      RemoveKeepsHead(items, itemId);
      CutBehindHead(items[0], tail, k);
      assert items == [items[0]] + tail;
    }
  }

  /** Pulling the id of the first entry, held by no other, drops just that entry. */
  lemma RemoveAtFront(items: seq<CartItem>, itemId: nat)
    requires items != [] && items[0].id == itemId
    requires forall j :: 0 < j < |items| ==> items[j].id != itemId
    ensures RemoveItem(items, itemId) == items[1..]
  {
    var tail := items[1..];
    assert forall j :: 0 <= j < |tail| ==> tail[j].id != itemId by {
      forall j | 0 <= j < |tail| ensures tail[j].id != itemId { assert tail[j] == items[j + 1]; }
    }
  }

  /** A first entry with another id is kept in front of the pulled rest. */
  lemma RemoveKeepsHead(items: seq<CartItem>, itemId: nat)
    requires items != [] && items[0].id != itemId
    ensures RemoveItem(items, itemId) == [items[0]] + RemoveItem(items[1..], itemId)
  {
  }

  /** The only holder of the id at position `k > 0` is at `k - 1` in the tail. */
  lemma ShiftedPosition(items: seq<CartItem>, itemId: nat, k: nat)
    requires 0 < k < |items| && items[k].id == itemId
    requires forall j :: 0 <= j < |items| && j != k ==> items[j].id != itemId
    ensures items[0].id != itemId && items[1..][k - 1].id == itemId
    ensures forall j :: 0 <= j < |items[1..]| && j != k - 1 ==> items[1..][j].id != itemId
  {
    forall j | 0 <= j < |items[1..]| && j != k - 1 ensures items[1..][j].id != itemId {
      assert items[1..][j] == items[j + 1];
    }
  }

  /** Cutting position `k > 0` out of `[x] + t` cuts position `k - 1` out of `t`. */
  lemma CutBehindHead<T>(x: T, t: seq<T>, k: nat)
    requires 1 <= k <= |t|
    ensures ([x] + t)[..k] + ([x] + t)[k + 1..] == [x] + (t[..k - 1] + t[k..])
  {
    assert ([x] + t)[..k] == [x] + t[..k - 1];
    assert ([x] + t)[k + 1..] == t[k..];
  }

  /** The rest of a valid cart is valid, and no entry of it shares the first
      entry's id or product. */
  lemma TailValid(items: seq<CartItem>)
    requires CartValid(items) && items != []
    ensures CartValid(items[1..])
    ensures forall y :: y in items[1..] ==> y.id != items[0].id && y.product != items[0].product
  {
    var tail := items[1..];
    forall i, j | 0 <= i < j < |tail| ensures tail[i].id != tail[j].id && tail[i].product != tail[j].product {
      assert tail[i] == items[i + 1] && tail[j] == items[j + 1];
    }
  }

  /** An entry put in front of a valid cart that shares neither id nor product
      with any of its entries gives a valid cart. */
  lemma ConsValid(x: CartItem, rest: seq<CartItem>)
    requires ItemValid(x) && CartValid(rest)
    requires forall j :: 0 <= j < |rest| ==> rest[j].id != x.id && rest[j].product != x.product
    ensures CartValid([x] + rest)
  {
    var r := [x] + rest;
    forall a, b | 0 <= a < b < |r| ensures r[a].id != r[b].id && r[a].product != r[b].product {
      assert r[b] == rest[b - 1];
      if a > 0 { assert r[a] == rest[a - 1]; }
    }
  }

  /** Removing an entry keeps a cart valid: what remains is a sub-list of entries
      that were valid and distinct. */
  lemma {:induction false} RemoveItemValid(items: seq<CartItem>, itemId: nat)
    requires CartValid(items)
    ensures CartValid(RemoveItem(items, itemId))
  {
    if items != [] {
      TailValid(items);
      RemoveItemValid(items[1..], itemId);
      RemoveItemKeeps(items[1..], itemId);
      if items[0].id != itemId {
        ConsValid(items[0], RemoveItem(items[1..], itemId));
      }
    }
  }

  /** Pulling twice is pulling once. */
  lemma RemoveItemIdempotent(items: seq<CartItem>, itemId: nat)
    ensures RemoveItem(RemoveItem(items, itemId), itemId) == RemoveItem(items, itemId)
  {
  }

  /** `$set: { items: [] }` on the user's cart, when there is one: a missing cart is
      not created (no upsert). */
  function Cleared(carts: map<UserId, seq<CartItem>>, user: UserId): (r: map<UserId, seq<CartItem>>)
    ensures r.Keys == carts.Keys
    ensures user in r ==> r[user] == []
    ensures forall u :: u in carts && u != user ==> r[u] == carts[u]
  {
    if user in carts then carts[user := []] else carts
  }

  lemma ClearIdempotent(carts: map<UserId, seq<CartItem>>, user: UserId)
    ensures Cleared(Cleared(carts, user), user) == Cleared(carts, user)
  {
  }
}
