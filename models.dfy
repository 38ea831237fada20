/** The record shapes of src/models/Product.js: a product with its stock, price,
    images, embedded category reference and subcategories, and the constraints
    the schema enforces when a product is saved. */
module ProductModel {
  import opened Wrappers

  type ProductId = string
  type SellerId = string

  /** Product.js:15-21 and the upload limit: at most five images. */
  const MaxImages: nat := 5

  /** The `{ _id, name }` copy of a category that a product embeds. */
  datatype CategoryRef = CategoryRef(id: string, name: string)

  /** A category document. `subcategories` is `None` when the document holds no
      array in that field. */
  datatype Category = Category(id: string, name: string, subcategories: Option<seq<string>>)

  datatype Product = Product(
    seller: SellerId,
    name: string,
    description: string,
    price: int,          // minor units
    stock: int,
    images: seq<string>,
    category: CategoryRef,
    subcategories: seq<string>,
    isActive: bool)

  /** `Category.findById(id)`: the first category with that id. */
  function FindCategoryById(categories: seq<Category>, id: string): (r: Option<Category>)
    ensures r.Some? ==> r.value in categories && r.value.id == id
    ensures r.None? ==> forall c :: c in categories ==> c.id != id
  {
    if categories == [] then None
    else if categories[0].id == id then Some(categories[0])
    else FindCategoryById(categories[1..], id)
  }

  /** `category?.subcategories?.includes(sub)` for the category `categoryId` names. */
  predicate SubcategoryAllowed(categories: seq<Category>, categoryId: string, sub: string)
  {
    match FindCategoryById(categories, categoryId)
    case None => false
    case Some(c) => c.subcategories.Some? && sub in c.subcategories.value
  }

  /** The asynchronous subcategory validator of Product.js: every subcategory is in
      the list of the category the product embeds (vacuously true for none). */
  predicate SubcategoriesBelong(categories: seq<Category>, p: Product)
  {
    forall i :: 0 <= i < |p.subcategories| ==> SubcategoryAllowed(categories, p.category.id, p.subcategories[i])
  }

  /** Everything Product.js checks when a product is saved. */
  predicate SchemaValid(categories: seq<Category>, p: Product)
  {
    p.price >= 0 && p.stock >= 0 && |p.images| <= MaxImages && SubcategoriesBelong(categories, p)
  }

  /** The unique index of Product.js:44-47: (seller, name, category id). */
  predicate SameKey(a: Product, b: Product)
  {
    a.seller == b.seller && a.name == b.name && a.category.id == b.category.id
  }

  predicate KeysUnique(products: map<ProductId, Product>)
  {
    forall a, b :: a in products && b in products && a != b ==> !SameKey(products[a], products[b])
  }

  /** A product as `Product.create` stores it: `isActive` takes its default, true. */
  function NewProduct(seller: SellerId, name: string, description: string, price: int, stock: int,
                      images: seq<string>, category: CategoryRef, subcategories: seq<string>): (p: Product)
    ensures p.isActive
    ensures p.seller == seller && p.name == name && p.category == category
    ensures p.price == price && p.stock == stock && p.images == images && p.subcategories == subcategories
  {
    Product(seller, name, description, price, stock, images, category, subcategories, true)
  }
}

/** The record shapes of src/models/Cart.js: one cart per user, holding items of a
    product reference and a quantity, each item with its own id. */
module CartModel {
  import opened Wrappers
  import opened ProductModel

  type UserId = string

  /** Cart.js:7: the quantity an item takes when none is given. */
  const DefaultQuantity: int := 1

  /** An item of a cart. Cart.js keeps the per-item `_id` (`_id: false` is
      commented out), so every item has its own id. */
  datatype CartItem = CartItem(id: nat, product: ProductId, quantity: int)

  /** A new item as the schema builds it: a missing quantity takes the default. */
  function NewItem(id: nat, product: ProductId, quantity: Option<int>): (item: CartItem)
    ensures item.id == id && item.product == product
    ensures quantity.None? ==> item.quantity == DefaultQuantity
    ensures quantity.Some? ==> item.quantity == quantity.value
  {
    CartItem(id, product, quantity.GetOr(DefaultQuantity))
  }

  /** Cart.js:7: `min: 1`. */
  predicate ItemValid(item: CartItem) { item.quantity >= 1 }

  /** The items of one cart satisfy the schema and have distinct ids. */
  predicate ItemsValid(items: seq<CartItem>)
  {
    && (forall i :: 0 <= i < |items| ==> ItemValid(items[i]))
    && (forall i, j :: 0 <= i < j < |items| ==> items[i].id != items[j].id)
  }

  /** `cart.items.id(itemId)`: the position of the first item with that id. */
  function FindItem(items: seq<CartItem>, id: nat): (r: Option<nat>)
    ensures r.Some? ==> r.value < |items| && items[r.value].id == id
    ensures r.Some? ==> forall j :: 0 <= j < r.value ==> items[j].id != id
    ensures r.None? ==> forall j :: 0 <= j < |items| ==> items[j].id != id
  {
    if items == [] then None
    else if items[0].id == id then Some(0)
    else match FindItem(items[1..], id)
      case None => None
      case Some(k) => Some(k + 1)
  }

  /** `cart.items.find(item => item.product.equals(productId))`, as a position. */
  function FindProduct(items: seq<CartItem>, product: ProductId): (r: Option<nat>)
    ensures r.Some? ==> r.value < |items| && items[r.value].product == product
    ensures r.Some? ==> forall j :: 0 <= j < r.value ==> items[j].product != product
    ensures r.None? ==> forall j :: 0 <= j < |items| ==> items[j].product != product
  {
    if items == [] then None
    else if items[0].product == product then Some(0)
    else match FindProduct(items[1..], product)
      case None => None
      case Some(k) => Some(k + 1)
  }
}

/** The record shapes of src/models/Order.js: an order header (buyer, lines,
    total, status, payment method) and its embedded lines. */
module OrderModel {
  import opened Wrappers
  import opened ProductModel
  import opened CartModel

  /** Order.js:15-20: the status vocabulary. */
  datatype Status = Pending | Shipped | Delivered | Cancelled

  /** Order.js:19: the status a new order takes. */
  const DefaultStatus: Status := Pending

  /** Order.js:21: the settlement method every order takes. */
  const DefaultPaymentMethod: string := "COD"

  function StatusName(s: Status): string
  {
    match s
    case Pending => "pending"
    case Shipped => "shipped"
    case Delivered => "delivered"
    case Cancelled => "cancelled"
  }

  /** The status a stored string names, if it is one of the enum values. */
  function ParseStatus(s: string): (r: Option<Status>)
    ensures r.Some? ==> StatusName(r.value) == s
    ensures r.None? ==> forall t: Status :: StatusName(t) != s
  {
    if s == "pending" then Some(Pending)
    else if s == "shipped" then Some(Shipped)
    else if s == "delivered" then Some(Delivered)
    else if s == "cancelled" then Some(Cancelled)
    else None
  }

  lemma ParseStatusName(t: Status)
    ensures ParseStatus(StatusName(t)) == Some(t)
  {
  }

  /** What Order.js:4-10 stores of an order line: its id, the product id, and the
      product's name, price and seller as they were at checkout, and the quantity.
      There is no `status`, `image` or address field. */
  datatype PersistedLine = PersistedLine(
    id: nat, productId: ProductId, name: string, price: int, quantity: int, seller: SellerId)

  /** An order line of this model: the persisted fields plus the per-line
      fulfilment status that the seller workflow reads and writes. */
  datatype OrderLine = OrderLine(
    id: nat, productId: ProductId, name: string, price: int, quantity: int, seller: SellerId,
    status: Status)

  /** The part of a line that Order.js keeps. */
  function Persist(l: OrderLine): (p: PersistedLine)
    ensures p.id == l.id && p.productId == l.productId && p.name == l.name
    ensures p.price == l.price && p.quantity == l.quantity && p.seller == l.seller
  {
    PersistedLine(l.id, l.productId, l.name, l.price, l.quantity, l.seller)
  }

  /** The stored document cannot hold a line's status: two lines are stored alike
      exactly when they differ in their status at most. */
  lemma PersistForgetsStatus(l: OrderLine, s: Status, m: OrderLine)
    ensures Persist(l.(status := s)) == Persist(l)
    ensures Persist(l) == Persist(m) <==> l.(status := m.status) == m
  {
  }

  /** An order. `user` and `totalAmount` are required (Order.js:13-15). */
  datatype Order = Order(
    id: nat, user: UserId, items: seq<OrderLine>, totalAmount: int, status: Status,
    paymentMethod: string)

  /** Σ price × quantity over the lines, summed from the front as
      `reduce((sum, item) => sum + item.price * item.quantity, 0)` does. */
  function LinesTotal(lines: seq<OrderLine>): int
  {
    if lines == [] then 0 else LinesTotal(lines[..|lines| - 1]) + lines[|lines| - 1].price * lines[|lines| - 1].quantity
  }

  /** The total of non-negative prices and quantities is non-negative. */
  lemma {:induction false} LinesTotalNonNegative(lines: seq<OrderLine>)
    requires forall i :: 0 <= i < |lines| ==> lines[i].price >= 0 && lines[i].quantity >= 0
    ensures LinesTotal(lines) >= 0
  {
    if lines != [] {
      LinesTotalNonNegative(lines[..|lines| - 1]);
    }
  }

  /** The total is additive over concatenation. */
  lemma {:induction false} LinesTotalAppend(a: seq<OrderLine>, b: seq<OrderLine>)
    ensures LinesTotal(a + b) == LinesTotal(a) + LinesTotal(b)
    decreases |b|
  {
    if b != [] {
      var b' := b[..|b| - 1];
      assert (a + b)[..|a + b| - 1] == a + b';
      LinesTotalAppend(a, b');
    } else {
      assert a + b == a;
    }
  }
}
