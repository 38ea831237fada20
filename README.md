# flipONE marketplace core in Dafny

This project models the core of the flipONE marketplace back end (Express + Mongoose):

- **Buyer carts.** Add, change quantity, remove and clear, plus the read-only cart view with live stock.
- **Orders.** Checkout snapshots the cart into an order and decrements stock. Cancellation restocks. The order history is listed newest first.
- **Seller fulfilment.** One order line moves through `pending → shipped → delivered`. A seller sees the orders that hold a line of theirs.
- **Seller catalog.** The category and subcategory check, product creation with its duplicate check, the seller-scoped update and deactivation, and the image-count check.
- **Request validators.** The rules of `Validation.js` that carry logic of their own.
- **Request guards.** The bearer-token and role middleware, the upload name sanitiser and filter, and the global error handler.

The database is one object, `Store.Database`. Its fields are:
- the product store;
- one cart per user;
- the orders in creation order;
- an id generator for cart items, orders and order lines.

Each handler that changes the database is a method on it. Each method's contract does three things:
- it ties the reply to a pure function of the old state;
- it states the whole new state;
- it keeps the invariant `Valid()`.

`Valid()` says five things:
- stock and prices are never negative;
- the (seller, name, category) index is unique;
- every cart has distinct item ids and products, with quantity ≥ 1;
- orders have increasing ids;
- every order's total is the sum of its lines.

The handlers' rules are pure functions over values, with lemmas about them. They live in separate modules: `CartRules`, `CartView`, `OrderRules`, `SellerOrders` and `SellerProducts`.

The three writes of checkout are consecutive steps of one method: `Order.create`, the stock `bulkWrite` and the cart reset. Concurrency between requests is not modelled.

Modules, one per source component:

| module | models |
|---|---|
| `Wrappers`, `Text` | `Option`; ASCII character classes, `split`/`join` on one character, `trim`, `toLowerCase` on ASCII letters, decimal printing |
| `ProductModel`, `CartModel`, `OrderModel` | the record shapes and constraints of `Product.js`, `Cart.js`, `Order.js` |
| `Validation` | `Validation.js` |
| `CartView` | `getCart` |
| `CartRules` | `addToCart`, `updateCartItem`, `removeFromCart`, `clearCart` as values |
| `OrderRules` | `processOrder`, `cancelOrder`, `getOrderHistory` as values |
| `SellerOrders` | `sellerOrderController.js` |
| `SellerProducts` | `SellerProductController.js` |
| `Store` | the shared database and its handlers |
| `Auth` | `AuthMiddleware.js` |
| `Uploads` | `FileUploads.js` |
| `Errors` | `ErrorMiddleware.js` |

Conventions:
- **Ids.** Database ids are `nat` (produced by the generator) or strings. An ObjectId in text form is 24 hexadecimal characters.
- **Money.** Prices and amounts are integers in minor units.
- **External results are parameters:**
  - the JWT verifier's result;
  - the clock (`Date.now`);
  - the random suffix (`Math.random().toString(36)`);
  - `path.extname`;
  - Joi's `email()` verdict;
  - the id the database assigns a new product.

Two behaviours of the code worth stating:
- **Checkout with a missing or inactive product.** Checkout does not drop such an entry. The populate `match` turns the product into null, and the `reduce` then throws "`<name>|Product` is out of stock". So the whole checkout fails with 400 (`OrderRules.FirstUnavailable`, `Store.CheckoutReplyOf`).
- **What a line records.** Order lines persist only the product id, name, price, quantity and seller. There is no line status, image or shipping address (`OrderModel.Persist`).

## Model

| member | source | states |
|---|---|---|
| ProductModel.FindCategoryById | src/models/Product.js:30-33 | the category found has the id asked for; none is found only when no category has it |
| ProductModel.NewProduct | src/models/Product.js:4-41 | a created product keeps every given field and is active by default |
| CartModel.NewItem | src/models/Cart.js:4-10 | a new cart item takes the given id and product, and quantity 1 when none is given |
| CartModel.FindItem | src/controllers/CartOrderControllers/CartController.js:203 | `cart.items.id(itemId)`: the first position holding the id, or none when no item has it |
| CartModel.FindProduct | src/controllers/CartOrderControllers/CartController.js:145 | the first entry for the product, or none when no entry holds it |
| OrderModel.ParseStatus | src/models/Order.js:16-20 | a string names a status exactly when it is one of the four enum values |
| OrderModel.ParseStatusName | src/models/Order.js:16-20 | every status's name parses back to it |
| OrderModel.Persist | src/models/Order.js:4-10 | a stored line keeps id, product, name, price, quantity and seller, and nothing else |
| OrderModel.PersistForgetsStatus | src/models/Order.js:4-10 | a line's status never reaches the stored document: two lines are stored alike exactly when they differ at most in their status |
| OrderModel.LinesTotalNonNegative | src/controllers/CartOrderControllers/OrderController.js:61 | an order total over non-negative prices and quantities is non-negative |
| OrderModel.LinesTotalAppend | src/controllers/CartOrderControllers/OrderController.js:61 | the `reduce` total is additive over concatenation of lines |
| Text.JoinSplit | src/services/Validation.js:157 | joining the parts of `split(sep)` gives back the string |
| Text.SplitJoin | src/services/Validation.js:157 | splitting a join of separator-free parts gives back the parts |
| Text.DecimalRoundTrip | src/utils/FileUploads.js:56 | the printed timestamp reads back as the same number |
| Validation.ScanPassword | src/services/Validation.js:67-76 | one scan finds exactly whether every character is in the pattern's class, and which of the four required kinds occur |
| Validation.CheckPassword | src/services/Validation.js:67-76 | the single-pass check accepts exactly the passwords of eight or more allowed characters with a lower-case letter, an upper-case letter, a digit and a special character |
| Validation.FixedDigitsRoundTrip | src/services/Validation.js:78-84 | the n-digit strings are exactly the zero-padded forms of the numbers below 10^n, both ways |
| Validation.MobileNumbers | src/services/Validation.js:78-84 | the mobile pattern accepts exactly the 10-digit padded forms of the numbers below 10^10, each read back |
| Validation.PostalCodes | src/services/Validation.js:318 | the postal code pattern accepts exactly the 6-digit padded forms of the numbers below 10^6, each read back |
| Validation.AddressErrors | src/services/Validation.js:312-320 | the fields reported by the 400 reply for a shipping address: none exactly when the address is valid, and each of street, city, state and postal code exactly when that field fails |
| Validation.CheckEmail | src/middlewares/ValidationMiddleware.js:35-39 | with `convert: true` the value is lowered before any rule: the custom capital test never refuses, the format verdict alone decides, and the accepted value is the lowered input |
| Validation.CheckEmailRejectingUpper | src/services/Validation.js:51-65 | the rule the custom test was written for: a capital is refused first; otherwise the address is kept as sent and the format verdict decides |
| Validation.EmailCapitalsAccepted | src/services/Validation.js:51-65 | the two differ exactly on addresses with a capital, accepted lowered by the middleware and refused by the intended rule |
| Validation.NormalizeShape | src/services/Validation.js:157-159 | a normalised entry is trimmed, lower-case, no longer than the entry, and introduces no comma |
| Validation.NormalizeParts | src/services/Validation.js:157-159 | the kept pieces are non-empty, trimmed and lower-case, and no more than the pieces given |
| Validation.NormalizeSubcategories | src/services/Validation.js:143-175 | an accepted value is a list of 1 to 5 non-blank, trimmed, lower-case entries; a text without a comma is refused |
| Validation.TextFormEntriesHaveNoComma | src/services/Validation.js:154-168 | the entries the text form produces never contain a comma |
| Validation.NormalizeIdempotent | src/services/Validation.js:143-175 | normalising a normalised list gives it back; its comma-join is read back exactly when it has at least two entries, and a single entry's join is refused |
| Validation.ImagePathAccepted | src/services/Validation.js:177-189 | every `/uploads/<name>.<ext>` path with a name of letters, digits and dashes and an accepted extension in any case passes the image rule |
| Validation.GeneratedIdsAccepted | src/services/Validation.js:280-287 | every 12-byte database id prints as text the product-id pattern accepts, already in the lower-case form ids are stored in |
| CartView.StockStatusOf | src/controllers/CartOrderControllers/CartController.js:59-60 | in-stock above 5, low-stock from 1 to 5, out-of-stock at 0 or below, each an if-and-only-if |
| CartView.ViewOf | src/controllers/CartOrderControllers/CartController.js:47-68 | available is 0 for an inactive product and min(requested, stock) otherwise; the line total is price × available; a warning exactly when available < requested |
| CartView.ViewLines | src/controllers/CartOrderControllers/CartController.js:46-70 | the view fails exactly when some entry's product is gone, and otherwise views every entry in order |
| CartView.GetCart | src/controllers/CartOrderControllers/CartController.js:12-105 | no cart gives the empty view with zero totals and no warnings; a deleted product gives 500 exactly when one is referenced; otherwise every entry is viewed in order, in INR |
| CartView.WarningsNonEmptyIff | src/controllers/CartOrderControllers/CartController.js:72 | the flattened warnings are non-empty exactly when some line has a warning |
| CartView.HasIssuesIff | src/controllers/CartOrderControllers/CartController.js:72-87 | `hasIssues` holds exactly when some entry cannot be served in full |
| CartView.SumsBounded | src/controllers/CartOrderControllers/CartController.js:73-74 | total items and total amount lie between 0 and the requested quantity and value; with no warning the whole request is served at its full value |
| CartView.TotalsBounded | src/controllers/CartOrderControllers/CartController.js:72-74 | the meta totals of a viewed cart are bounded by what was requested; with no issues the item total is the requested quantity and the amount its full value |
| CartRules.QuantityOf | src/controllers/CartOrderControllers/CartController.js:145-147 | `existingItem?.quantity \|\| 0`: 0 exactly when no entry holds the product, never negative in a valid cart |
| CartRules.MergeAddEffect | src/controllers/CartOrderControllers/CartController.js:161-165 | the product's quantity grows by exactly q, no other product's quantity changes, products stay distinct, an existing entry keeps its place or one entry is appended, and the reply's item id names the touched entry |
| CartRules.MergeAddGrows | src/controllers/CartOrderControllers/CartController.js:161-162 | growing an existing entry keeps every id and product in place |
| CartRules.MergeAddAppends | src/controllers/CartOrderControllers/CartController.js:163-164 | pushing a new entry gives the product quantity q and leaves the others alone |
| CartRules.MergeAddValid | src/controllers/CartOrderControllers/CartController.js:161-167 | a valid cart stays valid after adding a positive quantity under a fresh id |
| CartRules.AddReplyOf | src/controllers/CartOrderControllers/CartController.js:109-191 | each error reply (400 id, 400 quantity, 404 unavailable, 409 insufficient with max(stock − held, 0)) exactly when its condition holds after the earlier ones pass, the product looked up by the id's lower-case form; a success echoes the id as sent and names the touched item and the merged quantity, which is within stock |
| CartRules.HexIgnoresCase | src/controllers/CartOrderControllers/CartController.js:115 | an id is a valid ObjectId text exactly when its lower-case form is |
| CartRules.AddIgnoresHexCase | src/controllers/CartOrderControllers/CartController.js:115-146 | two spellings of an id differing only in hex case get the same reply, up to the echoed id |
| CartRules.AddWithinStock | src/controllers/CartOrderControllers/CartController.js:147-165 | after a successful add the cart holds no more of the product than its stock, and holds exactly the replied quantity |
| CartRules.UpdateReplyOf | src/controllers/CartOrderControllers/CartController.js:195-244 | no cart gives 500; an absent item gives 404; a missing product or a number above stock gives 400; success exactly when the product exists and the quantity is absent or a number with 1 ≤ quantity ≤ stock, fractions included |
| CartRules.SetQuantityEffect | src/controllers/CartOrderControllers/CartController.js:223 | only the addressed entry's quantity changes; a valid cart stays valid for a quantity ≥ 1 |
| CartRules.RemoveItem | src/controllers/CartOrderControllers/CartController.js:253 | `pull` drops every entry with the id and changes nothing when the id is absent |
| CartRules.RemoveItemKeeps | src/controllers/CartOrderControllers/CartController.js:253 | every entry left after `pull` was an entry of the cart |
| CartRules.RemoveItemCuts | src/controllers/CartOrderControllers/CartController.js:253 | with distinct ids, pulling a present id cuts out exactly that one entry |
| CartRules.RemoveItemValid | src/controllers/CartOrderControllers/CartController.js:253-254 | removing an entry keeps a valid cart valid |
| CartRules.RemoveItemIdempotent | src/controllers/CartOrderControllers/CartController.js:253 | pulling twice is pulling once |
| CartRules.Cleared | src/controllers/CartOrderControllers/CartController.js:280-283 | the user's cart, if any, becomes empty; no cart is created; every other cart is untouched |
| CartRules.ClearIdempotent | src/controllers/CartOrderControllers/CartController.js:280-283 | clearing twice is clearing once |
| OrderRules.Populated | src/controllers/CartOrderControllers/OrderController.js:19-24 | an entry populates to its product exactly when the product exists and is active |
| OrderRules.OutOfStockMessage | src/controllers/CartOrderControllers/OrderController.js:35 | the message names the product, or says "Product" when it is null or nameless |
| OrderRules.FirstUnavailable | src/controllers/CartOrderControllers/OrderController.js:31-36 | none exactly when every entry is accepted; otherwise the first refused entry, all before it accepted |
| OrderRules.SnapshotLine | src/controllers/CartOrderControllers/OrderController.js:38-45 | a line copies the product's name, price and seller and the entry's product and quantity, and starts pending |
| OrderRules.Snapshot | src/controllers/CartOrderControllers/OrderController.js:31-55 | one line per entry, in cart order, the j-th with id base + j |
| OrderRules.MovedClosedForm | src/controllers/CartOrderControllers/OrderController.js:47-52 | the `bulkWrite` keeps the products and moves each stock by exactly sign × the quantity the lines reserve for it |
| OrderRules.DecrementedStock | src/controllers/CartOrderControllers/OrderController.js:67 | checkout lowers each product's stock by exactly its reserved quantity and changes nothing else |
| OrderRules.RestockedStock | src/controllers/CartOrderControllers/OrderController.js:142-147 | cancellation raises each product's stock by exactly its reserved quantity and changes nothing else |
| OrderRules.RestockUndoesDecrement | src/controllers/CartOrderControllers/OrderController.js:142-147 | restocking an order's lines gives back the store as before their decrement |
| OrderRules.SnapshotReserves | src/controllers/CartOrderControllers/OrderController.js:31-52 | the lines reserve for each product exactly what the entries request |
| OrderRules.RequestedDistinct | src/controllers/CartOrderControllers/OrderController.js:31-52 | with one entry per product, the request for a product is that entry's quantity |
| OrderRules.CheckoutKeepsStock | src/controllers/CartOrderControllers/OrderController.js:34 | when every entry passes the stock check, no stock goes negative after the decrement |
| OrderRules.SnapshotLinesValid | src/controllers/CartOrderControllers/OrderController.js:38-45 | snapshot lines have positive quantities and non-negative prices |
| OrderRules.FindCancellable | src/controllers/CartOrderControllers/OrderController.js:133-139 | the order found has the id, the user and status pending; none only when no order has all three |
| OrderRules.NewestCancellable | src/controllers/CartOrderControllers/OrderController.js:133-137 | the newest order, while pending, is what its owner's cancel finds |
| OrderRules.CancelledNotCancellable | src/controllers/CartOrderControllers/OrderController.js:133-150 | once cancelled, an order can never be found for cancelling again |
| OrderRules.OrderHistory | src/controllers/CartOrderControllers/OrderController.js:106-120 | the history holds exactly the summaries of the user's orders |
| OrderRules.HistoryNewestFirst | src/controllers/CartOrderControllers/OrderController.js:108-109 | with ids increasing in creation order, the history's ids strictly decrease |
| SellerOrders.OnlyLegalTransitions | src/controllers/SellerController/sellerOrderController.js:10-15 | a move is allowed exactly when it is pending→shipped or shipped→delivered; none stays put, goes back or reaches cancelled |
| SellerOrders.FinalStatuses | src/controllers/SellerController/sellerOrderController.js:10-15 | exactly delivered and cancelled have no way out |
| SellerOrders.FindOrderAsWritten | src/controllers/SellerController/sellerOrderController.js:58-62 | the first order matching the query as written, none exactly when no order matches |
| SellerOrders.FirstLineWithId | src/controllers/SellerController/sellerOrderController.js:72 | the first line with the id, none exactly when no line has it |
| SellerOrders.UpdateOrderStatusAsWritten | src/controllers/SellerController/sellerOrderController.js:46-112 | the handler as written on stored lines: 404 exactly when the query matches nothing |
| SellerOrders.AsWrittenNeverTransitions | src/controllers/SellerController/sellerOrderController.js:72-75 | as written, every request that finds an order fails with 500 |
| SellerOrders.CrossSellerLineReachable | src/controllers/SellerController/sellerOrderController.js:58-62 | as written, a seller reaches another seller's line on a shared order |
| SellerOrders.QueryNarrower | src/controllers/SellerController/sellerOrderController.js:58-62 | the corrected query never admits more than the written one |
| SellerOrders.LocateLine | src/controllers/SellerController/sellerOrderController.js:58-72 | the line found has the order id, the item id and the caller as seller; none exactly when no order holds such a line |
| SellerOrders.LocateInOrder | src/controllers/SellerController/sellerOrderController.js:72 | the first line of the order with both the item id and the seller |
| SellerOrders.NextStatus | src/controllers/SellerController/sellerOrderController.js:73-75 | a request resolves exactly when it names an allowed next status |
| SellerOrders.UpdateOrderStatus | src/controllers/SellerController/sellerOrderController.js:46-112 | 404 and no change without a line; 400 "Invalid status transition from X to Y" and no change for a move the table does not allow; otherwise that line takes the new status |
| SellerOrders.UpdateChangesOnlyTheLine | src/controllers/SellerController/sellerOrderController.js:86-87 | a success changes only the addressed line's status, by a legal move to the requested status; a refusal changes nothing |
| SellerOrders.UpdateNeverCancels | src/controllers/SellerController/sellerOrderController.js:10-15 | a seller update never cancels a line |
| SellerOrders.LinesTotalIgnoresStatus | src/controllers/SellerController/sellerOrderController.js:86-87 | a line's status change leaves the order total unchanged |
| SellerOrders.PendingShippedDelivered | src/controllers/SellerController/sellerOrderController.js:10-15 | from pending, "shipped" then "delivered" succeed, and every later request is refused |
| SellerOrders.SellerOrdersOf | src/controllers/SellerController/sellerOrderController.js:21-25 | exactly the orders holding a line of the seller |
| SellerOrders.SellerOrdersNewestFirst | src/controllers/SellerController/sellerOrderController.js:25 | with ids increasing in creation order, the seller's list has strictly decreasing ids |
| SellerProducts.FindCategoryByName | src/controllers/SellerController/SellerProductController.js:19 | the category found has the name; none only when no category has it |
| SellerProducts.NonMembers | src/controllers/SellerController/SellerProductController.js:32-34 | exactly the given subcategories that are not allowed, and empty exactly when all are |
| SellerProducts.NonMembersAppend | src/controllers/SellerController/SellerProductController.js:32-34 | the filter keeps input order |
| SellerProducts.ValidateCategorySubcatsAsWritten | src/controllers/SellerController/SellerProductController.js:12-46 | the helper as written on the raw body: an absent field throws |
| SellerProducts.CheckCategorySubcats | src/controllers/SellerController/SellerProductController.js:12-46 | unknown category, a category without a list, or the non-members with the allowed list; accepted exactly when every subcategory is in the category's list |
| SellerProducts.AsWrittenAgreesOnLists | src/controllers/SellerController/SellerProductController.js:15-16 | handed the same list, the written helper and the corrected one agree (the handlers as written pass the raw list, the corrected ones the validator's normalised list, so `["Android"]` against `["android"]` is 400 as written and accepted when corrected) |
| SellerProducts.AsWrittenThrowsOnAcceptedText | src/controllers/SellerController/SellerProductController.js:15-34 | every comma text the validator accepts makes the written helper throw once a category with a list is found |
| SellerProducts.AsWrittenTextCounterexample | src/controllers/SellerController/SellerProductController.js:31-34 | "android," is accepted by the validator, throws as written, and is accepted after correction |
| SellerProducts.CheckAgreesWithSchema | src/models/Product.js:26-37 | a product built from an accepted check passes the schema's subcategory validator |
| SellerProducts.Uploaded | src/controllers/SellerController/SellerProductController.js:96 | one `/uploads/<filename>` path per uploaded file, in order |
| SellerProducts.AddProduct | src/controllers/SellerController/SellerProductController.js:49-109 | a failed check gives 400 and no change; 409 exactly when the seller already has the name in the category; otherwise exactly the new active product is stored, valid for the schema, and the unique index stays unique |
| SellerProducts.ValidatedRequestCreatable | src/services/Validation.js:115-133 | a request with the validator's non-negative price and whole non-negative stock and at most five files is never refused by the schema once its category check passes |
| SellerProducts.AddTwiceConflicts | src/controllers/SellerController/SellerProductController.js:73-85 | the same request a second time is refused with 409 |
| SellerProducts.Apply | src/controllers/SellerController/SellerProductController.js:117-143 | sent paths replace, unsent paths stay, `isActive`, `seller` and `images` included; a sent category is stored as `{ _id, name }` with the sent subcategories or none |
| SellerProducts.UpdateProduct | src/controllers/SellerController/SellerProductController.js:113-161 | a route id that is not 24 hex digits gives 500 (after the category check's 400) and 404 exactly for a well-formed id not naming the caller's product, found in any hex case; only that product is updated, exactly as `Apply` says; a negative price or stock, more than five images or a seller that is not an ObjectId is refused; an update that writes subcategories is stored only with subcategories that belong to the product's category; failures change nothing; the unique index stays unique |
| SellerProducts.UpdateIgnoresIdCase | src/controllers/SellerController/SellerProductController.js:139 | two spellings of one id that differ in hex case give the same reply and the same store |
| SellerProducts.CategoryUpdateStored | src/controllers/SellerController/SellerProductController.js:118-131 | as corrected, a change of category on one's own product is stored with the found category and the checked subcategories |
| SellerProducts.UpdateProductAsWritten | src/models/Product.js:30-34 | as written, every update that writes subcategories (every body with a category) is answered 500 and changes nothing, unless the category check answered 400 first; any other body is handled as corrected |
| SellerProducts.CategoryNeverUpdatedAsWritten | src/controllers/SellerController/SellerProductController.js:131-143 | as written, no update changes any product's category or subcategories |
| SellerProducts.CategoryUpdateCounterexample | src/controllers/SellerController/SellerProductController.js:131-143 | moving a product stored under a database id to category "phones" with subcategory "android" is 500 as written and stored as corrected |
| SellerProducts.UpdateWritesStatusAndOwner | src/controllers/SellerController/SellerProductController.js:117-143 | a body `isActive: true` reactivates the product, and a body `seller` hands it over, after which the first seller can no longer change it |
| SellerProducts.UpdateScopedToSeller | src/controllers/SellerController/SellerProductController.js:139-150 | an id that does not name the caller's product (malformed, missing or another seller's) never changes anything and gives no success |
| SellerProducts.UpdateProductImages | src/controllers/SellerController/SellerProductController.js:164-198 | 500 exactly for an id that is not 24 hex digits; 404 exactly for a request without an id or a well-formed id naming no product in any hex case; for a found product, 400 exactly when current + new exceeds 5, with the remaining room; a success stores nothing and returns no images |
| SellerProducts.ImagesRouteNeverFinds | src/routes/SellerRoutes/SellerRoutes.js:43-47 | as wired, with no `:id` in the path, every request is answered 404 |
| SellerProducts.ImagesCountedWithId | src/controllers/SellerController/SellerProductController.js:166-186 | with the product's id in the path, a stored product is found and its images counted: 400 or success, success exactly when the total stays within 5 |
| SellerProducts.DeactivateProduct | src/controllers/SellerController/SellerProductController.js:201-227 | 500 exactly for an id that is not 24 hex digits; deactivated exactly when the id names, in any hex case, the caller's product, and then only its `isActive` changes; otherwise nothing changes |
| SellerProducts.DeactivateIgnoresIdCase | src/controllers/SellerController/SellerProductController.js:205-209 | two spellings of one id that differ in hex case give the same reply and the same store |
| SellerProducts.DeactivateIdempotent | src/controllers/SellerController/SellerProductController.js:205-216 | deactivating twice is deactivating once, and leaves the product inactive |
| Store.DeactivatedUnavailable | src/controllers/SellerController/SellerProductController.js:205-216 | a deactivated product can no longer be added to a cart under any case of its id, nor checked out |
| Store.CartOf | src/controllers/CartOrderControllers/CartController.js:202 | the user's cart exactly when one exists |
| Store.AddedConsistent | src/controllers/CartOrderControllers/CartController.js:161-167 | a successful add keeps the database invariant |
| Store.MovedKeepsCatalog | src/controllers/CartOrderControllers/OrderController.js:67 | a stock movement keeps the products, prices and unique keys |
| Store.PlacedOrderValid | src/controllers/CartOrderControllers/OrderController.js:31-64 | the order of a checkout whose entries all pass is a valid order, and the decrement leaves no negative stock |
| Store.PlacedConsistent | src/controllers/CartOrderControllers/OrderController.js:57-68 | storing the order, decrementing and emptying the cart keeps the invariant |
| Store.CancelledConsistent | src/controllers/CartOrderControllers/OrderController.js:141-150 | restocking and cancelling keeps the invariant |
| Store.StatusUpdateConsistent | src/controllers/SellerController/sellerOrderController.js:86-87 | the corrected status update keeps the invariant |
| Store.CollectLines | src/controllers/CartOrderControllers/OrderController.js:31-55 | the loop finds the first refused entry, and otherwise collects exactly the snapshot lines |
| Store.Move | src/controllers/CartOrderControllers/OrderController.js:67 | the loop of `$inc` updates computes the stock movement |
| Store.CheckoutReplyOf | src/controllers/CartOrderControllers/OrderController.js:16-103 | 400 "Your cart is empty", or 400 naming the first refused entry, or the new pending COD order whose lines snapshot the cart in order with its total; placed exactly when the cart is non-empty and every entry passes |
| Store.Database.AddToCart | src/controllers/CartOrderControllers/CartController.js:109-191 | the reply is `AddReplyOf`; a success stores the cart merged under the id's lower-case form and advances the generator; anything else changes nothing; the invariant is kept |
| Store.Database.UpdateCartItem | src/controllers/CartOrderControllers/CartController.js:195-244 | the reply is `UpdateReplyOf` for any body quantity; only a success with a whole number replaces the quantity; the invariant is kept |
| Store.Database.RemoveFromCart | src/controllers/CartOrderControllers/CartController.js:246-274 | no cart gives 500 and no change; otherwise the pulled cart is stored; the invariant is kept |
| Store.Database.ClearCart | src/controllers/CartOrderControllers/CartController.js:276-302 | the carts become `Cleared`; the invariant is kept |
| Store.Database.Checkout | src/controllers/CartOrderControllers/OrderController.js:16-75 | the reply is `CheckoutReplyOf`; a placed order is appended, the stock decremented by its lines and the cart emptied; a failure changes nothing; the invariant is kept |
| Store.Database.Commit | src/controllers/CartOrderControllers/OrderController.js:57-68 | the order is created with the generator's id, the stock decremented and the cart emptied, in that order |
| Store.Database.CancelOrder | src/controllers/CartOrderControllers/OrderController.js:131-160 | a pending order of the caller is restocked and cancelled; otherwise 400 "Order not found" and no change; the invariant is kept |
| Store.Database.UpdateOrderStatus | src/controllers/SellerController/sellerOrderController.js:46-112 | the reply and orders are those of the corrected `SellerOrders.UpdateOrderStatus`; the invariant is kept |
| Store.Database.AddProduct | src/controllers/SellerController/SellerProductController.js:49-109 | the reply and product store are those of `SellerProducts.AddProduct`; the invariant is kept |
| Store.Database.UpdateProduct | src/controllers/SellerController/SellerProductController.js:113-161 | the reply and product store are those of `SellerProducts.UpdateProduct`; the invariant is kept |
| Store.Database.DeactivateProduct | src/controllers/SellerController/SellerProductController.js:201-227 | the reply and product store are those of `SellerProducts.DeactivateProduct`; the invariant is kept |
| Store.PlaceThenCancel | src/controllers/CartOrderControllers/OrderController.js:131-160 | checkout then cancel of the new order restores every stock exactly, leaves the order cancelled and the cart empty, and the second cancel's reply is the 400 "order not found" refusal |
| Auth.GetToken | src/middlewares/AuthMiddleware.js:17-20 | a token exactly when the header starts with "Bearer " |
| Auth.TokenIsFirstWord | src/middlewares/AuthMiddleware.js:17-20 | the token is what follows "Bearer " up to the next space or the end, so a bare "Bearer " or a double space gives the empty token |
| Auth.TokenRoundTrip | src/middlewares/AuthMiddleware.js:17-20 | a space-free token sent as "Bearer <token>", with or without more words, is read back exactly |
| Auth.Protect | src/middlewares/AuthMiddleware.js:15-86 | 401 "Authorization failed" exactly for a missing or empty token; 401 "Invalid account type" exactly for a verified unknown role; 401 "Session expired" exactly when verification fails or a known role carries an id that is not an ObjectId; 401 "Account unavailable or inactive" exactly when the id is missing from that role's store or inactive; authenticated exactly when the token verifies, the role is known, the id is an ObjectId and the account is active in that role's store, and then the account is that one |
| Auth.AdminProtect | src/middlewares/AuthMiddleware.js:89-100 | passes exactly an admin, else 403 "Admin access only" |
| Auth.SellerProtect | src/middlewares/AuthMiddleware.js:103-114 | passes exactly a seller, else 403 "Seller account required" |
| Auth.UserProtect | src/middlewares/AuthMiddleware.js:117-128 | passes exactly a user, else 403 "User account required" |
| Auth.ProtectThenGuard | src/middlewares/AuthMiddleware.js:42-128 | an account authenticated under role R passes exactly R's guard |
| Auth.ProtectIgnoresOtherStores | src/middlewares/AuthMiddleware.js:42-51 | the outcome depends only on the store of the token's role |
| Uploads.MaskDisallowed | src/utils/FileUploads.js:18 | every character outside `a-zA-Z0-9-_` becomes a dash, the rest stay |
| Uploads.CollapseDashesEffect | src/utils/FileUploads.js:19 | no two dashes in a row afterwards, no disallowed character introduced, and a string without doubled dashes is unchanged |
| Uploads.Truncate | src/utils/FileUploads.js:21 | a prefix of at most 50 characters, the whole string when it is that short |
| Uploads.SanitizeName | src/utils/FileUploads.js:15-22 | a falsy name gives "unknown"; a result never exceeds 50 characters (the full promise is `SanitizeNameSafe`) |
| Uploads.SanitizeNameSafe | src/utils/FileUploads.js:15-22 | a falsy name gives "unknown"; every result has 1 to 50 characters from `a-z 0-9 - _` and no doubled dash |
| Uploads.SafeIsFixed | src/utils/FileUploads.js:17-21 | a string already in that form is left as it is |
| Uploads.SanitizeNameIdempotent | src/utils/FileUploads.js:15-22 | sanitising twice is sanitising once |
| Uploads.Identifier | src/utils/FileUploads.js:32-53 | the identifier consists of safe characters only |
| Uploads.IdentifierCases | src/utils/FileUploads.js:32-53 | "unknown" without an account; `<role>-<sanitised name or e-mail local part>` for the three roles whatever the seller's licence; `unknown-<timestamp>` for any other role |
| Uploads.Prefix | src/utils/FileUploads.js:55 | "profile" exactly for the `profileImage` field, else "product" |
| Uploads.FilenameHasNoSlash | src/utils/FileUploads.js:25-56 | with a base-36 random part and a slash-free extension, the file name has no slash |
| Uploads.GenerateFilename | src/utils/FileUploads.js:56 | the file name ends with the random part followed by the upload's extension |
| Uploads.FilenameStartsWith | src/utils/FileUploads.js:56 | the file name starts with `<prefix>-<identifier>-` |
| Uploads.FileFilter | src/utils/FileUploads.js:80-88 | accepts exactly `image/jpeg`, `image/png` and `image/webp`, else the invalid-type error |
| Errors.NotFound | src/middlewares/ErrorMiddleware.js:8-15 | always 404, with the message prefix followed by the URL |
| Errors.NotFoundInjective | src/middlewares/ErrorMiddleware.js:8-15 | the URL is recovered from the 404 message |
| Errors.HandleError | src/middlewares/ErrorMiddleware.js:19-67 | a multer error is always 400; a non-multer 11000 is 409 "<field> already exists"; an `error` detail exactly for the generic multer case; the status is never 0 and the message never empty |
| Errors.MulterErrors | src/middlewares/ErrorMiddleware.js:26-50 | the size limit has its 5MB message, both "too many" codes share one message, any other multer code passes its message on |
| Errors.MulterBeforeDuplicate | src/middlewares/ErrorMiddleware.js:26-59 | a multer error is answered 400 even with the duplicate-key code |
| Errors.OtherErrors | src/middlewares/ErrorMiddleware.js:62-66 | the error's own non-zero status or 500, its own message or "Internal Server Error" |
| Errors.DuplicateNamesFirstKey | src/middlewares/ErrorMiddleware.js:53-59 | the message is the first key pattern field followed by " already exists" |

## Left out

- Ids: Mongoose's `isValidObjectId` and its ObjectId cast also accept 12-character strings and ObjectId instances; the model accepts exactly the 24-hex text form. Product ids are stored in lower case, and every product lookup by id (`addToCart`, `updateProduct`, `updateProductImages`, `deactivateProduct`) matches them in any hex case (`CartRules.ProductKey`), as the cast does; a text that does not cast is a 500 in the three seller handlers.
- Ids in messages: string forms of ids in replies and logs are not modelled; ids are naturals from the generator.
- Prices are JavaScript floats with `precision(2)`; the model uses integers (minor units) and no rounding.
- Joi's own `email()`, `uri()` and message templating are outside the model; the e-mail format verdict is a parameter. Of the `convert` coercion, the model covers `trim` and `lowercase()` (ASCII letters only; see the two lines below).
- Validation.CheckEmail: lower-cases ASCII letters only, where Joi's `lowercase()` folds every letter; it follows the middleware's `convert: true`, so the value is lowered before the custom capital test.
- Validation.NormalizeSubcategories: lower-cases ASCII letters only, where Joi's `lowercase()` and `toLowerCase` fold every letter ("ÉCRAN" is stored "écran" by the source, "Écran" here); it follows `convert: true`, so list entries are trimmed and lowered before the length rules.
- Text.Lower: ASCII letters only; the upload name sanitiser keeps only ASCII characters, so there it is exact.
- `name` trimming of `productCommon` and the `min`/`max` length rules of names and descriptions are not modelled.
- `updateProduct`: the `parseFloat`/`parseInt` conversions are identities on integers.
- `createdAt` timestamps: creation order is the order of sequences and ids; dates are not returned.
- `shippingAddress`: the checkout route's validator (OrderRoutes.js:19) answers 400 with `Validation.AddressErrors` before `createOrder` runs; `Store.Database.Checkout` models the handler behind it, and the address is not stored, because Order.js declares no such path.
- `orderSchemas.updateStatus` (`valid('pending', 'cancelled')`) is wired to no route: the status route (SellerRoutes.js:55) has no validator, so it is not modelled.
- The product validator's `price`/`stock` rules are modelled as `Validation.ValidPrice` and `Validation.ValidStock` on the request reaching `addProduct` (`SellerProducts.ValidatedRequestCreatable`); its 400 reply itself, and `precision(2)`, are not.
- Concurrency: the reads and three writes of checkout and of cancellation are one sequential step; interleavings and a partial `bulkWrite` failure are not modelled.
- The 409 reply of `addProduct` carries the conflicting product's id; the model's reply does not.
- `Math.random`, `Date.now`, `path.extname`, the id the database assigns a product, and `jwt.verify` are parameters.
- Logging calls (winston) are skipped everywhere; they do not change replies.
- `cancelOrder` and `updateOrderStatus` with a malformed id throw a cast error answered 400/500; the model's order ids are naturals, so this path is not represented.
- Errors.HandleError: an 11000 error without `keyPattern` throws inside the handler (`Object.keys(undefined)`); the model takes the pattern to be present (possibly empty, printing `undefined`).
- Store.OrderValid: the invariant does not state that line prices are non-negative or that line ids come from the generator; the order snapshot lemmas (`OrderRules.SnapshotLinesValid`) state these per checkout.
- Store.Database.UpdateOrderStatus: models the corrected handler; the handler as written is `SellerOrders.UpdateOrderStatusAsWritten` (see Findings).
- SellerProducts.AddProduct: models the corrected handler, which hands the helper the validator's normalised list; as written, a comma text gives 500 and list entries are checked and stored as sent (`SellerProducts.ValidateCategorySubcatsAsWritten`, see Findings).
- SellerProducts.UpdateProduct: models the corrected handler in the same way; as written, an update with a category and no subcategories, or with a comma text, gives 500. Its subcategory validator is corrected too: as written, update validators run without the document as `this`, so the source answers 500 "Update failed" to every body that writes subcategories, which is every body with a category (`SellerProducts.UpdateProductAsWritten`, see Findings).
- Store.Database.AddProduct: the corrected handler of `SellerProducts.AddProduct`, as above.
- Store.Database.UpdateProduct: the corrected handler and validator of `SellerProducts.UpdateProduct`, as above; the source answers 500 to every body that writes subcategories.
- CartRules.UpdateReplyOf: a body quantity is a JSON number or absent; strings, booleans and other JSON values, which Mongoose would cast or refuse, are not modelled.
- Store.Database.UpdateCartItem: cart quantities are whole numbers, so an accepted fraction (stored as sent by the source and later moved as stock by checkout) or an absent quantity (saved unset) gives the success reply but leaves the cart unchanged.
- SellerProducts.UpdateProduct: of the paths a body may write, `name`, `description`, `price`, `stock`, `category`, `subcategories`, `isActive`, `seller` and `images` are modelled; `createdAt`/`updatedAt` and update operators such as `$set` in the body are not.
- Uploads: the files multer writes to disk before a handler answers (kept even when `updateProductImages` answers 404 or 400) are not modelled; the handler only sees their names.
- Uploads: multer's own enforcement of the 5 MB size and the file-count limits is not modelled; the error handler's answers to multer's codes are.
- The route wiring, apart from the missing `:id` of `PATCH /images`, `getSellerProducts`, the admin, user, category and analytics controllers, and `ValidationMiddleware.js` beyond the Joi options it sets are not part of this model.

## Findings

| source | as written | input that shows it | evidently intended | confidence | as-written member | corrected member |
|---|---|---|---|---|---|---|
| src/controllers/SellerController/sellerOrderController.js:72-75 | looks up `validStatusTransitions[item.status]`, but Order.js declares no `status` on a line, so the entry is undefined and `.includes` throws | any order a seller can find, any requested status | each line carries a status starting at `pending`, and the table decides | not executed | SellerOrders.AsWrittenNeverTransitions | SellerOrders.UpdateOrderStatus |
| src/controllers/SellerController/sellerOrderController.js:58-62 | `'items._id'` and `'items.seller'` are matched independently, so they may hit different lines | order 7 with line 1 of seller "a" and line 2 of seller "b": seller "a" addresses line 2 | one line with both the item id and the caller as seller (`$elemMatch`) | not executed | SellerOrders.CrossSellerLineReachable | SellerOrders.LocateLine |
| src/controllers/SellerController/SellerProductController.js:15-34 | the helper gets the raw `req.body.subcategories`: an absent field throws at `split`, a comma text throws at `.filter`, and list entries are compared as sent, so `["Android"]` is refused against `["android"]` | category "phones" listing "android", body `subcategories: "android,"` | check the list the validator produced | not executed | SellerProducts.AsWrittenTextCounterexample | SellerProducts.CheckCategorySubcats |
| src/services/Validation.js:51-58 | the custom `/[A-Z]/` test is meant to refuse capitals before `lowercase()`, but with the middleware's `convert: true` Joi lowers the string before any rule runs, so the test never fires | `email: "Alice@example.com"` is accepted and stored as "alice@example.com" | refused with "Email must be in lowercase letters" | not executed; rests on Joi applying `lowercase()` during coercion | Validation.EmailCapitalsAccepted | Validation.CheckEmailRejectingUpper |
| src/models/Product.js:30-34 | the subcategory validator starts with `if (!this.category) return false`, and `findOneAndUpdate` runs it as an update validator (SellerProductController.js:142), where `this` is not the document; the handler writes `subcategories` on every update with a category (line 131) | any own product, body `{category: "phones", subcategories: ["android"]}` with "android" listed under "phones": 500 "Update failed" | the validator checks the subcategories against the product's category, so a valid change is stored | not executed; rests on Mongoose not binding `this` to the document in update validators | SellerProducts.CategoryNeverUpdatedAsWritten | SellerProducts.CategoryUpdateStored |
| src/routes/SellerRoutes/SellerRoutes.js:43-47 | `PATCH /images` declares no `:id`, so `req.params.id` is undefined, `findById(undefined)` looks for `_id: null`, and every request is answered 404 after multer has written the files | any seller, any product, any files | the route is `/products/:id/images`, so the product is found and its images counted | not executed; rests on `findById(undefined)` querying `_id: null` | SellerProducts.ImagesRouteNeverFinds | SellerProducts.ImagesCountedWithId |
