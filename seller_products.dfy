/** The catalog rules of SellerProductController.js: the category and subcategory
    check, product creation with its duplicate check, the seller-scoped update and
    deactivation, and the image-count check. Categories are a list the handlers
    search; the product store is a map from id to product. The check is given
    twice: as written, on the raw request body, and as corrected, on the
    validated subcategory list. */
module SellerProducts {
  import opened Wrappers
  import opened Text
  import opened ProductModel
  import Validation
  import CartRules

  // ---------------------------------------------------------------------------
  // validateCategorySubcats (SellerProductController.js:12-46)
  // ---------------------------------------------------------------------------

  /** `Category.findOne({ name })`: the first category with that name. */
  function FindCategoryByName(categories: seq<Category>, name: string): (r: Option<Category>)
    ensures r.Some? ==> r.value in categories && r.value.name == name
    ensures r.None? ==> forall c :: c in categories ==> c.name != name
  {
    if categories == [] then None
    else if categories[0].name == name then Some(categories[0])
    else FindCategoryByName(categories[1..], name)
  }

  /** The outcome of the check. `CheckThrew` is a TypeError inside the helper,
      which the handlers answer with 500. */
  datatype CategoryCheck =
    | CategoryOk(category: Category)
    | CategoryRejected(error: string, validSubcats: seq<string>, invalidSubcats: seq<string>)
    | CheckThrew

  const InvalidCategory: string := "Invalid category"
  const NoValidSubcategories: string := "Category has no valid subcategories"
  const InvalidSubcategories: string := "Invalid subcategories"

  /** `subcategories.filter(sc => !allowed.includes(sc))`. */
  function NonMembers(subs: seq<string>, allowed: seq<string>): (r: seq<string>)
    ensures |r| <= |subs|
    ensures forall x :: x in r <==> x in subs && x !in allowed
    ensures r == [] <==> forall k :: 0 <= k < |subs| ==> subs[k] in allowed
  {
    if subs == [] then []
    else
      var rest := NonMembers(subs[1..], allowed);
      assert forall x :: x in subs <==> x == subs[0] || x in subs[1..];
      assert (forall k :: 0 <= k < |subs| ==> subs[k] in allowed) <==>
             subs[0] in allowed && forall k :: 0 <= k < |subs[1..]| ==> subs[1..][k] in allowed;
      if subs[0] in allowed then rest else [subs[0]] + rest
  }

  /** The filter keeps the order of the input. */
  lemma {:induction false} NonMembersAppend(a: seq<string>, b: seq<string>, allowed: seq<string>)
    ensures NonMembers(a + b, allowed) == NonMembers(a, allowed) + NonMembers(b, allowed)
  {
    if a != [] {
      var ab := a + b;
      assert ab[0] == a[0] && ab[1..] == a[1..] + b;
      NonMembersAppend(a[1..], b, allowed);
    } else {
      assert a + b == b;
    }
  }

  /** The helper as written, on the raw `subcategories` of the request body (`None`
      when the field is absent). It splits a text before anything else, so an
      absent field throws (`undefined.split`); a non-empty text throws at
      `subcategories.filter`, which strings do not have. The lower-cased copy it
      builds is never used: membership is tested on the values as sent. */
  function ValidateCategorySubcatsAsWritten(categories: seq<Category>, categoryName: string,
                                            raw: Option<Validation.SubcategoryInput>): (r: CategoryCheck)
    ensures raw.None? ==> r == CheckThrew
  {
    match raw
    case None => CheckThrew
    case Some(input) =>
      match FindCategoryByName(categories, categoryName)
      case None => CategoryRejected(InvalidCategory, [], [])
      case Some(doc) =>
        match doc.subcategories
        case None => CategoryRejected(NoValidSubcategories, [], [])
        case Some(allowed) =>
          match input
          case TextForm(text) => if |text| > 0 then CheckThrew else CategoryOk(doc)
          case ListForm(items) =>
            var bad := NonMembers(items, allowed);
            if |items| > 0 && bad != [] then CategoryRejected(InvalidSubcategories, allowed, bad)
            else CategoryOk(doc)
  }

  /** The corrected helper, on the validated subcategory list (`[]` when none was
      sent). */
  function CheckCategorySubcats(categories: seq<Category>, categoryName: string, subs: seq<string>): (r: CategoryCheck)
    ensures r != CheckThrew
    ensures FindCategoryByName(categories, categoryName).None? ==> r == CategoryRejected(InvalidCategory, [], [])
    ensures FindCategoryByName(categories, categoryName).Some? ==>
      var doc := FindCategoryByName(categories, categoryName).value;
      && (doc.subcategories.None? ==> r == CategoryRejected(NoValidSubcategories, [], []))
      && (doc.subcategories.Some? ==>
           && (r.CategoryOk? <==> forall k :: 0 <= k < |subs| ==> subs[k] in doc.subcategories.value)
           && (r.CategoryOk? ==> r.category == doc)
           && (!r.CategoryOk? ==>
                r == CategoryRejected(InvalidSubcategories, doc.subcategories.value, NonMembers(subs, doc.subcategories.value))))
  {
    match FindCategoryByName(categories, categoryName)
    case None => CategoryRejected(InvalidCategory, [], [])
    case Some(doc) =>
      match doc.subcategories
      case None => CategoryRejected(NoValidSubcategories, [], [])
      case Some(allowed) =>
        var bad := NonMembers(subs, allowed);
        if bad != [] then CategoryRejected(InvalidSubcategories, allowed, bad) else CategoryOk(doc)
  }

  /** On a list the two helpers agree. */
  lemma AsWrittenAgreesOnLists(categories: seq<Category>, categoryName: string, items: seq<string>)
    ensures ValidateCategorySubcatsAsWritten(categories, categoryName, Some(Validation.ListForm(items)))
         == CheckCategorySubcats(categories, categoryName, items)
  {
  }

  /** Finding: every comma-separated text the route's validator accepts makes the
      written helper throw once the category is found with a subcategory list. */
  lemma AsWrittenThrowsOnAcceptedText(categories: seq<Category>, categoryName: string, text: string)
    requires Validation.NormalizeSubcategories(Validation.TextForm(text)).Some?
    requires FindCategoryByName(categories, categoryName).Some?
    requires FindCategoryByName(categories, categoryName).value.subcategories.Some?
    ensures ValidateCategorySubcatsAsWritten(categories, categoryName, Some(Validation.TextForm(text))) == CheckThrew
  {
    assert Contains(text, ',');
  }

  /** A concrete case: category "phones" lists "android"; the text "android," (one
      entry, accepted by the validator) throws as written, and the corrected helper
      accepts the validated list ["android"]. */
  lemma AsWrittenTextCounterexample()
    ensures var cats := [Category("c1", "phones", Some(["android"]))];
      && Validation.NormalizeSubcategories(Validation.TextForm("android,")) == Some(["android"])
      && ValidateCategorySubcatsAsWritten(cats, "phones", Some(Validation.TextForm("android,"))) == CheckThrew
      && CheckCategorySubcats(cats, "phones", ["android"]) == CategoryOk(cats[0])
  {
    var cats := [Category("c1", "phones", Some(["android"]))];
    AndroidIsNormalised();
    TrailingCommaNormalizes("android");
    assert "android," == "android" + [','];
    assert FindCategoryByName(cats, "phones") == Some(cats[0]);
    AsWrittenThrowsOnAcceptedText(cats, "phones", "android,");
    assert NonMembers(["android"], ["android"]) == [];
  }

  /** The validator reads a normalised word followed by one comma as the
      one-entry list of that word. */
  lemma TrailingCommaNormalizes(w: string)
    requires !Contains(w, ',') && Validation.NormalEntry(w)
    ensures Validation.NormalizeSubcategories(Validation.TextForm(w + [','])) == Some([w])
  {
    var text := w + [','];
    assert text[|w|] == ',';
    SplitTrailingComma(w);
    Validation.NormalizeFixed(w);
    BlankPartDropped(w);
  }

  /** "android" is a normalised word without a comma. */
  lemma AndroidIsNormalised()
    ensures !Contains("android", ',') && Validation.NormalEntry("android")
  {
    var w := "android";
    assert forall i :: 0 <= i < |w| ==> IsLower(w[i]);
    assert forall i :: 0 <= i < |w| ==> LowerChar(w[i]) == w[i];
  }

  /** A word without a comma followed by one comma splits into the word and "". */
  lemma SplitTrailingComma(w: string)
    requires !Contains(w, ',')
    ensures Split(w + [','], ',') == [w, ""]
  {
    assert w + [','] == w + [','] + "";
    SplitPrefixThenSep(w, ',', "");
  }

  /** The blank piece after a trailing comma is dropped. */
  lemma BlankPartDropped(w: string)
    requires w != [] && Validation.Normalize(w) == w
    ensures Validation.NormalizeParts([w, ""]) == [w]
  {
    assert Validation.Normalize("") == "";
    assert [w, ""][1..] == [""];
    assert [""][1..] == [];
  }

  /** Category ids are unique, as the database's `_id` is. */
  predicate CategoryIdsUnique(categories: seq<Category>)
  {
    forall i, j :: 0 <= i < j < |categories| ==> categories[i].id != categories[j].id
  }

  lemma FindByIdOfMember(categories: seq<Category>, c: Category)
    requires CategoryIdsUnique(categories) && c in categories
    ensures FindCategoryById(categories, c.id) == Some(c)
  {
    var r := FindCategoryById(categories, c.id);
    var i :| 0 <= i < |categories| && categories[i] == c;
    var j :| 0 <= j < |categories| && categories[j] == r.value;
    if i != j {
      if i < j { assert categories[i].id != categories[j].id; } else { assert categories[j].id != categories[i].id; }
    }
  }

  /** What the helper accepts is what the schema's subcategory validator accepts: a
      product embedding the found category and the checked list passes it. */
  lemma CheckAgreesWithSchema(categories: seq<Category>, categoryName: string, subs: seq<string>, p: Product)
    requires CategoryIdsUnique(categories)
    requires CheckCategorySubcats(categories, categoryName, subs).CategoryOk?
    requires var doc := CheckCategorySubcats(categories, categoryName, subs).category;
      p.category == CategoryRef(doc.id, doc.name) && p.subcategories == subs
    ensures SubcategoriesBelong(categories, p)
  {
    var doc := CheckCategorySubcats(categories, categoryName, subs).category;
    FindByIdOfMember(categories, doc);
  }

  // ---------------------------------------------------------------------------
  // addProduct (SellerProductController.js:49-109)
  // ---------------------------------------------------------------------------

  /** `req.files?.map(file => `/uploads/${file.filename}`) || []`. */
  function Uploaded(fileNames: seq<string>): (r: seq<string>)
    ensures |r| == |fileNames|
    ensures forall k :: 0 <= k < |r| ==> r[k] == "/uploads/" + fileNames[k]
  {
    if fileNames == [] then [] else ["/uploads/" + fileNames[0]] + Uploaded(fileNames[1..])
  }

  datatype AddProductReply =
    | ProductCreated(id: ProductId, product: Product)   // 201
    | AddRejected(check: CategoryCheck)                 // 400, or 500 for CheckThrew
    | DuplicateProduct(message: string)                 // 409
    | CreationFailed                                    // 500: the schema refuses the record

  /** `Product.findOne({ seller, name, "category._id" })` finds something. */
  predicate DuplicateExists(products: map<ProductId, Product>, seller: SellerId, name: string, categoryId: string)
  {
    exists pid | pid in products :: products[pid].seller == seller && products[pid].name == name
      && products[pid].category.id == categoryId
  }

  /** The request of `addProduct`, after the corrected helper's input. */
  datatype NewProductRequest = NewProductRequest(
    name: string, description: string, price: int, stock: int, categoryName: string,
    subcategories: seq<string>, fileNames: seq<string>)

  /** The product a request creates for the seller and the found category. */
  function Created(seller: SellerId, req: NewProductRequest, doc: Category): Product
  {
    NewProduct(seller, req.name, req.description, req.price, req.stock, Uploaded(req.fileNames),
               CategoryRef(doc.id, doc.name), req.subcategories)
  }

  /** `addProduct`: the reply, and the product store afterwards (`freshId` is the
      id the database assigns). */
  function AddProduct(products: map<ProductId, Product>, categories: seq<Category>, seller: SellerId,
                      req: NewProductRequest, freshId: ProductId): (r: (AddProductReply, map<ProductId, Product>))
    requires freshId !in products
    ensures !CheckCategorySubcats(categories, req.categoryName, req.subcategories).CategoryOk? ==>
      r == (AddRejected(CheckCategorySubcats(categories, req.categoryName, req.subcategories)), products)
    ensures r.0.DuplicateProduct? <==>
      && CheckCategorySubcats(categories, req.categoryName, req.subcategories).CategoryOk?
      && DuplicateExists(products, seller, req.name, CheckCategorySubcats(categories, req.categoryName, req.subcategories).category.id)
    ensures !r.0.ProductCreated? ==> r.1 == products
    ensures r.0.ProductCreated? ==>
      && r.0.id == freshId && r.1 == products[freshId := r.0.product]
      && r.0.product.isActive && r.0.product.seller == seller && r.0.product.name == req.name
      && r.0.product.subcategories == req.subcategories && r.0.product.images == Uploaded(req.fileNames)
      && SchemaValid(categories, r.0.product)
    ensures KeysUnique(products) ==> KeysUnique(r.1)
  {
    var check := CheckCategorySubcats(categories, req.categoryName, req.subcategories);
    if !check.CategoryOk? then (AddRejected(check), products)
    else
      var doc := check.category;
      if DuplicateExists(products, seller, req.name, doc.id) then
        (DuplicateProduct("Product '" + req.name + "' exists in " + doc.name), products)
      else
        var p := Created(seller, req, doc);
        if !SchemaValid(categories, p) then (CreationFailed, products)
        else (ProductCreated(freshId, p), products[freshId := p])
  }

  /** A request the route passed on (the validator's `min(0)` on price and stock,
      at most five files from `upload.array('images', 5)`) is never refused by the
      schema once its category check passes: the 500 of `Product.create` is out of
      reach of validated input. */
  lemma ValidatedRequestCreatable(products: map<ProductId, Product>, categories: seq<Category>, seller: SellerId,
                                  req: NewProductRequest, freshId: ProductId)
    requires freshId !in products && CategoryIdsUnique(categories)
    requires Validation.ValidPrice(req.price) && Validation.ValidStock(Some(req.stock))
    requires |req.fileNames| <= MaxImages
    ensures AddProduct(products, categories, seller, req, freshId).0 != CreationFailed
  {
    var check := CheckCategorySubcats(categories, req.categoryName, req.subcategories);
    if check.CategoryOk? {
      CheckAgreesWithSchema(categories, req.categoryName, req.subcategories, Created(seller, req, check.category));
    }
  }

  /** The duplicate check keeps the (seller, name, category) index unique, and a
      second identical request is refused with 409. */
  lemma AddTwiceConflicts(products: map<ProductId, Product>, categories: seq<Category>, seller: SellerId,
                          req: NewProductRequest, id1: ProductId, id2: ProductId)
    requires id1 !in products && id2 !in products && id1 != id2
    requires AddProduct(products, categories, seller, req, id1).0.ProductCreated?
    ensures AddProduct(AddProduct(products, categories, seller, req, id1).1, categories, seller, req, id2).0.DuplicateProduct?
  {
    var after := AddProduct(products, categories, seller, req, id1).1;
    assert after[id1].seller == seller && after[id1].name == req.name;
  }

  // ---------------------------------------------------------------------------
  // updateProduct (SellerProductController.js:113-161)
  // ---------------------------------------------------------------------------

  /** The Product paths of an update body; `None` marks a path that is not sent.
      The handler passes the whole body to `findOneAndUpdate`, so every path the
      schema declares is written, `isActive`, `seller` and `images` included. */
  datatype ProductUpdate = ProductUpdate(
    name: Option<string>, description: Option<string>, price: Option<int>, stock: Option<int>,
    category: Option<string>, subcategories: Option<seq<string>>,
    isActive: Option<bool>, seller: Option<SellerId>, images: Option<seq<string>>)

  datatype UpdateProductReply =
    | ProductUpdated(product: Product)      // 200
    | UpdateRejected(check: CategoryCheck)  // 400
    | ProductNotFound                       // 404 "Product not found/unauthorized"
    | UpdateFailed                          // 500 "Update failed"

  /** The fields as the update writes them: a given category becomes its
      `{ _id, name }` and brings the subcategories with it (`[]` when none). */
  function Apply(p: Product, u: ProductUpdate, category: Option<Category>): (q: Product)
    ensures q.seller == u.seller.GetOr(p.seller) && q.isActive == u.isActive.GetOr(p.isActive)
    ensures q.images == u.images.GetOr(p.images)
    ensures q.price == u.price.GetOr(p.price) && q.stock == u.stock.GetOr(p.stock)
    ensures q.name == u.name.GetOr(p.name) && q.description == u.description.GetOr(p.description)
    ensures category.Some? ==>
      q.category == CategoryRef(category.value.id, category.value.name) && q.subcategories == u.subcategories.GetOr([])
    ensures category.None? ==> q.category == p.category && q.subcategories == u.subcategories.GetOr(p.subcategories)
  {
    var withCategory :=
      match category
      case Some(doc) => p.(category := CategoryRef(doc.id, doc.name), subcategories := u.subcategories.GetOr([]))
      case None => p.(subcategories := u.subcategories.GetOr(p.subcategories));
    withCategory.(name := u.name.GetOr(p.name), description := u.description.GetOr(p.description),
                  price := u.price.GetOr(p.price), stock := u.stock.GetOr(p.stock),
                  isActive := u.isActive.GetOr(p.isActive), seller := u.seller.GetOr(p.seller),
                  images := u.images.GetOr(p.images))
  }

  /** What `findOneAndUpdate` refuses before it looks anything up: a seller that
      does not cast to an ObjectId, and the update validators (`min: 0` on price
      and stock, at most five images). */
  predicate UpdateRefused(u: ProductUpdate)
  {
    || (u.price.Some? && u.price.value < 0) || (u.stock.Some? && u.stock.value < 0)
    || (u.images.Some? && |u.images.value| > MaxImages)
    || (u.seller.Some? && !Validation.HexObjectId(u.seller.value))
  }

  /** The update writes the `subcategories` path. A body with a category always
      does: the handler sets `updates.subcategories` to `[]` when none is sent. */
  predicate WritesSubcategories(u: ProductUpdate)
  {
    u.category.Some? || u.subcategories.Some?
  }

  /** The route's `:id` names a product of the calling seller. The filter casts
      it to an ObjectId, so it must be 24 hex characters, and it matches the
      stored id in any hex case (`CartRules.ProductKey`). */
  predicate SellerOwns(products: map<ProductId, Product>, seller: SellerId, id: ProductId)
  {
    Validation.HexObjectId(id) && CartRules.ProductKey(id) in products
    && products[CartRules.ProductKey(id)].seller == seller
  }

  /** `updateProduct` as corrected: the category check when a category is sent,
      then the casts (of the route's id and of the body) and update validators,
      then the lookup scoped to the calling seller, then the subcategory validator
      on the updated product, as the schema applies it when a product is saved,
      then the unique index. */
  function UpdateProduct(products: map<ProductId, Product>, categories: seq<Category>, seller: SellerId,
                         id: ProductId, u: ProductUpdate): (r: (UpdateProductReply, map<ProductId, Product>))
    ensures !r.0.ProductUpdated? ==> r.1 == products
    ensures r.0 == ProductNotFound ==> Validation.HexObjectId(id) && !SellerOwns(products, seller, id)
    ensures !Validation.HexObjectId(id) && !r.0.UpdateRejected? ==> r.0 == UpdateFailed
    ensures r.0.ProductUpdated? ==>
      var key := CartRules.ProductKey(id);
      && SellerOwns(products, seller, id)
      && r.1 == products[key := r.0.product]
      && (products[key].price >= 0 ==> r.0.product.price >= 0)
      && (products[key].stock >= 0 ==> r.0.product.stock >= 0)
      && (u.category.Some? ==>
            var check := CheckCategorySubcats(categories, u.category.value, u.subcategories.GetOr([]));
            check.CategoryOk? && r.0.product == Apply(products[key], u, Some(check.category)))
      && (u.category.None? ==> r.0.product == Apply(products[key], u, None))
    ensures UpdateRefused(u) ==> !r.0.ProductUpdated?
    ensures r.0.ProductUpdated? && WritesSubcategories(u) ==> SubcategoriesBelong(categories, r.0.product)
    ensures KeysUnique(products) ==> KeysUnique(r.1)
  {
    var check := if u.category.Some? then CheckCategorySubcats(categories, u.category.value, u.subcategories.GetOr([]))
                 else CheckThrew;
    var key := CartRules.ProductKey(id);
    if u.category.Some? && !check.CategoryOk? then (UpdateRejected(check), products)
    else if !Validation.HexObjectId(id) || UpdateRefused(u) then (UpdateFailed, products)
    else if !SellerOwns(products, seller, id) then (ProductNotFound, products)
    else
      var q := Apply(products[key], u, if u.category.Some? then Some(check.category) else None);
      var after := products[key := q];
      if WritesSubcategories(u) && !SubcategoriesBelong(categories, q) then (UpdateFailed, products)
      else if !KeysUnique(after) then (UpdateFailed, products) else (ProductUpdated(q), after)
  }

  /** The route's id is matched in any hex case: two spellings of one id get the
      same reply and the same store. */
  lemma UpdateIgnoresIdCase(products: map<ProductId, Product>, categories: seq<Category>, seller: SellerId,
                            a: ProductId, b: ProductId, u: ProductUpdate)
    requires Text.Lower(a) == Text.Lower(b)
    ensures UpdateProduct(products, categories, seller, a, u) == UpdateProduct(products, categories, seller, b, u)
  {
    CartRules.HexIgnoresCase(a);
    CartRules.HexIgnoresCase(b);
  }

  /** As corrected, a seller's change of category is stored: the product embeds
      the found category and the checked subcategories. */
  lemma CategoryUpdateStored(products: map<ProductId, Product>, categories: seq<Category>, seller: SellerId,
                             id: ProductId, u: ProductUpdate)
    requires CategoryIdsUnique(categories)
    requires SellerOwns(products, seller, id) && !UpdateRefused(u)
    requires u.category.Some? && CheckCategorySubcats(categories, u.category.value, u.subcategories.GetOr([])).CategoryOk?
    requires var doc := CheckCategorySubcats(categories, u.category.value, u.subcategories.GetOr([])).category;
      var key := CartRules.ProductKey(id);
      KeysUnique(products[key := Apply(products[key], u, Some(doc))])
    ensures var doc := CheckCategorySubcats(categories, u.category.value, u.subcategories.GetOr([])).category;
      var r := UpdateProduct(products, categories, seller, id, u);
      && r.0.ProductUpdated?
      && r.0.product.category == CategoryRef(doc.id, doc.name)
      && r.0.product.subcategories == u.subcategories.GetOr([])
  {
    var subs := u.subcategories.GetOr([]);
    var doc := CheckCategorySubcats(categories, u.category.value, subs).category;
    CheckAgreesWithSchema(categories, u.category.value, subs, Apply(products[CartRules.ProductKey(id)], u, Some(doc)));
  }

  /** `updateProduct` as written. Update validators run without the document as
      `this`, so the subcategory validator's `!this.category` test refuses every
      update that writes `subcategories`, with 500 and before any lookup. A
      rejected category still gets its 400 first (taken here with the corrected
      helper, so that this refusal is seen apart from the helper's own faults).
      Any other body is handled as corrected. */
  function UpdateProductAsWritten(products: map<ProductId, Product>, categories: seq<Category>, seller: SellerId,
                                  id: ProductId, u: ProductUpdate): (r: (UpdateProductReply, map<ProductId, Product>))
    ensures WritesSubcategories(u) ==> r.1 == products && !r.0.ProductUpdated?
    ensures WritesSubcategories(u) ==>
      (r.0 == UpdateFailed <==>
         !(u.category.Some? && !CheckCategorySubcats(categories, u.category.value, u.subcategories.GetOr([])).CategoryOk?))
    ensures !WritesSubcategories(u) ==> r == UpdateProduct(products, categories, seller, id, u)
  {
    if u.category.Some? && !CheckCategorySubcats(categories, u.category.value, u.subcategories.GetOr([])).CategoryOk? then
      (UpdateRejected(CheckCategorySubcats(categories, u.category.value, u.subcategories.GetOr([]))), products)
    else if WritesSubcategories(u) then (UpdateFailed, products)
    else UpdateProduct(products, categories, seller, id, u)
  }

  /** Finding: as written, no update ever changes a product's category or its
      subcategories. */
  lemma CategoryNeverUpdatedAsWritten(products: map<ProductId, Product>, categories: seq<Category>, seller: SellerId,
                                      id: ProductId, u: ProductUpdate, pid: ProductId)
    requires pid in products
    ensures var after := UpdateProductAsWritten(products, categories, seller, id, u).1;
      pid in after && after[pid].category == products[pid].category
      && after[pid].subcategories == products[pid].subcategories
  {
    if !WritesSubcategories(u) {
      var r := UpdateProduct(products, categories, seller, id, u);
      if r.0.ProductUpdated? {
        assert r.0.product == Apply(products[CartRules.ProductKey(id)], u, None);
      }
    }
  }

  /** A concrete case: moving one's own product, stored under a database id, to
      the category "phones" with the subcategory "android" is answered 500 as
      written and stored as corrected. */
  lemma CategoryUpdateCounterexample(id: ProductId)
    requires Validation.HexObjectId(id) && CartRules.ProductKey(id) == id
    ensures var cats := [Category("c1", "phones", Some(["android"]))];
      var p := Product("s1", "pixel", "", 100, 3, [], CategoryRef("c0", "misc"), [], true);
      var u := ProductUpdate(None, None, None, None, Some("phones"), Some(["android"]), None, None, None);
      && UpdateProductAsWritten(map[id := p], cats, "s1", id, u).0 == UpdateFailed
      && UpdateProduct(map[id := p], cats, "s1", id, u).0.ProductUpdated?
  {
    var cats := [Category("c1", "phones", Some(["android"]))];
    var p := Product("s1", "pixel", "", 100, 3, [], CategoryRef("c0", "misc"), [], true);
    var u := ProductUpdate(None, None, None, None, Some("phones"), Some(["android"]), None, None, None);
    assert FindCategoryByName(cats, "phones") == Some(cats[0]);
    assert NonMembers(["android"], ["android"]) == [];
    assert CategoryIdsUnique(cats);
    CategoryUpdateStored(map[id := p], cats, "s1", id, u);
  }

  /** The body's `isActive` and `seller` are written: a seller can reactivate its
      own deactivated product, and a product given to another seller is out of
      reach of the first one afterwards. */
  lemma UpdateWritesStatusAndOwner(products: map<ProductId, Product>, categories: seq<Category>, seller: SellerId,
                                   id: ProductId, u: ProductUpdate)
    requires UpdateProduct(products, categories, seller, id, u).0.ProductUpdated?
    ensures var after := UpdateProduct(products, categories, seller, id, u).1;
      var key := CartRules.ProductKey(id);
      && (u.isActive == Some(true) ==> after[key].isActive)
      && (u.seller.Some? ==> after[key].seller == u.seller.value)
      && (u.seller.Some? && u.seller.value != seller ==>
            forall v :: UpdateProduct(after, categories, seller, id, v).1 == after)
  {
    var after := UpdateProduct(products, categories, seller, id, u).1;
    if u.seller.Some? && u.seller.value != seller {
      forall v ensures UpdateProduct(after, categories, seller, id, v).1 == after {
        UpdateScopedToSeller(after, categories, seller, id, v);
      }
    }
  }

  /** Another seller's product, or a missing one, is never changed. */
  lemma UpdateScopedToSeller(products: map<ProductId, Product>, categories: seq<Category>, seller: SellerId,
                             id: ProductId, u: ProductUpdate)
    requires !SellerOwns(products, seller, id)
    ensures UpdateProduct(products, categories, seller, id, u).1 == products
    ensures !UpdateProduct(products, categories, seller, id, u).0.ProductUpdated?
  {
  }

  // ---------------------------------------------------------------------------
  // updateProductImages (SellerProductController.js:164-198)
  // ---------------------------------------------------------------------------

  datatype ImagesReply =
    | ImagesProductNotFound                         // 404
    | TooManyImages(current: nat, maxAllowed: int)  // 400 "Maximum 5 images allowed"
    | ImagesAccepted(images: Option<seq<string>>)   // 200; `images` is `updateProduct.images`, undefined
    | ImagesFailed                                  // 500 "Image update failed": the id does not cast

  /** `updateProductImages`: `findById(id)` by id alone (no seller test), the count
      test, and no write: nothing is ever stored. `None` is a request without an
      `:id`; `findById(undefined)` looks for `_id: null`, which no product has. A
      given id is cast to an ObjectId, in any hex case. */
  function UpdateProductImages(products: map<ProductId, Product>, id: Option<ProductId>, fileNames: seq<string>)
    : (r: ImagesReply)
    ensures r == ImagesFailed <==> id.Some? && !Validation.HexObjectId(id.value)
    ensures r == ImagesProductNotFound <==>
      id.None? || (Validation.HexObjectId(id.value) && CartRules.ProductKey(id.value) !in products)
    ensures id.Some? && Validation.HexObjectId(id.value) && CartRules.ProductKey(id.value) in products ==>
      var current := |products[CartRules.ProductKey(id.value)].images|;
      (r.TooManyImages? <==> current + |fileNames| > MaxImages)
      && (r.TooManyImages? ==> r.current == current && r.maxAllowed == MaxImages as int - current)
      && (r.ImagesAccepted? ==> r.images.None?)
  {
    match id
    case None => ImagesProductNotFound
    case Some(given) =>
      if !Validation.HexObjectId(given) then ImagesFailed
      else if CartRules.ProductKey(given) !in products then ImagesProductNotFound
      else
        var current := |products[CartRules.ProductKey(given)].images|;
        var newImages := Uploaded(fileNames);
        if current + |newImages| > MaxImages then TooManyImages(current, MaxImages as int - current)
        else ImagesAccepted(None)
  }

  /** Finding: the route `PATCH /images` declares no `:id`, so every request is
      answered 404, whatever the store and the files. */
  lemma ImagesRouteNeverFinds(products: map<ProductId, Product>, fileNames: seq<string>)
    ensures UpdateProductImages(products, None, fileNames) == ImagesProductNotFound
  {
  }

  /** With the product's id in the path, as intended, a stored product is found
      and its images are counted. */
  lemma ImagesCountedWithId(products: map<ProductId, Product>, id: ProductId, fileNames: seq<string>)
    requires Validation.HexObjectId(id) && CartRules.ProductKey(id) in products
    ensures var r := UpdateProductImages(products, Some(id), fileNames);
      (r.TooManyImages? || r.ImagesAccepted?)
      && (r.ImagesAccepted? <==> |products[CartRules.ProductKey(id)].images| + |fileNames| <= MaxImages)
  {
  }

  // ---------------------------------------------------------------------------
  // deactivateProduct (SellerProductController.js:201-227)
  // ---------------------------------------------------------------------------

  datatype DeactivateReply =
    | Deactivated         // 200
    | DeactivateNotFound  // 404
    | DeactivateFailed    // 500 "Deactivation failed": the id does not cast

  /** `findOneAndUpdate({ _id: id, seller }, { isActive: false })`, with the id
      cast to an ObjectId in any hex case. */
  function DeactivateProduct(products: map<ProductId, Product>, seller: SellerId, id: ProductId)
    : (r: (DeactivateReply, map<ProductId, Product>))
    ensures r.0 == Deactivated <==> SellerOwns(products, seller, id)
    ensures r.0 == DeactivateFailed <==> !Validation.HexObjectId(id)
    ensures r.0 == Deactivated ==>
      var key := CartRules.ProductKey(id);
      r.1 == products[key := products[key].(isActive := false)]
    ensures r.0 != Deactivated ==> r.1 == products
  {
    var key := CartRules.ProductKey(id);
    if !Validation.HexObjectId(id) then (DeactivateFailed, products)
    else if SellerOwns(products, seller, id) then (Deactivated, products[key := products[key].(isActive := false)])
    else (DeactivateNotFound, products)
  }

  /** Deactivating twice leaves the store as deactivating once, and the product
      stays inactive (Store.DeactivatedUnavailable: it can no longer be added to a
      cart or checked out). */
  lemma DeactivateIdempotent(products: map<ProductId, Product>, seller: SellerId, id: ProductId)
    ensures var once := DeactivateProduct(products, seller, id).1;
      DeactivateProduct(once, seller, id).1 == once
    ensures var once := DeactivateProduct(products, seller, id).1;
      DeactivateProduct(products, seller, id).0 == Deactivated ==> !once[CartRules.ProductKey(id)].isActive
  {
  }

  /** Two spellings of one id deactivate the same product. */
  lemma DeactivateIgnoresIdCase(products: map<ProductId, Product>, seller: SellerId, a: ProductId, b: ProductId)
    requires Text.Lower(a) == Text.Lower(b)
    ensures DeactivateProduct(products, seller, a) == DeactivateProduct(products, seller, b)
  {
    CartRules.HexIgnoresCase(a);
    CartRules.HexIgnoresCase(b);
  }
}
