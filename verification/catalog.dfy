/** `ProductService`: the catalogue's create, partial update, delete and
    lookups, and the product view every one of them returns. */
module Catalog {
  import opened Results
  import opened JavaInt
  import opened Errors
  import opened ProductEntity
  import opened Store
  import opened Queries

  datatype CreateRequest = CreateRequest(name: string, price: int, stock: Int32, category: string)

  /** A partial update: `None` is a null field, which keeps the stored value. */
  datatype UpdateRequest = UpdateRequest(name: Option<string>, price: Option<int>, stock: Option<Int32>, category: Option<string>)

  datatype ProductResponse = ProductResponse(id: ProductId, name: string, price: int, stock: Int32, category: string)

  /** `convertToResponse`: every field of the product, nothing else. */
  function ToResponse(p: Product): (r: ProductResponse)
    ensures FromResponse(r) == p
  {
    ProductResponse(p.id, p.name, p.price, p.stock, p.category)
  }

  /** The product a response describes. */
  function FromResponse(r: ProductResponse): Product {
    Product(r.id, r.name, r.price, r.stock, r.category)
  }

  /** Lifts `f` over a result, keeping the failure. */
  function MapResult<A, B>(r: Result<A, Error>, f: A -> B): Result<B, Error> {
    if r.Success? then Success(f(r.value)) else Failure(r.error)
  }

  // ----- lookups -----

  /** `getProductEntityById`: the stored row, or "Product not found". */
  function GetProductEntityById(s: Store, id: ProductId): (r: Result<Product, Error>)
    ensures r.Success? <==> id in s.products
    ensures r.Failure? ==> r.error == ProductException(ProductNotFound(id))
    ensures r.Success? ==> r.value in FindAll(s.products) && r.value == s.products[id]
  {
    if id in s.products then Success(s.products[id]) else Failure(ProductException(ProductNotFound(id)))
  }

  /** `getProductById`: the response view of the stored row, or "Product not found". */
  function GetProductById(s: Store, id: ProductId): (r: Result<ProductResponse, Error>)
    ensures r.Success? <==> id in s.products
    ensures r.Failure? ==> r.error == ProductException(ProductNotFound(id))
    ensures r.Success? ==> FromResponse(r.value) == s.products[id]
  {
    if id in s.products then Success(ToResponse(s.products[id]))
    else Failure(ProductException(ProductNotFound(id)))
  }

  /** `getAllProducts`: the view of every row. */
  function GetAllProducts(s: Store): (r: set<ProductResponse>)
    ensures forall v :: v in r <==> FromResponse(v) in FindAll(s.products)
  {
    set p | p in FindAll(s.products) :: ToResponse(p)
  }

  /** `getProductsByCategory`: the view of the rows whose category matches
      ignoring case. */
  function GetProductsByCategory(s: Store, category: string): (r: set<ProductResponse>)
    ensures forall v :: v in r <==> FromResponse(v) in FindAll(s.products) && Upper(v.category) == Upper(category)
  {
    var r := set p | p in FindByCategoryIgnoreCase(s.products, category) :: ToResponse(p);
    assert forall v :: FromResponse(v) in FindByCategoryIgnoreCase(s.products, category) ==> ToResponse(FromResponse(v)) in r;
    r
  }

  /** `getAllCategories`. */
  method GetAllCategories(s: Store) returns (r: seq<string>)
    ensures StrictlySorted(r)
    ensures forall c :: c in r <==> c in Categories(s.products)
  {
    r := FindAllCategories(s.products);
  }

  // ----- writes -----

  /** `createProduct`: fails when the name is taken; otherwise saves a row with
      the request's fields under the next identity. */
  function CreateProduct(s: Store, request: CreateRequest): (r: Step<ProductResponse>)
    ensures ExistsByName(s.products, request.name) ==>
      r == Step(s, Failure(ProductException(NameTaken(request.name))))
    ensures !ExistsByName(s.products, request.name) ==>
      var id := s.nextProductId;
      && r.result.Success?
      && r.result.value.id == id
      && r.store.products.Keys == s.products.Keys + {id}
      && r.store.products[id] == FromResponse(r.result.value)
      && (r.store.products[id].name, r.store.products[id].price, r.store.products[id].stock, r.store.products[id].category)
         == (request.name, request.price, request.stock, request.category)
      && (forall k :: k in s.products && k != id ==> r.store.products[k] == s.products[k])
      && r.store.(products := s.products, nextProductId := s.nextProductId) == s
      && r.store.nextProductId > id
  {
    if ExistsByName(s.products, request.name) then
      Step(s, Failure(ProductException(NameTaken(request.name))))
    else
      var id := s.nextProductId;
      var p := Saved(Built(request), s.products.Keys, id).value;
      Step(s.(products := s.products[id := p], nextProductId := id + 1), Success(ToResponse(p)))
  }

  /** `new Product()` with the request's name, price, stock and category set;
      the id is left to the identity column. */
  function Built(request: CreateRequest): (o: ProductObject)
    ensures o.id.None? && o.name.Some? && o.price.Some? && o.stock.Some? && o.category.Some?
  {
    NewProductObject().(name := Some(request.name), price := Some(request.price),
                        stock := Some(request.stock), category := Some(request.category))
  }

  /** The product with the request's non-null fields written over it. */
  function Patch(p: Product, request: UpdateRequest): (q: Product)
    ensures q.id == p.id
    ensures q.name == (if request.name.Some? then request.name.value else p.name)
    ensures q.price == (if request.price.Some? then request.price.value else p.price)
    ensures q.stock == (if request.stock.Some? then request.stock.value else p.stock)
    ensures q.category == (if request.category.Some? then request.category.value else p.category)
  {
    p.(name := request.name.GetOr(p.name),
       price := request.price.GetOr(p.price),
       stock := request.stock.GetOr(p.stock),
       category := request.category.GetOr(p.category))
  }

  /** The rename conflict `updateProduct` checks: a new name, different from
      the product's own, that some row already has. */
  predicate RenameConflict(products: map<ProductId, Product>, p: Product, request: UpdateRequest) {
    request.name.Some? && p.name != request.name.value && ExistsByName(products, request.name.value)
  }

  /** `updateProduct`: fails on an unknown id, then on a rename conflict
      (before any field is set); otherwise overwrites exactly the non-null
      fields. Stock is stored as given, with no bound check. */
  function UpdateProduct(s: Store, id: ProductId, request: UpdateRequest): (r: Step<ProductResponse>)
    ensures r.result.Failure? ==> r.store == s
    ensures id !in s.products ==> r.result == Failure(ProductException(ProductNotFound(id)))
    ensures id in s.products ==>
      (r.result.Success? <==> !RenameConflict(s.products, s.products[id], request))
    ensures id in s.products && RenameConflict(s.products, s.products[id], request) ==>
      r.result == Failure(ProductException(NameTaken(request.name.value)))
    ensures r.result.Success? ==>
      && id in s.products
      && r.store == s.(products := s.products[id := Patch(s.products[id], request)])
      && r.result.value == ToResponse(r.store.products[id])
  {
    if id !in s.products then Step(s, Failure(ProductException(ProductNotFound(id))))
    else
      var p := s.products[id];
      if RenameConflict(s.products, p, request) then
        Step(s, Failure(ProductException(NameTaken(request.name.value))))
      else
        var q := Patch(p, request);
        Step(s.(products := s.products[id := q]), Success(ToResponse(q)))
  }

  /** Some cart line or order line still names the product. */
  predicate Referenced(s: Store, id: ProductId) {
    (exists l :: l in s.cart && l.product == id)
    || exists o :: o in s.orders && exists i :: 0 <= i < |o.lines| && o.lines[i].product == id
  }

  /** `deleteProduct`: fails on an unknown id; a product that cart or order
      lines still reference is refused by the database's foreign keys;
      otherwise exactly that row goes. */
  function DeleteProduct(s: Store, id: ProductId): (r: Step<()>)
    ensures r.result.Failure? ==> r.store == s
    ensures id !in s.products ==> r.result == Failure(ProductException(ProductNotFound(id)))
    ensures id in s.products && Referenced(s, id) ==> r.result == Failure(ForeignKeyViolation(id))
    ensures r.result.Success? <==> id in s.products && !Referenced(s, id)
    ensures r.result.Success? ==>
      && r.store.products.Keys == s.products.Keys - {id}
      && (forall k :: k in r.store.products ==> r.store.products[k] == s.products[k])
      && r.store.(products := s.products) == s
  {
    if id !in s.products then Step(s, Failure(ProductException(ProductNotFound(id))))
    else if Referenced(s, id) then Step(s, Failure(ForeignKeyViolation(id)))
    else Step(s.(products := s.products - {id}), Success(()))
  }

  // ----- properties -----

  /** The two lookups agree: the response lookup is the entity lookup, viewed. */
  lemma LookupsAgree(s: Store, id: ProductId)
    ensures GetProductById(s, id) == MapResult(GetProductEntityById(s, id), ToResponse)
    ensures GetProductById(s, id).Success? ==> GetProductById(s, id).value == ToResponse(GetProductEntityById(s, id).value)
  {
  }

  /** Renaming a product to its own current name is not a conflict. */
  lemma RenameToOwnNameAllowed(s: Store, id: ProductId, request: UpdateRequest)
    requires id in s.products && request.name == Some(s.products[id].name)
    ensures UpdateProduct(s, id, request).result.Success?
  {
  }

  /** Renaming to a name another product holds fails and leaves the store as it was. */
  lemma RenameToTakenNameRefused(s: Store, id: ProductId, other: ProductId, request: UpdateRequest)
    requires id in s.products && other in s.products
    requires request.name == Some(s.products[other].name) && s.products[other].name != s.products[id].name
    ensures UpdateProduct(s, id, request) == Step(s, Failure(ProductException(NameTaken(s.products[other].name))))
  {
    assert ExistsByName(s.products, s.products[other].name);
  }

  /** Any stock value, negative ones included, is stored as given. */
  lemma UpdateStoresAnyStock(s: Store, id: ProductId, stock: Int32)
    requires id in s.products
    ensures var r := UpdateProduct(s, id, UpdateRequest(None, None, Some(stock), None));
      && r.result.Success?
      && r.store.products[id] == s.products[id].(stock := stock)
      && (IsInStock(r.store.products[id]) <==> stock > 0)
  {
  }

  /** An all-null update changes nothing and returns the current product. */
  lemma EmptyUpdateIsIdentity(s: Store, id: ProductId)
    requires id in s.products
    ensures UpdateProduct(s, id, UpdateRequest(None, None, None, None)) == Step(s, Success(ToResponse(s.products[id])))
  {
    assert s.products[id := s.products[id]] == s.products;
  }

  /** Repeating a successful update changes nothing further. */
  lemma UpdateIdempotent(s: Store, id: ProductId, request: UpdateRequest)
    requires UpdateProduct(s, id, request).result.Success?
    ensures var once := UpdateProduct(s, id, request);
      UpdateProduct(once.store, id, request) == once
  {
    var once := UpdateProduct(s, id, request);
    var q := once.store.products[id];
    assert q == Patch(s.products[id], request);
    assert Patch(q, request) == q;
    assert !RenameConflict(once.store.products, q, request);
    assert once.store.products[id := Patch(q, request)] == once.store.products;
  }

  /** Deleting the product just created gives back the catalogue as it was;
      only the identity counter has moved on. */
  lemma DeleteUndoesCreate(s: Store, request: CreateRequest)
    requires WellFormed(s)
    requires !ExistsByName(s.products, request.name)
    ensures var created := CreateProduct(s, request);
      var deleted := DeleteProduct(created.store, created.result.value.id);
      && deleted.result.Success?
      && deleted.store == s.(nextProductId := s.nextProductId + 1)
  {
    var created := CreateProduct(s, request);
    var id := s.nextProductId;
    assert id !in s.products;
    forall o, i | o in s.orders && 0 <= i < |o.lines| ensures o.lines[i].product != id {
      assert Resolves(s.products, o.lines);
    }
    assert !Referenced(created.store, id);
    assert created.store.products - {id} == s.products;
  }

  /** `createProduct` keeps the store well formed; in particular names stay unique. */
  lemma CreateProductPreservesWellFormed(s: Store, request: CreateRequest)
    requires WellFormed(s)
    ensures WellFormed(CreateProduct(s, request).store)
  {
    var t := CreateProduct(s, request).store;
    if !ExistsByName(s.products, request.name) {
      forall o | o in t.orders ensures Resolves(t.products, o.lines) {
        assert Resolves(s.products, o.lines);
      }
    }
  }

  /** `updateProduct` keeps the store well formed: a rename never produces a
      second row with the same name, and the key set does not change. */
  lemma UpdateProductPreservesWellFormed(s: Store, id: ProductId, request: UpdateRequest)
    requires WellFormed(s)
    ensures WellFormed(UpdateProduct(s, id, request).store)
  {
    var r := UpdateProduct(s, id, request);
    if r.result.Success? {
      var t := r.store;
      forall o | o in t.orders ensures Resolves(t.products, o.lines) {
        ResolvesSameKeys(s.products, t.products, o.lines);
      }
    }
  }

  /** `deleteProduct` keeps the store well formed: nothing left refers to the removed row. */
  lemma DeleteProductPreservesWellFormed(s: Store, id: ProductId)
    requires WellFormed(s)
    ensures WellFormed(DeleteProduct(s, id).store)
  {
    var r := DeleteProduct(s, id);
    if r.result.Success? {
      var t := r.store;
      forall o | o in t.orders ensures Resolves(t.products, o.lines) {
        forall i | 0 <= i < |o.lines| ensures o.lines[i].product in t.products {
          assert Resolves(s.products, o.lines);
        }
      }
    }
  }
}
