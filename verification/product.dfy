/** The `Product` entity and its stock primitives. */
module ProductEntity {
  import opened Results
  import opened JavaInt
  import opened Errors

  type ProductId = int

  /** A catalogue row. `price` is an exact decimal in minor units; `stock` is a
      Java `Integer` that the schema declares non-null. */
  datatype Product = Product(id: ProductId, name: string, price: int, stock: Int32, category: string)

  /** `b` is `a` with at most its stock changed. */
  predicate SameButStock(a: Product, b: Product) {
    a.(stock := b.stock) == b
  }

  predicate IsInStock(p: Product) {
    p.stock > 0
  }

  predicate HasStock(p: Product, quantity: Int32) {
    p.stock >= quantity
  }

  /** Lowers the stock by `quantity` when that much is available, else throws
      `IllegalArgumentException` and leaves the product as it was. */
  function ReduceStock(p: Product, quantity: Int32): (r: Result<Product, Error>)
    ensures r.Success? <==> HasStock(p, quantity)
    ensures r.Failure? ==> r.error == IllegalArgument(StockShortfall(Some(p.stock), quantity))
    ensures r.Success? ==> SameButStock(p, r.value) && r.value.stock == Sub(p.stock, quantity)
    ensures r.Success? && quantity >= 0 ==> r.value.stock == p.stock - quantity >= 0
  {
    if HasStock(p, quantity) then Success(p.(stock := Sub(p.stock, quantity)))
    else Failure(IllegalArgument(StockShortfall(Some(p.stock), quantity)))
  }

  /** Adds a positive `quantity` to the stock (with int wrap-around); any other quantity is ignored. */
  function IncreaseStock(p: Product, quantity: Int32): (r: Product)
    ensures SameButStock(p, r)
    ensures quantity <= 0 ==> r == p
    ensures quantity > 0 && p.stock + quantity <= MAX_VALUE ==> r.stock == p.stock + quantity > p.stock
    ensures quantity > 0 && p.stock + quantity > MAX_VALUE ==> r.stock == p.stock + quantity - MODULUS < p.stock
  {
    if quantity > 0 then p.(stock := Add(p.stock, quantity)) else p
  }

  // ----- the Java object before it is saved -----

  /** A `Product` object as Java holds it: every field may still be null
      (`None`); the schema only rejects a null on save. */
  datatype ProductObject = ProductObject(
    id: Option<ProductId>,
    name: Option<string>,
    price: Option<int>,
    stock: Option<Int32>,
    category: Option<string>)

  /** `new Product()`: no field set, except `stock`, whose initialiser is 0. */
  function NewProductObject(): (o: ProductObject) {
    ProductObject(None, None, None, Some(0), None)
  }

  /** `isInStock` on an object: false for a null stock. */
  function ObjectInStock(o: ProductObject): (r: bool)
    ensures r <==> ObjectHasStock(o, 1)
  {
    o.stock.Some? && o.stock.value > 0
  }

  /** `hasStock(quantity)` on an object: false for a null stock. */
  function ObjectHasStock(o: ProductObject, quantity: Int32): (r: bool)
    ensures o.stock.None? ==> !r
  {
    o.stock.Some? && o.stock.value >= quantity
  }

  /** `reduceStock(quantity)` on an object: unless `hasStock(quantity)`, an
      `IllegalArgumentException` reporting the stock, which may be null. */
  function ObjectReduceStock(o: ProductObject, quantity: Int32): (r: Result<ProductObject, Error>)
    ensures r.Success? <==> ObjectHasStock(o, quantity)
    ensures r.Failure? ==> r.error == IllegalArgument(StockShortfall(o.stock, quantity))
    ensures r.Success? ==> r.value.stock.Some? && r.value.(stock := o.stock) == o
  {
    if ObjectHasStock(o, quantity) then Success(o.(stock := Some(Sub(o.stock.value, quantity))))
    else Failure(IllegalArgument(StockShortfall(o.stock, quantity)))
  }

  /** `increaseStock(quantity)` on an object: a positive quantity unboxes the
      stock, which throws on a null stock. */
  function ObjectIncreaseStock(o: ProductObject, quantity: Int32): (r: Result<ProductObject, Error>)
    ensures r.Failure? <==> quantity > 0 && o.stock.None?
    ensures r.Failure? ==> r.error == NullPointer
    ensures quantity <= 0 ==> r == Success(o)
    ensures r.Success? ==> r.value.(stock := o.stock) == o
  {
    if quantity > 0 then
      if o.stock.None? then Failure(NullPointer) else Success(o.(stock := Some(Add(o.stock.value, quantity))))
    else Success(o)
  }

  /** The object a saved row loads as: every field set. */
  function Loaded(p: Product): ProductObject {
    ProductObject(Some(p.id), Some(p.name), Some(p.price), Some(p.stock), Some(p.category))
  }

  /** The row `save` writes for an object, given the ids already in the
      table. A null id inserts under `nextId`, the identity the column
      generates; a set id merges into that existing row, and a set id with no
      row is refused. A null name, price, stock or category is refused by the
      non-null columns. */
  function Saved(o: ProductObject, rows: set<ProductId>, nextId: ProductId): (r: Option<Product>)
    ensures r.Some? <==>
      && o.name.Some? && o.price.Some? && o.stock.Some? && o.category.Some?
      && (o.id.Some? ==> o.id.value in rows)
    ensures r.Some? ==> Loaded(r.value) == o.(id := Some(r.value.id))
    ensures r.Some? && o.id.None? ==> r.value.id == nextId
    ensures r.Some? && o.id.Some? ==> r.value.id == o.id.value && r.value.id in rows
  {
    if o.id.Some? && o.id.value !in rows then None
    else if o.name.Some? && o.price.Some? && o.stock.Some? && o.category.Some? then
      Some(Product(o.id.GetOr(nextId), o.name.value, o.price.value, o.stock.value, o.category.value))
    else None
  }

  /** Loading a stored row and saving it back writes the same row, whatever
      identity would have been generated. */
  lemma LoadSaveRoundTrip(p: Product, rows: set<ProductId>, nextId: ProductId)
    requires p.id in rows
    ensures Saved(Loaded(p), rows, nextId) == Some(p)
  {
  }

  /** A freshly constructed product is not in stock, has stock for any
      quantity up to 0 and for no positive quantity. */
  lemma NewProductHasNoStock()
    ensures NewProductObject().stock == Some(0)
    ensures !ObjectInStock(NewProductObject())
    ensures forall q: Int32 :: ObjectHasStock(NewProductObject(), q) <==> q <= 0
  {
  }

  /** On a loaded row the object predicates agree with the row's; a null stock
      is never in stock and never has stock. */
  lemma StockPredicatesAgree(p: Product, o: ProductObject, quantity: Int32)
    ensures ObjectInStock(Loaded(p)) <==> IsInStock(p)
    ensures ObjectHasStock(Loaded(p), quantity) <==> HasStock(p, quantity)
    ensures o.stock.None? ==> !ObjectInStock(o) && !ObjectHasStock(o, quantity)
  {
  }

  /** On a loaded row the object's `reduceStock` and `increaseStock` do what
      the row's do; on a null stock the first reports a null stock and the
      second throws for any positive quantity. */
  lemma StockUpdatesAgree(p: Product, o: ProductObject, quantity: Int32)
    ensures ObjectReduceStock(Loaded(p), quantity) ==
      (if ReduceStock(p, quantity).Success? then Success(Loaded(ReduceStock(p, quantity).value))
       else Failure(IllegalArgument(StockShortfall(Some(p.stock), quantity))))
    ensures ObjectIncreaseStock(Loaded(p), quantity) == Success(Loaded(IncreaseStock(p, quantity)))
    ensures o.stock.None? ==> ObjectReduceStock(o, quantity) == Failure(IllegalArgument(StockShortfall(None, quantity)))
    ensures o.stock.None? && quantity > 0 ==> ObjectIncreaseStock(o, quantity) == Failure(NullPointer)
  {
  }

  /** Being in stock is having stock for one unit. */
  lemma InStockIsStockForOne(p: Product)
    ensures IsInStock(p) <==> HasStock(p, 1)
    ensures forall q: Int32 :: q >= 1 && HasStock(p, q) ==> IsInStock(p)
  {
  }

  /** A successful reduction followed by an increase of the same positive
      quantity restores the product exactly, overflow included. */
  lemma ReduceThenIncrease(p: Product, quantity: Int32)
    requires quantity > 0
    requires ReduceStock(p, quantity).Success?
    ensures IncreaseStock(ReduceStock(p, quantity).value, quantity) == p
  {
    WrapAbsorbs(p.stock - quantity, quantity);
  }

  /** On a non-negative stock, an increase by a positive quantity is undone by
      a reduction of the same quantity, which cannot fail when the increase did
      not overflow. */
  lemma IncreaseThenReduce(p: Product, quantity: Int32)
    requires p.stock >= 0
    requires quantity > 0 && p.stock + quantity <= MAX_VALUE
    ensures ReduceStock(IncreaseStock(p, quantity), quantity) == Success(p)
  {
    var raised := IncreaseStock(p, quantity);
    assert raised.stock == p.stock + quantity;
    assert Sub(raised.stock, quantity) == p.stock;
    assert HasStock(raised, quantity);
    assert raised.(stock := p.stock) == p;
  }
}
