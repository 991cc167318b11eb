/** The per-item loop shared by `createOrder` and `createOrderFromCart`: look
    the product up, check its stock, subtract the quantity and save it. */
module Inventory {
  import opened Results
  import opened JavaInt
  import opened Errors
  import opened ProductEntity
  import opened Store

  /** The product table as the loop left it, and the exception that stopped
      the loop, if any. */
  datatype Reservation = Reservation(products: map<ProductId, Product>, failure: Option<Error>)

  /** Runs the loop without a transaction. Items are taken in request order;
      each one is checked against the stock as the earlier items left it, and
      its quantity is subtracted at once (int arithmetic). The first failing
      item stops the loop with the table as the earlier items made it. */
  function Reserve(products: map<ProductId, Product>, items: seq<Line>): (r: Reservation)
    ensures r.products.Keys == products.Keys
    ensures r.failure.None? ==> Resolves(products, items)
    ensures r.failure.Some? ==> r.failure.value.ProductException? || r.failure.value.OrderException?
    decreases |items|
  {
    if items == [] then Reservation(products, None)
    else
      var item := items[0];
      if item.product !in products then
        Reservation(products, Some(ProductException(ProductNotFound(item.product))))
      else
        var p := products[item.product];
        if p.stock < item.quantity then
          Reservation(products, Some(OrderException(InsufficientStock(p.name, p.stock, item.quantity))))
        else
          Reserve(Take(products, item), items[1..])
  }

  /** The table after one item's quantity is subtracted from its product's stock. */
  function Take(products: map<ProductId, Product>, item: Line): (r: map<ProductId, Product>)
    requires item.product in products
    ensures r.Keys == products.Keys
    ensures forall k :: k in products && k != item.product ==> r[k] == products[k]
    ensures SameButStock(products[item.product], r[item.product])
    ensures r[item.product].stock == Sub(products[item.product].stock, item.quantity)
  {
    var p := products[item.product];
    products[item.product := p.(stock := Sub(p.stock, item.quantity))]
  }

  /** Σ quantity over the items that name product `k`. */
  function Requested(items: seq<Line>, k: ProductId): int {
    if items == [] then 0
    else (if items[0].product == k then items[0].quantity else 0) + Requested(items[1..], k)
  }

  predicate NonNegative(items: seq<Line>) {
    forall i :: 0 <= i < |items| ==> items[i].quantity >= 0
  }

  /** Every item names a product, and for every product named, the total
      requested of it does not exceed its stock. */
  predicate Available(products: map<ProductId, Product>, items: seq<Line>) {
    forall i :: 0 <= i < |items| ==>
      items[i].product in products && Requested(items, items[i].product) <= products[items[i].product].stock
  }

  predicate Mentions(items: seq<Line>, k: ProductId) {
    exists i :: 0 <= i < |items| && items[i].product == k
  }

  // ----- facts about Requested -----

  lemma {:induction false} RequestedUnmentioned(items: seq<Line>, k: ProductId)
    requires !Mentions(items, k)
    ensures Requested(items, k) == 0
  {
    if items != [] {
      RequestedUnmentioned(items[1..], k);
    }
  }

  lemma {:induction false} RequestedNonNegative(items: seq<Line>, k: ProductId)
    requires NonNegative(items)
    ensures Requested(items, k) >= 0
  {
    if items != [] {
      assert NonNegative(items[1..]) by {
        forall i | 0 <= i < |items[1..]| ensures items[1..][i].quantity >= 0 {
          assert items[1..][i] == items[i + 1];
        }
      }
      RequestedNonNegative(items[1..], k);
    }
  }

  // ----- properties of the loop -----

  /** The loop changes no field of any product other than its stock. */
  lemma {:induction false} ReserveOnlyStock(products: map<ProductId, Product>, items: seq<Line>, k: ProductId)
    requires k in products
    ensures SameButStock(products[k], Reserve(products, items).products[k])
  {
    if items != [] && items[0].product in products && products[items[0].product].stock >= items[0].quantity {
      ReserveOnlyStock(Take(products, items[0]), items[1..], k);
    }
  }

  /** After a successful loop, each product's stock is its old stock minus the
      total quantity requested of it, in int arithmetic. Duplicates are not
      merged, but their effects add up. */
  lemma ReserveAccounts(products: map<ProductId, Product>, items: seq<Line>)
    requires Reserve(products, items).failure.None?
    ensures forall k :: k in products ==>
      Reserve(products, items).products[k] == products[k].(stock := Wrap(products[k].stock - Requested(items, k)))
  {
    forall k | k in products
      ensures Reserve(products, items).products[k] == products[k].(stock := Wrap(products[k].stock - Requested(items, k)))
    {
      ReserveAccountsFor(products, items, k);
    }
  }

  /** `ReserveAccounts` for one product. */
  lemma ReserveAccountsFor(products: map<ProductId, Product>, items: seq<Line>, k: ProductId)
    requires k in products
    requires Reserve(products, items).failure.None?
    ensures Reserve(products, items).products[k] == products[k].(stock := Wrap(products[k].stock - Requested(items, k)))
  {
    var m := ReserveAccountsAt(products, items, k);
    ReserveOnlyStock(products, items, k);
    AccountsFromParts(products, items, k, m);
  }

  /** The two halves of `ReserveAccountsFor` put together. */
  lemma AccountsFromParts(products: map<ProductId, Product>, items: seq<Line>, k: ProductId, m: int)
    requires k in products
    requires SameButStock(products[k], Reserve(products, items).products[k])
    requires products[k].stock - Requested(items, k) == Reserve(products, items).products[k].stock + MODULUS * m
    ensures Reserve(products, items).products[k] == products[k].(stock := Wrap(products[k].stock - Requested(items, k)))
  {
    StockDiffersBy(products[k], Reserve(products, items).products[k], products[k].stock - Requested(items, k), m);
  }

  /** A product that differs from `p` only in a stock that differs from `x`
      by a multiple of 2^32 is `p` with stock `Wrap(x)`. */
  lemma StockDiffersBy(p: Product, q: Product, x: int, m: int)
    requires SameButStock(p, q)
    requires x == q.stock + MODULUS * m
    ensures q == p.(stock := Wrap(x))
  {
    WrapUnique(x, q.stock, m);
  }

  /** Per product, the stock a successful loop leaves differs from the old
      stock minus the total requested by a multiple `m` of 2^32. */
  lemma {:induction false} ReserveAccountsAt(products: map<ProductId, Product>, items: seq<Line>, k: ProductId) returns (m: int)
    requires k in products
    requires Reserve(products, items).failure.None?
    ensures products[k].stock - Requested(items, k) == Reserve(products, items).products[k].stock + MODULUS * m
  {
    if items == [] {
      m := 0;
    } else {
      var item := items[0];
      var next := Take(products, item);
      var m2 := ReserveAccountsAt(next, items[1..], k);
      assert Reserve(products, items) == Reserve(next, items[1..]);
      if k == item.product {
        var m1 := WrapQuotient(products[k].stock - item.quantity);
        assert next[k].stock == Wrap(products[k].stock - item.quantity);
        m := m1 + m2;
      } else {
        assert next[k] == products[k];
        m := m2;
      }
    }
  }

  /** With non-negative quantities, the loop succeeds exactly when every item
      names a product and, per product, the total requested is within the
      stock the product had before the call. */
  lemma {:induction false} ReserveSucceedsIff(products: map<ProductId, Product>, items: seq<Line>)
    requires NonNegative(items)
    ensures Reserve(products, items).failure.None? <==> Available(products, items)
  {
    if items != [] {
      var item := items[0];
      var rest := items[1..];
      assert NonNegative(rest) by {
        forall i | 0 <= i < |rest| ensures rest[i].quantity >= 0 {
          assert rest[i] == items[i + 1];
        }
      }
      RequestedNonNegative(rest, item.product);
      if item.product in products {
        var p := products[item.product];
        if p.stock >= item.quantity {
          var next := Take(products, item);
          assert next[item.product].stock == p.stock - item.quantity;
          ReserveSucceedsIff(next, rest);
          AvailableStep(products, items, next);
        } else {
          assert !Available(products, items) by {
            assert Requested(items, item.product) >= item.quantity;
          }
        }
      } else {
        assert !Available(products, items);
      }
    }
  }

  /** A loop that stops does so at a first failing item `i`: the items before
      it all went through, leaving table `t`, which is the table the loop
      ends with; item `i` names a product `t` lacks, reported with its id, or
      asks for more than the stock `t` holds, reported with the product's
      name, that stock and the quantity asked for. */
  lemma {:induction false} ReserveFailsAt(products: map<ProductId, Product>, items: seq<Line>) returns (i: nat)
    requires Reserve(products, items).failure.Some?
    ensures i < |items|
    ensures Reserve(products, items[..i]).failure.None?
    ensures var t := Reserve(products, items[..i]).products;
      var k := items[i].product;
      && Reserve(products, items).products == t
      && (k !in t ==> Reserve(products, items).failure == Some(ProductException(ProductNotFound(k))))
      && (k in t ==>
            && t[k].stock < items[i].quantity
            && Reserve(products, items).failure == Some(OrderException(InsufficientStock(t[k].name, t[k].stock, items[i].quantity))))
  {
    var item := items[0];
    if item.product !in products || products[item.product].stock < item.quantity {
      i := 0;
      assert items[..0] == [];
    } else {
      var next := Take(products, item);
      var j := ReserveFailsAt(next, items[1..]);
      i := j + 1;
      assert items[..i][0] == item;
      assert items[..i][1..] == items[1..][..j];
      assert Reserve(products, items[..i]) == Reserve(next, items[1..][..j]);
    }
  }

  /** One step of `ReserveSucceedsIff`: after the first item is taken off the
      stock, availability of the rest is availability of the whole. */
  lemma AvailableStep(products: map<ProductId, Product>, items: seq<Line>, next: map<ProductId, Product>)
    requires items != [] && NonNegative(items)
    requires items[0].product in products
    requires products[items[0].product].stock >= items[0].quantity
    requires next == products[items[0].product := products[items[0].product].(stock := products[items[0].product].stock - items[0].quantity)]
    ensures Available(next, items[1..]) <==> Available(products, items)
  {
    var item := items[0];
    var rest := items[1..];
    assert forall k :: Requested(items, k) == (if item.product == k then item.quantity else 0) + Requested(rest, k);
    if Available(next, rest) {
      forall i | 0 <= i < |items|
        ensures items[i].product in products && Requested(items, items[i].product) <= products[items[i].product].stock
      {
        if i > 0 {
          assert items[i] == rest[i - 1];
        } else if Mentions(rest, item.product) {
          var j :| 0 <= j < |rest| && rest[j].product == item.product;
        } else {
          RequestedUnmentioned(rest, item.product);
        }
      }
    }
    if Available(products, items) {
      forall j | 0 <= j < |rest|
        ensures rest[j].product in next && Requested(rest, rest[j].product) <= next[rest[j].product].stock
      {
        assert rest[j] == items[j + 1];
      }
    }
  }

  /** Running the loop over `a + b` is running it over `a` and, if that got
      through, continuing over `b` from the table `a` left: items are handled
      strictly in request order. */
  lemma {:induction false} ReserveAppend(products: map<ProductId, Product>, a: seq<Line>, b: seq<Line>)
    ensures Reserve(products, a + b) ==
      (var first := Reserve(products, a);
       if first.failure.Some? then first else Reserve(first.products, b))
  {
    if a == [] {
      assert a + b == b;
    } else {
      assert (a + b)[0] == a[0];
      assert (a + b)[1..] == a[1..] + b;
      var item := a[0];
      if item.product in products && products[item.product].stock >= item.quantity {
        ReserveAppend(Take(products, item), a[1..], b);
      }
    }
  }

  /** With non-negative quantities a successful loop leaves every product it
      touched at its old stock minus the total requested, which is never
      negative, and every other product as it was. */
  lemma ReserveKeepsStockNonNegative(products: map<ProductId, Product>, items: seq<Line>)
    requires NonNegative(items)
    requires Reserve(products, items).failure.None?
    ensures forall k :: k in products && Mentions(items, k) ==>
      Reserve(products, items).products[k].stock == products[k].stock - Requested(items, k) >= 0
    ensures forall k :: k in products && !Mentions(items, k) ==> Reserve(products, items).products[k] == products[k]
  {
    ReserveAccounts(products, items);
    ReserveSucceedsIff(products, items);
    var r := Reserve(products, items);
    forall k | k in products && Mentions(items, k)
      ensures r.products[k].stock == products[k].stock - Requested(items, k) >= 0
    {
      var i :| 0 <= i < |items| && items[i].product == k;
      RequestedNonNegative(items, k);
    }
    forall k | k in products && !Mentions(items, k)
      ensures r.products[k] == products[k]
    {
      RequestedUnmentioned(items, k);
      assert products[k].(stock := products[k].stock) == products[k];
    }
  }

  /** A product named twice is checked the second time against the stock the
      first occurrence left. */
  lemma DuplicateSeesReducedStock(products: map<ProductId, Product>, k: ProductId, a: Int32, b: Int32)
    ensures Reserve(products, [Line(k, a), Line(k, b)]).failure.None? <==>
      k in products && products[k].stock >= a && Sub(products[k].stock, a) >= b
  {
    var items := [Line(k, a), Line(k, b)];
    assert items[1..] == [Line(k, b)];
    if k in products && products[k].stock >= a {
      var next := Take(products, Line(k, a));
      assert items[1..][1..] == [];
      assert Reserve(products, items) == Reserve(next, [Line(k, b)]);
    }
  }

  /** Because each occurrence is checked separately, a request can fail even
      though its total for the product is within stock once a negative
      quantity follows a positive one. */
  lemma SequentialCheckIsNotTotalCheck()
    ensures var products := map[1 := Product(1, "p", 100, 0, "c")];
      var items := [Line(1, 5), Line(1, -5)];
      Requested(items, 1) <= products[1].stock && Reserve(products, items).failure.Some?
  {
    var items := [Line(1, 5), Line(1, -5)];
    assert Requested(items[1..], 1) == -5 by {
      assert items[1..][1..] == [];
    }
  }

  /** A negative quantity passes the stock check and raises the stock. */
  lemma NegativeQuantityRaisesStock(products: map<ProductId, Product>, k: ProductId, q: Int32)
    requires k in products && q < 0
    requires q <= products[k].stock && products[k].stock - q <= MAX_VALUE
    ensures Reserve(products, [Line(k, q)]).failure.None?
    ensures Reserve(products, [Line(k, q)]).products[k].stock == products[k].stock - q > products[k].stock
  {
    assert [Line(k, q)][1..] == [];
  }

  /** The loop's check-and-subtract on one item is `Product.reduceStock`,
      reporting its failure as an order exception rather than an illegal argument. */
  lemma ReserveStepIsReduceStock(products: map<ProductId, Product>, k: ProductId, q: Int32)
    requires k in products
    ensures Reserve(products, [Line(k, q)]).failure.None? <==> ReduceStock(products[k], q).Success?
    ensures ReduceStock(products[k], q).Success? ==>
      Reserve(products, [Line(k, q)]).products == products[k := ReduceStock(products[k], q).value]
  {
    assert [Line(k, q)][1..] == [];
  }
}
