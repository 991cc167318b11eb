/** `OrderService`: placing an order from a request or from the cart, listing
    a user's orders, and the response views with their totals. */
module Orders {
  import opened Results
  import opened JavaInt
  import opened Errors
  import opened ProductEntity
  import opened Store
  import opened Totals
  import opened Inventory
  import Cart
  import Catalog

  datatype OrderItemResponse = OrderItemResponse(
    productId: ProductId,
    productName: string,
    productPrice: int,
    productCategory: string,
    quantity: Int32,
    totalPrice: int)

  datatype OrderResponse = OrderResponse(
    id: int,
    userId: UserId,
    createdAt: int,
    items: seq<OrderItemResponse>,
    totalAmount: int,
    totalItems: Int32)

  // ----- views -----

  /** `convertToOrderItemResponse`: the line's product as the table holds it
      now (nothing is snapshotted at purchase time) and price × quantity. */
  function ConvertItem(products: map<ProductId, Product>, line: Line): (r: OrderItemResponse)
    requires line.product in products
    ensures r.quantity == line.quantity
    ensures r.totalPrice == r.productPrice * r.quantity
    ensures Product(r.productId, r.productName, r.productPrice, products[line.product].stock, r.productCategory) == products[line.product]
  {
    var p := products[line.product];
    OrderItemResponse(p.id, p.name, p.price, p.category, line.quantity, p.price * line.quantity)
  }

  /** `convertToOrderResponse`: one item per line in line order; the amount is
      the exact Σ price × quantity and the item count Σ quantity in int arithmetic. */
  function ConvertOrder(products: map<ProductId, Product>, o: Order): (r: OrderResponse)
    requires Resolves(products, o.lines)
    ensures r.id == o.id && r.userId == o.user && r.createdAt == o.createdAt
    ensures |r.items| == |o.lines|
    ensures forall i :: 0 <= i < |o.lines| ==> r.items[i] == ConvertItem(products, o.lines[i])
    ensures r.totalAmount == LinesAmount(products, o.lines)
    ensures r.totalItems == Wrap(Quantity(o.lines))
    ensures MIN_VALUE <= Quantity(o.lines) <= MAX_VALUE ==> r.totalItems == Quantity(o.lines)
  {
    var items := seq(|o.lines|, i requires 0 <= i < |o.lines| => ConvertItem(products, o.lines[i]));
    var prices := seq(|items|, i requires 0 <= i < |items| => items[i].totalPrice);
    var counts := seq(|items|, i requires 0 <= i < |items| => items[i].quantity);
    assert prices == LineTotals(products, o.lines);
    assert counts == LineQuantities(o.lines);
    LineTotalsSum(products, o.lines);
    LineQuantitiesSum(o.lines);
    OrderResponse(o.id, o.user, o.createdAt, items, Amount(prices), Count(counts))
  }

  // ----- placement -----

  /** The state `createOrder` leaves for `user` after a successful call: the
      stock of each product lowered by the total requested of it, a new
      newest order holding the items as given, and the user's cart emptied.
      Nothing else changes. */
  predicate Placed(s: Store, t: Store, user: UserId, items: seq<Line>, now: int) {
    && t.users == s.users
    && t.products.Keys == s.products.Keys
    && (forall k :: k in s.products ==>
          t.products[k] == s.products[k].(stock := Wrap(s.products[k].stock - Requested(items, k))))
    && t.orders == [Order(s.nextOrderId, user, now, items)] + s.orders
    && t.cart == ClearCart(s.cart, user)
    && t.nextOrderId == s.nextOrderId + 1
    && t.nextProductId == s.nextProductId
    && t.nextCartLineId == s.nextCartLineId
  }

  /** The shared body of `createOrder` and `createOrderFromCart` for a known
      user, WITHOUT the transaction: the order header is saved first, then each
      item's stock write happens as the loop reaches it, so an exception leaves
      the header and the earlier items' writes behind. */
  function RawPlace(s: Store, user: UserId, items: seq<Line>, now: int): (r: Step<OrderResponse>)
    ensures r.result.Failure? ==> r.store.orders == [Order(s.nextOrderId, user, now, [])] + s.orders
    ensures r.result.Failure? ==> r.store.products == Reserve(s.products, items).products
    ensures r.result.Success? ==>
      && |r.store.orders| > 0 && Resolves(r.store.products, r.store.orders[0].lines)
      && r.result.value == ConvertOrder(r.store.products, r.store.orders[0])
  {
    var header := Order(s.nextOrderId, user, now, []);
    var saved := s.(orders := [header] + s.orders, nextOrderId := s.nextOrderId + 1);
    var reserved := Reserve(s.products, items);
    if reserved.failure.Some? then
      Step(saved.(products := reserved.products), Failure(reserved.failure.value))
    else
      var order := header.(lines := items);
      var t := saved.(products := reserved.products, orders := [order] + s.orders, cart := ClearCart(s.cart, user));
      Step(t, Success(ConvertOrder(t.products, order)))
  }

  /** The shared body under `@Transactional`: any exception restores the state. */
  function Place(s: Store, user: UserId, items: seq<Line>, now: int): (r: Step<OrderResponse>)
    ensures r.result.Failure? ==> r.store == s
    ensures r.result.Failure? ==> Some(r.result.error) == Reserve(s.products, items).failure
    ensures r.result.Success? <==> Reserve(s.products, items).failure.None?
    ensures r.result.Success? ==> Placed(s, r.store, user, items, now)
    ensures r.result.Success? ==>
      && |r.store.orders| > 0 && Resolves(r.store.products, r.store.orders[0].lines)
      && r.result.value == ConvertOrder(r.store.products, r.store.orders[0])
  {
    var r := Transactional(s, RawPlace(s, user, items, now));
    if r.result.Success? then
      ReserveAccounts(s.products, items);
      r
    else r
  }

  /** `createOrder`: an unknown email fails with "User not found" before
      anything is touched; otherwise the items are placed as one transaction. */
  function CreateOrder(s: Store, email: Email, items: seq<Line>, now: int): (r: Step<OrderResponse>)
    ensures email !in s.users ==> r == Step(s, Failure(OrderException(UserNotFound)))
    ensures r.result.Failure? ==> r.store == s
    ensures email in s.users ==>
      (r.result.Success? <==> Reserve(s.products, items).failure.None?)
    ensures email in s.users && r.result.Failure? ==> Some(r.result.error) == Reserve(s.products, items).failure
    ensures r.result.Success? ==> email in s.users && Placed(s, r.store, s.users[email], items, now)
    ensures r.result.Success? ==>
      && |r.store.orders| > 0 && Resolves(r.store.products, r.store.orders[0].lines)
      && r.result.value == ConvertOrder(r.store.products, r.store.orders[0])
  {
    if email !in s.users then Step(s, Failure(OrderException(UserNotFound)))
    else Place(s, s.users[email], items, now)
  }

  /** `createOrderFromCart`: the user's cart lines, in table order, become the
      items; an empty cart fails with "Cart is empty" and changes nothing. */
  function CreateOrderFromCart(s: Store, email: Email, now: int): (r: Step<OrderResponse>)
    ensures email !in s.users ==> r == Step(s, Failure(OrderException(UserNotFound)))
    ensures email in s.users && CartOf(s.cart, s.users[email]) == [] ==> r == Step(s, Failure(OrderException(EmptyCart)))
    ensures email in s.users && CartOf(s.cart, s.users[email]) != [] ==>
      r == CreateOrder(s, email, AsLines(CartOf(s.cart, s.users[email])), now)
    ensures r.result.Failure? ==> r.store == s
    ensures r.result.Success? ==>
      email in s.users && Placed(s, r.store, s.users[email], AsLines(CartOf(s.cart, s.users[email])), now)
  {
    if email !in s.users then Step(s, Failure(OrderException(UserNotFound)))
    else
      var lines := CartOf(s.cart, s.users[email]);
      if lines == [] then Step(s, Failure(OrderException(EmptyCart)))
      else Place(s, s.users[email], AsLines(lines), now)
  }

  /** `getUserOrders`: read-only; one view per order of the user, newest
      first, every order of the user present and no other user's. */
  function GetUserOrders(s: Store, email: Email): (r: Result<seq<OrderResponse>, Error>)
    requires OrdersResolve(s)
    ensures email !in s.users ==> r == Failure(OrderException(UserNotFound))
    ensures email in s.users ==> r.Success? && |r.value| == |OrdersOf(s.orders, s.users[email])|
    ensures r.Success? ==> forall i :: 0 <= i < |r.value| ==> r.value[i].userId == s.users[email]
    ensures r.Success? ==> forall i :: 0 <= i < |r.value| ==>
      r.value[i] == ConvertOrder(s.products, OrdersOf(s.orders, s.users[email])[i])
    ensures r.Success? ==> forall o :: o in s.orders && o.user == s.users[email] ==>
      exists i :: 0 <= i < |r.value| && r.value[i] == ConvertOrder(s.products, o)
  {
    if email !in s.users then Failure(OrderException(UserNotFound))
    else
      var mine := OrdersOf(s.orders, s.users[email]);
      var views := seq(|mine|, i requires 0 <= i < |mine| => ConvertOrder(s.products, mine[i]));
      assert forall o :: o in s.orders && o.user == s.users[email] ==> views[IndexOf(mine, o)] == ConvertOrder(s.products, o);
      Success(views)
  }

  /** The position of an element in a sequence that holds it. */
  function IndexOf<T(==)>(xs: seq<T>, x: T): (i: nat)
    requires x in xs
    ensures i < |xs| && xs[i] == x
  {
    if xs[0] == x then 0 else 1 + IndexOf(xs[1..], x)
  }

  // ----- properties -----

  /** With non-negative quantities, `createOrder` succeeds exactly when the
      user exists, every item names a product and, per product, the total
      requested is within the stock it had before the call. */
  lemma CreateOrderSucceedsIff(s: Store, email: Email, items: seq<Line>, now: int)
    requires NonNegative(items)
    ensures CreateOrder(s, email, items, now).result.Success? <==> email in s.users && Available(s.products, items)
  {
    ReserveSucceedsIff(s.products, items);
  }

  /** With non-negative quantities, a successful order lowers each product it
      names to a stock that is not negative, and leaves the others alone; so a
      table without negative stock keeps none. */
  lemma CreateOrderKeepsStockNonNegative(s: Store, email: Email, items: seq<Line>, now: int)
    requires NonNegative(items)
    requires CreateOrder(s, email, items, now).result.Success?
    ensures var t := CreateOrder(s, email, items, now).store;
      && (forall k :: k in s.products && Mentions(items, k) ==>
            t.products[k].stock == s.products[k].stock - Requested(items, k) >= 0)
      && (forall k :: k in s.products && !Mentions(items, k) ==> t.products[k] == s.products[k])
      && ((forall k :: k in s.products ==> s.products[k].stock >= 0) ==>
            forall k :: k in t.products ==> t.products[k].stock >= 0)
  {
    ReserveKeepsStockNonNegative(s.products, items);
    ReserveAccounts(s.products, items);
  }

  /** Both entry points keep the store well formed: ids, unique names, one cart
      line per (user, product), and lines that resolve. */
  lemma CreateOrderPreservesWellFormed(s: Store, email: Email, items: seq<Line>, now: int)
    requires WellFormed(s)
    ensures WellFormed(CreateOrder(s, email, items, now).store)
  {
    var r := CreateOrder(s, email, items, now);
    if r.result.Success? {
      PlacedPreservesWellFormed(s, r.store, s.users[email], items, now);
    }
  }

  lemma CreateOrderFromCartPreservesWellFormed(s: Store, email: Email, now: int)
    requires WellFormed(s)
    ensures WellFormed(CreateOrderFromCart(s, email, now).store)
  {
    if email in s.users && CartOf(s.cart, s.users[email]) != [] {
      CreateOrderPreservesWellFormed(s, email, AsLines(CartOf(s.cart, s.users[email])), now);
    }
  }

  /** The state a placement describes is well formed when the items resolve and
      the user is a known one. */
  lemma PlacedPreservesWellFormed(s: Store, t: Store, user: UserId, items: seq<Line>, now: int)
    requires WellFormed(s)
    requires user in s.users.Values
    requires Resolves(s.products, items)
    requires Placed(s, t, user, items, now)
    ensures WellFormed(t)
  {
    ClearCartDistinct(s.cart, user);
    ResolvesSameKeys(s.products, t.products, items);
    forall o | o in s.orders
      ensures Resolves(t.products, o.lines)
    {
      ResolvesSameKeys(s.products, t.products, o.lines);
    }
    forall i, j | 0 <= i < j < |t.orders|
      ensures t.orders[i].id != t.orders[j].id
    {
      if i > 0 {
        assert t.orders[i] == s.orders[i - 1] && t.orders[j] == s.orders[j - 1];
      } else {
        assert t.orders[j] in s.orders;
      }
    }
  }

  /** An order placed from the cart has the totals the cart showed just before:
      placing it changes stock, never prices. */
  lemma FromCartTotalsMatchCart(s: Store, email: Email, now: int)
    requires CartResolves(s) && email in s.users && CartOf(s.cart, s.users[email]) != []
    requires Reserve(s.products, AsLines(CartOf(s.cart, s.users[email]))).failure.None?
    ensures CreateOrderFromCart(s, email, now).result.Success?
    ensures var view := CreateOrderFromCart(s, email, now).result.value;
      var cart := Cart.GetCart(s, email).value;
      view.totalAmount == cart.totalAmount && view.totalItems == cart.totalItems && |view.items| == |cart.items|
  {
    var r := CreateOrderFromCart(s, email, now);
    var lines := AsLines(CartOf(s.cart, s.users[email]));
    assert r.store.orders[0].lines == lines;
    forall k | k in s.products
      ensures k in r.store.products && r.store.products[k].price == s.products[k].price
    {
    }
    LinesAmountSamePrices(s.products, r.store.products, lines);
  }

  /** Order views are not snapshots: after a price change every line of a
      stored order for that product shows, and is totalled at, the new price. */
  lemma OrderViewFollowsPrice(s: Store, id: ProductId, price: int, o: Order)
    requires id in s.products && o in s.orders && Resolves(s.products, o.lines)
    ensures var t := Catalog.UpdateProduct(s, id, Catalog.UpdateRequest(None, Some(price), None, None)).store;
      && Resolves(t.products, o.lines)
      && forall i :: 0 <= i < |o.lines| && o.lines[i].product == id ==>
           ConvertOrder(t.products, o).items[i].productPrice == price
           && ConvertOrder(t.products, o).items[i].totalPrice == price * o.lines[i].quantity
  {
    var t := Catalog.UpdateProduct(s, id, Catalog.UpdateRequest(None, Some(price), None, None)).store;
    ResolvesSameKeys(s.products, t.products, o.lines);
  }

  // ----- scenarios -----

  /** A shop with products 1 ("P", price 10.00, stock `p`) and 2 ("Q", price
      5.00, stock `q`), and one user, "u", with id 7. `cart` is the cart table. */
  function Shop(p: Int32, q: Int32, cart: seq<CartLine>): Store {
    Store(map["u" := 7], map[1 := Product(1, "P", 1000, p, "c"), 2 := Product(2, "Q", 500, q, "c")], cart, [], 3, 10, 1)
  }

  /** Ordering all 5 units of a product brings its stock to 0 with a single
      order line; a second order for 1 unit then fails and changes nothing. */
  lemma SellOutScenario()
    ensures var first := CreateOrder(Shop(5, 0, []), "u", [Line(1, 5)], 100);
      && first.result.Success?
      && first.store.products[1].stock == 0
      && first.store.orders[0].lines == [Line(1, 5)]
      && var second := CreateOrder(first.store, "u", [Line(1, 1)], 101);
         && second.result == Failure(OrderException(InsufficientStock("P", 0, 1)))
         && second.store == first.store
  {
    var s := Shop(5, 0, []);
    assert [Line(1, 5)][1..] == [];
    assert Requested([Line(1, 5)], 1) == 5;
    var first := CreateOrder(s, "u", [Line(1, 5)], 100);
    assert first.store.products[1].stock == 0;
    assert Reserve(first.store.products, [Line(1, 1)]).failure == Some(OrderException(InsufficientStock("P", 0, 1)));
  }

  /** The totals of an order with 2 units at 10.00 and 1 unit at 5.00 are
      25.00 and 3. */
  lemma TotalsScenario()
    ensures var products := Shop(5, 5, []).products;
      var view := ConvertOrder(products, Order(1, 7, 100, [Line(1, 2), Line(2, 1)]));
      view.totalAmount == 2500 && view.totalItems == 3
  {
    var products := Shop(5, 5, []).products;
    var lines := [Line(1, 2), Line(2, 1)];
    assert lines[1..][1..] == [];
    assert LinesAmount(products, lines) == 2500;
    assert Quantity(lines) == 3;
  }

  /** A cart of two products, the second of which is out of stock: ordering it
      fails, the cart is not cleared and the first product's stock is as it
      was. Without the transaction, the same call would have left an order
      header behind and the first product's stock lowered. */
  lemma CartRollbackScenario()
    ensures var cart := [CartLine(1, 7, 1, 2), CartLine(2, 7, 2, 1)];
      var s := Shop(5, 0, cart);
      && CreateOrderFromCart(s, "u", 100) == Step(s, Failure(OrderException(InsufficientStock("Q", 0, 1))))
      && var raw := RawPlace(s, 7, AsLines(cart), 100);
         && raw.result.Failure?
         && raw.store.products[1].stock == 3
         && |raw.store.orders| == 1
  {
    var cart := [CartLine(1, 7, 1, 2), CartLine(2, 7, 2, 1)];
    var s := Shop(5, 0, cart);
    var lines := AsLines(cart);
    assert lines == [Line(1, 2), Line(2, 1)];
    assert cart[1..][1..] == [];
    assert CartOf(s.cart, 7) == cart;
    assert lines[1..][1..] == [];
    assert lines[1..] == [Line(2, 1)];
    var next := Take(s.products, Line(1, 2));
    assert next[1].stock == 3;
    assert Reserve(s.products, lines) == Reserve(next, [Line(2, 1)]);
  }
}
