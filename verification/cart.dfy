/** `CartService`: adding to a user's cart, merging with the line already held
    for the same product, and the cart view with its totals. */
module Cart {
  import opened Results
  import opened JavaInt
  import opened Errors
  import opened ProductEntity
  import opened Store
  import opened Totals

  datatype CartItemResponse = CartItemResponse(
    id: int,
    productId: ProductId,
    productName: string,
    productPrice: int,
    productCategory: string,
    quantity: Int32,
    totalPrice: int)

  datatype CartResponse = CartResponse(items: seq<CartItemResponse>, totalAmount: int, totalItems: Int32)

  /** `findByUserIdAndProductId`: where the cart holds the user's line for the product, if anywhere. */
  function FindLine(cart: seq<CartLine>, user: UserId, product: ProductId): (r: Option<nat>)
    ensures r.Some? ==> r.value < |cart| && Key(cart[r.value]) == (user, product)
    ensures r.None? <==> forall l :: l in cart ==> Key(l) != (user, product)
  {
    if cart == [] then None
    else if Key(cart[0]) == (user, product) then Some(0)
    else match FindLine(cart[1..], user, product)
      case None => None
      case Some(i) => Some(i + 1)
  }

  /** `convertToCartItemResponse`: the line with its product as the table holds it now. */
  function ConvertCartItem(products: map<ProductId, Product>, line: CartLine): (r: CartItemResponse)
    requires line.product in products
    ensures r.id == line.id && r.quantity == line.quantity
    ensures r.totalPrice == r.productPrice * r.quantity
    ensures Product(r.productId, r.productName, r.productPrice, products[line.product].stock, r.productCategory) == products[line.product]
  {
    var p := products[line.product];
    CartItemResponse(line.id, p.id, p.name, p.price, p.category, line.quantity, p.price * line.quantity)
  }

  /** `addToCart`. The user must exist, then the product; the requested
      quantity alone must be within stock. A line the user already holds for
      the product is raised to old + requested (int addition), which must again
      be within stock; otherwise a new line is appended. Every exception is
      thrown before anything is saved. */
  function AddToCart(s: Store, email: Email, product: ProductId, quantity: Int32): (r: Step<CartItemResponse>)
    ensures r.result.Failure? ==> r.store == s
    ensures email !in s.users ==> r.result == Failure(CartException(UserNotFound))
    ensures email in s.users && product !in s.products ==> r.result == Failure(ProductException(ProductMissing))
    ensures email in s.users && product in s.products && s.products[product].stock < quantity ==>
      r.result == Failure(CartException(CartStockExceeded(s.products[product].stock, None)))
    ensures r.result.Success? ==>
      && r.store.users == s.users && r.store.products == s.products && r.store.orders == s.orders
      && r.store.nextProductId == s.nextProductId && r.store.nextOrderId == s.nextOrderId
    ensures (&& email in s.users && product in s.products && s.products[product].stock >= quantity
             && forall l :: l in s.cart ==> Key(l) != (s.users[email], product)) ==>
      && r.result.Success?
      && r.store.cart == s.cart + [CartLine(s.nextCartLineId, s.users[email], product, quantity)]
      && r.store.nextCartLineId == s.nextCartLineId + 1
      && r.result.value == ConvertCartItem(s.products, CartLine(s.nextCartLineId, s.users[email], product, quantity))
    ensures forall i ::
      (&& email in s.users && product in s.products && s.products[product].stock >= quantity
       && LinesDistinct(s.cart) && 0 <= i < |s.cart| && Key(s.cart[i]) == (s.users[email], product)) ==>
      var merged := Add(s.cart[i].quantity, quantity);
      && (r.result.Success? <==> s.products[product].stock >= merged)
      && (r.result.Failure? ==>
            r.result.error == CartException(CartStockExceeded(s.products[product].stock, Some(s.cart[i].quantity))))
      && (r.result.Success? ==>
            && r.store.cart == s.cart[i := s.cart[i].(quantity := merged)] && r.store.nextCartLineId == s.nextCartLineId
            && r.result.value == ConvertCartItem(s.products, s.cart[i].(quantity := merged)))
    ensures r.result.Success? ==> exists l :: l in r.store.cart && l.product in s.products && r.result.value == ConvertCartItem(s.products, l)
  {
    if email !in s.users then Step(s, Failure(CartException(UserNotFound)))
    else if product !in s.products then Step(s, Failure(ProductException(ProductMissing)))
    else
      var user := s.users[email];
      var p := s.products[product];
      if p.stock < quantity then Step(s, Failure(CartException(CartStockExceeded(p.stock, None))))
      else match FindLine(s.cart, user, product)
        case Some(i) =>
          var held := s.cart[i];
          var merged := Add(held.quantity, quantity);
          if p.stock < merged then Step(s, Failure(CartException(CartStockExceeded(p.stock, Some(held.quantity)))))
          else
            var line := held.(quantity := merged);
            assert s.cart[i := line][i] == line;
            Step(s.(cart := s.cart[i := line]), Success(ConvertCartItem(s.products, line)))
        case None =>
          var line := CartLine(s.nextCartLineId, user, product, quantity);
          assert line in s.cart + [line];
          Step(s.(cart := s.cart + [line], nextCartLineId := s.nextCartLineId + 1), Success(ConvertCartItem(s.products, line)))
  }

  /** `getCart`: read-only; the user's lines in table order, with the exact
      Σ price × quantity and Σ quantity in int arithmetic. */
  function GetCart(s: Store, email: Email): (r: Result<CartResponse, Error>)
    requires CartResolves(s)
    ensures email !in s.users ==> r == Failure(CartException(UserNotFound))
    ensures email in s.users ==>
      var mine := CartOf(s.cart, s.users[email]);
      && r.Success?
      && |r.value.items| == |mine|
      && (forall i :: 0 <= i < |mine| ==> r.value.items[i] == ConvertCartItem(s.products, mine[i]))
      && Resolves(s.products, AsLines(mine))
      && r.value.totalAmount == LinesAmount(s.products, AsLines(mine))
      && r.value.totalItems == Wrap(Quantity(AsLines(mine)))
  {
    if email !in s.users then Failure(CartException(UserNotFound))
    else
      var mine := CartOf(s.cart, s.users[email]);
      var lines := AsLines(mine);
      assert Resolves(s.products, lines) by {
        forall i | 0 <= i < |lines| ensures lines[i].product in s.products {
          assert mine[i] in s.cart;
        }
      }
      var items := seq(|mine|, i requires 0 <= i < |mine| => ConvertCartItem(s.products, mine[i]));
      var prices := seq(|items|, i requires 0 <= i < |items| => items[i].totalPrice);
      var counts := seq(|items|, i requires 0 <= i < |items| => items[i].quantity);
      assert prices == LineTotals(s.products, lines);
      assert counts == LineQuantities(lines);
      LineTotalsSum(s.products, lines);
      LineQuantitiesSum(lines);
      Success(CartResponse(items, Amount(prices), Count(counts)))
  }

  // ----- properties -----

  /** Replacing one of user `u`'s lines by another line of `u` leaves every
      other user's cart as it was. */
  lemma {:induction false} CartOfUpdate(cart: seq<CartLine>, i: nat, line: CartLine, other: UserId)
    requires i < |cart| && line.user == cart[i].user && other != line.user
    ensures CartOf(cart[i := line], other) == CartOf(cart, other)
  {
    if i > 0 {
      assert cart[i := line][1..] == cart[1..][i - 1 := line];
      CartOfUpdate(cart[1..], i - 1, line, other);
    } else {
      assert cart[i := line][1..] == cart[1..];
    }
  }

  /** Appending a line of `u` leaves every other user's cart as it was. */
  lemma {:induction false} CartOfAppend(cart: seq<CartLine>, line: CartLine, other: UserId)
    requires other != line.user
    ensures CartOf(cart + [line], other) == CartOf(cart, other)
  {
    if cart == [] {
      assert [line][1..] == [];
    } else {
      assert (cart + [line])[1..] == cart[1..] + [line];
      CartOfAppend(cart[1..], line, other);
    }
  }

  /** Adding to one user's cart leaves every other user's cart exactly as it was. */
  lemma AddToCartKeepsOtherCarts(s: Store, email: Email, product: ProductId, quantity: Int32, other: UserId)
    requires email in s.users && other != s.users[email]
    ensures CartOf(AddToCart(s, email, product, quantity).store.cart, other) == CartOf(s.cart, other)
  {
    var user := s.users[email];
    var r := AddToCart(s, email, product, quantity);
    if r.result.Success? {
      match FindLine(s.cart, user, product)
      case Some(i) =>
        CartOfUpdate(s.cart, i, s.cart[i].(quantity := Add(s.cart[i].quantity, quantity)), other);
      case None =>
        CartOfAppend(s.cart, CartLine(s.nextCartLineId, user, product, quantity), other);
    }
  }

  /** `addToCart` keeps the store well formed; in particular the cart keeps at
      most one line per (user, product). */
  lemma AddToCartPreservesWellFormed(s: Store, email: Email, product: ProductId, quantity: Int32)
    requires WellFormed(s)
    ensures WellFormed(AddToCart(s, email, product, quantity).store)
  {
    var r := AddToCart(s, email, product, quantity);
    if r.result.Success? {
      var user := s.users[email];
      var c := r.store.cart;
      match FindLine(s.cart, user, product)
      case Some(i) =>
        forall a, b | 0 <= a < b < |c|
          ensures c[a].id != c[b].id && Key(c[a]) != Key(c[b])
        {
          assert Key(c[a]) == Key(s.cart[a]) && c[a].id == s.cart[a].id;
          assert Key(c[b]) == Key(s.cart[b]) && c[b].id == s.cart[b].id;
        }
        forall l | l in c
          ensures l.product in r.store.products && l.id < r.store.nextCartLineId && l.user in r.store.users.Values
        {
          var a :| 0 <= a < |c| && c[a] == l;
          assert s.cart[a] in s.cart;
        }
      case None =>
        var line := CartLine(s.nextCartLineId, user, product, quantity);
        forall a, b | 0 <= a < b < |c|
          ensures c[a].id != c[b].id && Key(c[a]) != Key(c[b])
        {
          if b == |s.cart| {
            assert c[a] == s.cart[a] && c[a] in s.cart;
          } else {
            assert c[a] == s.cart[a] && c[b] == s.cart[b];
          }
        }
    }
  }

  /** Adding 2 and then 3 units of a product with stock 5 to an empty cart
      leaves one line of 5; adding 1 more then fails and the line stays at 5. */
  lemma MergeScenario()
    ensures var s := Store(map["u" := 7], map[1 := Product(1, "P", 1000, 5, "c")], [], [], 2, 1, 1);
      var first := AddToCart(s, "u", 1, 2);
      var second := AddToCart(first.store, "u", 1, 3);
      var third := AddToCart(second.store, "u", 1, 1);
      && second.result.Success?
      && second.store.cart == [CartLine(1, 7, 1, 5)]
      && third.result == Failure(CartException(CartStockExceeded(5, Some(5))))
      && third.store.cart == [CartLine(1, 7, 1, 5)]
  {
    var s := Store(map["u" := 7], map[1 := Product(1, "P", 1000, 5, "c")], [], [], 2, 1, 1);
    var first := AddToCart(s, "u", 1, 2);
    assert first.store.cart == [CartLine(1, 7, 1, 2)];
    assert FindLine(first.store.cart, 7, 1) == Some(0);
    var second := AddToCart(first.store, "u", 1, 3);
    assert second.store.cart == [CartLine(1, 7, 1, 5)];
    assert FindLine(second.store.cart, 7, 1) == Some(0);
  }

  /** The merged quantity is an int sum: when it overflows it turns negative,
      passes the stock re-check, and is stored. */
  lemma MergeOverflowScenario()
    ensures var s := Store(map["u" := 7], map[1 := Product(1, "P", 1000, MAX_VALUE, "c")],
                           [CartLine(1, 7, 1, MAX_VALUE)], [], 2, 2, 1);
      var r := AddToCart(s, "u", 1, 1);
      r.result.Success? && r.store.cart == [CartLine(1, 7, 1, MIN_VALUE)]
  {
    var s := Store(map["u" := 7], map[1 := Product(1, "P", 1000, MAX_VALUE, "c")],
                   [CartLine(1, 7, 1, MAX_VALUE)], [], 2, 2, 1);
    assert FindLine(s.cart, 7, 1) == Some(0);
    assert Add(MAX_VALUE, 1) == MIN_VALUE;
  }
}
