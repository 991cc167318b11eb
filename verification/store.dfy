/** The persistent state the services share: users, the product table, cart
    lines and orders, with the identity counters the database keeps. */
module Store {
  import opened Results
  import opened Errors
  import opened JavaInt
  import opened ProductEntity

  type UserId = int
  type Email = string

  /** A (product, quantity) pair: an item of an order request, and a line of a stored order. */
  datatype Line = Line(product: ProductId, quantity: Int32)

  /** A row of the cart table. */
  datatype CartLine = CartLine(id: int, user: UserId, product: ProductId, quantity: Int32)

  /** An order with its lines. `createdAt` is the abstract persistence timestamp. */
  datatype Order = Order(id: int, user: UserId, createdAt: int, lines: seq<Line>)

  /** `cart` is in table order; `orders` is newest first, the order in which
      the order repository lists a user's orders. */
  datatype Store = Store(
    users: map<Email, UserId>,
    products: map<ProductId, Product>,
    cart: seq<CartLine>,
    orders: seq<Order>,
    nextProductId: int,
    nextCartLineId: int,
    nextOrderId: int)

  /** The state after a service call and what the call returned or threw. */
  datatype Step<T> = Step(store: Store, result: Result<T, Error>)

  /** A transactional service call: when `run` ends in an exception, every
      write it made is rolled back and the state is `before`. */
  function Transactional<T>(before: Store, run: Step<T>): (r: Step<T>)
    ensures r.result == run.result
    ensures r.result.Failure? ==> r.store == before
    ensures r.result.Success? ==> r.store == run.store
  {
    if run.result.Failure? then Step(before, run.result) else run
  }

  // ----- cart table -----

  /** The (user, product) pair a cart line belongs to. */
  function Key(l: CartLine): (UserId, ProductId) {
    (l.user, l.product)
  }

  /** `findByUserId`: the user's cart lines, in table order. */
  function CartOf(cart: seq<CartLine>, user: UserId): (r: seq<CartLine>)
    ensures forall l :: l in r <==> l in cart && l.user == user
    ensures |r| <= |cart|
  {
    if cart == [] then []
    else (if cart[0].user == user then [cart[0]] else []) + CartOf(cart[1..], user)
  }

  /** `deleteByUserId`: the cart with every line of the user removed. */
  function ClearCart(cart: seq<CartLine>, user: UserId): (r: seq<CartLine>)
    ensures forall l :: l in r <==> l in cart && l.user != user
    ensures |r| <= |cart|
  {
    if cart == [] then []
    else (if cart[0].user != user then [cart[0]] else []) + ClearCart(cart[1..], user)
  }

  /** The (product, quantity) pairs of cart lines, in cart order. */
  function AsLines(cart: seq<CartLine>): (r: seq<Line>)
    ensures |r| == |cart|
    ensures forall i :: 0 <= i < |cart| ==> r[i].product == cart[i].product && r[i].quantity == cart[i].quantity
  {
    seq(|cart|, i requires 0 <= i < |cart| => Line(cart[i].product, cart[i].quantity))
  }

  /** No two cart lines share an id, and no two share a (user, product) pair. */
  predicate LinesDistinct(cart: seq<CartLine>) {
    forall i, j :: 0 <= i < j < |cart| ==> cart[i].id != cart[j].id && Key(cart[i]) != Key(cart[j])
  }

  // ----- order table -----

  /** `findByUserIdOrderByCreatedAtDesc`: the user's orders, newest first. */
  function OrdersOf(orders: seq<Order>, user: UserId): (r: seq<Order>)
    ensures forall o :: o in r <==> o in orders && o.user == user
    ensures |r| <= |orders|
  {
    if orders == [] then []
    else (if orders[0].user == user then [orders[0]] else []) + OrdersOf(orders[1..], user)
  }

  /** Every line names a product of the table. */
  predicate Resolves(products: map<ProductId, Product>, lines: seq<Line>) {
    forall i :: 0 <= i < |lines| ==> lines[i].product in products
  }

  /** Every stored order's lines resolve: what the foreign key from order
      lines to products guarantees. */
  predicate OrdersResolve(s: Store) {
    forall o :: o in s.orders ==> Resolves(s.products, o.lines)
  }

  /** Every cart line's product exists: what the foreign key from cart lines to products guarantees. */
  predicate CartResolves(s: Store) {
    forall l :: l in s.cart ==> l.product in s.products
  }

  // ----- invariant -----

  predicate ProductsKeyed(s: Store) {
    forall k :: k in s.products ==> s.products[k].id == k && k < s.nextProductId
  }

  /** Product names are unique across the table. */
  predicate UniqueNames(products: map<ProductId, Product>) {
    forall a, b :: a in products && b in products && products[a].name == products[b].name ==> a == b
  }

  predicate CartConsistent(s: Store) {
    && LinesDistinct(s.cart)
    && CartResolves(s)
    && forall l :: l in s.cart ==> l.id < s.nextCartLineId && l.user in s.users.Values
  }

  predicate OrdersConsistent(s: Store) {
    && OrdersResolve(s)
    && (forall i, j :: 0 <= i < j < |s.orders| ==> s.orders[i].id != s.orders[j].id)
    && forall o :: o in s.orders ==> o.id < s.nextOrderId && o.user in s.users.Values
  }

  /** The invariant every service call preserves. */
  predicate WellFormed(s: Store) {
    ProductsKeyed(s) && UniqueNames(s.products) && CartConsistent(s) && OrdersConsistent(s)
  }

  // ----- lemmas -----

  /** Whether lines resolve depends only on which ids the table holds. */
  lemma ResolvesSameKeys(a: map<ProductId, Product>, b: map<ProductId, Product>, lines: seq<Line>)
    requires a.Keys == b.Keys
    ensures Resolves(a, lines) <==> Resolves(b, lines)
  {
  }

  /** Clearing one user's cart leaves every other user's cart exactly as it was. */
  lemma {:induction false} ClearCartKeepsOthers(cart: seq<CartLine>, user: UserId, other: UserId)
    requires other != user
    ensures CartOf(ClearCart(cart, user), other) == CartOf(cart, other)
    ensures CartOf(ClearCart(cart, user), user) == []
  {
    if cart != [] {
      ClearCartKeepsOthers(cart[1..], user, other);
      var rest := ClearCart(cart[1..], user);
      if cart[0].user != user {
        assert ClearCart(cart, user) == [cart[0]] + rest;
        assert ([cart[0]] + rest)[1..] == rest;
      } else {
        assert ClearCart(cart, user) == rest;
      }
    }
  }

  /** A sequence whose head is distinct from every later line, and whose tail is distinct, is distinct. */
  lemma ConsDistinct(x: CartLine, rest: seq<CartLine>)
    requires LinesDistinct(rest)
    requires forall l :: l in rest ==> l.id != x.id && Key(l) != Key(x)
    ensures LinesDistinct([x] + rest)
  {
    var c := [x] + rest;
    forall i, j | 0 <= i < j < |c|
      ensures c[i].id != c[j].id && Key(c[i]) != Key(c[j])
    {
      if i > 0 {
        assert c[i] == rest[i - 1] && c[j] == rest[j - 1];
      } else {
        assert c[j] == rest[j - 1];
        assert c[j] in rest;
      }
    }
  }

  /** Clearing a user's cart keeps the remaining lines distinct. */
  lemma {:induction false} ClearCartDistinct(cart: seq<CartLine>, user: UserId)
    requires LinesDistinct(cart)
    ensures LinesDistinct(ClearCart(cart, user))
  {
    if cart != [] {
      var rest := cart[1..];
      assert LinesDistinct(rest) by {
        forall i, j | 0 <= i < j < |rest|
          ensures rest[i].id != rest[j].id && Key(rest[i]) != Key(rest[j])
        {
          assert rest[i] == cart[i + 1] && rest[j] == cart[j + 1];
        }
      }
      ClearCartDistinct(rest, user);
      if cart[0].user != user {
        forall l | l in ClearCart(rest, user)
          ensures l.id != cart[0].id && Key(l) != Key(cart[0])
        {
          var j :| 0 <= j < |rest| && rest[j] == l;
          assert cart[j + 1] == l;
        }
        ConsDistinct(cart[0], ClearCart(rest, user));
      }
    }
  }
}
