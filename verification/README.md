# Shop services: a Dafny model

This project models the domain logic of a small e-commerce backend built with Spring: its catalogue, cart and order services, the `Product` entity's stock primitives, and the product repository's queries. The database is modelled as one immutable `Store` value with these parts:

- users, a map from email to id;
- the product table, a map from id to `Product`;
- the cart table, a sequence in table order;
- the order table, a sequence, newest first;
- the three identity counters.

Every write is a pure function from a store to a `Step`, which holds the store after the call and either the response or the exception thrown. The reads (`Cart.GetCart`, `Orders.GetUserOrders` and the catalogue lookups) take the store and return a `Result`, a set or a sequence, leaving nothing to restore. `@Transactional` is modelled literally. The loop that writes stock as it goes (`Orders.RawPlace`) leaves partial state behind on an exception. The transactional wrapper (`Store.Transactional`, used by `Orders.Place`) restores the state from before the call.

Modules:

- `Results`: `Option` and `Result`.
- `JavaInt`: Java `int` arithmetic with 32-bit wrap-around.
- `Errors`: the exception classes and the data their messages carry.
- `ProductEntity`: the `Product` row, its stock primitives and the nullable Java object.
- `Store`: the tables and the invariant `WellFormed` that every write preserves.
- `Totals`: the response totals.
- `Inventory`: the per-item reservation loop shared by both order entry points.
- `Orders`: `OrderService`.
- `Cart`: `CartService`.
- `Queries`: `ProductRepository`.
- `Catalog`: `ProductService`.

Modelling choices:

- Prices (`BigDecimal`) are exact integers in minor units.
- Quantities and stock are Java `int`s. `stock - quantity`, the cart's `old + requested`, `increaseStock` and `IntStream.sum` wrap around exactly as Java does.
- The product queries without `ORDER BY` return sets. `findAllCategories` returns a strictly ascending sequence under binary collation. The cart and order tables are sequences; see "Left out" for the order they are read in.
- `IgnoreCase` upper-cases ASCII letters.
- Deleting a product that a cart line or order line still references is refused, as the foreign keys from those tables require. Because of this, referential integrity is part of `WellFormed`.

The model follows the code where it departs from the rules the domain suggests:

- Stock can become negative. No code path enforces a non-negative stock:
  - `updateProduct` stores any stock value (`Catalog.UpdateStoresAnyStock`).
  - A negative order quantity passes the stock check and raises the stock (`Inventory.NegativeQuantityRaisesStock`).
- Order responses are built from the product as it is now, not as it was at purchase (`Orders.OrderViewFollowsPrice`).

## Model

| member | source | states |
|---|---|---|
| ProductEntity.ReduceStock | src/main/java/com/esataydin/product/entity/Product.java:98-104 | succeeds iff `hasStock(q)`; on success only the stock changes, to stock − q (wrapped), which for q ≥ 0 is exact and not negative; on failure an `IllegalArgumentException` carrying available and requested |
| ProductEntity.IncreaseStock | src/main/java/com/esataydin/product/entity/Product.java:106-110 | only the stock changes; q ≤ 0 is a no-op; q > 0 raises the stock unless the int addition overflows, in which case it wraps below the old value |
| ProductEntity.InStockIsStockForOne | src/main/java/com/esataydin/product/entity/Product.java:90-96 | `isInStock()` is `hasStock(1)`, and having stock for any positive quantity implies being in stock |
| ProductEntity.ReduceThenIncrease | src/main/java/com/esataydin/product/entity/Product.java:98-110 | a successful reduction by a positive q followed by an increase by q restores the product exactly, overflow included |
| ProductEntity.IncreaseThenReduce | src/main/java/com/esataydin/product/entity/Product.java:98-110 | on non-negative stock, an increase by q that does not overflow is undone by a reduction by q, which then cannot fail |
| ProductEntity.Saved | src/main/java/com/esataydin/product/entity/Product.java:15-36 | `save` writes a row exactly when name, price, stock and category are non-null and the id is null or already in the table; a null id is filled by the identity column, a set id keeps that row's id; loading the row gives back the object with its id set |
| ProductEntity.LoadSaveRoundTrip | src/main/java/com/esataydin/product/entity/Product.java:15-36 | saving a loaded row that is in the table writes that same row back |
| ProductEntity.NewProductObject | src/main/java/com/esataydin/product/entity/Product.java:31-39 | `new Product()` has every field null except stock, which is 0 |
| ProductEntity.IsInStock | src/main/java/com/esataydin/product/entity/Product.java:90-92 | a row is in stock iff its stock is above 0 |
| ProductEntity.HasStock | src/main/java/com/esataydin/product/entity/Product.java:94-96 | a row has stock for q iff its stock is at least q |
| ProductEntity.NewProductHasNoStock | src/main/java/com/esataydin/product/entity/Product.java:31-39 | a freshly constructed product has stock 0: not in stock, and it has stock exactly for quantities ≤ 0 |
| ProductEntity.StockPredicatesAgree | src/main/java/com/esataydin/product/entity/Product.java:90-96 | on a loaded row the null-aware `isInStock`/`hasStock` agree with the row's; a null stock is never in stock and never has stock |
| ProductEntity.ObjectInStock | src/main/java/com/esataydin/product/entity/Product.java:90-96 | on the nullable object, `isInStock()` is `hasStock(1)` |
| ProductEntity.ObjectHasStock | src/main/java/com/esataydin/product/entity/Product.java:90-96 | on the nullable object, a null stock never has stock for any quantity |
| ProductEntity.ObjectReduceStock | src/main/java/com/esataydin/product/entity/Product.java:98-104 | on the nullable object: succeeds iff `hasStock(q)`; otherwise an `IllegalArgumentException` carrying the stock (null when unset) and q; on success only the stock changes, and it is non-null |
| ProductEntity.ObjectIncreaseStock | src/main/java/com/esataydin/product/entity/Product.java:106-110 | on the nullable object: throws a `NullPointerException` exactly when q > 0 and the stock is null; q ≤ 0 is a no-op; otherwise only the stock changes |
| ProductEntity.StockUpdatesAgree | src/main/java/com/esataydin/product/entity/Product.java:98-110 | on a loaded row the object's `reduceStock`/`increaseStock` give the loaded form of the row-level results; on a null stock `reduceStock` reports a null stock and `increaseStock` by q > 0 throws |
| Store.Transactional | src/main/java/com/esataydin/order/service/OrderService.java:26 | the call's result is kept; on an exception the store is the one from before the call, otherwise the run's store |
| Store.CartOf | src/main/java/com/esataydin/cart/service/CartService.java:82 | a line is in the user's cart iff it is a cart line of that user |
| Store.ClearCart | src/main/java/com/esataydin/order/service/OrderService.java:75 | exactly the lines of other users remain |
| Store.ClearCartKeepsOthers | src/main/java/com/esataydin/order/service/OrderService.java:75 | clearing a user's cart leaves it empty and every other user's cart exactly as it was |
| Store.OrdersOf | src/main/java/com/esataydin/order/service/OrderService.java:130 | an order is listed iff it is a stored order of the user |
| Store.AsLines | src/main/java/com/esataydin/order/service/OrderService.java:97-107 | one order line per cart line, in cart order, with the same product and quantity |
| Totals.Amount | src/main/java/com/esataydin/order/service/OrderService.java:142-144 | the left fold from zero is the sum of the line totals |
| Totals.Count | src/main/java/com/esataydin/order/service/OrderService.java:146-148 | the int stream sum is the exact sum of the quantities, wrapped to 32 bits |
| Inventory.Reserve | src/main/java/com/esataydin/order/service/OrderService.java:51-69 | the loop keeps the key set; it finishes only when every item names a product; it stops with a product-not-found or insufficient-stock exception (which item and what data: `Inventory.ReserveFailsAt`) |
| Inventory.Take | src/main/java/com/esataydin/order/service/OrderService.java:67-68 | one item's step: only that product's stock changes, to stock − quantity in int arithmetic; the key set and every other row are kept |
| Inventory.ReserveFailsAt | src/main/java/com/esataydin/order/service/OrderService.java:51-60 | a stopped loop stops at a first failing item i, after items 0..i−1 went through and left the final table t; an unknown product fails with a product exception naming its id; otherwise stock in t < quantity and the order exception carries the name, that stock and the quantity |
| Inventory.ReserveOnlyStock | src/main/java/com/esataydin/order/service/OrderService.java:67-68 | the loop changes no product field other than stock |
| Inventory.ReserveAccounts | src/main/java/com/esataydin/order/service/OrderService.java:57-68 | after a successful loop, each product's stock is its old stock minus the total requested of it (int arithmetic), duplicates included |
| Inventory.ReserveAccountsAt | src/main/java/com/esataydin/order/service/OrderService.java:67 | after a successful loop, a product's stock differs from its old stock minus the total requested of it by a multiple of 2^32 |
| Inventory.ReserveSucceedsIff | src/main/java/com/esataydin/order/service/OrderService.java:51-60 | with non-negative quantities the loop finishes iff every item names a product and, per product, the total requested is within the initial stock |
| Inventory.ReserveAppend | src/main/java/com/esataydin/order/service/OrderService.java:51 | items are processed strictly in request order: the loop over a + b is the loop over a, then over b from where a left the table |
| Inventory.ReserveKeepsStockNonNegative | src/main/java/com/esataydin/order/service/OrderService.java:57-67 | with non-negative quantities, a product named by the items ends at old stock − total ≥ 0, and every other product is unchanged |
| Inventory.DuplicateSeesReducedStock | src/main/java/com/esataydin/order/service/OrderService.java:53-67 | a product named twice is checked the second time against the stock the first occurrence left |
| Inventory.SequentialCheckIsNotTotalCheck | src/main/java/com/esataydin/order/service/OrderService.java:57 | the per-item check differs from a check on totals: items (5, −5) on stock 0 fail although their total is 0 |
| Inventory.NegativeQuantityRaisesStock | src/main/java/com/esataydin/order/service/OrderService.java:57-67 | a negative quantity passes the check and raises the stock |
| Inventory.ReserveStepIsReduceStock | src/main/java/com/esataydin/order/service/OrderService.java:57-67 | the loop's check-and-subtract on one item agrees with `Product.reduceStock`, in outcome and in the resulting table |
| Orders.ConvertItem | src/main/java/com/esataydin/order/service/OrderService.java:160-172 | the item carries the line's quantity and the product's current fields, and its total is price × quantity |
| Orders.ConvertOrder | src/main/java/com/esataydin/order/service/OrderService.java:137-158 | one item per line in line order; the amount is Σ price × quantity and the count Σ quantity wrapped to int (exact when in range) |
| Orders.RawPlace | src/main/java/com/esataydin/order/service/OrderService.java:46-69 | without the transaction, an exception leaves the empty order header saved and the earlier items' stock writes in place |
| Orders.Place | src/main/java/com/esataydin/order/service/OrderService.java:26-78 | under the transaction, a failure leaves the store exactly as it was; the call succeeds iff the loop does; on success the stock is accounted for, a new newest order holds the items as given, the user's cart is emptied and nothing else changes |
| Orders.CreateOrder | src/main/java/com/esataydin/order/service/OrderService.java:41-78 | an unknown email fails with "User not found" and changes nothing; otherwise the result is the transactional placement of the items |
| Orders.CreateOrderFromCart | src/main/java/com/esataydin/order/service/OrderService.java:80-122 | unknown user and empty cart fail and change nothing; otherwise the user's cart lines in table order become the items of `createOrder` |
| Orders.GetUserOrders | src/main/java/com/esataydin/order/service/OrderService.java:124-135 | read-only; one view per order of the user, in table order (newest placed first), no other user's, and every order of the user present |
| Orders.CreateOrderSucceedsIff | src/main/java/com/esataydin/order/service/OrderService.java:41-60 | with non-negative quantities, `createOrder` succeeds iff the user exists and, per product, the total requested is within stock |
| Orders.CreateOrderKeepsStockNonNegative | src/main/java/com/esataydin/order/service/OrderService.java:57-68 | with non-negative quantities, a successful order leaves every named product at old − total ≥ 0 and the rest unchanged |
| Orders.CreateOrderPreservesWellFormed | src/main/java/com/esataydin/order/service/OrderService.java:41-78 | `createOrder` keeps unique ids and names, one cart line per (user, product) and resolving lines |
| Orders.CreateOrderFromCartPreservesWellFormed | src/main/java/com/esataydin/order/service/OrderService.java:80-122 | `createOrderFromCart` keeps the store well formed |
| Orders.PlacedPreservesWellFormed | src/main/java/com/esataydin/order/service/OrderService.java:63-75 | a placement of resolving items by a known user keeps the store well formed |
| Orders.FromCartTotalsMatchCart | src/main/java/com/esataydin/order/service/OrderService.java:97-121 | when every cart line can be reserved, the order from the cart succeeds and has the amount, item count and number of items the cart view showed just before |
| Orders.OrderViewFollowsPrice | src/main/java/com/esataydin/order/service/OrderService.java:160-167 | after a price update, every line of a stored order for that product shows and is totalled at the new price |
| Orders.SellOutScenario | src/main/java/com/esataydin/order/service/OrderService.java:57-67 | ordering all 5 units leaves stock 0 and one line; a further order for 1 fails with insufficient stock (0 available, 1 requested) and changes nothing |
| Orders.TotalsScenario | src/main/java/com/esataydin/order/service/OrderService.java:142-148 | 2 × 10.00 and 1 × 5.00 total 25.00 and 3 items |
| Orders.CartRollbackScenario | src/main/java/com/esataydin/order/service/OrderService.java:97-113 | a cart whose second product is out of stock fails and changes nothing; without the transaction the same run leaves a header and the first product's stock lowered |
| Cart.FindLine | src/main/java/com/esataydin/cart/service/CartService.java:51-52 | finds a line with the (user, product) key, and finds none iff no line has it |
| Cart.ConvertCartItem | src/main/java/com/esataydin/cart/service/CartService.java:101-114 | the item carries the line's id and quantity and the product's current fields, and its total is price × quantity |
| Cart.AddToCart | src/main/java/com/esataydin/cart/service/CartService.java:36-74 | unknown user, unknown product and quantity above stock fail with their exceptions and save nothing; an existing line is raised to old + requested (int addition) iff that is within stock, else the call fails with stock and the old quantity; otherwise exactly one new line is appended; products, orders and users are untouched |
| Cart.GetCart | src/main/java/com/esataydin/cart/service/CartService.java:76-99 | read-only; one item per line of the user in table order; the amount is Σ price × quantity and the count Σ quantity wrapped to int |
| Cart.AddToCartKeepsOtherCarts | src/main/java/com/esataydin/cart/service/CartService.java:51-72 | every other user's cart is exactly as it was |
| Cart.AddToCartPreservesWellFormed | src/main/java/com/esataydin/cart/service/CartService.java:51-72 | the cart keeps at most one line per (user, product), distinct ids and resolving products |
| Cart.MergeScenario | src/main/java/com/esataydin/cart/service/CartService.java:55-66 | 2 then 3 units of a product with stock 5 make one line of 5; one more fails reporting 5 available and 5 in the cart |
| Cart.MergeOverflowScenario | src/main/java/com/esataydin/cart/service/CartService.java:58-66 | a merge whose int sum overflows turns negative, passes the stock re-check and is stored |
| Queries.FindAll | src/main/java/com/esataydin/product/repository/ProductRepository.java:12 | exactly the rows of the table |
| Queries.FindByCategory | src/main/java/com/esataydin/product/repository/ProductRepository.java:14 | exactly the rows whose category equals the argument |
| Queries.FindByCategoryIgnoreCase | src/main/java/com/esataydin/product/repository/ProductRepository.java:16 | exactly the rows whose upper-cased category equals the upper-cased argument |
| Queries.FindAllInStock | src/main/java/com/esataydin/product/repository/ProductRepository.java:18-19 | exactly the rows with stock > 0, i.e. with stock for one unit |
| Queries.FindByCategoryAndInStock | src/main/java/com/esataydin/product/repository/ProductRepository.java:21-22 | exactly the rows with the category (case-sensitive) and stock > 0 |
| Queries.FindByNameContainingIgnoreCase | src/main/java/com/esataydin/product/repository/ProductRepository.java:27 | exactly the rows whose upper-cased name contains the upper-cased fragment |
| Queries.ExistsByName | src/main/java/com/esataydin/product/repository/ProductRepository.java:29 | true iff some row has exactly that name |
| Queries.Insert | src/main/java/com/esataydin/product/repository/ProductRepository.java:24 | adding a category to a strictly ascending list keeps it strictly ascending with the old elements plus the new one |
| Queries.FindAllCategories | src/main/java/com/esataydin/product/repository/ProductRepository.java:24-25 | strictly ascending, and a string is listed iff some row has it as category |
| Queries.SortedUnique | src/main/java/com/esataydin/product/repository/ProductRepository.java:24-25 | two strictly ascending lists with the same elements are equal, so the category list does not depend on scan order |
| Queries.CategoryIgnoreCaseWidens | src/main/java/com/esataydin/product/repository/ProductRepository.java:14-16 | the case-insensitive category search returns everything the exact one does |
| Queries.CategoryAndInStockIsIntersection | src/main/java/com/esataydin/product/repository/ProductRepository.java:14-22 | category-and-stock is the intersection of the category search and the in-stock search |
| Queries.EmptyFragmentFindsAll | src/main/java/com/esataydin/product/repository/ProductRepository.java:27 | an empty fragment finds every row |
| Queries.NameSearchIgnoresCase | src/main/java/com/esataydin/product/repository/ProductRepository.java:27 | searching for the upper-cased fragment finds the same rows as the fragment |
| Catalog.ToResponse | src/main/java/com/esataydin/product/service/ProductService.java:122-130 | the view determines the product: reading it back gives the product |
| Catalog.GetProductEntityById | src/main/java/com/esataydin/product/service/ProductService.java:111-114 | succeeds iff the id is in the table, with that row; otherwise "Product not found" |
| Catalog.GetProductById | src/main/java/com/esataydin/product/service/ProductService.java:42-46 | succeeds iff the id is in the table, with a view of that row; otherwise "Product not found" |
| Catalog.GetAllProducts | src/main/java/com/esataydin/product/service/ProductService.java:26-31 | a view is listed iff it describes a row of the table |
| Catalog.GetProductsByCategory | src/main/java/com/esataydin/product/service/ProductService.java:34-39 | a view is listed iff it describes a row whose category matches ignoring case |
| Catalog.GetAllCategories | src/main/java/com/esataydin/product/service/ProductService.java:49-51 | each category of the table exactly once, ascending |
| Catalog.CreateProduct | src/main/java/com/esataydin/product/service/ProductService.java:55-69 | a taken name fails and changes nothing; otherwise one new row under a fresh id with exactly the request's fields, the view mirrors it, and nothing else changes |
| Catalog.Built | src/main/java/com/esataydin/product/service/ProductService.java:61-65 | the object `createProduct` builds has no id and non-null name, price, stock and category |
| Catalog.RenameConflict | src/main/java/com/esataydin/product/service/ProductService.java:76-81 | a rename conflicts iff a name is given, differs from the product's own, and some row already has it |
| Catalog.Patch | src/main/java/com/esataydin/product/service/ProductService.java:75-95 | each non-null request field replaces the stored one, each null field keeps it, and the id is kept |
| Catalog.UpdateProduct | src/main/java/com/esataydin/product/service/ProductService.java:71-99 | unknown id fails with "Product not found"; a new name that another row holds fails before any field is set; otherwise only that row changes, to the patched product |
| Catalog.DeleteProduct | src/main/java/com/esataydin/product/service/ProductService.java:101-106 | unknown id fails with "Product not found"; a referenced product is refused; otherwise exactly that row is removed and every other row is unchanged |
| Catalog.LookupsAgree | src/main/java/com/esataydin/product/service/ProductService.java:42-46 | `getProductById`, defined by its own `findById` and conversion, is the entity lookup followed by the view conversion: the same success, the same exception, and the view of the same row |
| Catalog.RenameToOwnNameAllowed | src/main/java/com/esataydin/product/service/ProductService.java:76-83 | renaming a product to its own current name succeeds |
| Catalog.RenameToTakenNameRefused | src/main/java/com/esataydin/product/service/ProductService.java:78-81 | renaming to another product's name fails and leaves the store as it was |
| Catalog.UpdateStoresAnyStock | src/main/java/com/esataydin/product/service/ProductService.java:89-91 | any stock value, negative ones included, is stored as given |
| Catalog.EmptyUpdateIsIdentity | src/main/java/com/esataydin/product/service/ProductService.java:75-98 | an all-null update changes nothing and returns the current product |
| Catalog.UpdateIdempotent | src/main/java/com/esataydin/product/service/ProductService.java:71-99 | repeating a successful update changes nothing further |
| Catalog.DeleteUndoesCreate | src/main/java/com/esataydin/product/service/ProductService.java:55-106 | deleting the product just created restores the table; only the identity counter has moved on |
| Catalog.CreateProductPreservesWellFormed | src/main/java/com/esataydin/product/service/ProductService.java:55-69 | creation keeps names unique and the store well formed |
| Catalog.UpdateProductPreservesWellFormed | src/main/java/com/esataydin/product/service/ProductService.java:71-99 | an update never produces a second row with the same name and keeps the store well formed |
| Catalog.DeleteProductPreservesWellFormed | src/main/java/com/esataydin/product/service/ProductService.java:101-106 | after a delete nothing refers to the removed row |

## Left out

- Controllers, the global exception handler, authentication, JWT and the `User` entity: users are a map from email to id.
- Concurrency and isolation. Calls are modelled one at a time, so the read-then-write race on stock is not represented.
- Identity generation and timestamps. Ids come from counters in the store, and `createdAt` is a parameter. A rolled-back call does not consume ids here; a database identity column may.
- `BigDecimal` scale and precision: prices are exact integers with no rounding.
- Exception messages: only the exception class and the data the message carries are modelled. For example, the cart-based order's "In cart:" and the request-based order's "Requested:" report the same data. The cart's "Product not found" carries no id (`ProductMissing`), while the catalogue's and the order loop's do (`ProductNotFound`).
- Bean Validation on request objects, which runs in the controllers: the services accept an empty order item list, and any quantity, since order item quantities carry only `@NotNull`.
- ProductEntity.Saved: a set id with no row in the table is modelled as refused. `save` on such an object is a JPA merge. Depending on the Hibernate version, the merge either refuses it or inserts it as a new row under a fresh identity. No service saves such an object.
- Entity validation at save is not modelled. JPA checks `Product`'s `@NotBlank`, `@Size` and `@DecimalMin` constraints when a row is persisted or updated.
- Catalog.CreateProduct: a blank name, an over-long name or category, or a price ≤ 0 is rejected by the program when the row is saved; the model stores it and returns success.
- Catalog.UpdateProduct: the same entity constraints are checked when the update is flushed, so a request such as a blank name fails in the program; the model stores it and returns success.
- `Catalog.CreateProduct`: the request's stock is non-null, as `@NotNull` on the request demands. A null stock, rejected at save by the entity, is not modelled there.
- Case folding beyond ASCII and database collation: `IgnoreCase` upper-cases `a`–`z` only, and `existsByName` is the exact, case-sensitive comparison.
- `Orders.GetUserOrders`, `Orders.ConvertOrder` and `Cart.GetCart` require that stored lines name existing products. The foreign keys guarantee this, and `WellFormed` includes it.
- `saveProduct` and `deleteById` are not modelled on their own; they appear only inside the operations that call them.
- Cart read order: `findByUserId` has no `ORDER BY`, and the model reads a user's cart lines in table (insertion) order. `Cart.GetCart`'s item order, `Orders.CreateOrderFromCart`'s line order, and which failing line it reports first all rest on that assumption.
- Order listing order: `findByUserIdOrderByCreatedAtDesc` sorts by `createdAt`, and the model lists orders by their position in the table, newest placed first. The two agree only when the clock `now` passed to successive placements does not go backwards; `createdAt` is not sorted or constrained.
- Duplicate rows in list results: query results are sets, so the length of a list is not stated.
