/** `ProductRepository`: what each query returns from the product table.
    Queries without `ORDER BY` return the matching rows in no promised order,
    so they are sets; `findAllCategories` is ordered and returns a sequence. */
module Queries {
  import opened ProductEntity

  // ----- text -----

  /** SQL `UPPER` on ASCII letters; other characters are kept. */
  function Upper(s: string): (r: string)
    ensures |r| == |s|
    ensures forall i :: 0 <= i < |s| && !('a' <= s[i] <= 'z') ==> r[i] == s[i]
    ensures forall i :: 0 <= i < |s| ==> !('a' <= r[i] <= 'z')
  {
    seq(|s|, i requires 0 <= i < |s| => if 'a' <= s[i] <= 'z' then (s[i] as int - 32) as char else s[i])
  }

  predicate EqualsIgnoreCase(a: string, b: string) {
    Upper(a) == Upper(b)
  }

  /** `needle` occurs in `hay` as a contiguous run. */
  predicate Contains(hay: string, needle: string) {
    needle <= hay || (hay != [] && Contains(hay[1..], needle))
  }

  /** Binary collation: strict lexicographic order on character codes. */
  predicate Below(a: string, b: string) {
    if a == [] then b != []
    else if b == [] then false
    else if a[0] != b[0] then a[0] < b[0]
    else Below(a[1..], b[1..])
  }

  predicate StrictlySorted(xs: seq<string>) {
    forall i, j :: 0 <= i < j < |xs| ==> Below(xs[i], xs[j])
  }

  // ----- queries -----

  /** `findAll`. */
  function FindAll(products: map<ProductId, Product>): (r: set<Product>)
    ensures forall k :: k in products ==> products[k] in r
    ensures forall p :: p in r ==> exists k :: k in products && products[k] == p
  {
    set k | k in products :: products[k]
  }

  /** `findByCategory`: exact, case-sensitive match. */
  function FindByCategory(products: map<ProductId, Product>, category: string): (r: set<Product>)
    ensures r <= FindAll(products)
    ensures forall p :: p in FindAll(products) ==> (p in r <==> p.category == category)
  {
    set p | p in products.Values && p.category == category
  }

  /** `findByCategoryIgnoreCase`: `UPPER(category) = UPPER(:category)`. */
  function FindByCategoryIgnoreCase(products: map<ProductId, Product>, category: string): (r: set<Product>)
    ensures r <= FindAll(products)
    ensures forall p :: p in FindAll(products) ==> (p in r <==> Upper(p.category) == Upper(category))
  {
    set p | p in products.Values && EqualsIgnoreCase(p.category, category)
  }

  /** `findAllInStock`: `WHERE p.stock > 0`, i.e. the products that have stock for one unit. */
  function FindAllInStock(products: map<ProductId, Product>): (r: set<Product>)
    ensures r <= FindAll(products)
    ensures forall p :: p in FindAll(products) ==> (p in r <==> HasStock(p, 1))
  {
    set p | p in products.Values && p.stock > 0
  }

  /** `findByCategoryAndInStock`: `WHERE p.category = :category AND p.stock > 0`. */
  function FindByCategoryAndInStock(products: map<ProductId, Product>, category: string): (r: set<Product>)
    ensures r <= FindAll(products)
    ensures forall p :: p in FindAll(products) ==> (p in r <==> p.category == category && IsInStock(p))
  {
    set p | p in products.Values && p.category == category && p.stock > 0
  }

  /** `findByNameContainingIgnoreCase`: `UPPER(name) LIKE UPPER('%' + :name + '%')`. */
  function FindByNameContainingIgnoreCase(products: map<ProductId, Product>, fragment: string): (r: set<Product>)
    ensures r <= FindAll(products)
    ensures forall p :: p in FindAll(products) ==> (p in r <==> Contains(Upper(p.name), Upper(fragment)))
  {
    set p | p in products.Values && Contains(Upper(p.name), Upper(fragment))
  }

  /** `existsByName`: exact match. */
  function ExistsByName(products: map<ProductId, Product>, name: string): (r: bool)
    ensures r <==> exists k :: k in products && products[k].name == name
  {
    name in (set k | k in products :: products[k].name)
  }

  /** The categories present in the table. */
  function Categories(products: map<ProductId, Product>): set<string> {
    set k | k in products :: products[k].category
  }

  /** Adds `x` to a strictly sorted sequence, keeping it strictly sorted and
      without duplicates. */
  function Insert(xs: seq<string>, x: string): (r: seq<string>)
    requires StrictlySorted(xs)
    ensures StrictlySorted(r)
    ensures forall y :: y in r <==> y in xs || y == x
  {
    if xs == [] then [x]
    else if x == xs[0] then xs
    else if Below(x, xs[0]) then
      BelowAll(x, xs);
      [x] + xs
    else
      BelowTotal(x, xs[0]);
      var rest := Insert(xs[1..], x);
      assert forall y :: y in rest ==> Below(xs[0], y) by {
        forall y | y in rest ensures Below(xs[0], y) {
          if y != x {
            var j :| 0 <= j < |xs[1..]| && xs[1..][j] == y;
            assert xs[j + 1] == y;
          }
        }
      }
      ConsSorted(xs[0], rest);
      [xs[0]] + rest
  }

  /** `findAllCategories`: `SELECT DISTINCT p.category ... ORDER BY p.category`:
      every category present exactly once, ascending. */
  method FindAllCategories(products: map<ProductId, Product>) returns (r: seq<string>)
    ensures StrictlySorted(r)
    ensures forall c :: c in r <==> exists k :: k in products && products[k].category == c
  {
    r := [];
    var todo := products.Keys;
    while todo != {}
      invariant todo <= products.Keys
      invariant StrictlySorted(r)
      invariant forall c :: c in r <==> exists k :: k in products.Keys - todo && products[k].category == c
      decreases |todo|
    {
      if forall k :: k !in todo {
        assert false;
      }
      var k :| k in todo;
      r := Insert(r, products[k].category);
      todo := todo - {k};
    }
  }

  // ----- facts about the order -----

  lemma {:induction false} BelowIrreflexive(a: string)
    ensures !Below(a, a)
  {
    if a != [] {
      BelowIrreflexive(a[1..]);
    }
  }

  lemma {:induction false} BelowAsymmetric(a: string, b: string)
    requires Below(a, b)
    ensures !Below(b, a)
  {
    if a != [] && b != [] && a[0] == b[0] {
      BelowAsymmetric(a[1..], b[1..]);
    }
  }

  lemma {:induction false} BelowTransitive(a: string, b: string, c: string)
    requires Below(a, b) && Below(b, c)
    ensures Below(a, c)
  {
    if a != [] && b != [] && c != [] && a[0] == b[0] && b[0] == c[0] {
      BelowTransitive(a[1..], b[1..], c[1..]);
    }
  }

  /** Any two different strings are ordered one way or the other. */
  lemma {:induction false} BelowTotal(a: string, b: string)
    requires a != b
    ensures Below(a, b) || Below(b, a)
  {
    if a != [] && b != [] && a[0] == b[0] {
      assert a == [a[0]] + a[1..] && b == [b[0]] + b[1..];
      BelowTotal(a[1..], b[1..]);
    }
  }

  /** Below the head of a sorted sequence is below all of it. */
  lemma BelowAll(x: string, xs: seq<string>)
    requires StrictlySorted(xs) && xs != [] && Below(x, xs[0])
    ensures forall y :: y in xs ==> Below(x, y)
  {
    forall y | y in xs ensures Below(x, y) {
      if y != xs[0] {
        BelowTransitive(x, xs[0], y);
      }
    }
  }

  lemma ConsSorted(x: string, xs: seq<string>)
    requires StrictlySorted(xs)
    requires forall y :: y in xs ==> Below(x, y)
    ensures StrictlySorted([x] + xs)
  {
    var c := [x] + xs;
    forall i, j | 0 <= i < j < |c| ensures Below(c[i], c[j]) {
      if i > 0 {
        assert c[i] == xs[i - 1] && c[j] == xs[j - 1];
      } else {
        assert c[j] in xs;
      }
    }
  }

  /** A strictly sorted sequence is determined by its elements: the
      category list does not depend on the order rows are scanned in. */
  lemma {:induction false} SortedUnique(a: seq<string>, b: seq<string>)
    requires StrictlySorted(a) && StrictlySorted(b)
    requires forall c :: c in a <==> c in b
    ensures a == b
  {
    assert a != [] ==> a[0] in b;
    assert b != [] ==> b[0] in a;
    if a != [] && b != [] {
      assert a[0] in b && b[0] in a;
      if a[0] != b[0] {
        var i :| 0 <= i < |a| && a[i] == b[0];
        var j :| 0 <= j < |b| && b[j] == a[0];
        assert Below(a[0], a[i]) && Below(b[0], b[j]);
        BelowAsymmetric(a[0], b[0]);
        assert false;
      }
      var ta, tb := a[1..], b[1..];
      assert StrictlySorted(ta) && StrictlySorted(tb) by {
        forall i, j | 0 <= i < j < |ta| ensures Below(ta[i], ta[j]) {
          assert ta[i] == a[i + 1] && ta[j] == a[j + 1];
        }
        forall i, j | 0 <= i < j < |tb| ensures Below(tb[i], tb[j]) {
          assert tb[i] == b[i + 1] && tb[j] == b[j + 1];
        }
      }
      forall c ensures c in ta <==> c in tb {
        if c in ta {
          var i :| 0 <= i < |ta| && ta[i] == c;
          assert Below(a[0], a[i + 1]);
          BelowIrreflexive(c);
          assert c in b && c != b[0];
          var j :| 0 <= j < |b| && b[j] == c;
          assert c == tb[j - 1];
        }
        if c in tb {
          var j :| 0 <= j < |tb| && tb[j] == c;
          assert Below(b[0], b[j + 1]);
          BelowIrreflexive(c);
          assert c in a && c != a[0];
          var i :| 0 <= i < |a| && a[i] == c;
          assert c == ta[i - 1];
        }
      }
      SortedUnique(ta, tb);
    }
  }

  // ----- relations between the queries -----

  /** The case-insensitive category search finds everything the exact one does. */
  lemma CategoryIgnoreCaseWidens(products: map<ProductId, Product>, category: string)
    ensures FindByCategory(products, category) <= FindByCategoryIgnoreCase(products, category)
  {
  }

  /** Category-and-stock is the intersection of the category search and the in-stock search. */
  lemma CategoryAndInStockIsIntersection(products: map<ProductId, Product>, category: string)
    ensures FindByCategoryAndInStock(products, category) == FindByCategory(products, category) * FindAllInStock(products)
  {
  }

  /** An empty fragment is contained in every name. */
  lemma EmptyFragmentFindsAll(products: map<ProductId, Product>)
    ensures FindByNameContainingIgnoreCase(products, "") == FindAll(products)
  {
    forall p | p in products.Values ensures Contains(Upper(p.name), Upper("")) {
      assert Upper("") == [];
    }
  }

  /** Upper-casing is idempotent, so the case of the fragment does not matter. */
  lemma UpperIdempotent(s: string)
    ensures Upper(Upper(s)) == Upper(s)
  {
  }

  lemma NameSearchIgnoresCase(products: map<ProductId, Product>, fragment: string)
    ensures FindByNameContainingIgnoreCase(products, Upper(fragment)) == FindByNameContainingIgnoreCase(products, fragment)
  {
    UpperIdempotent(fragment);
  }
}
