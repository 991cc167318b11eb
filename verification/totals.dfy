/** Totals of carts and orders. Responses add line totals with
    `reduce(BigDecimal.ZERO, BigDecimal::add)` (exact, left to right) and
    quantities with `IntStream.sum()` (a left fold in 32-bit arithmetic). */
module Totals {
  import opened JavaInt
  import opened ProductEntity
  import opened Store

  /** The exact sum, taken from the front: the reference meaning of a total. */
  function Sum(xs: seq<int>): int {
    if xs == [] then 0 else xs[0] + Sum(xs[1..])
  }

  /** Σ price × quantity over `lines`, at the prices the table holds now. */
  function LinesAmount(products: map<ProductId, Product>, lines: seq<Line>): int
    requires Resolves(products, lines)
  {
    if lines == [] then 0
    else products[lines[0].product].price * lines[0].quantity + LinesAmount(products, lines[1..])
  }

  /** Σ quantity over `lines`, exactly. */
  function Quantity(lines: seq<Line>): int {
    if lines == [] then 0 else lines[0].quantity + Quantity(lines[1..])
  }

  lemma {:induction false} SumSnoc(xs: seq<int>, x: int)
    ensures Sum(xs + [x]) == Sum(xs) + x
  {
    if xs != [] {
      assert (xs + [x])[1..] == xs[1..] + [x];
      SumSnoc(xs[1..], x);
    }
  }

  /** BigDecimal accumulation from left to right: equals the exact sum. */
  function Amount(xs: seq<int>): (r: int)
    ensures r == Sum(xs)
  {
    if xs == [] then 0
    else
      var init := xs[..|xs| - 1];
      assert xs == init + [xs[|xs| - 1]];
      SumSnoc(init, xs[|xs| - 1]);
      Amount(init) + xs[|xs| - 1]
  }

  /** `IntStream.sum()`: each addition wraps, so the result is the exact sum
      truncated to 32 bits, and is exact whenever that sum fits. */
  function Count(xs: seq<Int32>): (r: Int32)
    ensures r == Wrap(Sum(xs))
    ensures MIN_VALUE <= Sum(xs) <= MAX_VALUE ==> r == Sum(xs)
  {
    if xs == [] then 0
    else
      var init := xs[..|xs| - 1];
      var last := xs[|xs| - 1];
      assert xs == init + [last];
      SumSnoc(init, last);
      WrapAbsorbs(Sum(init), last);
      Add(Count(init), last)
  }

  /** Each line's total, price × quantity at the current price, in line order. */
  function LineTotals(products: map<ProductId, Product>, lines: seq<Line>): seq<int>
    requires Resolves(products, lines)
  {
    seq(|lines|, i requires 0 <= i < |lines| => products[lines[i].product].price * lines[i].quantity)
  }

  /** Each line's quantity, in line order. */
  function LineQuantities(lines: seq<Line>): seq<Int32> {
    seq(|lines|, i requires 0 <= i < |lines| => lines[i].quantity)
  }

  /** The line totals add up to the amount of the lines. */
  lemma {:induction false} LineTotalsSum(products: map<ProductId, Product>, lines: seq<Line>)
    requires Resolves(products, lines)
    ensures Sum(LineTotals(products, lines)) == LinesAmount(products, lines)
  {
    if lines != [] {
      var rest := lines[1..];
      assert Resolves(products, rest) by {
        forall i | 0 <= i < |rest| ensures rest[i].product in products {
          assert rest[i] == lines[i + 1];
        }
      }
      assert LineTotals(products, lines)[1..] == LineTotals(products, rest);
      LineTotalsSum(products, rest);
    }
  }

  /** The line quantities add up to the quantity of the lines. */
  lemma {:induction false} LineQuantitiesSum(lines: seq<Line>)
    ensures Sum(LineQuantities(lines)) == Quantity(lines)
  {
    if lines != [] {
      assert LineQuantities(lines)[1..] == LineQuantities(lines[1..]);
      LineQuantitiesSum(lines[1..]);
    }
  }

  /** The amount of lines depends only on the prices of the products they name. */
  lemma {:induction false} LinesAmountSamePrices(a: map<ProductId, Product>, b: map<ProductId, Product>, lines: seq<Line>)
    requires Resolves(a, lines)
    requires forall k :: k in a ==> k in b && b[k].price == a[k].price
    ensures Resolves(b, lines) && LinesAmount(b, lines) == LinesAmount(a, lines)
  {
    if lines != [] {
      var rest := lines[1..];
      assert Resolves(a, rest) by {
        forall i | 0 <= i < |rest| ensures rest[i].product in a {
          assert rest[i] == lines[i + 1];
        }
      }
      LinesAmountSamePrices(a, b, rest);
    }
  }
}
