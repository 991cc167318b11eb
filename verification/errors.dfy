/** The exceptions the services throw, by exception class and by what the
    message reports. Message wording is not modelled; the data it carries is. */
module Errors {
  import opened Results

  datatype Reason =
    | UserNotFound
    | ProductNotFound(id: int)
      /** The cart's "Product not found", which does not name the id. */
    | ProductMissing
      /** Order placement: product name, stock available, quantity requested. */
    | InsufficientStock(product: string, available: int, requested: int)
      /** Cart: stock available and, on a merge, the quantity already in the cart. */
    | CartStockExceeded(available: int, alreadyInCart: Option<int>)
      /** `Product.reduceStock`: stock available (null when unset) and quantity requested. */
    | StockShortfall(stock: Option<int>, requested: int)
    | EmptyCart
    | NameTaken(name: string)

  datatype Error =
    | OrderException(reason: Reason)
    | CartException(reason: Reason)
    | ProductException(reason: Reason)
    | IllegalArgument(reason: Reason)
      /** The database rejects deleting a product that a cart or order line still references. */
    | ForeignKeyViolation(product: int)
      /** Unboxing a null `Integer`. */
    | NullPointer
}
