/** The catalog entity `Product` and its derived out-of-stock flag. */
module Products {

  /** One catalog entry. The price plays no part in searching or ordering
      and is carried only as data. */
  datatype Product = Product(
    id: int,
    name: string,
    description: string,
    price: real,
    availableStock: int,
    imageUrl: string)

  /** A product is out of stock when it has no units left; a negative
      stock counts as none. */
  predicate IsOutOfStock(p: Product)
  {
    p.availableStock <= 0
  }

  /** A product with stock 0 is out of stock. */
  lemma ZeroStockIsOutOfStock(p: Product)
    requires p.availableStock == 0
    ensures IsOutOfStock(p)
  {
  }

  /** A product with positive stock is in stock. */
  lemma PositiveStockIsInStock(p: Product)
    requires p.availableStock > 0
    ensures !IsOutOfStock(p)
  {
  }

  /** The boundary is "at most zero", not "equal to zero": negative stock is
      out of stock too, and the flag is exactly that comparison. */
  lemma OutOfStockIffNoStock(p: Product)
    ensures IsOutOfStock(p) <==> p.availableStock <= 0
    ensures p.availableStock < 0 ==> IsOutOfStock(p)
  {
  }

  /** The flag depends on the stock alone: two products with the same stock
      agree on it whatever their other fields. */
  lemma OutOfStockDependsOnlyOnStock(p: Product, q: Product)
    requires p.availableStock == q.availableStock
    ensures IsOutOfStock(p) == IsOutOfStock(q)
  {
  }
}
