/** The product records of the catalog, as the component holds them. */
module Catalog {

  /** One catalog entry. `price` is only displayed, never inspected, so it is
      kept as an uninterpreted number. */
  datatype Product = Product(id: int, title: string, price: real, category: string)
}
