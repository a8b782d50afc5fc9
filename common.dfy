/** Values shared by the storefront's components: optional fields, a local-storage slot and the
    product record as the remote catalogue returns it. */
module Common {

  datatype Option<T> = None | Some(value: T)

  /** One key of the browser's local storage: missing, holding a list that parses, or holding
      text that does not parse. */
  datatype Slot<T> = Absent | Holds(value: T) | Unparseable

  type ProductId = string

  /** A row of the `products` table. Prices are decimal amounts; a missing brand, description
      or sale price is `None`. */
  datatype Product = Product(
    id: ProductId,
    title: string,
    price: real,
    salePrice: Option<real>,
    imageUrl: string,
    category: string,
    brand: Option<string>,
    description: Option<string>)

  /** The unit price captured for a cart line: `sale_price || price`. A sale price counts only
      when it is present and non-zero (a zero is falsy); it is not compared with the list price. */
  function EffectivePrice(p: Product): (r: real)
    ensures p.salePrice.Some? && p.salePrice.value != 0.0 ==> r == p.salePrice.value
    ensures p.salePrice.None? || p.salePrice.value == 0.0 ==> r == p.price
  {
    match p.salePrice
    case Some(s) => if s != 0.0 then s else p.price
    case None => p.price
  }
}
