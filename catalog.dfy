/** The product record as the catalog's JSON files carry it, and the record predicates both apps share. */
module Catalog {
  import opened Wrappers

  /** One unit-of-measure entry of a record's `UOMPrices`. */
  datatype PriceEntry = PriceEntry(price: Option<real>, actualStock: Option<real>)

  /**
   * One item of a file's `products.Items`. `Description` and `UOMPrices` are read by direct
   * indexing and so are required; every other key is read with `get` and may be absent.
   * `brand` is the `Brand` key, which only the second app searches.
   */
  datatype Product = Product(
    productCode: Option<string>,
    description: string,
    brandCode: Option<string>,
    brand: Option<string>,
    productLineDesc: Option<string>,
    invGroup: Option<string>,
    imageLink: Option<string>,
    longDescription: Option<string>,
    uomPrices: seq<PriceEntry>)

  /** The price of an entry; an entry without a price counts as priced at zero. */
  function PriceOf(e: PriceEntry): real {
    e.price.GetOr(0.0)
  }

  /** The stock of an entry; an entry without a stock figure counts as having none. */
  function StockOf(e: PriceEntry): real {
    e.actualStock.GetOr(0.0)
  }

  /** Python truthiness of an optional string: present and not empty. */
  predicate Truthy(o: Option<string>) {
    o.Some? && o.value != ""
  }

  /** The category criterion: the choice `"all"` passes every record; any other choice must equal the record's product line, which must be present. */
  predicate CategoryMatches(category: string, p: Product) {
    category == "all" || p.productLineDesc == Some(category)
  }
}
