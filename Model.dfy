/**
 * The entities of the price service: the BRAND and PRICES records, the two
 * transfer objects built from them, and the errors the service raises.
 *
 * Java references that may be null are `Option`s.  Identifiers (Java `long`),
 * price-list numbers and priorities (Java `int`) are only compared, never
 * computed with, so they are unbounded `int`s here.  A timestamp is an `int`
 * (seconds on some fixed clock); the sale price, a Java `double`, is an
 * opaque `Amount` on which nothing is ever computed.
 */
module Model {

  datatype Option<+T> = None | Some(value: T)

  datatype Result<+T> = Success(value: T) | Failure(error: Error)

  type Timestamp = int

  /** The sale price, carried verbatim and never computed with. */
  type Amount = real

  /**
   * A retail chain.  `prices` is the chain's side of the one-to-many
   * association: the ids of the price records it holds, or `None` when the
   * Java set is null (a brand built without one).
   */
  datatype Brand = Brand(
    id: int,
    name: string,
    description: string,
    prices: Option<set<int>>)

  /**
   * One priced interval: product `productId` of brand `brand` costs `price`
   * in currency `curr` from `startDate` to `endDate`, both inclusive; among
   * overlapping records the one with the higher `priority` applies.
   */
  datatype Price = Price(
    priceId: int,
    brand: Option<Brand>,
    startDate: Option<Timestamp>,
    endDate: Option<Timestamp>,
    priceList: int,
    productId: int,
    priority: int,
    price: Amount,
    curr: Option<string>)

  /**
   * The record the no-argument constructor builds: every number zero and
   * every reference null, in particular no brand.
   */
  function DefaultPrice(): (r: Price)
    ensures r.brand.None? && r.startDate.None? && r.endDate.None? && r.curr.None?
    ensures r.priority == 0 && r.priceId == 0
  {
    Price(0, None, None, None, 0, 0, 0, 0.0, None)
  }

  /** The full transfer object of a price record; the brand is reduced to its id. */
  datatype PricesDto = PricesDto(
    priceId: int,
    brandId: int,
    startDate: Option<Timestamp>,
    endDate: Option<Timestamp>,
    priceList: int,
    productId: int,
    priority: int,
    price: Amount,
    curr: Option<string>)

  /** The answer of the price query: product, chain, rate card, price and validity window. */
  datatype PricesExamDto = PricesExamDto(
    productId: int,
    brandId: int,
    priceList: int,
    price: Amount,
    startDate: Option<Timestamp>,
    endDate: Option<Timestamp>)

  /** The empty body the query endpoint sends with its not-found status. */
  function EmptyExamDto(): (r: PricesExamDto)
    ensures r.startDate.None? && r.endDate.None?
  {
    PricesExamDto(0, 0, 0, 0.0, None, None)
  }

  /** What the service layer and the mappers throw. */
  datatype Error =
    // ResourceNotFoundException thrown when a price id is already stored
    | PriceAlreadyExists(priceId: int)
    // ResourceNotFoundException thrown when a price id is not stored
    | PriceNotFound(priceId: int)
    // ResourceNotFoundException thrown when a brand id is not stored
    | BrandNotFound(brandId: int)
    // IllegalArgumentException thrown by the mapper for an unknown brand id
    | IllegalBrandId(brandId: int)
    // NullPointerException from dereferencing an unset brand
    | NullBrand
}
