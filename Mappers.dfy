/**
 * Conversions between the price record and its two transfer objects.
 * Both mappers dereference the record's brand, so both require one.  The
 * brand table the entity mapper looks brands up in is a parameter.
 */
module Mappers {
  import opened Model

  /**
   * The full transfer object of a record; the brand becomes its id.  The
   * record can be rebuilt from it and its brand.
   */
  function MapToPricesDto(p: Price): (r: PricesDto)
    requires p.brand.Some?
    ensures r.brandId == p.brand.value.id
    ensures MapToPrices(r, map[r.brandId := p.brand.value]) == Success(p)
  {
    PricesDto(p.priceId, p.brand.value.id, p.startDate, p.endDate,
              p.priceList, p.productId, p.priority, p.price, p.curr)
  }

  /**
   * The record a transfer object describes, linked to the stored brand for
   * its `brandId`; an unknown brand id is an IllegalArgumentException.
   */
  function MapToPrices(d: PricesDto, brands: map<int, Brand>): (r: Result<Price>)
    ensures r.Failure? <==> d.brandId !in brands
    ensures r.Failure? ==> r.error == IllegalBrandId(d.brandId)
    ensures r.Success? ==> r.value.brand == Some(brands[d.brandId])
  {
    if d.brandId !in brands then Failure(IllegalBrandId(d.brandId))
    else Success(Price(d.priceId, Some(brands[d.brandId]), d.startDate, d.endDate,
                       d.priceList, d.productId, d.priority, d.price, d.curr))
  }

  /** The answer of the price query for a record. */
  function MapToPricesExamDto(p: Price): (r: PricesExamDto)
    requires p.brand.Some?
    ensures r.productId == p.productId && r.brandId == p.brand.value.id
    ensures r.startDate == p.startDate && r.endDate == p.endDate
    ensures r.priceList == p.priceList && r.price == p.price
  {
    PricesExamDto(p.productId, p.brand.value.id, p.priceList, p.price, p.startDate, p.endDate)
  }

  /**
   * The full transfer object loses only what the brand holds beyond its id:
   * two linked records have the same one exactly when they agree on every
   * field and on their brand's id.
   */
  lemma PricesDtoKeepsAllButBrand(p: Price, q: Price)
    requires p.brand.Some? && q.brand.Some?
    ensures MapToPricesDto(p) == MapToPricesDto(q)
        <==> p.brand.value.id == q.brand.value.id && p.(brand := q.brand) == q
  {
  }

  /**
   * Transfer object to record and back is the identity when the body's
   * brand id names a stored brand whose id is its key.
   */
  lemma DtoRoundTrip(d: PricesDto, brands: map<int, Brand>)
    requires d.brandId in brands && brands[d.brandId].id == d.brandId
    ensures MapToPrices(d, brands).Success?
    ensures MapToPricesDto(MapToPrices(d, brands).value) == d
  {
  }

  /**
   * Record to transfer object and back is the identity when the record's
   * brand is the one stored under its id.
   */
  lemma EntityRoundTrip(p: Price, brands: map<int, Brand>)
    requires p.brand.Some? && p.brand.value.id in brands && brands[p.brand.value.id] == p.brand.value
    ensures MapToPrices(MapToPricesDto(p), brands) == Success(p)
  {
  }

  /**
   * The query answer is the full transfer object with price id, priority
   * and currency dropped.
   */
  lemma ExamDtoIsProjection(p: Price)
    requires p.brand.Some?
    ensures var d := MapToPricesDto(p);
      MapToPricesExamDto(p) == PricesExamDto(d.productId, d.brandId, d.priceList, d.price, d.startDate, d.endDate)
  {
  }

  /**
   * Two linked records give the same query answer exactly when they agree on
   * product, brand id, rate card, price and both dates; price id, priority,
   * currency and the rest of the brand play no part.
   */
  lemma ExamDtoDependsOnlyOnProjectedFields(p: Price, q: Price)
    requires p.brand.Some? && q.brand.Some?
    ensures MapToPricesExamDto(p) == MapToPricesExamDto(q)
        <==> && p.productId == q.productId && p.brand.value.id == q.brand.value.id
             && p.priceList == q.priceList && p.price == q.price
             && p.startDate == q.startDate && p.endDate == q.endDate
  {
  }
}
