/**
 * The decision logic of the REST controller.  A response is a status with
 * an optional body; an exception that escapes a handler is `Thrown`, since
 * no handler maps it to a status.
 */
module Controller {
  import opened Model
  import opened Mappers
  import PriceRepository
  import opened Service

  datatype Response<+T> =
    | Ok(body: T)
    | Created(body: T)
    | NoContent
    | BadRequest
    | NotFound(body: T)
    | Thrown(error: Error)

  class PriceBrandController {
    const service: PriceBrandService

    constructor (service: PriceBrandService)
      ensures this.service == service
    {
      this.service := service;
    }

    /** One transfer object per stored price, in table order. */
    method GetAllPrices() returns (r: Response<seq<PricesDto>>)
      requires service.Valid()
      ensures r.Ok? && |r.body| == |service.prices|
      ensures forall i :: 0 <= i < |service.prices| ==> r.body[i] == MapToPricesDto(service.prices[i])
    {
      var pricesList := service.GetAllPrices();
      r := Ok(seq(|pricesList|, i requires 0 <= i < |pricesList| && pricesList[i].brand.Some? =>
                                  MapToPricesDto(pricesList[i])));
    }

    /** The transfer object of the stored price with this id, or not-found. */
    method GetPriceById(id: int) returns (r: Response<PricesDto>)
      requires service.Valid()
      ensures (forall p :: p in service.prices ==> p.priceId != id) <==> r == Thrown(PriceNotFound(id))
      ensures r != Thrown(PriceNotFound(id)) ==>
        exists p :: p in service.prices && p.priceId == id && p.brand.Some? && r == Ok(MapToPricesDto(p))
    {
      var price := service.GetPriceById(id);
      if price.None? {
        return Thrown(PriceNotFound(id));
      }
      r := Ok(MapToPricesDto(price.value));
    }

    /**
     * The price query as written.  The resolver never returns null, so the
     * handler's not-found branch cannot be taken; when no price applies
     * the resolver's default record reaches the mapper, whose dereference of
     * the unset brand throws.
     */
    method GetPriceByCriteria(t: Timestamp, prodId: int, brandId: int) returns (r: Response<PricesExamDto>)
      requires service.Valid()
      ensures var cands := PriceRepository.FindByDateRequestIdProductIdBrand(service.prices, t, prodId, brandId);
        && !r.NotFound?
        && (|cands| == 0 <==> r == Thrown(NullBrand))
        && (|cands| > 0 ==> r.Ok? && exists k :: 0 <= k < |cands| && IsFirstHighestAt(cands, k)
                                                && r.body == MapToPricesExamDto(cands[k]))
    {
      var price := service.FindByDateRequestIdProductIdBrand(t, prodId, brandId);
      // `price != null` always holds here
      if price.brand.None? {
        return Thrown(NullBrand);
      }
      r := Ok(MapToPricesExamDto(price));
    }

    /**
     * The price query as evidently intended: not-found, with the empty
     * body, exactly when no stored price applies; otherwise the answer for
     * the first applicable price of highest priority.
     */
    method GetPriceByCriteriaCorrected(t: Timestamp, prodId: int, brandId: int) returns (r: Response<PricesExamDto>)
      requires service.Valid()
      ensures var cands := PriceRepository.FindByDateRequestIdProductIdBrand(service.prices, t, prodId, brandId);
        && (r.NotFound? <==> |cands| == 0)
        && (r.NotFound? ==> r.body == EmptyExamDto())
        && (!r.NotFound? ==> r.Ok? && exists k :: 0 <= k < |cands| && IsFirstHighestAt(cands, k)
                                                  && r.body == MapToPricesExamDto(cands[k]))
    {
      var price := service.FindApplicablePrice(t, prodId, brandId);
      if price.None? {
        return NotFound(EmptyExamDto());
      }
      r := Ok(MapToPricesExamDto(price.value));
    }

    /**
     * Creates a price from its transfer object.  The mapper's brand lookup
     * comes first, so an unknown brand id fails there; a stored price id
     * fails in the service.  Neither failure changes a table.  On success the
     * price is stored, linked to its brand, and the response echoes the body.
     */
    method CreatePrice(dto: PricesDto) returns (r: Response<PricesDto>)
      requires service.Valid()
      modifies service
      ensures service.Valid()
      ensures dto.brandId !in old(service.brands) ==>
        r == Thrown(IllegalBrandId(dto.brandId))
        && service.prices == old(service.prices) && service.brands == old(service.brands)
      ensures dto.brandId in old(service.brands) && PriceRepository.FindById(old(service.prices), dto.priceId).Some? ==>
        r == Thrown(PriceAlreadyExists(dto.priceId))
        && service.prices == old(service.prices) && service.brands == old(service.brands)
      ensures dto.brandId in old(service.brands) && PriceRepository.FindById(old(service.prices), dto.priceId).None? ==>
        && r == Created(dto)
        && service.brands.Keys == old(service.brands.Keys)
        && (forall k :: k in service.brands && k != dto.brandId ==> service.brands[k] == old(service.brands)[k])
        && service.brands[dto.brandId] ==
             (if old(service.brands)[dto.brandId].prices.None?
              then old(service.brands)[dto.brandId].(prices := Some({dto.priceId}))
              else old(service.brands)[dto.brandId])
        && PriceRepository.FindById(service.prices, dto.priceId).Some?
        && MapToPricesDto(PriceRepository.FindById(service.prices, dto.priceId).value) == dto
        && PriceRepository.FindById(service.prices, dto.priceId).value.brand == Some(service.brands[dto.brandId])
        && service.prices ==
             PriceRepository.Save(old(service.prices), PriceRepository.FindById(service.prices, dto.priceId).value)
        && forall id :: id != dto.priceId ==>
             PriceRepository.FindById(service.prices, id) == PriceRepository.FindById(old(service.prices), id)
    {
      var mapped := MapToPrices(dto, service.brands);
      if mapped.Failure? {
        return Thrown(mapped.error);
      }
      var priceToSave := mapped.value;
      var brand := service.GetBrandById(dto.brandId);
      if brand.None? {
        return Thrown(BrandNotFound(dto.brandId));
      }
      priceToSave := priceToSave.(brand := Some(brand.value));
      var saved, linked := service.SavePriceBrand(priceToSave, brand.value);
      if saved.Failure? {
        return Thrown(saved.error);
      }
      r := Created(MapToPricesDto(linked));
    }

    /**
     * Overwrites a stored price from its transfer object.  A path id that
     * differs from the body's is a bad request; then the price (first) and
     * the brand must be stored.  On success every field but the id is taken
     * from the body, the brand is the stored one, and the response echoes
     * the body.
     */
    method UpdatePrice(id: int, dto: PricesDto) returns (r: Response<PricesDto>)
      requires service.Valid()
      modifies service
      ensures service.Valid()
      ensures id != dto.priceId ==>
        r == BadRequest && service.prices == old(service.prices) && service.brands == old(service.brands)
      ensures id == dto.priceId && PriceRepository.FindById(old(service.prices), id).None? ==>
        r == Thrown(PriceNotFound(id))
        && service.prices == old(service.prices) && service.brands == old(service.brands)
      ensures id == dto.priceId && PriceRepository.FindById(old(service.prices), id).Some?
              && dto.brandId !in old(service.brands) ==>
        r == Thrown(BrandNotFound(dto.brandId))
        && service.prices == old(service.prices) && service.brands == old(service.brands)
      ensures id == dto.priceId && PriceRepository.FindById(old(service.prices), id).Some?
              && dto.brandId in old(service.brands) ==>
        && r == Ok(dto)
        && service.brands == old(service.brands)
        && service.prices == PriceRepository.Save(old(service.prices), MapToPrices(dto, old(service.brands)).value)
    {
      if id != dto.priceId {
        return BadRequest;
      }
      var found := service.GetPriceById(id);
      if found.None? {
        return Thrown(PriceNotFound(id));
      }
      var brand := service.GetBrandById(dto.brandId);
      if brand.None? {
        return Thrown(BrandNotFound(dto.brandId));
      }
      var existingPrice := found.value;
      existingPrice := existingPrice.(price := dto.price);
      existingPrice := existingPrice.(startDate := dto.startDate);
      existingPrice := existingPrice.(endDate := dto.endDate);
      existingPrice := existingPrice.(priceList := dto.priceList);
      existingPrice := existingPrice.(productId := dto.productId);
      existingPrice := existingPrice.(priority := dto.priority);
      existingPrice := existingPrice.(curr := dto.curr);
      existingPrice := existingPrice.(brand := Some(brand.value));
      var updatedPrice := service.UpdatePrice(existingPrice);
      r := Ok(MapToPricesDto(updatedPrice));
    }

    /**
     * Deletes a stored price: not-found, deleting nothing, for an unknown
     * id; otherwise exactly that price is removed and there is no content.
     */
    method DeletePrice(id: int) returns (r: Response<()>)
      requires service.Valid()
      modifies service
      ensures service.Valid()
      ensures service.brands == old(service.brands)
      ensures PriceRepository.FindById(old(service.prices), id).None? ==>
        r == Thrown(PriceNotFound(id)) && service.prices == old(service.prices)
      ensures PriceRepository.FindById(old(service.prices), id).Some? ==>
        && r == NoContent
        && service.prices == PriceRepository.DeleteById(old(service.prices), id)
        && PriceRepository.FindById(service.prices, id).None?
        && forall k :: k != id ==>
             PriceRepository.FindById(service.prices, k) == PriceRepository.FindById(old(service.prices), k)
    {
      var price := service.GetPriceById(id);
      if price.None? {
        return Thrown(PriceNotFound(id));
      }
      service.DeletePrice(id);
      r := NoContent;
    }
  }
}
