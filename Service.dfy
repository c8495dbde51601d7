/**
 * The service layer: price resolution, create-with-association and the
 * pass-through store operations, over an in-memory price table and brand
 * table.
 */
module Service {
  import opened Model
  import PriceRepository

  /**
   * `cands[k]` has the highest priority of all candidates and every earlier
   * candidate has a strictly lower one: it is the first of the maximal ones.
   */
  ghost predicate IsFirstHighestAt(cands: seq<Price>, k: int)
    requires 0 <= k < |cands|
  {
    && (forall j :: 0 <= j < |cands| ==> cands[j].priority <= cands[k].priority)
    && (forall j :: 0 <= j < k ==> cands[j].priority < cands[k].priority)
  }

  /** `r` is the first candidate of maximal priority. */
  ghost predicate IsFirstHighest(cands: seq<Price>, r: Price)
  {
    exists k :: 0 <= k < |cands| && cands[k] == r && IsFirstHighestAt(cands, k)
  }

  /** The first candidate of maximal priority is unique: ties have one winner. */
  lemma FirstHighestUnique(cands: seq<Price>, a: Price, b: Price)
    requires IsFirstHighest(cands, a) && IsFirstHighest(cands, b)
    ensures a == b
  {
  }

  /**
   * Whether `savePriceBrand` still has to link the price to the brand: the
   * price has no brand, or another brand, or the brand has no price set.
   */
  predicate NeedsLink(price: Price, brand: Brand)
  {
    price.brand.None? || price.brand.value.id != brand.id || brand.prices.None?
  }

  class PriceBrandService {
    /** The price table, in scan order. */
    var prices: seq<Price>
    /** The brand table, keyed by brand id. */
    var brands: map<int, Brand>

    /**
     * The tables' constraints: the price id is a primary key, every price row
     * has a brand (a NOT NULL join column), and a brand is stored under its id.
     */
    ghost predicate Valid(): (b: bool)
      reads this
      ensures b ==> forall p :: p in prices ==> PriceRepository.FindById(prices, p.priceId) == Some(p)
    {
      PriceRepository.FindByIdFindsEachRow(prices);
      && PriceRepository.DistinctIds(prices)
      && (forall p :: p in prices ==> p.brand.Some?)
      && (forall k :: k in brands ==> brands[k].id == k)
    }

    constructor ()
      ensures Valid() && prices == [] && brands == map[]
    {
      prices := [];
      brands := map[];
    }

    /**
     * Saves a new price together with its brand.  A price id that is
     * already stored fails before anything is saved.  Otherwise, when the
     * price is not yet linked to this brand (or the brand has no price set),
     * the brand's set becomes just this price and the price points at the
     * brand; then both are saved and the brand is returned.  `linked` is the
     * caller's price object as the call leaves it.
     */
    method SavePriceBrand(price: Price, brand: Brand) returns (r: Result<Brand>, linked: Price)
      requires Valid()
      modifies this
      ensures Valid()
      ensures r.Failure? <==> PriceRepository.FindById(old(prices), price.priceId).Some?
      ensures r.Failure? ==>
        && r.error == PriceAlreadyExists(price.priceId)
        && linked == price && prices == old(prices) && brands == old(brands)
      ensures r.Success? ==>
        && r.value.id == brand.id
        && linked.brand == (if NeedsLink(price, brand) then Some(r.value) else price.brand)
        && linked.brand.Some? && linked.brand.value.id == brand.id
        && (NeedsLink(price, brand) ==> r.value == brand.(prices := Some({price.priceId})))
        && (!NeedsLink(price, brand) ==> r.value == brand)
        && linked.(brand := price.brand) == price
        && brands == old(brands)[brand.id := r.value]
        && prices == PriceRepository.Save(old(prices), linked)
        && brand.id in brands && brands[brand.id] == r.value
        && PriceRepository.FindById(prices, price.priceId) == Some(linked)
    {
      var priceBD := PriceRepository.FindById(prices, price.priceId);
      // savePriceBrand also looks the brand up by id and never uses the result
      if priceBD.Some? {
        return Failure(PriceAlreadyExists(price.priceId)), price;
      }
      var b := brand;
      linked := price;
      if NeedsLink(price, brand) {
        b := b.(prices := Some({price.priceId}));
        linked := linked.(brand := Some(b));
      }
      brands := brands[b.id := b];
      PriceRepository.SaveKeepsIdsDistinct(prices, linked);
      prices := PriceRepository.Save(prices, linked);
      r := Success(b);
    }

    /** The stored price with this id, if any. */
    method GetPriceById(id: int) returns (r: Option<Price>)
      requires Valid()
      ensures r == PriceRepository.FindById(prices, id)
      ensures r.Some? ==> r.value in prices && r.value.priceId == id && r.value.brand.Some?
      ensures r.None? <==> forall p :: p in prices ==> p.priceId != id
    {
      r := PriceRepository.FindById(prices, id);
    }

    /** The stored brand with this id, if any. */
    method GetBrandById(id: int) returns (r: Option<Brand>)
      requires Valid()
      ensures r.None? <==> id !in brands
      ensures r.Some? ==> r.value == brands[id] && r.value.id == id
    {
      r := if id in brands then Some(brands[id]) else None;
    }

    /** Every stored price, in table order. */
    method GetAllPrices() returns (r: seq<Price>)
      ensures r == prices
    {
      r := prices;
    }

    /** Upserts the price and returns it. */
    method UpdatePrice(price: Price) returns (r: Price)
      requires Valid()
      requires price.brand.Some?
      modifies this
      ensures Valid()
      ensures r == price
      ensures prices == PriceRepository.Save(old(prices), price) && brands == old(brands)
      ensures PriceRepository.FindById(prices, price.priceId) == Some(price)
      ensures forall id :: id != price.priceId ==>
        PriceRepository.FindById(prices, id) == PriceRepository.FindById(old(prices), id)
    {
      PriceRepository.SaveKeepsIdsDistinct(prices, price);
      prices := PriceRepository.Save(prices, price);
      r := price;
    }

    /** Removes the price with this id, if stored, and nothing else. */
    method DeletePrice(id: int)
      requires Valid()
      modifies this
      ensures Valid()
      ensures prices == PriceRepository.DeleteById(old(prices), id) && brands == old(brands)
      ensures PriceRepository.FindById(prices, id).None?
      ensures forall k :: k != id ==>
        PriceRepository.FindById(prices, k) == PriceRepository.FindById(old(prices), k)
    {
      PriceRepository.DeleteKeepsIdsDistinct(prices, id);
      prices := PriceRepository.DeleteById(prices, id);
    }

    /**
     * Price resolution: among the stored prices that apply to the product
     * and brand at time `t`, the first one of highest priority; the default
     * record (priority 0, no brand) when none applies.  Only reads.
     */
    method FindByDateRequestIdProductIdBrand(t: Timestamp, idProd: int, idBrand: int) returns (found: Price)
      ensures var cands := PriceRepository.FindByDateRequestIdProductIdBrand(prices, t, idProd, idBrand);
        && (|cands| == 0 ==> found == DefaultPrice())
        && (|cands| > 0 ==> IsFirstHighest(cands, found))
    {
      var pricesList := PriceRepository.FindByDateRequestIdProductIdBrand(prices, t, idProd, idBrand);
      found := if |pricesList| > 0 then pricesList[0] else DefaultPrice();
      ghost var k := 0;
      for i := 0 to |pricesList|
        invariant |pricesList| == 0 ==> found == DefaultPrice()
        invariant 0 <= k <= i && (|pricesList| > 0 ==> k < |pricesList| && pricesList[k] == found)
        invariant forall j :: 0 <= j < i ==> pricesList[j].priority <= found.priority
        invariant forall j :: 0 <= j < k ==> pricesList[j].priority < found.priority
      {
        if pricesList[i].priority > found.priority {
          found := pricesList[i];
          k := i;
        }
      }
      if |pricesList| > 0 {
        assert IsFirstHighestAt(pricesList, k);
      }
    }

    /**
     * Resolution with an explicit absent result: `None` exactly when no
     * stored price applies, otherwise the first applicable one of highest
     * priority.
     */
    method FindApplicablePrice(t: Timestamp, idProd: int, idBrand: int) returns (r: Option<Price>)
      ensures var cands := PriceRepository.FindByDateRequestIdProductIdBrand(prices, t, idProd, idBrand);
        && (r.None? <==> |cands| == 0)
        && (r.Some? ==> IsFirstHighest(cands, r.value))
    {
      var pricesList := PriceRepository.FindByDateRequestIdProductIdBrand(prices, t, idProd, idBrand);
      if |pricesList| == 0 {
        r := None;
      } else {
        var found := FindByDateRequestIdProductIdBrand(t, idProd, idBrand);
        r := Some(found);
      }
    }
  }
}
