/**
 * The price queries of the integration tests, over a three-tier table for
 * product 35455 of brand 1.  Timestamps count seconds from 2020-06-14
 * 00:00:00.  Tier A (priority 0) spans the whole period, tier B
 * (priority 1) runs from 15:00 to 18:30 and tier C (priority 1) from 21:00
 * to midnight of the first day.  With `FirstHighestUnique`, each lemma fixes
 * what the resolver returns.
 */
module Scenarios {
  import opened Model
  import opened PriceRepository
  import opened Service

  function Chain(): (r: Brand)
  {
    Brand(1, "CADENA1", "first chain", Some({1, 2, 3}))
  }

  function TierA(): (r: Price)
  {
    Price(1, Some(Chain()), Some(0), Some(200 * 86400), 1, 35455, 0, 35.50, Some("EUR"))
  }

  function TierB(): (r: Price)
  {
    Price(2, Some(Chain()), Some(15 * 3600), Some(18 * 3600 + 30 * 60), 2, 35455, 1, 25.45, Some("EUR"))
  }

  function TierC(): (r: Price)
  {
    Price(3, Some(Chain()), Some(21 * 3600), Some(86400 - 1), 3, 35455, 1, 30.50, Some("EUR"))
  }

  function Tiers(): (r: seq<Price>)
  {
    [TierA(), TierB(), TierC()]
  }

  /** At 10:00 of the first day only tier A applies. */
  lemma AtTenOnFirstDay()
    ensures FindByDateRequestIdProductIdBrand(Tiers(), 10 * 3600, 35455, 1) == [TierA()]
    ensures IsFirstHighest([TierA()], TierA())
  {
  }

  /** At 16:00 tiers A and B apply and B's higher priority wins. */
  lemma AtSixteenOnFirstDay()
    ensures FindByDateRequestIdProductIdBrand(Tiers(), 16 * 3600, 35455, 1) == [TierA(), TierB()]
    ensures IsFirstHighest([TierA(), TierB()], TierB())
  {
  }

  /** At 21:00, tier C's inclusive start, tiers A and C apply and C wins. */
  lemma AtTwentyOneOnFirstDay()
    ensures FindByDateRequestIdProductIdBrand(Tiers(), 21 * 3600, 35455, 1) == [TierA(), TierC()]
    ensures IsFirstHighest([TierA(), TierC()], TierC())
  {
    assert IsFirstHighestAt([TierA(), TierC()], 1);
  }

  /** At 10:00 and at 21:00 of the second day only tier A applies. */
  lemma OnSecondDay()
    ensures FindByDateRequestIdProductIdBrand(Tiers(), 86400 + 10 * 3600, 35455, 1) == [TierA()]
    ensures FindByDateRequestIdProductIdBrand(Tiers(), 86400 + 21 * 3600, 35455, 1) == [TierA()]
  {
  }

  /** Another product or another brand has no candidate, so the default record is resolved. */
  lemma OtherProductOrBrand()
    ensures FindByDateRequestIdProductIdBrand(Tiers(), 16 * 3600, 35456, 1) == []
    ensures FindByDateRequestIdProductIdBrand(Tiers(), 16 * 3600, 35455, 2) == []
  {
  }
}
