# Price resolution service — Dafny model

This project models the core of a Spring Boot price service for retail
chains ("brands"). A price record gives the sale price of one product of one
brand over an inclusive validity window, with a priority. The service's one
real algorithm is **price resolution**. For a timestamp, a product and a brand,
it first queries the stored records whose window contains the timestamp and
whose product and brand match. Among those it picks the highest priority; on
ties, the first one in query order wins. Around it sit the create, update,
delete and lookup rules of the REST controller, the create-with-association
rule of the service, and two field-copying mappers.

Files and modules:

- `Model.dfy` (`Model`): the `Brand` and `Price` records, the two transfer
  objects, the errors, and the record built by `new PRICES()`
  (`DefaultPrice`).
- `PriceRepository.dfy` (`PriceRepository`): the query as a filter over the
  price table, and the in-memory table operations `FindById`, `Save`
  (upsert) and `DeleteById`.
- `Mappers.dfy` (`Mappers`): `PricesMapper` and `PricesExamMapper`.
- `Service.dfy` (`Service`): class `PriceBrandService`, which holds the
  price table (a sequence in scan order) and the brand table (a map keyed
  by id). It has the resolver loop, `SavePriceBrand` and the pass-through
  operations.
- `Controller.dfy` (`Controller`): class `PriceBrandController`, whose
  handlers return a `Response` value instead of an HTTP response.
- `Scenarios.dfy` (`Scenarios`): the queries of the integration tests over
  a three-tier table.

Modelling choices:

- The Java references the model needs to be null are `Option`s: the
  price's brand, dates and currency, and the brand's price set. The record
  built by `new PRICES()` has all of them unset. The brand's name and
  description are plain strings, since nothing in the model reads them.
- Ids, priorities and rate-card numbers are only compared, never computed
  with, so they are unbounded `int`s.
- A timestamp is an `int`. The `double` price is an `Amount`, and nothing is
  computed with it.
- The price table is a sequence because the tie-break depends on the order
  in which the query returns rows. The model takes that order to be the
  table's order.
- A brand's price set holds price ids. A price holds a copy of its brand.
- `PriceBrandService.Valid()` states three table constraints:
  - the price id is a primary key;
  - every stored price has a brand (`nullable = false` on the join column,
    `model/PRICES.java:33`);
  - every brand is stored under its own id.

Behaviour of the code the model keeps:

- On no match the resolver returns the default record built by
  `new PRICES()`; it never returns null.
- `savePriceBrand` links the price to the brand only when the price has no
  brand, has a brand with another id, or the brand's price set is null
  (`service/impl/PriceBrandServiceImpl.java:57`). In that case it replaces
  the brand's whole price set with `{price}`. Otherwise it leaves both the
  set and the price's brand as they are.
- A price id that is already stored raises `ResourceNotFoundException`.
- `createPrice` for an unknown brand fails inside `mapToPrices` with an
  `IllegalArgumentException`. That happens before the controller's own brand
  lookup, so its "Brand not found" branch
  (`controller/PriceBrandController.java:113-114`) can never be taken.

## Model

| member | source | states |
|---|---|---|
| `Model.EmptyExamDto` | src/main/java/com/javaguides/springboot/controller/PriceBrandController.java:98 | the body built by `new PricesExamDto()` for the not-found answer: no validity window |
| `Model.DefaultPrice` | src/main/java/com/javaguides/springboot/service/impl/PriceBrandServiceImpl.java:154 | the record of the no-argument constructor: no brand, no dates, no currency, id and priority 0 |
| `PriceRepository.Matches` | src/main/java/com/javaguides/springboot/repository/PriceRepository.java:19 | a record with a null start date, end date or brand never matches; a matching record has the asked product and brand id, and its window contains the timestamp |
| `PriceRepository.FindByDateRequestIdProductIdBrand` | src/main/java/com/javaguides/springboot/repository/PriceRepository.java:19-21 | soundness: every returned record is stored and satisfies the WHERE clause (start <= t <= end, same product, same brand id); the answer is no longer than the table |
| `PriceRepository.QueryComplete` | src/main/java/com/javaguides/springboot/repository/PriceRepository.java:19-21 | completeness: every stored record that satisfies the WHERE clause is returned |
| `PriceRepository.QueryExact` | src/main/java/com/javaguides/springboot/repository/PriceRepository.java:19-21 | a record is returned if and only if it is stored and matches |
| `PriceRepository.QueryBoundsInclusive` | src/main/java/com/javaguides/springboot/repository/PriceRepository.java:19 | BETWEEN is inclusive at both ends: a stored record with a non-empty window (start <= end) is returned at its start and at its end for its own product and brand id |
| `PriceRepository.QueryKeepsOrder` | src/main/java/com/javaguides/springboot/repository/PriceRepository.java:19-21 | the answer keeps table order: the query of a + b is the query of a followed by the query of b |
| `PriceRepository.FindByIdFindsEachRow` | src/main/java/com/javaguides/springboot/model/PRICES.java:24-26 | under the primary key every stored row is what a lookup of its own id finds |
| `PriceRepository.FindById` | src/main/java/com/javaguides/springboot/service/impl/PriceBrandServiceImpl.java:101-103 | a found record is stored and has the id asked for; nothing is found exactly when no stored record has that id |
| `PriceRepository.Save` | src/main/java/com/javaguides/springboot/service/impl/PriceBrandServiceImpl.java:118-120 | upsert: afterwards the id finds the saved record, every other id finds what it found before, and no record other than the saved one appears |
| `PriceRepository.DeleteById` | src/main/java/com/javaguides/springboot/service/impl/PriceBrandServiceImpl.java:134-136 | afterwards the id finds nothing, every other id finds what it found before, and no record appears |
| `PriceRepository.SaveKeepsIdsDistinct` | src/main/java/com/javaguides/springboot/model/PRICES.java:24-26 | saving keeps the price id a primary key |
| `PriceRepository.DeleteKeepsIdsDistinct` | src/main/java/com/javaguides/springboot/model/PRICES.java:24-26 | deleting keeps the price id a primary key |
| `Mappers.MapToPricesDto` | src/main/java/com/javaguides/springboot/mapper/PricesMapper.java:30-42 | the DTO carries the brand's id, and mapping it back with that brand gives the record again |
| `Mappers.MapToPricesExamDto` | src/main/java/com/javaguides/springboot/mapper/PricesExamMapper.java:14-24 | the answer carries the record's product, brand id, rate card, price and validity window |
| `Mappers.MapToPrices` | src/main/java/com/javaguides/springboot/mapper/PricesMapper.java:50-67 | fails with IllegalArgumentException exactly when the brand id is not stored; on success the record is linked to the stored brand for that id |
| `Mappers.PricesDtoKeepsAllButBrand` | src/main/java/com/javaguides/springboot/mapper/PricesMapper.java:30-42 | two linked records have the same DTO if and only if they agree on every field and on their brand's id: the DTO copies everything and keeps only the brand's id |
| `Mappers.DtoRoundTrip` | src/main/java/com/javaguides/springboot/mapper/PricesMapper.java:30-66 | mapToPricesDto(mapToPrices(d)) == d when d's brand id names a stored brand whose id is its key |
| `Mappers.EntityRoundTrip` | src/main/java/com/javaguides/springboot/mapper/PricesMapper.java:30-66 | mapToPrices(mapToPricesDto(p)) == p when p's brand is the brand stored under its id |
| `Mappers.ExamDtoIsProjection` | src/main/java/com/javaguides/springboot/mapper/PricesExamMapper.java:14-24 | the exam DTO is the full DTO without price id, priority and currency; its brand id is the record's brand id |
| `Mappers.ExamDtoDependsOnlyOnProjectedFields` | src/main/java/com/javaguides/springboot/mapper/PricesExamMapper.java:15-22 | two linked records have the same exam DTO if and only if they agree on product, brand id, rate card, price and both dates |
| `Service.PriceBrandService.Valid` | src/main/java/com/javaguides/springboot/model/PRICES.java:24-33 | the table constraints: the price id is a primary key (so each row is found by its own id), every price row has a brand, and every brand is stored under its own id (model/BRAND.java:24-26) |
| `Service.NeedsLink` | src/main/java/com/javaguides/springboot/service/impl/PriceBrandServiceImpl.java:57 | the link is (re)made exactly when the price has no brand, has a brand with another id, or the brand's price set is null |
| `Service.FirstHighestUnique` | src/main/java/com/javaguides/springboot/service/impl/PriceBrandServiceImpl.java:156-160 | at most one candidate is the first of highest priority, so ties are decided: the earliest maximal candidate wins |
| `Service.PriceBrandService.FindByDateRequestIdProductIdBrand` | src/main/java/com/javaguides/springboot/service/impl/PriceBrandServiceImpl.java:152-163 | no candidate: the default record (priority 0, no brand); otherwise a candidate whose priority is at least every candidate's and strictly above every earlier one's; the tables are not changed |
| `Service.PriceBrandService.FindApplicablePrice` | src/main/java/com/javaguides/springboot/service/impl/PriceBrandServiceImpl.java:152-163 | corrected resolver: absent exactly when there is no candidate, otherwise the first candidate of highest priority |
| `Service.PriceBrandService.SavePriceBrand` | src/main/java/com/javaguides/springboot/service/impl/PriceBrandServiceImpl.java:49-68 | a stored price id fails with the duplicate error and changes neither table; otherwise, when the link is missing or mismatched or the brand's set is null, the brand's set becomes exactly {price} and the price points at the brand, else both are left as they are; the brand is upserted under its id and the price upserted, so both are stored and the price id finds the linked price; the brand is returned |
| `Service.PriceBrandService.GetPriceById` | src/main/java/com/javaguides/springboot/service/impl/PriceBrandServiceImpl.java:101-103 | the stored record with this id (which has a brand), or absent exactly when no stored record has it |
| `Service.PriceBrandService.GetBrandById` | src/main/java/com/javaguides/springboot/service/impl/PriceBrandServiceImpl.java:110-112 | the brand stored under this id, whose own id is that id, or absent exactly when the id is not a key |
| `Service.PriceBrandService.GetAllPrices` | src/main/java/com/javaguides/springboot/service/impl/PriceBrandServiceImpl.java:92-94 | every stored price in table order |
| `Service.PriceBrandService.UpdatePrice` | src/main/java/com/javaguides/springboot/service/impl/PriceBrandServiceImpl.java:118-120 | upserts the record and returns it; every other id is unaffected; the table constraints still hold |
| `Service.PriceBrandService.DeletePrice` | src/main/java/com/javaguides/springboot/service/impl/PriceBrandServiceImpl.java:134-136 | removes exactly that id; every other id and the brand table are unaffected |
| `Controller.PriceBrandController.GetAllPrices` | src/main/java/com/javaguides/springboot/controller/PriceBrandController.java:53-59 | OK with one DTO per stored price, same length and same order |
| `Controller.PriceBrandController.GetPriceById` | src/main/java/com/javaguides/springboot/controller/PriceBrandController.java:71-75 | not-found error exactly when no stored price has the id; in every other case OK with the DTO of the stored record that has the id |
| `Controller.PriceBrandController.GetPriceByCriteria` | src/main/java/com/javaguides/springboot/controller/PriceBrandController.java:87-100 | as written: never NOT_FOUND; with no candidate, the mapper's dereference of the default record's unset brand throws; otherwise OK with the exam DTO of the first candidate of highest priority |
| `Controller.PriceBrandController.GetPriceByCriteriaCorrected` | src/main/java/com/javaguides/springboot/controller/PriceBrandController.java:92-99 | as intended: NOT_FOUND with the empty body exactly when no candidate exists; otherwise OK with the exam DTO of the first candidate of highest priority |
| `Controller.PriceBrandController.CreatePrice` | src/main/java/com/javaguides/springboot/controller/PriceBrandController.java:111-121 | unknown brand: IllegalArgumentException from the mapper, no change; stored price id: the duplicate error, no change; otherwise CREATED echoing the body; the table is the old one with the new record upserted, which the id finds, whose DTO is the body and whose brand is the stored brand; that brand's price set becomes {id} when it was null and is kept otherwise; every other brand and every other id is unaffected |
| `Controller.PriceBrandController.UpdatePrice` | src/main/java/com/javaguides/springboot/controller/PriceBrandController.java:132-155 | path id different from the body's id: BAD_REQUEST before any lookup; then a missing price, and after it a missing brand, are not-found errors; none of these change anything; on success the record under the id becomes the one built from the body (price, dates, rate card, product, priority, currency and the stored brand; the id kept) and the response echoes the body |
| `Controller.PriceBrandController.DeletePrice` | src/main/java/com/javaguides/springboot/controller/PriceBrandController.java:166-172 | unknown id: not-found error and nothing deleted; known id: exactly that record removed and NO_CONTENT; brands unaffected |
| `Scenarios.AtTenOnFirstDay` | src/test/java/com/javaguides/springboot/PricesBrandControllerIntegrationBDTests/PricesBrandControllerIntegrationBDTests.java:71-74 | at 10:00 only the base tier is a candidate, and it is resolved |
| `Scenarios.AtSixteenOnFirstDay` | src/test/java/com/javaguides/springboot/PricesBrandControllerIntegrationBDTests/PricesBrandControllerIntegrationBDTests.java:91-94 | at 16:00 the base tier and the afternoon tier match; the afternoon tier's priority 1 wins |
| `Scenarios.AtTwentyOneOnFirstDay` | src/test/java/com/javaguides/springboot/PricesBrandControllerIntegrationBDTests/PricesBrandControllerIntegrationBDTests.java:111-114 | at 21:00, the evening tier's own start, the base tier and the evening tier match; the evening tier wins |
| `Scenarios.OnSecondDay` | src/test/java/com/javaguides/springboot/PricesBrandControllerIntegrationBDTests/PricesBrandControllerIntegrationBDTests.java:131-154 | on the next day at 10:00 and 21:00 only the base tier matches |
| `Scenarios.OtherProductOrBrand` | src/main/java/com/javaguides/springboot/repository/PriceRepository.java:19 | another product or another brand has no candidate, so the resolver falls back to the default record |

## Findings

| source | as written | input that shows it | evidently intended | confidence | as-written member | corrected member |
|---|---|---|---|---|---|---|
| src/main/java/com/javaguides/springboot/controller/PriceBrandController.java:92-99 | `findByDateRequestIdProductIdBrand` never returns null (`PriceBrandServiceImpl.java:154` builds `new PRICES()` when nothing matches), so the `price == null` branch never runs. The brandless default record is then passed to `mapToPricesExamDto`, whose `getBrand().getId()` throws a NullPointerException. | an empty price table (or a query for another product), with any timestamp, product and brand | NOT_FOUND with an empty body when no price applies | high (not executed) | `Controller.PriceBrandController.GetPriceByCriteria` | `Controller.PriceBrandController.GetPriceByCriteriaCorrected` |

## Left out

- HTTP transport, routing, Swagger annotations and Spring wiring are left
  out. Responses are `Response` values, and an escaping exception is a
  `Thrown` response, because no exception handler is part of the source.
- JPA mechanics are left out: identity generation of ids, fetch modes,
  cascades and transactions. The repositories are an in-memory table
  (`Save` upserts, `DeleteById` removes the key, `FindById` looks it up).
- The brand table holds values. Java's aliasing between `price.brand` and
  the stored brand object is not modelled. `SavePriceBrand` returns the
  caller's price object as the call leaves it, as `linked`.
- Parsing and formatting of the `yyyy-MM-dd'T'HH:mm:ss` path variable are
  left out (the framework does them). Timestamps are integers.
- The `double` price is never computed with, so it is carried as an opaque
  value.
- Database rejection of rows with null dates or currency is left out. Only
  the not-null brand is a table invariant. A null window bound never
  matches the query, as in SQL.
- `findByPrice`, `saveBrand`, `getAllBrands`, `updateBrand` and
  `deleteBrand` are left out. Nothing in the modelled handlers uses them.
- The brand's price set is the inverse (`mappedBy`) side of the
  association, which the database rebuilds from the price rows' brand
  column. The model stores the set the Java object carries; no response
  depends on it.
- The `Employee` entity is left out; it is unused.
- The test files supply scenarios only. Their H2 seed data is not part of
  this model, so the tiers in `Scenarios` are illustrative.
