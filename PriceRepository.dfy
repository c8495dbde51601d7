/**
 * The price table and its one custom query.
 *
 * The table is the sequence of stored rows in the order a scan returns
 * them; the query keeps that order, and the resolver's tie-break depends on
 * it.  `FindById`, `Save` (an upsert keyed by `priceId`) and `DeleteById`
 * are the in-memory counterparts of the repository's inherited operations.
 */
module PriceRepository {
  import opened Model

  /**
   * The WHERE clause of the query: the timestamp lies in the record's window
   * (`BETWEEN` includes both bounds), and product and brand id match.  A null
   * bound or a null brand makes the SQL condition unknown, so the row is not
   * returned.
   */
  predicate Matches(p: Price, t: Timestamp, idProd: int, idBrand: int): (b: bool)
    ensures p.startDate.None? || p.endDate.None? || p.brand.None? ==> !b
    ensures b ==> p.productId == idProd && p.brand.value.id == idBrand
    ensures b ==> p.startDate.value <= t <= p.endDate.value
  {
    && p.startDate.Some? && p.endDate.Some?
    && p.startDate.value <= t <= p.endDate.value
    && p.productId == idProd
    && p.brand.Some? && p.brand.value.id == idBrand
  }

  /** The rows of `rows` that match, in table order. */
  function FindByDateRequestIdProductIdBrand(rows: seq<Price>, t: Timestamp, idProd: int, idBrand: int)
    : (r: seq<Price>)
    ensures |r| <= |rows|
    ensures forall i :: 0 <= i < |r| ==> r[i] in rows && Matches(r[i], t, idProd, idBrand)
  {
    if rows == [] then []
    else if Matches(rows[0], t, idProd, idBrand) then
      [rows[0]] + FindByDateRequestIdProductIdBrand(rows[1..], t, idProd, idBrand)
    else
      FindByDateRequestIdProductIdBrand(rows[1..], t, idProd, idBrand)
  }

  /** Completeness: every stored row that matches is returned. */
  lemma {:induction false} QueryComplete(rows: seq<Price>, t: Timestamp, idProd: int, idBrand: int, p: Price)
    requires p in rows && Matches(p, t, idProd, idBrand)
    ensures p in FindByDateRequestIdProductIdBrand(rows, t, idProd, idBrand)
  {
    if rows[0] != p {
      QueryComplete(rows[1..], t, idProd, idBrand, p);
    }
  }

  /** A row is returned exactly when it is stored and matches. */
  lemma QueryExact(rows: seq<Price>, t: Timestamp, idProd: int, idBrand: int, p: Price)
    ensures p in FindByDateRequestIdProductIdBrand(rows, t, idProd, idBrand)
        <==> p in rows && Matches(p, t, idProd, idBrand)
  {
    if p in rows && Matches(p, t, idProd, idBrand) {
      QueryComplete(rows, t, idProd, idBrand, p);
    }
  }

  /**
   * Both bounds are inclusive: a stored, matching record is returned when
   * the timestamp equals its start and when it equals its end.
   */
  lemma QueryBoundsInclusive(rows: seq<Price>, p: Price)
    requires p in rows
    requires p.startDate.Some? && p.endDate.Some? && p.startDate.value <= p.endDate.value
    requires p.brand.Some?
    ensures p in FindByDateRequestIdProductIdBrand(rows, p.startDate.value, p.productId, p.brand.value.id)
    ensures p in FindByDateRequestIdProductIdBrand(rows, p.endDate.value, p.productId, p.brand.value.id)
  {
    QueryComplete(rows, p.startDate.value, p.productId, p.brand.value.id, p);
    QueryComplete(rows, p.endDate.value, p.productId, p.brand.value.id, p);
  }

  /**
   * The query keeps table order: querying two stretches of the table one
   * after the other gives the two answers one after the other.
   */
  lemma {:induction false} QueryKeepsOrder(a: seq<Price>, b: seq<Price>, t: Timestamp, idProd: int, idBrand: int)
    ensures FindByDateRequestIdProductIdBrand(a + b, t, idProd, idBrand)
         == FindByDateRequestIdProductIdBrand(a, t, idProd, idBrand)
          + FindByDateRequestIdProductIdBrand(b, t, idProd, idBrand)
  {
    if a == [] {
      assert a + b == b;
    } else {
      assert (a + b)[1..] == a[1..] + b;
      QueryKeepsOrder(a[1..], b, t, idProd, idBrand);
    }
  }

  /** No two rows of the table share a price id (the primary key). */
  ghost predicate DistinctIds(rows: seq<Price>)
  {
    forall i, j :: 0 <= i < j < |rows| ==> rows[i].priceId != rows[j].priceId
  }

  /** The first row with price id `id`, if any. */
  function FindById(rows: seq<Price>, id: int): (r: Option<Price>)
    ensures r.Some? ==> r.value in rows && r.value.priceId == id
    ensures r.None? <==> forall p :: p in rows ==> p.priceId != id
  {
    if rows == [] then None
    else if rows[0].priceId == id then Some(rows[0])
    else FindById(rows[1..], id)
  }

  /** Under a primary key, looking up a row's own id finds that row. */
  lemma {:induction false} FindByIdFindsEachRow(rows: seq<Price>)
    ensures DistinctIds(rows) ==> forall p :: p in rows ==> FindById(rows, p.priceId) == Some(p)
  {
    if rows != [] && DistinctIds(rows) {
      var tail := rows[1..];
      assert DistinctIds(tail) by {
        forall i, j | 0 <= i < j < |tail| ensures tail[i].priceId != tail[j].priceId {
          assert tail[i] == rows[i + 1] && tail[j] == rows[j + 1];
        }
      }
      FindByIdFindsEachRow(tail);
      forall p | p in rows ensures FindById(rows, p.priceId) == Some(p) {
        if p != rows[0] {
          var m :| 0 <= m < |rows| && rows[m] == p;
          assert p in tail by { assert tail[m - 1] == p; }
        }
      }
    }
  }

  /**
   * Upsert: the row with `p`'s id is replaced by `p` where it stands, or `p`
   * is appended when no row has that id.
   */
  function Save(rows: seq<Price>, p: Price): (r: seq<Price>)
    ensures forall q :: q in r ==> q == p || q in rows
    ensures FindById(r, p.priceId) == Some(p)
    ensures forall id :: id != p.priceId ==> FindById(r, id) == FindById(rows, id)
  {
    if rows == [] then [p]
    else if rows[0].priceId == p.priceId then [p] + rows[1..]
    else [rows[0]] + Save(rows[1..], p)
  }

  /** Removes the row with price id `id`; the other rows keep their order. */
  function DeleteById(rows: seq<Price>, id: int): (r: seq<Price>)
    ensures forall q :: q in r ==> q in rows
    ensures FindById(r, id) == None
    ensures forall k :: k != id ==> FindById(r, k) == FindById(rows, k)
  {
    if rows == [] then []
    else if rows[0].priceId == id then DeleteById(rows[1..], id)
    else [rows[0]] + DeleteById(rows[1..], id)
  }

  /** Saving keeps the primary key unique. */
  lemma {:induction false} SaveKeepsIdsDistinct(rows: seq<Price>, p: Price)
    requires DistinctIds(rows)
    ensures DistinctIds(Save(rows, p))
  {
    if rows != [] && rows[0].priceId != p.priceId {
      SaveKeepsIdsDistinct(rows[1..], p);
      var r := Save(rows, p);
      forall i, j | 0 <= i < j < |r| ensures r[i].priceId != r[j].priceId {
        if i == 0 {
          assert r[j] in Save(rows[1..], p);
          if r[j] != p {
            var m :| 1 <= m < |rows| && rows[m] == r[j];
          }
        } else {
          assert r[i] == Save(rows[1..], p)[i - 1] && r[j] == Save(rows[1..], p)[j - 1];
        }
      }
    }
  }

  /** Deleting keeps the primary key unique. */
  lemma {:induction false} DeleteKeepsIdsDistinct(rows: seq<Price>, id: int)
    requires DistinctIds(rows)
    ensures DistinctIds(DeleteById(rows, id))
  {
    if rows != [] {
      DeleteKeepsIdsDistinct(rows[1..], id);
      if rows[0].priceId != id {
        var r := DeleteById(rows, id);
        forall i, j | 0 <= i < j < |r| ensures r[i].priceId != r[j].priceId {
          if i == 0 {
            assert r[j] in DeleteById(rows[1..], id);
            var m :| 1 <= m < |rows| && rows[m] == r[j];
          } else {
            assert r[i] == DeleteById(rows[1..], id)[i - 1] && r[j] == DeleteById(rows[1..], id)[j - 1];
          }
        }
      }
    }
  }
}
