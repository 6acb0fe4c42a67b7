/**
 * The state of the recommendation service (class RecommendationSystem in
 * backend/backend.py): the product table, the per-session interaction logs and
 * the per-product popularity weights, with the operations that update and
 * query them.
 */
module Recommender {
  import opened Wrappers
  import opened Seqs
  import opened Ranking

  /** One logged interaction; the timestamp is not modelled. */
  datatype Interaction = Interaction(productId: ProductId, kind: string)

  class RecommendationSystem {
    var products: map<ProductId, ProductInfo>
    /** The product ids in the order they were first added. */
    var productIds: seq<ProductId>
    var sessions: map<string, seq<Interaction>>
    /** The weighted product ids in the order they first received weight. */
    var weightKeys: seq<ProductId>
    var weights: map<ProductId, nat>

    ghost predicate Valid()
      reads this
    {
      && Distinct(productIds)
      && (forall id :: id in products <==> id in productIds)
      && Distinct(weightKeys)
      && (forall id :: id in weights <==> id in weightKeys)
    }

    constructor ()
      ensures Valid()
      ensures products == map[] && productIds == []
      ensures sessions == map[] && weightKeys == [] && weights == map[]
    {
      products, productIds := map[], [];
      sessions, weightKeys, weights := map[], [], map[];
    }

    /** The interactions logged for a session; a session never seen has none. */
    function Log(sessionId: string): seq<Interaction>
      reads this
    {
      if sessionId in sessions then sessions[sessionId] else []
    }

    function Weight(id: ProductId): nat
      reads this
    {
      WeightOf(weights, id)
    }

    /** Adds or replaces a product; a new id goes to the end of the id order. */
    method AddProduct(id: ProductId, info: ProductInfo)
      requires Valid()
      modifies this
      ensures Valid()
      ensures products == old(products)[id := info]
      ensures productIds == if id in old(products) then old(productIds) else old(productIds) + [id]
      ensures sessions == old(sessions) && weightKeys == old(weightKeys) && weights == old(weights)
    {
      if id !in products {
        DistinctConcat(productIds, [id]);
        productIds := productIds + [id];
      }
      products := products[id := info];
    }

    /** Appends one entry to the session's log and adds the kind's step to the product's weight. */
    method RecordInteraction(sessionId: string, id: ProductId, kind: string)
      requires Valid()
      modifies this
      ensures Valid()
      ensures sessions == old(sessions)[sessionId := old(Log(sessionId)) + [Interaction(id, kind)]]
      ensures weights == Bump(old(weights), id, WeightStep(kind))
      ensures weightKeys == if WeightStep(kind) > 0 && id !in old(weights) then old(weightKeys) + [id] else old(weightKeys)
      ensures products == old(products) && productIds == old(productIds)
    {
      sessions := sessions[sessionId := Log(sessionId) + [Interaction(id, kind)]];
      var step := WeightStep(kind);
      if step > 0 && id !in weights {
        DistinctConcat(weightKeys, [id]);
        weightKeys := weightKeys + [id];
      }
      BumpKeys(weights, id, step);
      weights := Bump(weights, id, step);
    }

    /** The n most popular products, heaviest first; a weighted id that is no product fails. */
    method PopularProducts(n: nat) returns (r: Result<seq<Recommendation>, Error>)
      requires Valid()
      ensures r == Lookup(products, PopularIds(weightKeys, weights, n))
    {
      r := Records(PopularIds(weightKeys, weights, n));
    }

    /** The product records of the ids, in order; the first unknown id fails the whole lookup. */
    method Records(ids: seq<ProductId>) returns (r: Result<seq<Recommendation>, Error>)
      ensures r == Lookup(products, ids)
    {
      var recs: seq<Recommendation> := [];
      var i := 0;
      while i < |ids|
        invariant 0 <= i <= |ids|
        invariant forall k :: 0 <= k < i ==> ids[k] in products
        invariant |recs| == i
        invariant forall k :: 0 <= k < i ==> recs[k] == RecordFor(products, ids[k])
      {
        if ids[i] !in products {
          LookupStopsAt(products, ids, i);
          return Failure(UnknownProduct(ids[i]));
        }
        recs := recs + [RecordFor(products, ids[i])];
        i := i + 1;
      }
      LookupSucceeds(products, ids, recs);
      return Success(recs);
    }

    /** Recommendations for a session that viewed `viewed`, given the ordering of
        the product indices by descending score. */
    method GetRecommendations(sessionId: string, viewed: seq<Option<string>>, n: nat, order: seq<nat>)
      returns (r: Result<seq<Recommendation>, Error>)
      requires Valid()
      requires n >= 1
      requires IndicesOf(order, |productIds|) && Distinct(order)
      ensures r == Recommendations(products, productIds, weightKeys, weights, viewed, n, order)
      ensures r.Success? ==> WellFormedReply(r.value, products, ViewedIds(products, productIds, Present(viewed)), n)
      ensures r.Failure? ==> r.error.id in weightKeys && r.error.id !in products
    {
      RecommendationsWellFormed(products, productIds, weightKeys, weights, viewed, n, order);
      if productIds == [] {
        // no similarity matrix has been built yet
        return Success([]);
      }
      if viewed == [] {
        r := PopularProducts(n);
        return;
      }
      var present := Present(viewed);
      if present == [] {
        r := PopularProducts(n);
        return;
      }
      var viewedIds := ViewedIds(products, productIds, present);
      if viewedIds == [] {
        r := PopularProducts(n);
        return;
      }
      r := Select(viewedIds, n, order);
    }

    /** The selection step of GetRecommendations once the viewed ids are known. */
    method Select(viewedIds: seq<ProductId>, n: nat, order: seq<nat>)
      returns (r: Result<seq<Recommendation>, Error>)
      requires Valid()
      requires n >= 1
      requires IndicesOf(order, |productIds|)
      ensures r == Selection(products, productIds, weightKeys, weights, viewedIds, n, order)
    {
      var picked := PickUnviewed(viewedIds, n, order);
      if |picked| >= n {
        var recs := Build(picked);
        return Success(recs);
      }
      r := Complete(picked, viewedIds, n);
    }

    /** Tops the picked indices up with popular products when fewer than n were picked. */
    method Complete(picked: seq<nat>, viewedIds: seq<ProductId>, n: nat)
      returns (r: Result<seq<Recommendation>, Error>)
      requires Valid()
      requires IndicesOf(picked, |productIds|) && |picked| < n
      ensures r == Completed(products, weightKeys, weights, IdsAt(productIds, picked), viewedIds, n)
    {
      var popular := PopularProducts(n - |picked|);
      if popular.Failure? {
        return popular;
      }
      var recs := Extend(picked, viewedIds, popular.value, PopularIds(weightKeys, weights, n - |picked|));
      r := Success(recs);
    }

    /** The records of the picked products followed by the popular ones neither picked nor viewed. */
    method Extend(picked: seq<nat>, viewedIds: seq<ProductId>, popular: seq<Recommendation>, ghost popularIds: seq<ProductId>)
      returns (recs: seq<Recommendation>)
      requires Valid()
      requires IndicesOf(picked, |productIds|)
      requires Lookup(products, popularIds) == Success(popular)
      ensures Lookup(products, IdsAt(productIds, picked) + TopUp(popularIds, IdsAt(productIds, picked), viewedIds)) == Success(recs)
    {
      KnownIds(popularIds);
      var chosen := AddPopular(picked, viewedIds, popular, popularIds);
      recs := Build(chosen);
    }

    /** Ids that look up successfully are ids of the catalog order. */
    lemma KnownIds(ids: seq<ProductId>)
      requires Valid()
      requires Lookup(products, ids).Success?
      ensures forall k :: 0 <= k < |ids| ==> ids[k] in productIds
    {
      forall k | 0 <= k < |ids| ensures ids[k] in productIds {
        assert ids[k] in ids;
      }
    }

    /** The first n indices of the ordering whose product was not viewed. */
    method PickUnviewed(viewedIds: seq<ProductId>, n: nat, order: seq<nat>) returns (picked: seq<nat>)
      requires n >= 1
      requires IndicesOf(order, |productIds|)
      ensures picked == Pick(order, productIds, viewedIds, n)
    {
      picked := [];
      var k := 0;
      while k < |order|
        invariant 0 <= k <= |order|
        invariant |picked| < n
        invariant picked + Pick(order[k..], productIds, viewedIds, n - |picked|) == Pick(order, productIds, viewedIds, n)
      {
        var idx := order[k];
        PickStep(order, productIds, viewedIds, n - |picked|, k);
        if productIds[idx] !in viewedIds {
          assert (picked + [idx]) + Pick(order[k + 1..], productIds, viewedIds, n - |picked| - 1)
              == picked + ([idx] + Pick(order[k + 1..], productIds, viewedIds, n - |picked| - 1));
          picked := picked + [idx];
        }
        if |picked| == n {
          break;
        }
        k := k + 1;
      }
    }

    /** Appends the index of every popular product that is neither picked nor viewed. */
    method AddPopular(picked: seq<nat>, viewedIds: seq<ProductId>, popular: seq<Recommendation>, ghost popularIds: seq<ProductId>)
      returns (chosen: seq<nat>)
      requires IndicesOf(picked, |productIds|)
      requires |popular| == |popularIds|
      requires forall k :: 0 <= k < |popular| ==> popular[k].productId == popularIds[k] && popularIds[k] in productIds
      ensures IndicesOf(chosen, |productIds|)
      ensures IdsAt(productIds, chosen) == IdsAt(productIds, picked) + TopUp(popularIds, IdsAt(productIds, picked), viewedIds)
    {
      var pickedIds := IdsAt(productIds, picked);
      chosen := picked;
      var j := 0;
      while j < |popular|
        invariant 0 <= j <= |popular|
        invariant IndicesOf(chosen, |productIds|)
        invariant IdsAt(productIds, chosen) + TopUp(popularIds[j..], pickedIds, viewedIds)
               == pickedIds + TopUp(popularIds, pickedIds, viewedIds)
      {
        var id := popular[j].productId;
        TopUpStep(popularIds, j, pickedIds, viewedIds);
        ghost var later := TopUp(popularIds[j + 1..], pickedIds, viewedIds);
        ghost var sofar := IdsAt(productIds, chosen);
        if id !in pickedIds && id !in viewedIds {
          var idx := IndexOf(productIds, id);
          assert IdsAt(productIds, chosen + [idx]) == sofar + [id];
          assert (sofar + [id]) + later == sofar + ([id] + later);
          chosen := chosen + [idx];
        }
        j := j + 1;
      }
    }

    /** The reply entries for the chosen indices, in order. */
    method Build(chosen: seq<nat>) returns (recs: seq<Recommendation>)
      requires Valid()
      requires IndicesOf(chosen, |productIds|)
      ensures Lookup(products, IdsAt(productIds, chosen)) == Success(recs)
    {
      recs := [];
      var i := 0;
      while i < |chosen|
        invariant 0 <= i <= |chosen|
        invariant |recs| == i
        invariant forall q :: 0 <= q < i ==> recs[q] == RecordFor(products, productIds[chosen[q]])
      {
        recs := recs + [RecordFor(products, productIds[chosen[i]])];
        i := i + 1;
      }
      LookupSucceeds(products, IdsAt(productIds, chosen), recs);
    }
  }
}
