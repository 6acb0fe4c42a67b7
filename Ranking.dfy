/**
 * The value-level logic of the recommendation service (backend/backend.py):
 * price buckets, popularity ranking, the resolution of viewed names to
 * product ids, the selection of the top n from a score ordering and the
 * top-up from popular products. The similarity scores themselves are not
 * modelled: they reach this module only as an ordering of product indices.
 */
module Ranking {
  import opened Wrappers
  import opened Seqs
  import opened Text

  type ProductId = string

  /** A product as the service stores it; the price is in cents. */
  datatype ProductInfo = ProductInfo(
    name: string,
    description: string,
    category: string,
    priceCents: int,
    image: string)

  /** One entry of a recommendation reply. */
  datatype Recommendation = Recommendation(
    productId: ProductId,
    productName: string,
    description: string,
    priceCents: int,
    image: string,
    category: string)

  /** A lookup of a product id the service does not know (a KeyError). */
  datatype Error = UnknownProduct(id: ProductId)

  // ---------------------------------------------------------- price ranges

  datatype PriceRange = Budget | MidRange | Premium | Luxury

  function PriceRangeOf(priceCents: int): (r: PriceRange)
    ensures r == Budget <==> priceCents < 2500
    ensures r == MidRange <==> 2500 <= priceCents < 5000
    ensures r == Premium <==> 5000 <= priceCents < 10000
    ensures r == Luxury <==> 10000 <= priceCents
  {
    if priceCents < 2500 then Budget
    else if priceCents < 5000 then MidRange
    else if priceCents < 10000 then Premium
    else Luxury
  }

  function Tier(r: PriceRange): nat
  {
    match r
    case Budget => 0
    case MidRange => 1
    case Premium => 2
    case Luxury => 3
  }

  /** A dearer product never lands in a cheaper bucket. */
  lemma PriceRangeMonotone(a: int, b: int)
    requires a <= b
    ensures Tier(PriceRangeOf(a)) <= Tier(PriceRangeOf(b))
  {
  }

  // ------------------------------------------------------------- weights

  /** The popularity weight of a product; a product never weighted counts 0. */
  function WeightOf(weights: map<ProductId, nat>, id: ProductId): nat
  {
    if id in weights then weights[id] else 0
  }

  /** How much one interaction of the given kind adds to the product's weight. */
  function WeightStep(kind: string): (r: nat)
    ensures r <= 3
    ensures r == 0 <==> kind != "view" && kind != "cart" && kind != "purchase"
  {
    if kind == "view" then 1
    else if kind == "cart" then 2
    else if kind == "purchase" then 3
    else 0
  }

  /** The weights after adding `step` to one product's weight; a zero step adds no key. */
  function Bump(weights: map<ProductId, nat>, id: ProductId, step: nat): (r: map<ProductId, nat>)
    ensures forall q :: WeightOf(r, q) == WeightOf(weights, q) + (if q == id then step else 0)
  {
    if step > 0 then weights[id := WeightOf(weights, id) + step] else weights
  }

  /** A positive step makes the product a weighted one; a zero step changes nothing. */
  lemma BumpKeys(weights: map<ProductId, nat>, id: ProductId, step: nat)
    ensures forall q :: q in Bump(weights, id, step) <==> q in weights || (step > 0 && q == id)
  {
  }

  predicate ByWeight(s: seq<ProductId>, weights: map<ProductId, nat>)
  {
    forall i, j :: 0 <= i < j < |s| ==> WeightOf(weights, s[i]) >= WeightOf(weights, s[j])
  }

  /** Inserts `x` in front of the first element that does not outweigh it. */
  function InsertByWeight(x: ProductId, s: seq<ProductId>, weights: map<ProductId, nat>): (r: seq<ProductId>)
    ensures multiset(r) == multiset(s) + multiset{x}
    ensures |r| == |s| + 1
  {
    if s == [] || WeightOf(weights, s[0]) <= WeightOf(weights, x) then
      [x] + s
    else
      assert s == [s[0]] + s[1..];
      [s[0]] + InsertByWeight(x, s[1..], weights)
  }

  /** No key of `s` weighs more than `bound`. */
  predicate WeighAtMost(s: seq<ProductId>, weights: map<ProductId, nat>, bound: nat)
  {
    forall k :: 0 <= k < |s| ==> WeightOf(weights, s[k]) <= bound
  }

  lemma {:induction false} InsertByWeightBounded(x: ProductId, s: seq<ProductId>, weights: map<ProductId, nat>, bound: nat)
    requires WeighAtMost(s, weights, bound) && WeightOf(weights, x) <= bound
    ensures WeighAtMost(InsertByWeight(x, s, weights), weights, bound)
  {
    if s != [] && WeightOf(weights, s[0]) > WeightOf(weights, x) {
      InsertByWeightBounded(x, s[1..], weights, bound);
    }
  }

  /** Insertion keeps a sequence ordered by weight. */
  lemma {:induction false} InsertByWeightSorted(x: ProductId, s: seq<ProductId>, weights: map<ProductId, nat>)
    requires ByWeight(s, weights)
    ensures ByWeight(InsertByWeight(x, s, weights), weights)
  {
    if s != [] && WeightOf(weights, s[0]) > WeightOf(weights, x) {
      var rest := InsertByWeight(x, s[1..], weights);
      InsertByWeightSorted(x, s[1..], weights);
      assert WeighAtMost(s[1..], weights, WeightOf(weights, s[0]));
      InsertByWeightBounded(x, s[1..], weights, WeightOf(weights, s[0]));
      var r := [s[0]] + rest;
      assert InsertByWeight(x, s, weights) == r;
      forall i, j | 0 <= i < j < |r| ensures WeightOf(weights, r[i]) >= WeightOf(weights, r[j]) {
        if i > 0 {
          assert r[i] == rest[i - 1] && r[j] == rest[j - 1];
        } else {
          assert r[j] == rest[j - 1];
        }
      }
    }
  }

  /** The keys ordered by non-increasing weight; a stable sort, so ties keep their order. */
  function RankByWeight(keys: seq<ProductId>, weights: map<ProductId, nat>): (r: seq<ProductId>)
    ensures ByWeight(r, weights)
    ensures multiset(r) == multiset(keys)
    ensures |r| == |keys|
  {
    if keys == [] then []
    else
      assert keys == [keys[0]] + keys[1..];
      var ranked := RankByWeight(keys[1..], weights);
      InsertByWeightSorted(keys[0], ranked, weights);
      InsertByWeight(keys[0], ranked, weights)
  }

  /** The keys of the given weight, in their order. */
  function WithWeight(s: seq<ProductId>, weights: map<ProductId, nat>, w: nat): seq<ProductId>
  {
    if s == [] then []
    else (if WeightOf(weights, s[0]) == w then [s[0]] else []) + WithWeight(s[1..], weights, w)
  }

  lemma {:induction false} InsertByWeightStable(x: ProductId, s: seq<ProductId>, weights: map<ProductId, nat>, w: nat)
    ensures WithWeight(InsertByWeight(x, s, weights), weights, w)
         == (if WeightOf(weights, x) == w then [x] else []) + WithWeight(s, weights, w)
  {
    var r := InsertByWeight(x, s, weights);
    var head := if WeightOf(weights, x) == w then [x] else [];
    if s == [] || WeightOf(weights, s[0]) <= WeightOf(weights, x) {
      assert r == [x] + s;
      assert r[0] == x && r[1..] == s;
    } else {
      var rest := InsertByWeight(x, s[1..], weights);
      assert r == [s[0]] + rest;
      assert r[0] == s[0] && r[1..] == rest;
      InsertByWeightStable(x, s[1..], weights, w);
      assert WithWeight(rest, weights, w) == head + WithWeight(s[1..], weights, w);
      if WeightOf(weights, s[0]) == w {
        assert WeightOf(weights, x) != w;
        assert WithWeight(r, weights, w) == [s[0]] + WithWeight(rest, weights, w);
        assert WithWeight(s, weights, w) == [s[0]] + WithWeight(s[1..], weights, w);
      } else {
        assert WithWeight(r, weights, w) == WithWeight(rest, weights, w);
        assert WithWeight(s, weights, w) == WithWeight(s[1..], weights, w);
      }
    }
  }

  /** Keys of equal weight come out of the ranking in the order they went in. */
  lemma {:induction false} RankByWeightStable(keys: seq<ProductId>, weights: map<ProductId, nat>, w: nat)
    ensures WithWeight(RankByWeight(keys, weights), weights, w) == WithWeight(keys, weights, w)
  {
    if keys != [] {
      RankByWeightStable(keys[1..], weights, w);
      InsertByWeightStable(keys[0], RankByWeight(keys[1..], weights), weights, w);
    }
  }

  /** The ids of the n most popular products, heaviest first. */
  function PopularIds(weightKeys: seq<ProductId>, weights: map<ProductId, nat>, n: nat): (r: seq<ProductId>)
    ensures |r| == Min(n, |weightKeys|)
  {
    var ranked := RankByWeight(weightKeys, weights);
    ranked[..Min(n, |ranked|)]
  }

  /** The most popular ids come heaviest first, without repeats, all weighted,
      and no weighted id left out outweighs one taken. */
  lemma PopularIdsSpec(weightKeys: seq<ProductId>, weights: map<ProductId, nat>, n: nat)
    requires Distinct(weightKeys)
    ensures var r := PopularIds(weightKeys, weights, n);
      && ByWeight(r, weights)
      && Distinct(r)
      && (forall id :: id in r ==> id in weightKeys)
      && (forall id, x :: id in weightKeys && id !in r && x in r ==> WeightOf(weights, x) >= WeightOf(weights, id))
  {
    var ranked := RankByWeight(weightKeys, weights);
    var m := Min(n, |ranked|);
    RankedDistinct(weightKeys, weights);
    PrefixOutweighsRest(weightKeys, weights, m);
    forall id | id in ranked[..m] ensures id in weightKeys {
      assert id in multiset(ranked);
    }
  }

  lemma RankedDistinct(keys: seq<ProductId>, weights: map<ProductId, nat>)
    requires Distinct(keys)
    ensures Distinct(RankByWeight(keys, weights))
  {
    var ranked := RankByWeight(keys, weights);
    forall x ensures multiset(ranked)[x] <= 1 {
      DistinctCount(keys, x);
    }
    DistinctFromCounts(ranked);
  }

  /** Cutting the ranking after m entries leaves nothing heavier behind. */
  lemma PrefixOutweighsRest(keys: seq<ProductId>, weights: map<ProductId, nat>, m: nat)
    requires m <= |keys|
    ensures var ranked := RankByWeight(keys, weights);
      forall id, x :: id in keys && id !in ranked[..m] && x in ranked[..m] ==> WeightOf(weights, x) >= WeightOf(weights, id)
  {
    var ranked := RankByWeight(keys, weights);
    forall id, x | id in keys && id !in ranked[..m] && x in ranked[..m]
      ensures WeightOf(weights, x) >= WeightOf(weights, id)
    {
      assert id in multiset(keys);
      assert id in multiset(ranked);
      var j :| 0 <= j < |ranked| && ranked[j] == id;
      var i :| 0 <= i < m && ranked[..m][i] == x;
      assert i < j;
    }
  }

  // -------------------------------------------------------------- lookup

  function RecordFor(products: map<ProductId, ProductInfo>, id: ProductId): Recommendation
    requires id in products
  {
    var p := products[id];
    Recommendation(id, p.name, p.description, p.priceCents, p.image, p.category)
  }

  function IdsOf(recs: seq<Recommendation>): (r: seq<ProductId>)
    ensures |r| == |recs|
    ensures forall k :: 0 <= k < |recs| ==> r[k] == recs[k].productId
  {
    seq(|recs|, k requires 0 <= k < |recs| => recs[k].productId)
  }

  /** Builds the reply entries for the ids in order; fails on the first id that is not a product. */
  function Lookup(products: map<ProductId, ProductInfo>, ids: seq<ProductId>): (r: Result<seq<Recommendation>, Error>)
    ensures r.Success? <==> forall k :: 0 <= k < |ids| ==> ids[k] in products
    ensures r.Success? ==> |r.value| == |ids| && forall k :: 0 <= k < |ids| ==> r.value[k] == RecordFor(products, ids[k])
    ensures r.Failure? ==> exists k :: 0 <= k < |ids| && ids[k] == r.error.id && ids[k] !in products
                                     && forall j :: 0 <= j < k ==> ids[j] in products
  {
    if ids == [] then Success([])
    else if ids[0] !in products then Failure(UnknownProduct(ids[0]))
    else
      assert ids == [ids[0]] + ids[1..];
      match Lookup(products, ids[1..])
      case Failure(e) =>
        var k :| 0 <= k < |ids[1..]| && ids[1..][k] == e.id && ids[1..][k] !in products
                 && forall j :: 0 <= j < k ==> ids[1..][j] in products;
        assert ids[k + 1] == e.id;
        Failure(e)
      case Success(rest) => Success([RecordFor(products, ids[0])] + rest)
  }

  /** The lookup stops at the first unknown id. */
  lemma {:induction false} LookupStopsAt(products: map<ProductId, ProductInfo>, ids: seq<ProductId>, i: nat)
    requires i < |ids| && ids[i] !in products
    requires forall k :: 0 <= k < i ==> ids[k] in products
    ensures Lookup(products, ids) == Failure(UnknownProduct(ids[i]))
  {
    if i > 0 {
      LookupStopsAt(products, ids[1..], i - 1);
    }
  }

  /** When every id is known, the lookup yields their records in order. */
  lemma {:induction false} LookupSucceeds(products: map<ProductId, ProductInfo>, ids: seq<ProductId>, recs: seq<Recommendation>)
    requires forall k :: 0 <= k < |ids| ==> ids[k] in products
    requires |recs| == |ids| && forall k :: 0 <= k < |ids| ==> recs[k] == RecordFor(products, ids[k])
    ensures Lookup(products, ids) == Success(recs)
  {
    if ids != [] {
      LookupSucceeds(products, ids[1..], recs[1..]);
      assert recs == [recs[0]] + recs[1..];
    }
  }

  // ------------------------------------------------------- viewed products

  /** The viewed entries that are not None. */
  function Present(viewed: seq<Option<string>>): (r: seq<string>)
    ensures forall s :: s in r <==> Some(s) in viewed
  {
    if viewed == [] then []
    else
      assert viewed == [viewed[0]] + viewed[1..];
      (if viewed[0].Some? then [viewed[0].value] else []) + Present(viewed[1..])
  }

  /** Some viewed string occurs in the product name, ignoring case. */
  predicate Mentioned(name: string, viewed: seq<string>)
  {
    exists v :: v in viewed && ContainsIgnoringCase(name, v)
  }

  /** The catalog ids, in catalog order, whose product name mentions a viewed string. */
  function ViewedIds(products: map<ProductId, ProductInfo>, productIds: seq<ProductId>, viewed: seq<string>): (r: seq<ProductId>)
    requires forall id :: id in productIds ==> id in products
    ensures forall id :: id in r <==> id in productIds && Mentioned(products[id].name, viewed)
    ensures IsSubsequence(r, productIds)
  {
    if productIds == [] then []
    else
      assert productIds == [productIds[0]] + productIds[1..];
      var rest := ViewedIds(products, productIds[1..], viewed);
      if Mentioned(products[productIds[0]].name, viewed) then [productIds[0]] + rest else rest
  }

  /** An empty history resolves to no product. */
  lemma {:induction false} ViewedIdsOfNothing(products: map<ProductId, ProductInfo>, productIds: seq<ProductId>)
    requires forall id :: id in productIds ==> id in products
    ensures ViewedIds(products, productIds, []) == []
  {
    if productIds != [] {
      ViewedIdsOfNothing(products, productIds[1..]);
    }
  }

  // ------------------------------------------------------------ selection

  predicate IndicesOf(order: seq<nat>, size: nat)
  {
    forall k :: 0 <= k < |order| ==> order[k] < size
  }

  /** The first n indices of the ordering whose product is not excluded. */
  function Pick(order: seq<nat>, productIds: seq<ProductId>, excluded: seq<ProductId>, n: nat): (r: seq<nat>)
    requires IndicesOf(order, |productIds|)
    ensures IndicesOf(r, |productIds|)
    ensures |r| <= n
  {
    if order == [] || n == 0 then []
    else if productIds[order[0]] in excluded then Pick(order[1..], productIds, excluded, n)
    else [order[0]] + Pick(order[1..], productIds, excluded, n - 1)
  }

  /** One step of Pick from position k. */
  lemma PickStep(order: seq<nat>, productIds: seq<ProductId>, excluded: seq<ProductId>, n: nat, k: nat)
    requires IndicesOf(order, |productIds|)
    requires k < |order| && n > 0
    ensures Pick(order[k..], productIds, excluded, n)
         == if productIds[order[k]] in excluded then Pick(order[k + 1..], productIds, excluded, n)
            else [order[k]] + Pick(order[k + 1..], productIds, excluded, n - 1)
  {
    assert order[k..][0] == order[k] && order[k..][1..] == order[k + 1..];
  }

  /** At most n indices, none excluded, in the ordering's order, without repeats;
      fewer than n only when every eligible index was taken. */
  lemma {:induction false} PickSpec(order: seq<nat>, productIds: seq<ProductId>, excluded: seq<ProductId>, n: nat)
    requires IndicesOf(order, |productIds|)
    ensures var r := Pick(order, productIds, excluded, n);
      && |r| <= n
      && (forall i :: i in r ==> i in order && productIds[i] !in excluded)
      && IsSubsequence(r, order)
      && (Distinct(order) ==> Distinct(r))
      && (|r| < n ==> forall i :: i in order && productIds[i] !in excluded ==> i in r)
      && (Distinct(order) ==> forall a, b :: 0 <= a < b < |order| && order[b] in r && productIds[order[a]] !in excluded
                                ==> order[a] in r)
  {
    if Distinct(order) {
      PickTakesEarliest(order, productIds, excluded, n);
    }
    if order != [] && n != 0 {
      assert order == [order[0]] + order[1..];
      if productIds[order[0]] in excluded {
        PickSpec(order[1..], productIds, excluded, n);
      } else {
        PickSpec(order[1..], productIds, excluded, n - 1);
        var rest := Pick(order[1..], productIds, excluded, n - 1);
        DistinctCons(order[0], order[1..]);
        DistinctCons(order[0], rest);
      }
    }
  }

  /** Nothing eligible is skipped: an eligible index before a picked one is picked too. */
  lemma {:induction false} PickTakesEarliest(order: seq<nat>, productIds: seq<ProductId>, excluded: seq<ProductId>, n: nat)
    requires IndicesOf(order, |productIds|) && Distinct(order)
    ensures var r := Pick(order, productIds, excluded, n);
      forall a, b :: 0 <= a < b < |order| && order[b] in r && productIds[order[a]] !in excluded ==> order[a] in r
  {
    if order != [] && n != 0 {
      var rest := order[1..];
      assert order == [order[0]] + rest;
      DistinctCons(order[0], rest);
      var r := Pick(order, productIds, excluded, n);
      if productIds[order[0]] in excluded {
        PickTakesEarliest(rest, productIds, excluded, n);
        forall a, b | 0 <= a < b < |order| && order[b] in r && productIds[order[a]] !in excluded
          ensures order[a] in r
        {
          assert order[a] == rest[a - 1] && order[b] == rest[b - 1];
        }
      } else {
        var tail := Pick(rest, productIds, excluded, n - 1);
        PickTakesEarliest(rest, productIds, excluded, n - 1);
        assert r == [order[0]] + tail;
        forall a, b | 0 <= a < b < |order| && order[b] in r && productIds[order[a]] !in excluded
          ensures order[a] in r
        {
          if a > 0 {
            assert order[a] == rest[a - 1] && order[b] == rest[b - 1];
            assert order[b] in tail;
          }
        }
      }
    }
  }

  function IdsAt(productIds: seq<ProductId>, indices: seq<nat>): (r: seq<ProductId>)
    requires IndicesOf(indices, |productIds|)
    ensures |r| == |indices|
    ensures forall k :: 0 <= k < |indices| ==> r[k] == productIds[indices[k]]
  {
    seq(|indices|, k requires 0 <= k < |indices| => productIds[indices[k]])
  }

  /** The popular ids that are neither already picked nor viewed, in popularity order. */
  function TopUp(popular: seq<ProductId>, picked: seq<ProductId>, viewedIds: seq<ProductId>): (r: seq<ProductId>)
    ensures |r| <= |popular|
  {
    if popular == [] then []
    else (if popular[0] !in picked && popular[0] !in viewedIds then [popular[0]] else [])
         + TopUp(popular[1..], picked, viewedIds)
  }

  /** One step of TopUp from position j. */
  lemma TopUpStep(popular: seq<ProductId>, j: nat, picked: seq<ProductId>, viewedIds: seq<ProductId>)
    requires j < |popular|
    ensures TopUp(popular[j..], picked, viewedIds)
         == (if popular[j] !in picked && popular[j] !in viewedIds then [popular[j]] else [])
            + TopUp(popular[j + 1..], picked, viewedIds)
  {
    assert popular[j..][0] == popular[j] && popular[j..][1..] == popular[j + 1..];
  }

  lemma {:induction false} TopUpSpec(popular: seq<ProductId>, picked: seq<ProductId>, viewedIds: seq<ProductId>)
    ensures var r := TopUp(popular, picked, viewedIds);
      && (forall id :: id in r <==> id in popular && id !in picked && id !in viewedIds)
      && IsSubsequence(r, popular)
      && (Distinct(popular) ==> Distinct(r))
  {
    if popular != [] {
      assert popular == [popular[0]] + popular[1..];
      TopUpSpec(popular[1..], picked, viewedIds);
      var rest := TopUp(popular[1..], picked, viewedIds);
      DistinctCons(popular[0], popular[1..]);
      DistinctCons(popular[0], rest);
      if popular[0] !in picked && popular[0] !in viewedIds {
        var r := [popular[0]] + rest;
        assert r[0] == popular[0] && r[1..] == rest;
      } else {
        assert [] + rest == rest;
      }
    }
  }

  function IndexOf(s: seq<ProductId>, x: ProductId): (i: nat)
    requires x in s
    ensures i < |s| && s[i] == x
    ensures x !in s[..i]
  {
    if s[0] == x then 0
    else
      assert x in s[1..];
      var j := IndexOf(s[1..], x);
      assert s[..j + 1] == [s[0]] + s[1..][..j];
      j + 1
  }

  // ----------------------------------------------------- recommendations

  /** What the service recommends after viewing `viewed`, given the score ordering
      `order` of the catalog indices (best first): nothing before any product
      exists; the n most popular products when nothing viewed resolves to a
      product; otherwise the selection below. */
  function Recommendations(
    products: map<ProductId, ProductInfo>, productIds: seq<ProductId>,
    weightKeys: seq<ProductId>, weights: map<ProductId, nat>,
    viewed: seq<Option<string>>, n: nat, order: seq<nat>): (r: Result<seq<Recommendation>, Error>)
    requires forall id :: id in productIds ==> id in products
    requires Distinct(weightKeys)
    requires IndicesOf(order, |productIds|)
    ensures productIds == [] ==> r == Success([])
    ensures r.Success? ==> |r.value| <= n
  {
    if productIds == [] then Success([])
    else if viewed == [] || Present(viewed) == [] then Lookup(products, PopularIds(weightKeys, weights, n))
    else
      var viewedIds := ViewedIds(products, productIds, Present(viewed));
      if viewedIds == [] then Lookup(products, PopularIds(weightKeys, weights, n))
      else Selection(products, productIds, weightKeys, weights, viewedIds, n, order)
  }

  /** The first n unviewed products of the ordering, topped up with popular
      products that are neither picked nor viewed when fewer than n were found. */
  function Selection(
    products: map<ProductId, ProductInfo>, productIds: seq<ProductId>,
    weightKeys: seq<ProductId>, weights: map<ProductId, nat>,
    viewedIds: seq<ProductId>, n: nat, order: seq<nat>): (r: Result<seq<Recommendation>, Error>)
    requires Distinct(weightKeys)
    requires IndicesOf(order, |productIds|)
    ensures r.Success? ==> |r.value| <= n
  {
    var picked := IdsAt(productIds, Pick(order, productIds, viewedIds, n));
    if |picked| >= n then Lookup(products, picked)
    else Completed(products, weightKeys, weights, picked, viewedIds, n)
  }

  /** Fewer than n were picked: look up the popular ids first (their failure is
      the result), then the picked ids followed by the popular ones not yet taken. */
  function Completed(
    products: map<ProductId, ProductInfo>, weightKeys: seq<ProductId>, weights: map<ProductId, nat>,
    picked: seq<ProductId>, viewedIds: seq<ProductId>, n: nat): (r: Result<seq<Recommendation>, Error>)
    requires |picked| < n
    ensures r.Success? ==> |r.value| <= n
  {
    var popular := PopularIds(weightKeys, weights, n - |picked|);
    if Lookup(products, popular).Failure? then Lookup(products, popular)
    else Lookup(products, picked + TopUp(popular, picked, viewedIds))
  }

  lemma LookupIds(products: map<ProductId, ProductInfo>, ids: seq<ProductId>)
    requires Lookup(products, ids).Success?
    ensures IdsOf(Lookup(products, ids).value) == ids
  {
  }

  /** Indices without repeats into a catalog without repeats name distinct products. */
  lemma IdsAtDistinct(productIds: seq<ProductId>, indices: seq<nat>)
    requires IndicesOf(indices, |productIds|)
    requires Distinct(productIds) && Distinct(indices)
    ensures Distinct(IdsAt(productIds, indices))
  {
  }

  /** A reply of at most n distinct known products, none of them in `excluded`. */
  predicate WellFormedReply(r: seq<Recommendation>, products: map<ProductId, ProductInfo>, excluded: seq<ProductId>, n: nat)
  {
    && |r| <= n
    && Distinct(IdsOf(r))
    && forall k :: 0 <= k < |r| ==> r[k].productId in products && r[k].productId !in excluded
  }

  /** The popular fallback is well formed, and its failure names a weighted id that is no product. */
  lemma PopularLookupWellFormed(products: map<ProductId, ProductInfo>, weightKeys: seq<ProductId>, weights: map<ProductId, nat>, n: nat)
    requires Distinct(weightKeys)
    ensures var r := Lookup(products, PopularIds(weightKeys, weights, n));
      && (r.Success? ==> WellFormedReply(r.value, products, [], n))
      && (r.Failure? ==> r.error.id in weightKeys && r.error.id !in products)
  {
    var popular := PopularIds(weightKeys, weights, n);
    var r := Lookup(products, popular);
    PopularIdsSpec(weightKeys, weights, n);
    if r.Failure? {
      var k :| 0 <= k < |popular| && popular[k] == r.error.id && popular[k] !in products;
      assert popular[k] in popular;
    } else {
      LookupIds(products, popular);
      assert forall k :: 0 <= k < |r.value| ==> r.value[k].productId == popular[k];
    }
  }

  /** The ids picked from the ordering: at most n distinct known products, none viewed. */
  lemma PickedWellFormed(
    products: map<ProductId, ProductInfo>, productIds: seq<ProductId>,
    viewedIds: seq<ProductId>, n: nat, order: seq<nat>)
    requires forall id :: id in productIds ==> id in products
    requires Distinct(productIds) && Distinct(order)
    requires IndicesOf(order, |productIds|)
    ensures var picked := IdsAt(productIds, Pick(order, productIds, viewedIds, n));
      && |picked| <= n && Distinct(picked)
      && forall id :: id in picked ==> id in products && id !in viewedIds
  {
    var picks := Pick(order, productIds, viewedIds, n);
    var picked := IdsAt(productIds, picks);
    PickSpec(order, productIds, viewedIds, n);
    IdsAtDistinct(productIds, picks);
    forall id | id in picked ensures id in products && id !in viewedIds {
      var k :| 0 <= k < |picked| && picked[k] == id;
      assert picks[k] in picks;
    }
  }

  /** A list of distinct known ids, none excluded, looks up to a well-formed reply. */
  lemma LookupWellFormed(products: map<ProductId, ProductInfo>, ids: seq<ProductId>, excluded: seq<ProductId>, n: nat)
    requires |ids| <= n && Distinct(ids)
    requires forall id :: id in ids ==> id in products && id !in excluded
    ensures Lookup(products, ids).Success?
    ensures WellFormedReply(Lookup(products, ids).value, products, excluded, n)
  {
    LookupIds(products, ids);
  }

  lemma SelectionWellFormed(
    products: map<ProductId, ProductInfo>, productIds: seq<ProductId>,
    weightKeys: seq<ProductId>, weights: map<ProductId, nat>,
    viewedIds: seq<ProductId>, n: nat, order: seq<nat>)
    requires forall id :: id in productIds ==> id in products
    requires Distinct(productIds) && Distinct(weightKeys) && Distinct(order)
    requires IndicesOf(order, |productIds|)
    ensures var r := Selection(products, productIds, weightKeys, weights, viewedIds, n, order);
      && (r.Success? ==> WellFormedReply(r.value, products, viewedIds, n))
      && (r.Failure? ==> r.error.id in weightKeys && r.error.id !in products)
  {
    var picked := IdsAt(productIds, Pick(order, productIds, viewedIds, n));
    PickedWellFormed(products, productIds, viewedIds, n, order);
    if |picked| >= n {
      LookupWellFormed(products, picked, viewedIds, n);
    } else {
      var popular := PopularIds(weightKeys, weights, n - |picked|);
      PopularIdsSpec(weightKeys, weights, n - |picked|);
      if Lookup(products, popular).Failure? {
        var e := Lookup(products, popular).error;
        var k :| 0 <= k < |popular| && popular[k] == e.id && popular[k] !in products;
        assert popular[k] in popular;
      } else {
        var extra := TopUp(popular, picked, viewedIds);
        TopUpSpec(popular, picked, viewedIds);
        SubsequenceElements(extra, popular);
        DistinctConcat(picked, extra);
        LookupWellFormed(products, picked + extra, viewedIds, n);
      }
    }
  }

  /** Whatever the ordering: at most n entries, none of them repeated, none of
      them a viewed product, all of them known products; and a failure can only
      come from a weighted id that is not a product. */
  lemma RecommendationsWellFormed(
    products: map<ProductId, ProductInfo>, productIds: seq<ProductId>,
    weightKeys: seq<ProductId>, weights: map<ProductId, nat>,
    viewed: seq<Option<string>>, n: nat, order: seq<nat>)
    requires forall id :: id in productIds ==> id in products
    requires Distinct(productIds) && Distinct(weightKeys) && Distinct(order)
    requires IndicesOf(order, |productIds|)
    ensures var r := Recommendations(products, productIds, weightKeys, weights, viewed, n, order);
      && (r.Success? ==> WellFormedReply(r.value, products, ViewedIds(products, productIds, Present(viewed)), n))
      && (r.Failure? ==> r.error.id in weightKeys && r.error.id !in products)
  {
    if productIds != [] {
      var viewedIds := ViewedIds(products, productIds, Present(viewed));
      if viewed == [] || Present(viewed) == [] || viewedIds == [] {
        if viewed == [] || Present(viewed) == [] {
          ViewedIdsOfNothing(products, productIds);
        }
        PopularLookupWellFormed(products, weightKeys, weights, n);
      } else {
        SelectionWellFormed(products, productIds, weightKeys, weights, viewedIds, n, order);
      }
    }
  }
}
