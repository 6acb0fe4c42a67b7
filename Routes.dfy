/**
 * The two HTTP handlers of the recommendation service (backend/backend.py):
 * POST /recommend and POST /record-interaction, with their request validation
 * and the category filter. A request body is given by its fields; a field
 * that is absent is None.
 */
module Routes {
  import opened Wrappers
  import opened Seqs
  import opened Text
  import opened Ranking
  import opened Recommender

  /** The answer of a handler: a JSON body with status 200, 400 or 500. */
  datatype Reply =
    | Recommended(items: seq<Recommendation>)
    | Recorded
    | BadRequest(message: string)
    | ServerError(error: Error)

  /** How many recommendations /recommend asks for. */
  const RecommendationCount := 4

  /** A string field that passes a truthiness test: present and not empty. */
  predicate Given(field: Option<string>)
  {
    field.Some? && field.value != ""
  }

  /** The session of a request: the one it names, or a freshly generated one. */
  function SessionOf(requested: Option<string>, generated: string): (r: string)
    ensures requested.Some? ==> r == requested.value
    ensures requested.None? ==> r == generated
  {
    requested.GetOr(generated)
  }

  /** One "view" interaction per viewed entry, in order. */
  function Views(viewed: seq<string>): (r: seq<Interaction>)
    ensures |r| == |viewed|
    ensures forall k :: 0 <= k < |viewed| ==> r[k] == Interaction(viewed[k], "view")
  {
    if viewed == [] then []
    else Views(viewed[..|viewed| - 1]) + [Interaction(viewed[|viewed| - 1], "view")]
  }

  lemma ViewsStep(log: seq<Interaction>, viewed: seq<string>, i: nat)
    requires i < |viewed|
    ensures log + Views(viewed[..i + 1]) == (log + Views(viewed[..i])) + [Interaction(viewed[i], "view")]
  {
    assert viewed[..i + 1][..i] == viewed[..i];
  }

  lemma UpdateTwice(m: map<string, seq<Interaction>>, k: string, a: seq<Interaction>, b: seq<Interaction>)
    ensures m[k := a][k := b] == m[k := b]
  {
  }

  /** The recommendations whose category equals `category` (already lower-case) ignoring case. */
  function OfCategory(recs: seq<Recommendation>, category: string): (r: seq<Recommendation>)
    ensures forall rec :: rec in r <==> rec in recs && Lower(rec.category) == category
    ensures IsSubsequence(r, recs)
  {
    if recs == [] then []
    else
      assert recs == [recs[0]] + recs[1..];
      var rest := OfCategory(recs[1..], category);
      if Lower(recs[0].category) == category then [recs[0]] + rest else rest
  }

  /** The category filter of /recommend: no filtering for an absent or empty filter or "All". */
  function FilterByCategory(recs: seq<Recommendation>, category: Option<string>): (r: seq<Recommendation>)
    ensures !Given(category) || category.value == "All" ==> r == recs
    ensures Given(category) && category.value != "All" ==>
      forall rec :: rec in r <==> rec in recs && Lower(rec.category) == Lower(category.value)
    ensures IsSubsequence(r, recs)
  {
    if Given(category) && category.value != "All" then OfCategory(recs, Lower(category.value))
    else
      SubsequenceReflexive(recs);
      recs
  }

  lemma {:induction false} SubsequenceReflexive(s: seq<Recommendation>)
    ensures IsSubsequence(s, s)
  {
    if s != [] {
      SubsequenceReflexive(s[1..]);
    }
  }

  /** The reply /recommend sends for the recommender's result. */
  function RecommendReply(result: Result<seq<Recommendation>, Error>, category: Option<string>): (reply: Reply)
    ensures result.Failure? ==> reply == ServerError(result.error)
    ensures reply.Recommended? ==> reply.items != [] && result.Success? && IsSubsequence(reply.items, result.value)
    ensures reply.Recommended? && Given(category) && category.value != "All" ==>
      forall rec :: rec in reply.items ==> Lower(rec.category) == Lower(category.value)
    ensures reply.BadRequest? ==> result.Success? && FilterByCategory(result.value, category) == []
                                  && reply.message == "No matching products found."
    ensures !reply.Recorded?
    ensures result.Success? && FilterByCategory(result.value, category) == [] ==>
              reply == BadRequest("No matching products found.")
    ensures result.Success? && FilterByCategory(result.value, category) != [] ==>
              reply == Recommended(FilterByCategory(result.value, category))
  {
    match result
    case Failure(e) => ServerError(e)
    case Success(recs) =>
      var kept := FilterByCategory(recs, category);
      if kept == [] then BadRequest("No matching products found.") else Recommended(kept)
  }

  /** The weights after one view of each entry of `viewed`, in order. */
  function AfterViews(weights: map<ProductId, nat>, viewed: seq<string>): (r: map<ProductId, nat>)
    ensures forall q :: q in weights ==> q in r
  {
    if viewed == [] then weights
    else
      var init := AfterViews(weights, viewed[..|viewed| - 1]);
      BumpKeys(init, viewed[|viewed| - 1], WeightStep("view"));
      Bump(init, viewed[|viewed| - 1], WeightStep("view"))
  }

  /** One more view extends AfterViews by one bump. */
  lemma AfterViewsStep(weights: map<ProductId, nat>, viewed: seq<string>, i: nat)
    requires i < |viewed|
    ensures AfterViews(weights, viewed[..i + 1]) == Bump(AfterViews(weights, viewed[..i]), viewed[i], WeightStep("view"))
  {
    assert viewed[..i + 1][..i] == viewed[..i];
  }

  /** Every view adds one to its product's weight and nothing to the others'. */
  lemma {:induction false} AfterViewsCounts(weights: map<ProductId, nat>, viewed: seq<string>, q: ProductId)
    ensures WeightOf(AfterViews(weights, viewed), q) == WeightOf(weights, q) + multiset(viewed)[q]
  {
    if viewed != [] {
      var init := viewed[..|viewed| - 1];
      AfterViewsCounts(weights, init, q);
      assert viewed == init + [viewed[|viewed| - 1]];
    }
  }

  /** Records a "view" of every entry of `viewed`, in order, in the given session. */
  method RecordViews(system: RecommendationSystem, sessionId: string, viewed: seq<string>)
    requires system.Valid()
    requires viewed != []
    modifies system
    ensures system.Valid()
    ensures system.products == old(system.products) && system.productIds == old(system.productIds)
    ensures system.sessions == old(system.sessions)[sessionId := old(system.Log(sessionId)) + Views(viewed)]
    ensures system.weights == AfterViews(old(system.weights), viewed)
  {
    ghost var sessions0 := system.sessions;
    ghost var log0 := system.Log(sessionId);
    ghost var weights0 := system.weights;
    system.RecordInteraction(sessionId, viewed[0], "view");
    assert viewed[..1][..0] == [];
    assert Views(viewed[..1]) == [Interaction(viewed[0], "view")];
    assert AfterViews(weights0, viewed[..1]) == Bump(weights0, viewed[0], WeightStep("view"));
    var i := 1;
    while i < |viewed|
      invariant 1 <= i <= |viewed|
      invariant system.Valid()
      invariant system.products == old(system.products) && system.productIds == old(system.productIds)
      invariant system.sessions == sessions0[sessionId := log0 + Views(viewed[..i])]
      invariant system.weights == AfterViews(weights0, viewed[..i])
    {
      RecordNextView(system, sessionId, viewed, i, sessions0, log0, weights0);
      i := i + 1;
    }
    assert viewed[..i] == viewed;
  }

  /** Records the view of `viewed[i]` after the views of the entries before it. */
  method RecordNextView(
    system: RecommendationSystem, sessionId: string, viewed: seq<string>, i: nat,
    ghost sessions0: map<string, seq<Interaction>>, ghost log0: seq<Interaction>, ghost weights0: map<ProductId, nat>)
    requires system.Valid()
    requires i < |viewed|
    requires system.sessions == sessions0[sessionId := log0 + Views(viewed[..i])]
    requires system.weights == AfterViews(weights0, viewed[..i])
    modifies system
    ensures system.Valid()
    ensures system.products == old(system.products) && system.productIds == old(system.productIds)
    ensures system.sessions == sessions0[sessionId := log0 + Views(viewed[..i + 1])]
    ensures system.weights == AfterViews(weights0, viewed[..i + 1])
  {
    ghost var done := log0 + Views(viewed[..i]);
    assert system.Log(sessionId) == done;
    AfterViewsStep(weights0, viewed, i);
    ViewsStep(log0, viewed, i);
    system.RecordInteraction(sessionId, viewed[i], "view");
    UpdateTwice(sessions0, sessionId, done, done + [Interaction(viewed[i], "view")]);
  }

  /** The viewed entries of a request as the recommender receives them: none is None. */
  function AsHistory(viewed: seq<string>): (r: seq<Option<string>>)
    ensures |r| == |viewed|
    ensures forall k :: 0 <= k < |viewed| ==> r[k] == Some(viewed[k])
  {
    seq(|viewed|, k requires 0 <= k < |viewed| => Some(viewed[k]))
  }

  /** The recommender's None-filter drops nothing from a request's history. */
  lemma {:induction false} AsHistoryKeepsEverything(viewed: seq<string>)
    ensures Present(AsHistory(viewed)) == viewed
  {
    if viewed != [] {
      var h := AsHistory(viewed);
      assert h == [Some(viewed[0])] + h[1..];
      assert h[1..] == AsHistory(viewed[1..]);
      AsHistoryKeepsEverything(viewed[1..]);
      assert viewed == [viewed[0]] + viewed[1..];
    }
  }

  /** POST /recommend: rejects an empty history; records a view of every viewed entry, then recommends. */
  method Recommend(
    system: RecommendationSystem, requestedSession: Option<string>, generated: string,
    viewed: seq<string>, category: Option<string>, order: seq<nat>)
    returns (reply: Reply)
    requires system.Valid()
    requires IndicesOf(order, |system.productIds|) && Distinct(order)
    modifies system
    ensures system.Valid()
    ensures system.products == old(system.products) && system.productIds == old(system.productIds)
    ensures viewed == [] ==> reply == BadRequest("No products in browsing history.") && unchanged(system)
    ensures viewed != [] ==> system.sessions == old(system.sessions)[
      SessionOf(requestedSession, generated) := old(system.Log(SessionOf(requestedSession, generated))) + Views(viewed)]
    ensures viewed != [] ==> system.weights == AfterViews(old(system.weights), viewed)
    ensures viewed != [] ==> reply == RecommendReply(
      Recommendations(system.products, system.productIds, system.weightKeys, system.weights,
                      AsHistory(viewed), RecommendationCount, order),
      category)
    ensures reply.Recommended? ==> |reply.items| <= RecommendationCount
    ensures reply.Recommended? ==> forall rec :: rec in reply.items ==> rec.productId in system.products
    ensures reply.ServerError? ==> reply.error.id !in system.products
  {
    if viewed == [] {
      return BadRequest("No products in browsing history.");
    }
    var sessionId := SessionOf(requestedSession, generated);
    RecordViews(system, sessionId, viewed);
    var result := system.GetRecommendations(sessionId, AsHistory(viewed), RecommendationCount, order);
    reply := RecommendReply(result, category);
    if reply.Recommended? {
      SubsequenceElements(reply.items, result.value);
    }
  }

  /** POST /record-interaction: rejects a missing or empty product id, records otherwise. */
  method RecordInteraction(
    system: RecommendationSystem, requestedSession: Option<string>, generated: string,
    productId: Option<string>, kind: Option<string>)
    returns (reply: Reply)
    requires system.Valid()
    modifies system
    ensures system.Valid()
    ensures !Given(productId) ==> reply == BadRequest("Product ID is required.") && unchanged(system)
    ensures Given(productId) ==> reply == Recorded
    ensures Given(productId) ==> system.sessions == old(system.sessions)[
      SessionOf(requestedSession, generated) :=
        old(system.Log(SessionOf(requestedSession, generated))) + [Interaction(productId.value, kind.GetOr("view"))]]
    ensures Given(productId) ==> system.weights == Bump(old(system.weights), productId.value, WeightStep(kind.GetOr("view")))
    ensures Given(productId) && (WeightStep(kind.GetOr("view")) == 0 || productId.value in old(system.weights)) ==>
              system.weightKeys == old(system.weightKeys)
    ensures Given(productId) && WeightStep(kind.GetOr("view")) > 0 && productId.value !in old(system.weights) ==>
              system.weightKeys == old(system.weightKeys) + [productId.value]
    ensures system.products == old(system.products) && system.productIds == old(system.productIds)
  {
    if !Given(productId) {
      return BadRequest("Product ID is required.");
    }
    system.RecordInteraction(SessionOf(requestedSession, generated), productId.value, kind.GetOr("view"));
    return Recorded;
  }
}
