# CosmoCart storefront and recommender, modelled in Dafny

CosmoCart is a single-page storefront (`src/App.jsx`) backed by a small
recommendation service (`backend/backend.py`). This project models the
sequential logic of both halves and proves properties of it.

The storefront part covers the following:
- The session token is chosen at page load.
- The cart supports append on add-to-cart and remove-every-entry-with-this-id.
- The append-only viewed-name history is sent whole with every `/recommend` request.
- Recommendations are either the service's reply, kept verbatim, or a local fallback: the first two catalog products whose name differs from the product just added.
- The add-to-cart sequence runs cart append, interaction record, recommendation fetch, then the confirmation dialog.
- The cart total is a sum in integer cents.
- The catalog has a case-insensitive search/category filter and a sorted category list.

The service part covers the following:
- `RecommendationSystem` keeps a product table, per-session interaction logs and per-product popularity weights. A view adds 1, a cart adds 2, a purchase adds 3.
- It has the price-bucket classifier and the popularity ranking.
- It resolves viewed names to product ids by case-insensitive substring match.
- It picks the first n unviewed products of a score ordering and tops them up with popular products.
- It has the two HTTP handlers, with their validation and the case-insensitive category filter.

Modules, in dependency order:
- `Wrappers`: Option and Result.
- `Seqs`: distinctness, subsequences, `Min`.
- `Text`: ASCII case folding, substring search, string order and sorting.
- `Catalog`, `Cart` and `Storefront` (class `Store`): `src/App.jsx`.
- `Ranking`: the value-level logic of the service.
- `Recommender` (class `RecommendationSystem`): the service's state and its methods.
- `Routes`: the two handlers.

Abstractions used throughout:
- Prices are integer cents.
- Every network call of the page is replaced by its outcome (`Ok(data)`, `NotOk`, `Thrown`), which the caller supplies.
- The similarity scores are replaced by an arbitrary ordering `order` of the catalog indices, best first. The selection rules are proved for every such ordering.
- A lookup of a weighted id that is not a product raises a `KeyError` in `_get_popular_products`, which Flask answers with status 500. It is modelled as `Failure(UnknownProduct(id))` and `ServerError`. This path is real: `/recommend` records views keyed by product *names* (`backend/backend.py:438-439`).

Two behaviours worth stating outright:
- Removing an id drops every matching cart entry, not only one.
- A recommendation reply entry carries its category besides its id, name, price, image and description.

## Model

| member | source | states |
|---|---|---|
| Text.Lower | src/App.jsx:52-53 | lower-casing keeps the length and maps each character to its lower-case form |
| Text.ContainsIsSubstring | src/App.jsx:52-53 | `includes` holds exactly when the needle occurs as a contiguous block at some position of the haystack |
| Text.ContainsAt | src/App.jsx:52-53 | a contained needle has a position at which it occurs |
| Text.SortStrings | src/App.jsx:49 | the default sort yields a sorted permutation of its input |
| Text.BelowTotal | src/App.jsx:49 | any two different strings are ordered one way or the other, so the sort order is total |
| Text.BelowTransitive | src/App.jsx:49 | the string order is transitive |
| Catalog.FilterProducts | src/App.jsx:51-56 | a product is shown iff its name or description contains the term ignoring case and the category is "All" or its own; the result is an order-preserving subsequence of the catalog that keeps every matching product's multiplicity |
| Catalog.FilterShowsEverything | src/App.jsx:51-56 | an empty term with "All" shows the whole catalog, in order |
| Catalog.FilterIgnoresTermCase | src/App.jsx:52-53 | the case of the search term does not change the result |
| Catalog.DistinctCategories | src/App.jsx:49 | the `Set` of categories holds each category of the catalog exactly once |
| Catalog.Categories | src/App.jsx:49 | the drop-down list is sorted and holds "All" once plus each catalog category once |
| Catalog.CategoriesDistinct | src/App.jsx:49 | with no product in a category named "All", the list has no repeats, and its entries are exactly "All" and the catalog's categories |
| Catalog.WithoutName | src/App.jsx:104-105 | dropping the entries named `name` keeps every other entry, with its multiplicity and in order |
| Catalog.Fallback | src/App.jsx:104-106 | the fallback is the first min(2, number of other products) catalog products not named `name`, in catalog order |
| Catalog.FallbackHasTwo | src/App.jsx:104-106 | with unique names and at least three products the fallback holds exactly two |
| Catalog.FallbackTakesCatalogHead | src/App.jsx:104-106 | when neither of the first two products carries the name, the fallback is exactly those two |
| Catalog.WithoutNameDropsAtMostOne | src/App.jsx:104-105 | with unique names the name filter removes at most one product |
| Cart.RemoveById | src/App.jsx:121-123 | removal never lengthens the cart |
| Cart.RemoveByIdSpec | src/App.jsx:121-123 | after removal no entry has the id; every other product keeps its multiplicity; the survivors keep their relative order |
| Cart.RemoveByIdAppend | src/App.jsx:122 | removal distributes over concatenation of carts |
| Cart.RemoveAbsentId | src/App.jsx:122 | removing an id the cart does not hold changes nothing |
| Cart.RemoveAfterAddingTwice | src/App.jsx:121-123 | a product added twice is gone entirely after one removal of its id |
| Cart.RemoveIdempotent | src/App.jsx:121-123 | removing the same id twice equals removing it once |
| Cart.Total | src/App.jsx:129-134 | no single entry's price exceeds the total |
| Cart.TotalAppend | src/App.jsx:129-134 | the total of two carts joined is the sum of their totals |
| Cart.TotalAfterAdd | src/App.jsx:129-134 | adding a product raises the total by exactly its price |
| Cart.TotalAfterRemove | src/App.jsx:129-134 | removing by id never raises the total |
| Cart.TotalOfTwoPrices | src/App.jsx:129-134 | $19.99 and $299.99 add up to $319.98 exactly |
| Storefront.SessionToken | src/App.jsx:43 | the token is the stored one when it is present and non-empty, otherwise the generated one |
| Storefront.SessionTokenStable | src/App.jsx:43 | once a non-empty token is stored, every later page load reuses it |
| Storefront.Resolve | src/App.jsx:96-107 | on a successful reply the recommendations are its items verbatim with no capping; on a bad status or a thrown error they are, entry by entry, the fallback: the first min(2, others) catalog products not named `name`, in catalog order |
| Storefront.Displayed | src/App.jsx:284 | the page shows the first min(2, n) recommendations, as a prefix |
| Storefront.InteractionKeepsHistory | src/App.jsx:62-78 | an interaction request leaves the sent viewed histories as they were |
| Storefront.RecommendExtendsHistory | src/App.jsx:82-94 | sending the extended history keeps the invariant that the k-th `/recommend` request carried exactly the first k+1 viewed names |
| Storefront.Store.constructor | src/App.jsx:39-60 | the page starts with an empty cart, history and recommendations, a closed dialog, and the chosen token written back to storage |
| Storefront.Store.RecordInteraction | src/App.jsx:62-78 | exactly one interaction request with this page's token is logged, whatever its outcome, and nothing else changes |
| Storefront.Store.FetchRecommendations | src/App.jsx:80-109 | the history grows by `name`; that whole history is the payload sent; the recommendations become the resolved reply or the fallback |
| Storefront.Store.AddToCart | src/App.jsx:111-119 | the cart grows by the product at the end; an interaction request then a `/recommend` request are sent, in that order; the recommendations are resolved even when the interaction failed; the dialog opens with the product |
| Storefront.Store.RemoveFromCart | src/App.jsx:121-123 | the cart becomes the old cart without the id's entries; nothing else changes |
| Ranking.PriceRangeOf | backend/backend.py:173-182 | below 25 is budget, below 50 is mid range, below 100 is premium, otherwise luxury; each bucket holds exactly its interval |
| Ranking.PriceRangeMonotone | backend/backend.py:173-182 | a dearer price never lands in a cheaper bucket |
| Ranking.WeightStep | backend/backend.py:57-63 | an interaction adds at most 3, and adds nothing exactly when its type is none of view, cart and purchase |
| Ranking.Bump | backend/backend.py:57-63 | the product's weight rises by the step and every other product's weight is unchanged |
| Ranking.BumpKeys | backend/backend.py:57-63 | a positive step makes the product a weighted one; an unknown interaction type adds no key |
| Ranking.InsertByWeightSorted | backend/backend.py:186-190 | inserting into a list ordered by weight keeps it ordered |
| Ranking.RankByWeight | backend/backend.py:186-190 | the ranking is a permutation of the weighted ids in non-increasing weight order |
| Ranking.RankByWeightStable | backend/backend.py:186-190 | the sort is stable: ids of equal weight keep the order in which they were first weighted |
| Ranking.PopularIds | backend/backend.py:186-193 | the popular ids number min(n, number of weighted ids) |
| Ranking.PopularIdsSpec | backend/backend.py:184-204 | the popular ids are heaviest first, distinct and weighted, and no weighted id left out outweighs one taken |
| Ranking.Lookup | backend/backend.py:192-204 | the lookup succeeds iff every id is a product, then yields each id's record in order; otherwise it fails on the first unknown id |
| Ranking.LookupStopsAt | backend/backend.py:192-194 | the lookup fails with the first unknown id |
| Ranking.Present | backend/backend.py:74 | the entries kept are exactly the non-None viewed entries |
| Ranking.ViewedIds | backend/backend.py:79-82 | an id is viewed iff it is a catalog id whose name contains some viewed string ignoring case; the result keeps catalog order |
| Ranking.ViewedIdsOfNothing | backend/backend.py:71-85 | an empty history resolves to no product |
| Ranking.Pick | backend/backend.py:134-143 | the picked entries are at most n catalog indices |
| Ranking.PickSpec | backend/backend.py:134-143 | at most n indices are picked, none viewed, in the ordering's order, without repeats; fewer than n only when every unviewed index was taken; no unviewed index is skipped in favour of a later one |
| Ranking.PickTakesEarliest | backend/backend.py:139-143 | an unviewed index that comes before a picked one in the ordering is picked too, so the picks are the first n unviewed indices |
| Ranking.TopUp | backend/backend.py:146-155 | the top-up adds no more ids than the popular list holds |
| Ranking.TopUpSpec | backend/backend.py:145-155 | the top-up holds exactly the popular ids that are neither picked nor viewed, in popularity order, without repeats |
| Ranking.IndexOf | backend/backend.py:152 | `list.index` finds the first position of the id |
| Ranking.Recommendations | backend/backend.py:65-171 | with no catalog the result is empty; a successful result holds at most n entries |
| Ranking.Selection | backend/backend.py:134-171 | a successful selection plus top-up holds at most n entries |
| Ranking.Completed | backend/backend.py:145-171 | the picked products followed by the top-up hold at most n entries |
| Ranking.PopularLookupWellFormed | backend/backend.py:184-204 | the popular products are at most n distinct products; a failure names a weighted id that is no product |
| Ranking.SelectionWellFormed | backend/backend.py:134-171 | for any ordering, the selection plus top-up is at most n distinct products, none viewed; a failure names a weighted id that is no product |
| Ranking.RecommendationsWellFormed | backend/backend.py:65-171 | for any ordering, the recommendations are at most n distinct known products, none of them viewed, and a failure only comes from a weighted id that is no product |
| Recommender.RecommendationSystem.constructor | backend/backend.py:13-19 | the service starts with no products, sessions or weights |
| Recommender.RecommendationSystem.AddProduct | backend/backend.py:21-47 | the product is stored; a new id goes to the end of the catalog order and a replaced one keeps its place |
| Recommender.RecommendationSystem.RecordInteraction | backend/backend.py:49-63 | exactly one entry is appended to that session's log and the other logs are unchanged; the weight rises by 1, 2 or 3 for view, cart or purchase, and by nothing otherwise; products are unchanged |
| Recommender.RecommendationSystem.PopularProducts | backend/backend.py:184-204 | the result is the lookup of the n most popular ids |
| Recommender.RecommendationSystem.Records | backend/backend.py:192-204 | the loop builds the records of the ids in order, or fails on the first unknown id |
| Recommender.RecommendationSystem.GetRecommendations | backend/backend.py:65-171 | the result is the recommendation function of the state; with no catalog it is empty; a success is well formed and a failure names a weighted id that is no product |
| Recommender.RecommendationSystem.Select | backend/backend.py:134-171 | the loop-based selection equals the selection function |
| Recommender.RecommendationSystem.Complete | backend/backend.py:145-171 | when fewer than n were picked, the result is the popular lookup's failure or the picked products followed by the top-up |
| Recommender.RecommendationSystem.Extend | backend/backend.py:145-171 | the built records are those of the picked ids followed by the top-up ids |
| Recommender.RecommendationSystem.PickUnviewed | backend/backend.py:135-143 | the loop with its `break` picks exactly the first n unviewed indices of the ordering |
| Recommender.RecommendationSystem.AddPopular | backend/backend.py:146-155 | the loop appends exactly the indices of the popular products neither picked nor viewed, in popularity order |
| Recommender.RecommendationSystem.Build | backend/backend.py:157-171 | the reply entries are the records of the chosen indices, in order |
| Routes.SessionOf | backend/backend.py:431 | the session is the one the request names, otherwise the freshly generated one |
| Routes.AfterViews | backend/backend.py:438-439 | the weights after recording each viewed entry as a view, in order; no weighted id loses its entry |
| Routes.Views | backend/backend.py:438-439 | one "view" interaction per viewed entry, in order |
| Routes.AfterViewsCounts | backend/backend.py:438-439 | recording the views raises each product's weight by the number of times it was viewed and leaves every other weight unchanged |
| Routes.OfCategory | backend/backend.py:444-448 | the kept entries are exactly those whose lower-cased category equals the filter, in order |
| Routes.FilterByCategory | backend/backend.py:444-448 | an absent or empty filter or "All" keeps everything; otherwise it keeps exactly the entries whose category equals the filter ignoring case, as a subsequence |
| Routes.RecommendReply | backend/backend.py:441-453 | a failed recommendation becomes a 500; for a successful one, an empty filtered list becomes the 400 "No matching products found." and otherwise the whole filtered list is the 200 reply |
| Routes.RecordViews | backend/backend.py:437-439 | the session's log grows by one view per entry and the weights become those after the views; products are unchanged |
| Routes.RecordNextView | backend/backend.py:438-439 | one more view extends the log and the weights by one step |
| Routes.AsHistoryKeepsEverything | backend/backend.py:441 | the request's history reaches the recommender whole: its None-filter drops no entry and keeps the order |
| Routes.Recommend | backend/backend.py:427-453 | an empty history gives the 400 "No products in browsing history." with nothing changed; otherwise every entry is recorded as a view in the request's session, and the reply is the filtered recommendation for four; a 200 reply holds at most four known products; a 500 names an id that is no product |
| Routes.RecordInteraction | backend/backend.py:455-466 | a missing or empty product id gives the 400 "Product ID is required." with nothing changed; otherwise the interaction is recorded with type "view" by default |

## Left out

- Similarity scores (`backend/backend.py:88-132`) are abstracted. TF-IDF vectorisation, cosine similarity, the score normalisation, the diversity bonuses and `np.argsort` are floating-point and foreign code. The model takes an arbitrary ordering of the catalog indices in their place. Every selection property is proved for all orderings.
- Interaction timestamps (`np.datetime64('now')`) are clock reads and are not logged.
- Flask, CORS and JSON (de)serialisation are out of scope. A request is given by its fields, with `None` for an absent field, and a reply by its kind and message.
- The `viewed_products` array of `/recommend` is modelled as a list of strings. A JSON `null` entry, which `get_recommendations` skips, is not modelled at the handler; `Recommender.RecommendationSystem.GetRecommendations` does handle it.
- `fetch` I/O, `Math.random`, `uuid.uuid4()` and `localStorage` are inputs. Their outcome, the generated token and the stored token are parameters.
- Prices are integer cents instead of floats. `parseFloat` and `toFixed(2)` are not modelled.
- Rendering, the theme toggle, the modals' markup and the icons are not modelled. Only the dialog's open/closed state and the two displayed recommendations are.
- Concurrent add-to-cart invocations interleaving at their awaits are not modelled. Each operation runs to completion.
- Case folding is ASCII only. `toLowerCase` and Python's `lower` also fold non-ASCII letters.
- The default JavaScript sort compares UTF-16 code units. The model compares characters, which agrees on the catalog's ASCII categories.
- The static catalogs of both files are not modelled. Only their shape is.
- Numeric ids sent by the page versus string ids kept by the service are treated as opaque keys on each side.
- Recommender.RecommendationSystem.GetRecommendations: requires `n >= 1`. With `n = 0` the `len == n` test after an append never holds, and no caller passes 0.
- Recommender.RecommendationSystem.GetRecommendations: reading `user_sessions[session_id]` on a `defaultdict` inserts an empty log for an unseen session. The model leaves the logs unchanged, since only the time weight, which is not modelled, depends on that read.
- Routes.Recommend: states the new logs and weights but not the new order of first-weighted ids. That order only breaks ties among equally popular products.
- Routes.Recommend: the loop of views is proved for a non-empty history. The empty history is rejected before it runs.
- Routes.RecordInteraction: a product id is "given" when it is a present, non-empty string. A numeric `0`, also falsy in Python, is not modelled because ids are strings here.
- A field sent as JSON `null` is not modelled: `None` here means an absent field. With Python's `data.get`, a `null` `type` or `session_id` is stored as `None` (a `null` type adds no weight), whereas the model then uses the default `"view"` or a generated session.
- The `console.error` logging in the page's two catch blocks is console output and is left out; the catch itself is modelled.
- Storefront.Resolve: the fallback holds catalog products while a reply holds service items. The page keeps both in the same `recommendations` state and renders every entry through the service's field names `product_id` and `product_name` (`src/App.jsx:284-305`). The model keeps the two shapes apart as `FromCatalog` and `FromService` and does not model how a fallback card renders: without a name and without a key.
- Storefront.Store.AddToCart: models only adding a catalog product. The "Add to Cart" button of a recommendation card (`src/App.jsx:299-311`) is not modelled. That button calls `handleAddToCart` with an object built from the entry's service field names and then closes the dialog. From a fallback card the id and name are undefined, so the name reaches `/recommend` as `null`. From a service card the cart receives an entry whose price is a number, so `calculateTotal` throws on `item.price.replace` (`src/App.jsx:131`). The model's cart holds only catalog products with prices in cents.
