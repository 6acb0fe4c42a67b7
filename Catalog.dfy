/**
 * The product catalog of the storefront and the expressions derived from it
 * (src/App.jsx): the search/category filter, the category list of the filter
 * drop-down and the local fallback recommendation.
 */
module Catalog {
  import opened Seqs
  import opened Text

  /** A catalog entry; the price is held in cents instead of the "$xx.yy" text. */
  datatype Product = Product(
    id: int,
    name: string,
    priceCents: nat,
    image: string,
    description: string,
    category: string)

  /** The category value that disables category filtering. */
  const AllCategories := "All"

  // ---------------------------------------------------------------- filter

  /** A product is shown when the search term occurs in its name or description
      (ignoring case) and the selected category is "All" or its own category. */
  predicate Matches(p: Product, term: string, category: string)
  {
    && (ContainsIgnoringCase(p.name, term) || ContainsIgnoringCase(p.description, term))
    && (category == AllCategories || p.category == category)
  }

  function FilterProducts(catalog: seq<Product>, term: string, category: string): (r: seq<Product>)
    ensures forall p :: p in r <==> p in catalog && Matches(p, term, category)
    ensures forall p :: Matches(p, term, category) ==> multiset(r)[p] == multiset(catalog)[p]
    ensures IsSubsequence(r, catalog)
  {
    if catalog == [] then []
    else
      assert catalog == [catalog[0]] + catalog[1..];
      var rest := FilterProducts(catalog[1..], term, category);
      if Matches(catalog[0], term, category) then [catalog[0]] + rest else rest
  }

  /** With an empty search and "All" selected the whole catalog is shown, in order. */
  lemma {:induction false} FilterShowsEverything(catalog: seq<Product>)
    ensures FilterProducts(catalog, "", AllCategories) == catalog
  {
    if catalog != [] {
      EverythingContainsEmpty(catalog[0].name);
      FilterShowsEverything(catalog[1..]);
      assert catalog == [catalog[0]] + catalog[1..];
    }
  }

  /** The search is case-insensitive: lower-casing the term first changes nothing. */
  lemma {:induction false} FilterIgnoresTermCase(catalog: seq<Product>, term: string, category: string)
    ensures FilterProducts(catalog, Lower(term), category) == FilterProducts(catalog, term, category)
  {
    LowerIdempotent(term);
    if catalog != [] {
      FilterIgnoresTermCase(catalog[1..], term, category);
    }
  }

  // ------------------------------------------------------------ categories

  predicate HasCategory(catalog: seq<Product>, c: string)
  {
    exists p :: p in catalog && p.category == c
  }

  /** The categories of the catalog, each once (the set built from them). */
  function DistinctCategories(catalog: seq<Product>): (r: seq<string>)
    ensures forall c :: multiset(r)[c] == if HasCategory(catalog, c) then 1 else 0
  {
    if catalog == [] then []
    else
      var init := catalog[..|catalog| - 1];
      var last := catalog[|catalog| - 1];
      assert catalog == init + [last];
      assert forall c :: HasCategory(catalog, c) <==> HasCategory(init, c) || last.category == c;
      var d := DistinctCategories(init);
      if last.category in d then d else d + [last.category]
  }

  /** The drop-down's entries: "All" followed by the distinct categories, the whole list sorted. */
  function Categories(catalog: seq<Product>): (r: seq<string>)
    ensures Sorted(r)
    ensures forall c :: (multiset(r)[c]
                         == (if c == AllCategories then 1 else 0) + (if HasCategory(catalog, c) then 1 else 0))
  {
    SortStrings([AllCategories] + DistinctCategories(catalog))
  }

  /** Every category appears exactly once unless some product is itself in a category named "All". */
  lemma CategoriesDistinct(catalog: seq<Product>)
    requires !HasCategory(catalog, AllCategories)
    ensures Distinct(Categories(catalog))
    ensures forall c :: c in Categories(catalog) <==> c == AllCategories || HasCategory(catalog, c)
  {
    DistinctFromCounts(Categories(catalog));
  }

  // -------------------------------------------------------------- fallback

  /** The catalog without the entries carrying the given name. */
  function WithoutName(catalog: seq<Product>, name: string): (r: seq<Product>)
    ensures forall p :: p in r <==> p in catalog && p.name != name
    ensures forall p: Product :: p.name != name ==> multiset(r)[p] == multiset(catalog)[p]
    ensures IsSubsequence(r, catalog)
  {
    if catalog == [] then []
    else
      assert catalog == [catalog[0]] + catalog[1..];
      var rest := WithoutName(catalog[1..], name);
      if catalog[0].name != name then [catalog[0]] + rest else rest
  }

  /** The recommendations shown when the service fails: the first two catalog
      products, in catalog order, whose name is not the one just added. */
  function Fallback(catalog: seq<Product>, name: string): (r: seq<Product>)
    ensures |r| == Min(2, |WithoutName(catalog, name)|)
    ensures r <= WithoutName(catalog, name)
    ensures forall p :: p in r ==> p in catalog && p.name != name
  {
    var others := WithoutName(catalog, name);
    others[..Min(2, |others|)]
  }

  lemma {:induction false} WithoutAbsentName(catalog: seq<Product>, name: string)
    requires forall p :: p in catalog ==> p.name != name
    ensures WithoutName(catalog, name) == catalog
  {
    if catalog != [] {
      WithoutAbsentName(catalog[1..], name);
      assert catalog == [catalog[0]] + catalog[1..];
    }
  }

  predicate DistinctNames(catalog: seq<Product>)
  {
    forall i, j :: 0 <= i < j < |catalog| ==> catalog[i].name != catalog[j].name
  }

  lemma {:induction false} WithoutNameDropsAtMostOne(catalog: seq<Product>, name: string)
    requires DistinctNames(catalog)
    ensures |WithoutName(catalog, name)| >= |catalog| - 1
  {
    if catalog != [] {
      if catalog[0].name == name {
        forall p | p in catalog[1..] ensures p.name != name {
          var k :| 0 <= k < |catalog[1..]| && catalog[1..][k] == p;
          assert catalog[k + 1] == p;
        }
        WithoutAbsentName(catalog[1..], name);
      } else {
        WithoutNameDropsAtMostOne(catalog[1..], name);
      }
    }
  }

  /** With unique product names and at least three products the fallback always holds two. */
  lemma FallbackHasTwo(catalog: seq<Product>, name: string)
    requires DistinctNames(catalog) && |catalog| >= 3
    ensures |Fallback(catalog, name)| == 2
  {
    WithoutNameDropsAtMostOne(catalog, name);
  }

  /** When neither of the first two products carries the name, they are the fallback. */
  lemma FallbackTakesCatalogHead(catalog: seq<Product>, name: string)
    requires |catalog| >= 2 && catalog[0].name != name && catalog[1].name != name
    ensures Fallback(catalog, name) == catalog[..2]
  {
    var tail := WithoutName(catalog[2..], name);
    assert catalog[1..][0] == catalog[1] && catalog[1..][1..] == catalog[2..];
    assert WithoutName(catalog[1..], name) == [catalog[1]] + tail;
    assert WithoutName(catalog, name) == [catalog[0]] + ([catalog[1]] + tail);
  }
}
