/**
 * The stateful part of the storefront page (src/App.jsx): the session token,
 * the cart, the viewed-product history, the current recommendations, the
 * "added to cart" confirmation and the requests sent to the recommendation
 * service. Each network call is modelled by the outcome it produced, which
 * the caller passes in.
 */
module Storefront {
  import opened Wrappers
  import opened Seqs
  import opened Catalog
  import opened Cart

  /** One entry of a successful /recommend reply, kept exactly as it arrived. */
  datatype ServiceItem = ServiceItem(
    productId: string,
    productName: string,
    priceCents: nat,
    image: string,
    description: string,
    category: string)

  /** What the recommendation panel holds: the service's items, or catalog products after a failure. */
  datatype Suggestion = FromService(item: ServiceItem) | FromCatalog(product: Product)

  /** The outcome of one fetch: a successful reply with its body, a reply whose
      status is not ok, or a fetch that threw (unreachable service, unreadable body). */
  datatype Reply<T> = Ok(data: T) | NotOk | Thrown

  /** A request the page sent to the recommendation service. */
  datatype Request =
    | InteractionRequest(sessionId: string, productId: int, kind: string)
    | RecommendRequest(sessionId: string, viewed: seq<string>)

  /** The "added to cart" dialog. */
  datatype Confirmation = Closed | Open(product: Product)

  /** The session token: the stored one unless it is absent or empty, otherwise the freshly generated one. */
  function SessionToken(stored: Option<string>, generated: string): (t: string)
    ensures t == generated || (stored.Some? && t == stored.value)
    ensures stored.Some? && stored.value != "" ==> t == stored.value
    ensures t == "" ==> generated == ""
  {
    if stored.Some? && stored.value != "" then stored.value else generated
  }

  /** Once a non-empty token has been stored, every later page load reuses it. */
  lemma SessionTokenStable(stored: Option<string>, generated: string, later: string)
    requires SessionToken(stored, generated) != ""
    ensures SessionToken(Some(SessionToken(stored, generated)), later) == SessionToken(stored, generated)
  {
  }

  function ServiceSuggestions(items: seq<ServiceItem>): seq<Suggestion>
  {
    seq(|items|, k requires 0 <= k < |items| => FromService(items[k]))
  }

  function CatalogSuggestions(products: seq<Product>): seq<Suggestion>
  {
    seq(|products|, k requires 0 <= k < |products| => FromCatalog(products[k]))
  }

  /** The recommendations after a /recommend call for `name`: the reply's items
      verbatim when it succeeded, the local fallback otherwise. */
  function Resolve(catalog: seq<Product>, reply: Reply<seq<ServiceItem>>, name: string): (r: seq<Suggestion>)
    ensures reply.Ok? ==> |r| == |reply.data| && forall k :: 0 <= k < |r| ==> r[k] == FromService(reply.data[k])
    ensures !reply.Ok? ==> |r| == |Fallback(catalog, name)|
                           && forall k :: 0 <= k < |r| ==> r[k] == FromCatalog(Fallback(catalog, name)[k])
  {
    match reply
    case Ok(items) => ServiceSuggestions(items)
    case _ => CatalogSuggestions(Fallback(catalog, name))
  }

  /** The recommendations the dialog shows: at most the first two. */
  function Displayed(recommendations: seq<Suggestion>): (r: seq<Suggestion>)
    ensures |r| == Min(2, |recommendations|)
    ensures r <= recommendations
  {
    recommendations[..Min(2, |recommendations|)]
  }

  /** The viewed-history payloads of the /recommend requests, in the order they were sent. */
  function Payloads(requests: seq<Request>): seq<seq<string>>
  {
    if requests == [] then []
    else
      var last := requests[|requests| - 1];
      Payloads(requests[..|requests| - 1]) + (if last.RecommendRequest? then [last.viewed] else [])
  }

  lemma PayloadsAppend(requests: seq<Request>, q: Request)
    ensures Payloads(requests + [q]) == Payloads(requests) + (if q.RecommendRequest? then [q.viewed] else [])
  {
    assert (requests + [q])[..|requests|] == requests;
  }

  /** The k-th /recommend request carried exactly the first k+1 viewed names. */
  ghost predicate SentHistory(requests: seq<Request>, viewed: seq<string>)
  {
    && |Payloads(requests)| == |viewed|
    && forall k :: 0 <= k < |viewed| ==> Payloads(requests)[k] == viewed[..k + 1]
  }

  /** An /record-interaction request leaves the sent history as it was. */
  lemma {:induction false} InteractionKeepsHistory(requests: seq<Request>, viewed: seq<string>, q: Request)
    requires SentHistory(requests, viewed)
    requires q.InteractionRequest?
    ensures SentHistory(requests + [q], viewed)
  {
    PayloadsAppend(requests, q);
  }

  /** Sending the extended history as a /recommend request keeps the sent history in step. */
  lemma {:induction false} RecommendExtendsHistory(requests: seq<Request>, viewed: seq<string>, sessionId: string, name: string)
    requires SentHistory(requests, viewed)
    ensures SentHistory(requests + [RecommendRequest(sessionId, viewed + [name])], viewed + [name])
  {
    var updated := viewed + [name];
    PayloadsAppend(requests, RecommendRequest(sessionId, updated));
    var p := Payloads(requests + [RecommendRequest(sessionId, updated)]);
    assert p == Payloads(requests) + [updated];
    forall k | 0 <= k < |updated| ensures p[k] == updated[..k + 1] {
      if k < |viewed| {
        assert updated[..k + 1] == viewed[..k + 1];
      } else {
        assert updated[..k + 1] == updated;
      }
    }
  }

  class Store {
    const catalog: seq<Product>
    const sessionId: string
    /** The token kept in the browser's local storage. */
    var storedSession: Option<string>
    var cart: seq<Product>
    var viewed: seq<string>
    var recommendations: seq<Suggestion>
    var confirmation: Confirmation
    var requests: seq<Request>

    /** Every request carries this page's session token, and the k-th /recommend
        request carried exactly the first k+1 viewed names. */
    ghost predicate Valid()
      reads this
    {
      && storedSession == Some(sessionId)
      && (forall q :: q in requests ==> q.sessionId == sessionId)
      && SentHistory(requests, viewed)
    }

    /** Page load: pick the session token and write it back to local storage. */
    constructor (catalog: seq<Product>, stored: Option<string>, generated: string)
      ensures Valid()
      ensures this.catalog == catalog
      ensures sessionId == SessionToken(stored, generated)
      ensures cart == [] && viewed == [] && recommendations == [] && requests == []
      ensures confirmation == Closed
    {
      this.catalog := catalog;
      var token := SessionToken(stored, generated);
      sessionId := token;
      storedSession := Some(token);
      cart, viewed, recommendations, requests := [], [], [], [];
      confirmation := Closed;
    }

    /** Best-effort notification; whatever happens to the request, nothing else changes. */
    method RecordInteraction(productId: int, kind: string, outcome: Reply<()>)
      requires Valid()
      modifies this`requests
      ensures Valid()
      ensures requests == old(requests) + [InteractionRequest(sessionId, productId, kind)]
    {
      InteractionKeepsHistory(requests, viewed, InteractionRequest(sessionId, productId, kind));
      requests := requests + [InteractionRequest(sessionId, productId, kind)];
    }

    /** Extends the viewed history, sends all of it, and replaces the recommendations. */
    method FetchRecommendations(productName: string, reply: Reply<seq<ServiceItem>>)
      requires Valid()
      modifies this`viewed, this`recommendations, this`requests
      ensures Valid()
      ensures viewed == old(viewed) + [productName]
      ensures requests == old(requests) + [RecommendRequest(sessionId, viewed)]
      ensures recommendations == Resolve(catalog, reply, productName)
    {
      var updated := viewed + [productName];
      RecommendExtendsHistory(requests, viewed, sessionId, productName);
      viewed := updated;
      requests := requests + [RecommendRequest(sessionId, updated)];
      match reply {
        case Ok(items) =>
          recommendations := ServiceSuggestions(items);
        case _ =>
          recommendations := CatalogSuggestions(Fallback(catalog, productName));
      }
    }

    /** Append to the cart, record the interaction, fetch recommendations, open the dialog. */
    method AddToCart(product: Product, interaction: Reply<()>, reply: Reply<seq<ServiceItem>>)
      requires Valid()
      modifies this
      ensures Valid()
      ensures cart == old(cart) + [product]
      ensures viewed == old(viewed) + [product.name]
      ensures requests == old(requests) + [
        InteractionRequest(sessionId, product.id, "cart"),
        RecommendRequest(sessionId, viewed)]
      ensures recommendations == Resolve(catalog, reply, product.name)
      ensures confirmation == Open(product)
    {
      cart := cart + [product];
      RecordInteraction(product.id, "cart", interaction);
      FetchRecommendations(product.name, reply);
      confirmation := Open(product);
    }

    method RemoveFromCart(productId: int)
      requires Valid()
      modifies this`cart
      ensures Valid()
      ensures cart == RemoveById(old(cart), productId)
    {
      cart := RemoveById(cart, productId);
    }
  }
}
