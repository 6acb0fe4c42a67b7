/**
 * The shopping cart of the storefront (src/App.jsx): an ordered list of
 * products in which the same product may occur several times.
 */
module Cart {
  import opened Seqs
  import opened Catalog

  /** The cart without every entry whose product id is `id`. */
  function RemoveById(items: seq<Product>, id: int): (r: seq<Product>)
    ensures |r| <= |items|
  {
    if items == [] then []
    else
      var rest := RemoveById(items[1..], id);
      if items[0].id != id then [items[0]] + rest else rest
  }

  /** No entry with the id survives; every other entry keeps its multiplicity and
      the survivors keep their relative order. */
  lemma {:induction false} RemoveByIdSpec(items: seq<Product>, id: int)
    ensures forall p :: p in RemoveById(items, id) ==> p.id != id
    ensures forall p: Product :: p.id != id ==> multiset(RemoveById(items, id))[p] == multiset(items)[p]
    ensures IsSubsequence(RemoveById(items, id), items)
  {
    if items != [] {
      assert items == [items[0]] + items[1..];
      RemoveByIdSpec(items[1..], id);
    }
  }

  /** Removal distributes over concatenation: each part loses its own matching entries. */
  lemma {:induction false} RemoveByIdAppend(a: seq<Product>, b: seq<Product>, id: int)
    ensures RemoveById(a + b, id) == RemoveById(a, id) + RemoveById(b, id)
  {
    if a != [] {
      var x, ab := a[0], a + b;
      assert ab[0] == x && ab[1..] == a[1..] + b;
      RemoveByIdAppend(a[1..], b, id);
      if x.id != id {
        assert RemoveById(ab, id) == [x] + RemoveById(a[1..] + b, id);
        assert RemoveById(a, id) == [x] + RemoveById(a[1..], id);
      } else {
        assert RemoveById(ab, id) == RemoveById(a[1..] + b, id);
        assert RemoveById(a, id) == RemoveById(a[1..], id);
      }
    } else {
      assert a + b == b;
    }
  }

  /** Removing an id the cart does not hold leaves the cart as it was. */
  lemma {:induction false} RemoveAbsentId(items: seq<Product>, id: int)
    requires forall p :: p in items ==> p.id != id
    ensures RemoveById(items, id) == items
  {
    if items != [] {
      RemoveAbsentId(items[1..], id);
      assert items == [items[0]] + items[1..];
    }
  }

  /** A product added twice is gone entirely after one removal of its id. */
  lemma RemoveAfterAddingTwice(items: seq<Product>, p: Product)
    ensures RemoveById(items + [p, p], p.id) == RemoveById(items, p.id)
  {
    RemoveByIdAppend(items, [p, p], p.id);
    assert [p, p][1..] == [p] && [p][1..] == [];
    assert RemoveById([p], p.id) == [];
    assert items + [] == items;
  }

  /** Removing twice is the same as removing once. */
  lemma RemoveIdempotent(items: seq<Product>, id: int)
    ensures RemoveById(RemoveById(items, id), id) == RemoveById(items, id)
  {
    RemoveByIdSpec(items, id);
    RemoveAbsentId(RemoveById(items, id), id);
  }

  /** The sum of the prices of the cart's entries, in cents; 0 for an empty cart. */
  function Total(items: seq<Product>): (r: nat)
    ensures forall k :: 0 <= k < |items| ==> items[k].priceCents <= r
  {
    if items == [] then 0 else items[0].priceCents + Total(items[1..])
  }

  lemma {:induction false} TotalAppend(a: seq<Product>, b: seq<Product>)
    ensures Total(a + b) == Total(a) + Total(b)
  {
    if a != [] {
      TotalAppend(a[1..], b);
      assert (a + b)[0] == a[0] && (a + b)[1..] == a[1..] + b;
    } else {
      assert a + b == b;
    }
  }

  /** Adding a product raises the total by exactly its price. */
  lemma TotalAfterAdd(items: seq<Product>, p: Product)
    ensures Total(items + [p]) == Total(items) + p.priceCents
  {
    TotalAppend(items, [p]);
  }

  /** Removing entries never raises the total. */
  lemma {:induction false} TotalAfterRemove(items: seq<Product>, id: int)
    ensures Total(RemoveById(items, id)) <= Total(items)
  {
    if items != [] {
      TotalAfterRemove(items[1..], id);
    }
  }

  /** $19.99 and $299.99 add up to $319.98. */
  lemma TotalOfTwoPrices(a: Product, b: Product)
    requires a.priceCents == 1999 && b.priceCents == 29999
    ensures Total([a, b]) == 31998
  {
    assert [a, b][1..] == [b] && [b][1..] == [];
    assert Total([b]) == 29999;
  }
}
