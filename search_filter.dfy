/** The search filter: the products whose title or category contains the
    search term, compared after lower-casing both sides. */
module SearchFilter {
  import opened Text
  import opened Catalog

  /** The predicate handed to `filter`: the lowered title or the lowered
      category contains the lowered term. The empty term matches every
      product, and a term longer than both fields matches none. */
  predicate Matches(p: Product, term: string)
    ensures term == [] ==> Matches(p, term)
    ensures Matches(p, term) ==> |term| <= |p.title| || |term| <= |p.category|
  {
    Contains(Lower(p.title), Lower(term)) || Contains(Lower(p.category), Lower(term))
  }

  /** `products.filter(...)`: the matching products, in their original order. */
  function FilterProducts(products: seq<Product>, term: string): (r: seq<Product>)
    ensures |r| <= |products|
    ensures forall i :: 0 <= i < |r| ==> Matches(r[i], term)
  {
    if products == [] then []
    else if Matches(products[0], term) then [products[0]] + FilterProducts(products[1..], term)
    else FilterProducts(products[1..], term)
  }

  /** xs is obtained from ys by deleting elements (checked greedily, which
      is complete for subsequences). */
  predicate IsSubsequence<T(==)>(xs: seq<T>, ys: seq<T>)
    decreases |ys|
  {
    if xs == [] then true
    else if ys == [] then false
    else if xs[0] == ys[0] then IsSubsequence(xs[1..], ys[1..])
    else IsSubsequence(xs, ys[1..])
  }

  /** Putting an element in front of ys keeps every subsequence of ys. */
  lemma {:induction false} SubsequenceCons<T>(xs: seq<T>, ys: seq<T>, y: T)
    requires IsSubsequence(xs, ys)
    ensures IsSubsequence(xs, [y] + ys)
    decreases |ys|
  {
    assert ([y] + ys)[1..] == ys;
    if xs != [] && xs[0] == y {
      if xs[0] == ys[0] {
        SubsequenceCons(xs[1..], ys[1..], ys[0]);
      } else {
        SubsequenceCons(xs, ys[1..], y);
        assert ([y] + ys[1..])[1..] == ys[1..];
        SubsequenceCons(xs[1..], ys[1..], ys[0]);
      }
      assert [ys[0]] + ys[1..] == ys;
    }
  }

  /** The filtered list is a subsequence of the product list. */
  lemma {:induction false} FilterIsSubsequence(products: seq<Product>, term: string)
    ensures IsSubsequence(FilterProducts(products, term), products)
    decreases |products|
  {
    if products != [] {
      FilterIsSubsequence(products[1..], term);
    }
  }

  /** A product is kept exactly when it is in the list and matches. */
  lemma {:induction false} FilterMembership(products: seq<Product>, term: string)
    ensures forall p :: p in FilterProducts(products, term) <==> p in products && Matches(p, term)
    decreases |products|
  {
    if products != [] {
      FilterMembership(products[1..], term);
      assert products == [products[0]] + products[1..];
    }
  }

  /** Every all-matching subsequence of the products is a subsequence of the
      filtered list: together with FilterIsSubsequence this makes the filtered
      list the largest matching subsequence, so nothing matching is dropped
      and nothing is reordered. */
  lemma {:induction false} FilterKeepsEveryMatch(products: seq<Product>, term: string, xs: seq<Product>)
    requires IsSubsequence(xs, products)
    requires forall i :: 0 <= i < |xs| ==> Matches(xs[i], term)
    ensures IsSubsequence(xs, FilterProducts(products, term))
    decreases |products|
  {
    if xs != [] {
      var rest := FilterProducts(products[1..], term);
      if xs[0] == products[0] {
        FilterKeepsEveryMatch(products[1..], term, xs[1..]);
        assert FilterProducts(products, term) == [products[0]] + rest;
        assert ([products[0]] + rest)[1..] == rest;
      } else {
        FilterKeepsEveryMatch(products[1..], term, xs);
        if Matches(products[0], term) {
          SubsequenceCons(xs, rest, products[0]);
        }
      }
    }
  }

  /** The empty search term keeps every product. */
  lemma {:induction false} FilterEmptyTerm(products: seq<Product>)
    ensures FilterProducts(products, "") == products
    decreases |products|
  {
    if products != [] {
      assert Lower("") == "";
      FilterEmptyTerm(products[1..]);
      assert products == [products[0]] + products[1..];
    }
  }

  /** Two search terms that agree after lower-casing select the same list. */
  lemma {:induction false} FilterCaseInsensitive(products: seq<Product>, term1: string, term2: string)
    requires Lower(term1) == Lower(term2)
    ensures FilterProducts(products, term1) == FilterProducts(products, term2)
    decreases |products|
  {
    if products != [] {
      FilterCaseInsensitive(products[1..], term1, term2);
    }
  }

  /** Searching for the lowered term is the same as searching for the term. */
  lemma FilterLoweredTerm(products: seq<Product>, term: string)
    ensures FilterProducts(products, Lower(term)) == FilterProducts(products, term)
  {
    LowerIsIdempotent(term);
    FilterCaseInsensitive(products, Lower(term), term);
  }
}
