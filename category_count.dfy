/** The category aggregation: one pass over the filtered products, keeping a
    running count per exact category in a dictionary, then its entries as
    (category, count) pairs. */
module CategoryAggregation {
  import opened Catalog

  datatype CategoryCount = CategoryCount(category: string, count: nat)

  /** The category of each product, in list order. */
  function Labels(products: seq<Product>): (r: seq<string>) {
    seq(|products|, i requires 0 <= i < |products| => products[i].category)
  }

  /** Each label of s once, in the order of its first appearance. */
  function Distinct(s: seq<string>): (r: seq<string>)
    ensures |r| <= |s|
  {
    if s == [] then []
    else
      var d := Distinct(s[..|s| - 1]);
      if s[|s| - 1] in d then d else d + [s[|s| - 1]]
  }

  predicate NoDuplicates(s: seq<string>) {
    forall i, j :: 0 <= i < j < |s| ==> s[i] != s[j]
  }

  /** The position of the first x in s, or |s| when there is none. */
  function FirstIndexOf(s: seq<string>, x: string): (r: nat)
    ensures r <= |s|
    ensures r < |s| ==> s[r] == x
    ensures forall j :: 0 <= j < r ==> s[j] != x
  {
    if s == [] then 0
    else if s[0] == x then 0
    else 1 + FirstIndexOf(s[1..], x)
  }

  /** `Object.entries(acc).map(...)` for a dictionary `acc` whose keys, in
      insertion order, are `keys`: one pair per key, in that order, each
      carrying the key's value. */
  function Entries(keys: seq<string>, counts: map<string, nat>): (r: seq<CategoryCount>)
    requires forall k :: k in keys ==> k in counts
    ensures |r| == |keys|
    ensures forall i :: 0 <= i < |r| ==> r[i].category == keys[i] && r[i].category in counts
    ensures forall i :: 0 <= i < |r| ==> r[i].count == counts[r[i].category]
  {
    seq(|keys|, i requires 0 <= i < |keys| => CategoryCount(keys[i], counts[keys[i]]))
  }

  /** What `categoryCount` should be: one pair per distinct category, in
      first-seen order, with the number of products carrying it. There are
      never more pairs than products, none for an empty list, at least one
      otherwise, and no count is zero. */
  function CategoryCounts(products: seq<Product>): (r: seq<CategoryCount>)
    ensures |r| <= |products|
    ensures r == [] <==> products == []
    ensures forall i :: 0 <= i < |r| ==> r[i].count >= 1
  {
    var labels := Labels(products);
    DistinctCoversAll(labels);
    var keys := Distinct(labels);
    assert labels != [] ==> labels[0] in keys;
    assert forall i :: 0 <= i < |keys| ==> keys[i] in labels && keys[i] in multiset(labels);
    seq(|keys|, i requires 0 <= i < |keys| => CategoryCount(keys[i], multiset(labels)[keys[i]]))
  }

  function SumCounts(entries: seq<CategoryCount>): (total: nat) {
    if entries == [] then 0 else SumCounts(entries[..|entries| - 1]) + entries[|entries| - 1].count
  }

  /** A canonical array-index string: "0", or digits without a leading zero
      whose value is below 2^32 - 1. `Object.entries` lists such keys first,
      in numeric order, instead of in insertion order. */
  predicate IsArrayIndexKey(k: string) {
    && |k| > 0
    && (forall i :: 0 <= i < |k| ==> '0' <= k[i] <= '9')
    && (k[0] != '0' || k == "0")
    && DigitsValue(k) < 0xFFFF_FFFF
  }

  function DigitsValue(k: string): (v: nat)
    requires forall i :: 0 <= i < |k| ==> '0' <= k[i] <= '9'
  {
    if k == [] then 0 else 10 * DigitsValue(k[..|k| - 1]) + (k[|k| - 1] as int - '0' as int)
  }

  /** Properties a plain object `{}` inherits from `Object.prototype`; for these
      keys `acc[key]` is not `undefined` on first sight. */
  const INHERITED_NAMES: set<string> := {
    "__proto__", "__defineGetter__", "__defineSetter__", "__lookupGetter__",
    "__lookupSetter__", "constructor", "hasOwnProperty", "isPrototypeOf",
    "propertyIsEnumerable", "toLocaleString", "toString", "valueOf"
  }

  /** A category for which the dictionary behaves as a plain insertion-ordered map. */
  predicate IsPlainKey(k: string) {
    !IsArrayIndexKey(k) && k !in INHERITED_NAMES
  }

  predicate PlainCategories(products: seq<Product>) {
    forall i :: 0 <= i < |products| ==> IsPlainKey(products[i].category)
  }

  /** `categoryCount` (src/Header/Header.jsx, lines 24-29): `reduce` over the
      products into a dictionary whose keys keep their insertion order, then
      `Object.entries` and `map` into pairs. The precondition keeps the
      categories to keys for which `{}` behaves as such a dictionary. */
  method CountByCategory(filtered: seq<Product>) returns (entries: seq<CategoryCount>)
    requires PlainCategories(filtered)
    ensures entries == CategoryCounts(filtered)
  {
    var counts: map<string, nat> := map[];
    var keys: seq<string> := [];
    var i := 0;
    while i < |filtered|
      invariant 0 <= i <= |filtered|
      invariant keys == Distinct(Labels(filtered[..i]))
      invariant forall k :: k in counts <==> k in keys
      invariant forall k :: k in counts ==> counts[k] == multiset(Labels(filtered[..i]))[k]
    {
      var category := filtered[i].category;
      assert Labels(filtered[..i + 1]) == Labels(filtered[..i]) + [category];
      assert multiset(Labels(filtered[..i + 1])) == multiset(Labels(filtered[..i])) + multiset{category};
      DistinctMembership(Labels(filtered[..i]), category);
      var previous := if category in counts then counts[category] else 0;
      if category !in counts {
        keys := keys + [category];
      }
      counts := counts[category := previous + 1];
      i := i + 1;
    }
    assert filtered[..i] == filtered;
    entries := Entries(keys, counts);
  }

  // ---------------------------------------------------------------------
  // Properties of `CategoryCounts`

  lemma {:induction false} DistinctMembership(s: seq<string>, x: string)
    ensures x in Distinct(s) <==> x in s
    decreases |s|
  {
    if s != [] {
      DistinctMembership(s[..|s| - 1], x);
      assert s == s[..|s| - 1] + [s[|s| - 1]];
    }
  }

  lemma DistinctCoversAll(s: seq<string>)
    ensures forall x :: x in Distinct(s) <==> x in s
  {
    forall x ensures x in Distinct(s) <==> x in s {
      DistinctMembership(s, x);
    }
  }

  lemma {:induction false} DistinctNoDuplicates(s: seq<string>)
    ensures NoDuplicates(Distinct(s))
    decreases |s|
  {
    if s != [] {
      DistinctNoDuplicates(s[..|s| - 1]);
    }
  }

  lemma {:induction false} FirstIndexOfAppend(s: seq<string>, y: string, x: string)
    ensures x in s ==> FirstIndexOf(s + [y], x) == FirstIndexOf(s, x)
    ensures x !in s && x == y ==> FirstIndexOf(s + [y], x) == |s|
    decreases |s|
  {
    if s != [] {
      assert (s + [y])[1..] == s[1..] + [y];
      FirstIndexOfAppend(s[1..], y, x);
    }
  }

  /** Distinct lists the labels in the order of their first appearance. */
  lemma {:induction false} DistinctFirstSeenOrder(s: seq<string>)
    ensures forall i :: 0 <= i < |Distinct(s)| ==> FirstIndexOf(s, Distinct(s)[i]) < |s|
    ensures forall i, j :: 0 <= i < j < |Distinct(s)| ==>
      FirstIndexOf(s, Distinct(s)[i]) < FirstIndexOf(s, Distinct(s)[j])
    decreases |s|
  {
    if s != [] {
      var q, y := s[..|s| - 1], s[|s| - 1];
      var d := Distinct(q);
      assert s == q + [y];
      DistinctFirstSeenOrder(q);
      forall i | 0 <= i < |d| ensures FirstIndexOf(s, d[i]) == FirstIndexOf(q, d[i]) {
        DistinctMembership(q, d[i]);
        FirstIndexOfAppend(q, y, d[i]);
      }
      if y !in d {
        DistinctMembership(q, y);
        FirstIndexOfAppend(q, y, y);
      }
    }
  }

  /** The sum of m's multiplicities over the keys. */
  function Tally(keys: seq<string>, m: multiset<string>): (total: nat) {
    if keys == [] then 0 else Tally(keys[..|keys| - 1], m) + m[keys[|keys| - 1]]
  }

  lemma {:induction false} TallyAddOne(keys: seq<string>, m: multiset<string>, x: string)
    requires NoDuplicates(keys)
    ensures Tally(keys, m + multiset{x}) == Tally(keys, m) + (if x in keys then 1 else 0)
    decreases |keys|
  {
    if keys != [] {
      var init := keys[..|keys| - 1];
      assert keys == init + [keys[|keys| - 1]];
      TallyAddOne(init, m, x);
    }
  }

  lemma {:induction false} TallyOfDistinct(s: seq<string>)
    ensures Tally(Distinct(s), multiset(s)) == |s|
    decreases |s|
  {
    if s != [] {
      var q, y := s[..|s| - 1], s[|s| - 1];
      assert s == q + [y];
      assert multiset(s) == multiset(q) + multiset{y};
      TallyOfDistinct(q);
      DistinctNoDuplicates(q);
      TallyAddOne(Distinct(q), multiset(q), y);
      if y !in Distinct(q) {
        DistinctMembership(q, y);
        assert (Distinct(q) + [y])[..|Distinct(q)|] == Distinct(q);
      }
    }
  }

  lemma {:induction false} SumCountsIsTally(keys: seq<string>, m: multiset<string>)
    ensures SumCounts(seq(|keys|, i requires 0 <= i < |keys| => CategoryCount(keys[i], m[keys[i]]))) == Tally(keys, m)
    decreases |keys|
  {
    if keys != [] {
      var init := keys[..|keys| - 1];
      SumCountsIsTally(init, m);
      var e := seq(|keys|, i requires 0 <= i < |keys| => CategoryCount(keys[i], m[keys[i]]));
      assert e[..|e| - 1] == seq(|init|, i requires 0 <= i < |init| => CategoryCount(init[i], m[init[i]]));
    }
  }

  /** The counts add up to the number of products. */
  lemma CategoryCountsSum(products: seq<Product>)
    ensures SumCounts(CategoryCounts(products)) == |products|
  {
    var labels := Labels(products);
    SumCountsIsTally(Distinct(labels), multiset(labels));
    TallyOfDistinct(labels);
  }

  /** Each exact category of the products appears exactly once, with the number
      of products carrying it, which is at least one; nothing else appears. */
  lemma CategoryCountsDistinctAndExact(products: seq<Product>)
    ensures forall i, j :: 0 <= i < j < |CategoryCounts(products)| ==>
      CategoryCounts(products)[i].category != CategoryCounts(products)[j].category
    ensures forall i :: 0 <= i < |CategoryCounts(products)| ==>
      && CategoryCounts(products)[i].category in Labels(products)
      && CategoryCounts(products)[i].count == multiset(Labels(products))[CategoryCounts(products)[i].category]
      && CategoryCounts(products)[i].count >= 1
    ensures forall p :: p in products ==>
      exists i :: 0 <= i < |CategoryCounts(products)| && CategoryCounts(products)[i].category == p.category
  {
    var labels := Labels(products);
    var keys := Distinct(labels);
    var r := CategoryCounts(products);
    DistinctNoDuplicates(labels);
    forall i | 0 <= i < |r| ensures r[i].category in labels {
      DistinctMembership(labels, keys[i]);
    }
    forall p | p in products
      ensures exists i :: 0 <= i < |r| && r[i].category == p.category
    {
      var k :| 0 <= k < |products| && products[k] == p;
      assert labels[k] == p.category;
      DistinctMembership(labels, p.category);
      var i :| 0 <= i < |keys| && keys[i] == p.category;
      assert r[i].category == p.category;
    }
  }

  /** The pairs come in the order in which each category first appears. */
  lemma CategoryCountsFirstSeenOrder(products: seq<Product>)
    ensures forall i, j :: 0 <= i < j < |CategoryCounts(products)| ==>
      FirstIndexOf(Labels(products), CategoryCounts(products)[i].category)
        < FirstIndexOf(Labels(products), CategoryCounts(products)[j].category)
  {
    DistinctFirstSeenOrder(Labels(products));
  }
}
