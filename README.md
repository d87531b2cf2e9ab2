# Header product table: search filter, category counts, chart toggle

This project models the logic of the `Header` React component
(`src/Header/Header.jsx`). The component holds a product catalog, a search
term, and a flag that says whether a bar chart is shown. On every render it
derives two values:

- `filteredProducts`: the products whose title or category contains the search
  term, compared after lower-casing both sides, in catalog order;
- `categoryCount`: one `(category, count)` pair per exact (case-sensitive)
  category of the filtered products, in the order each category is first seen.

A button flips the chart flag. The button text is "Ocultar Gráfica" while the
chart is shown and "Ver Gráfica" otherwise.

Modules:

- `Text` (`text.dfy`): character lowering, `Lower` (for `toLowerCase`), and
  `Contains` (for `includes`). `Contains` is the scan over start positions,
  and it is proved equal to "occurs at some position".
- `Catalog` (`catalog.dfy`): the `Product` record.
- `SearchFilter` (`search_filter.dfy`): `FilterProducts`, a recursive function
  like `Array.prototype.filter`, and its properties.
- `CategoryAggregation` (`category_count.dfy`): `CountByCategory`, a method.
  Its loop updates a `map<string, nat>` of running counts and a `seq<string>`
  of keys in insertion order, like the `reduce` into `{}`. It then builds the
  pairs, like `Object.entries(...).map(...)`. It is proved equal to the
  function `CategoryCounts`, and the properties of the counts
  are proved about that function.
- `HeaderView` (`header.dfy`): the class `Header`. Its fields are `products`,
  `searchTerm` and `showChart`. It has one method per event handler, and
  `Render`, which returns the data one render shows.
- `Scenarios` (`scenarios.dfy`): the three-product example catalog, with the
  searches "shirt", "SHIRT" and "", a toggle sequence, and a failed fetch.

The catalog request is not modelled as I/O. `OnCatalogResponse` receives its
settled outcome as a parameter: `Some(products)` on success, `None` on failure.

Two facts about the code shape the model:

- The aggregation mutates its accumulator object key by key, so it is
  modelled as a loop over a dictionary.
- The order of the counts comes from `Object.entries` on a plain object. That
  order is first-seen order only for ordinary keys (see `IsPlainKey` below).

## Model

| member | source | states |
|---|---|---|
| `Text.LowerChar` | src/Header/Header.jsx:19-20 | lowering one character never yields a capital and leaves every non-capital unchanged |
| `Text.Lower` | src/Header/Header.jsx:19-20 | lowering keeps the length, leaves no capital, and keeps every character that is not a capital |
| `Text.LowerIsIdempotent` | src/Header/Header.jsx:19-20 | lowering keeps the length, leaves no capital, and lowering twice equals lowering once |
| `Text.IsPrefixIff` | src/Header/Header.jsx:19-20 | the character-by-character prefix test holds exactly when t is no longer than s and equals the first part of s |
| `Text.Contains` | src/Header/Header.jsx:19-20 | every string contains the empty string, and a string never contains a longer one |
| `Text.ContainsIff` | src/Header/Header.jsx:19-20 | `includes`, as a scan over start positions, holds exactly when t occurs in s at some position |
| `Text.ContainsOnlyCharsOf` | src/Header/Header.jsx:19-20 | if s contains t, every character of t is a character of s |
| `Text.MissingCharNotContained` | src/Header/Header.jsx:19-20 | a string lacking one of t's characters does not contain t |
| `SearchFilter.Matches` | src/Header/Header.jsx:18-20 | the empty term matches every product, and a term longer than both the title and the category matches none |
| `SearchFilter.FilterProducts` | src/Header/Header.jsx:18-21 | the filtered list is no longer than the catalog, and every product in it matches the term in its title or category |
| `SearchFilter.FilterIsSubsequence` | src/Header/Header.jsx:18-21 | the filtered list is a subsequence of the catalog: nothing is added, duplicated or reordered |
| `SearchFilter.FilterMembership` | src/Header/Header.jsx:19-20 | a product is in the filtered list exactly when it is in the catalog and its lowered title or lowered category contains the lowered term |
| `SearchFilter.FilterKeepsEveryMatch` | src/Header/Header.jsx:18-21 | every subsequence of the catalog whose products all match is a subsequence of the filtered list, so the filtered list is the largest such subsequence |
| `SearchFilter.FilterEmptyTerm` | src/Header/Header.jsx:18-21 | the empty search term keeps the whole catalog, in order |
| `SearchFilter.FilterCaseInsensitive` | src/Header/Header.jsx:19-20 | two terms that are equal after lowering select the same list |
| `SearchFilter.FilterLoweredTerm` | src/Header/Header.jsx:19-20 | searching for the lowered term gives the same list as searching for the term |
| `CategoryAggregation.FirstIndexOf` | src/Header/Header.jsx:24-29 | the result is the position of the first occurrence of x, or the length when x does not occur |
| `CategoryAggregation.Entries` | src/Header/Header.jsx:24-29 | one pair per dictionary key, in key order, each pair carrying that key and its value |
| `CategoryAggregation.CategoryCounts` | src/Header/Header.jsx:24-29 | there are no more pairs than products, none exactly when there are no products, and every count is at least one |
| `CategoryAggregation.CountByCategory` | src/Header/Header.jsx:24-29 | the reduce loop over a running-count map and its insertion-ordered keys, followed by the entries/map step, yields exactly `CategoryCounts` of the filtered list |
| `CategoryAggregation.DistinctMembership` | src/Header/Header.jsx:26 | a label is among the dictionary keys exactly when some product carries it |
| `CategoryAggregation.DistinctNoDuplicates` | src/Header/Header.jsx:26 | no key is inserted twice |
| `CategoryAggregation.DistinctFirstSeenOrder` | src/Header/Header.jsx:24-29 | every key occurs in the list, and keys come in strictly increasing order of first occurrence |
| `CategoryAggregation.CategoryCountsSum` | src/Header/Header.jsx:25-28 | the counts add up to the number of filtered products |
| `CategoryAggregation.CategoryCountsDistinctAndExact` | src/Header/Header.jsx:26 | no category appears twice; each listed category occurs in the list; its count is the number of products with exactly that category, so at least one; every product's category is listed |
| `CategoryAggregation.CategoryCountsFirstSeenOrder` | src/Header/Header.jsx:24-29 | the pairs appear in the order in which their categories first appear in the filtered list |
| `HeaderView.ChartButtonLabel` | src/Header/Header.jsx:39 | the label is 'Ocultar Gráfica' exactly when the chart is shown, and 'Ver Gráfica' exactly when it is not |
| `HeaderView.Header.constructor` | src/Header/Header.jsx:6-8 | the component starts with no products, an empty search term and the chart hidden |
| `HeaderView.Header.OnCatalogResponse` | src/Header/Header.jsx:11-14 | a successful response replaces the product list; a failed one leaves it unchanged; the other state is unchanged |
| `HeaderView.Header.OnSearchInput` | src/Header/Header.jsx:49 | the search term becomes the typed value; nothing else changes |
| `HeaderView.Header.OnChartButtonClick` | src/Header/Header.jsx:37 | the chart flag is negated; products and search term are unchanged |
| `HeaderView.Header.FilteredProducts` | src/Header/Header.jsx:18-21 | the current filtered list is a subsequence of the products, holding exactly the products that match the current search term |
| `HeaderView.Header.Render` | src/Header/Header.jsx:35-85 | the table rows are the filtered products, the button shows the label for the flag, and the chart is present only when the flag is set and then plots `CategoryCounts` of those same rows |
| `Scenarios.ShirtSearch` | src/Header/Header.jsx:18-21 | on the example catalog the term "shirt" keeps products 1 and 3, in that order |
| `Scenarios.UpperCaseShirtSearch` | src/Header/Header.jsx:19-20 | the term "SHIRT" keeps the same two products |
| `Scenarios.ShirtSearchCounts` | src/Header/Header.jsx:24-29 | those two products give the single pair ("clothing", 2) |
| `Scenarios.EmptySearchCounts` | src/Header/Header.jsx:18-29 | the empty term keeps all three products, and the counts are ("clothing", 2) then ("accessories", 1) |
| `Scenarios.ChartToggleScenario` | src/Header/Header.jsx:37-39 | after mounting, loading the example and typing "shirt": the first click shows the clothing chart, the second hides it again, and the table rows never change |
| `Scenarios.FetchFailureScenario` | src/Header/Header.jsx:10-15 | after a failed fetch the table is empty and no chart is shown, whatever the search term |

## Left out

- The `fetch` call, `.json()` parsing and `console.error` (src/Header/Header.jsx:10-15) are network I/O. Only the settled outcome is modelled, as the parameter of `OnCatalogResponse`. A response that is not an array of products is not modelled.
- React's `useState`/`useEffect` and re-render scheduling are framework plumbing. The state is modelled as plain fields, and each render as a call to `Render`.
- The JSX markup, CSS, the search `<input>` element and the recharts `BarChart` are not modelled. `Render` returns only the data they display.
- `price` is only displayed. It is an uninterpreted `real`, and JavaScript floating point is not modelled.
- `Text.LowerChar`: models only the part of `toLowerCase` for ASCII A-Z and the Latin-1 capitals U+00C0-U+00DE (except U+00D7). Other Unicode case mappings, including those that change length, and UTF-16 code units are not modelled.
- `CategoryAggregation.CountByCategory`: requires every filtered category to be a plain key (`IsPlainKey`), which the source does not require. For a canonical array-index string such as "3", `Object.entries` lists the key before the others, in numeric order. For a name inherited from `Object.prototype`, such as "constructor" or "toString", `acc[category]` is not `undefined` the first time, so the stored count is a string, not a number. For "__proto__", the read gives `Object.prototype` and the assignment of a string is ignored by the setter, so that category is missing from the counts altogether. None of these cases is modelled.
- `HeaderView.Header.Render`: inherits the same plain-key precondition, because every render computes `categoryCount`.
- Records without `title` or `category` are not modelled: `Product` always has both fields. In the code, a missing `title` makes `toLowerCase` throw. A missing `category` throws only when the title does not match, because `||` stops at a matching title. Such a product is then kept, shown with an empty category cell, and counted under the key "undefined".
- The fetch is not cancelled when the component unmounts. Component lifecycle is not modelled.
- The React row key `product.id` is not checked for uniqueness.
