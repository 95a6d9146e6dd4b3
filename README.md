# AI pricing tracker — browser view model

The AI pricing tracker is a static web page. At start-up it fetches a
`pricing.json` document of providers and their models' per-token prices. It
flattens that document into one row per model and renders a grid of pricing
cards. Three controls re-render the grid: provider check-boxes, a search box
and a sort selector. This project models that page logic (`app.js`) in Dafny
and proves what it does:

- `Pricing` holds the document and row datatypes and `flattenPricingData`.
  That is a nested loop that pushes one row per (provider, model) pair.
- `Seqs` models `Array.prototype.filter`.
- `Text` models `toLowerCase`, `String.prototype.includes` and
  `localeCompare`, on the restricted terms listed under "Left out".
- `StableSort` is a generic stable in-place array sort. It is specified by an
  insertion-sort function, because ECMA-262 requires
  `Array.prototype.sort` to be stable (ECMA-262, 14th edition, section 23.1.3.30).
- `RowOrder` holds the `sortBy` comparator of `applyFilters` and what sorting
  by it guarantees.
- `View` holds the provider and search filters, the whole filter-then-sort
  pipeline, the empty-result branch of `renderPricingCards`, and the
  `PricingPage` class. The class holds the script's globals and the grid.

Rows that tie under the comparator keep their relative order. For a `sortBy`
value the `switch` has no case for, the comparator returns 0 for every pair,
so the filtered order is kept. Both facts rest on the sort being stable.

## Model

| member | source | states |
|---|---|---|
| Pricing.FlattenPricingData | app.js:30-48 | the pushed rows are exactly the flattened document, one row per model of every provider |
| Pricing.FlattenLength | app.js:31-47 | the number of rows is the sum over providers of their number of models |
| Pricing.FlattenAt | app.js:33-43 | model j of provider i lands at index (models of earlier providers) + j and carries that provider's id and name and that model's fields |
| Pricing.FlattenOrigin | app.js:33-43 | every row comes from some provider entry i and some model j of it |
| Pricing.RowIndexOrder | app.js:33-34 | rows come provider by provider, and within a provider in model order |
| Pricing.ToRow | app.js:35-43 | the object literal pushed for one model; a row never carries an empty note (field-by-field facts about the output are in FlattenFields) |
| Pricing.FlattenFields | app.js:35-43 | the row flattened from model j of provider i has that provider's key and name, that model's name, prices and unit, and null notes exactly when the model's notes are missing or empty (the model's own notes otherwise) |
| Pricing.FlattenNotesNonEmpty | app.js:42 | no row that flattenPricingData returns carries an empty note |
| Pricing.FlattenIds | app.js:33-36 | every row's providerId is the key of some provider entry |
| Seqs.Filter | app.js:102 | Array.prototype.filter: the accepted elements in order, never more than the input; specified by FilterPositions and FilterMembership |
| Seqs.FilterPositions | app.js:102 | a filter keeps exactly the accepted elements, each once, in their original relative order |
| Seqs.FilterMembership | app.js:102 | a value is in the filtered list iff it is in the list and accepted |
| Text.Lower | app.js:105 | toLowerCase: as long as its input and free of upper-case ASCII letters; see LowerEmpty and ContainsLower |
| Text.Contains | app.js:108-109 | String.prototype.includes: the needle occurs at some offset, which requires it to be no longer than the haystack |
| Text.LocaleCompare | app.js:118 | localeCompare, returning -1, 0 or 1; specified by LocaleCompareAntisymmetric, LocaleCompareZero and LocaleCompareTransitive |
| Text.LowerEmpty | app.js:105-106 | the lower-cased search term is empty iff the search box is empty |
| Text.ContainsLower | app.js:105-110 | a term found in a name is still found after both are lower-cased |
| Text.LocaleCompareAntisymmetric | app.js:118 | swapping the compared names flips the sign of the comparison |
| Text.LocaleCompareZero | app.js:124 | two names compare as 0 exactly when they are equal |
| Text.LocaleCompareTransitive | app.js:118 | the name comparison is transitive |
| StableSort.SortInPlace | app.js:115-128 | the array is rearranged in place into the insertion-sorted order of its old contents |
| StableSort.InsertLast | app.js:115-128 | one insertion step: the element at i moves to its place in the sorted prefix and the rest of the array is unchanged |
| StableSort.InsertionSortedSorted | app.js:115-128 | with a consistent comparator, every earlier element compares <= 0 against every later one |
| StableSort.InsertionSortedPermutation | app.js:115-128 | sorting is a permutation (same multiset), whatever the comparator |
| StableSort.InsertionSortedStable | app.js:115-128 | elements tied with any x appear in the same relative order before and after sorting |
| StableSort.InsertionSortedOfSorted | app.js:115-128 | an already sorted list is returned unchanged |
| StableSort.InsertionSortedIdempotent | app.js:115-128 | sorting twice equals sorting once |
| StableSort.InsertionSortedAllTies | app.js:125-126 | when the comparator returns 0 for every pair, the order is unchanged |
| RowOrder.Compare | app.js:116-127 | the comparator's switch: for a price key, negative iff a is cheaper and zero iff the prices are equal; 0 for a key with no case |
| RowOrder.Comparator | app.js:115-127 | the arrow function handed to sort; its consistency is ComparatorConsistent |
| RowOrder.SortedRows | app.js:115 | filtered.sort(comparator); specified by SortedRowsOrder, SortedRowsPermutation, SortedRowsStable and SortedRowsUnrecognised |
| RowOrder.ComparatorConsistent | app.js:115-128 | for every sortBy the comparator is antisymmetric in sign and transitive |
| RowOrder.SortedRowsOrder | app.js:116-124 | after sorting by inputPrice or outputPrice that price is non-decreasing; by name or provider that name is ascending |
| RowOrder.SortedRowsPermutation | app.js:115-128 | sorting neither adds nor drops a row |
| RowOrder.SortedRowsStable | app.js:115-128 | rows with equal keys keep their filtered order |
| RowOrder.SortedRowsUnrecognised | app.js:125-126 | an unrecognised sortBy leaves the rows in their filtered order |
| RowOrder.SortedRowsIdempotent | app.js:115-128 | re-applying the same sort changes nothing |
| View.IsSelected | app.js:102 | the provider filter's callback: the row's providerId is among the ticked values |
| View.ProviderFilter | app.js:102 | the provider filter step; specified by ProviderFilterExact |
| View.MatchesSearch | app.js:107-110 | the search filter's callback: the lower-cased model or provider name contains the term |
| View.SearchFilter | app.js:104-111 | the search step, filtering only when the lower-cased term is non-empty; specified by SearchFilterExact |
| View.FilteredView | app.js:95-128 | the list applyFilters renders; specified by FilteredViewMembers and FilterAndSort |
| View.RenderPricingCards | app.js:51-57 | the "no models match" message exactly for an empty list, otherwise one card per row in order |
| View.FilterAndSort | app.js:95-128 | the result is the sorted, filtered view; it is a permutation of the filtered rows; and a row is shown iff it is in allModels, its provider is selected and it passes the search |
| View.ProviderFilterExact | app.js:99-102 | the provider filter keeps exactly the rows whose providerId is selected, in their original order |
| View.ProviderFilterNoneSelected | app.js:99-102 | with no check-box ticked, no row survives |
| View.ProviderFilterAllSelected | app.js:99-102 | when every row's provider is ticked, the rows are unchanged |
| View.SearchFilterExact | app.js:105-111 | an empty search keeps the list unchanged; a non-empty one keeps exactly the rows whose lower-cased model or provider name contains the lower-cased term, in order |
| View.SearchFindsVerbatim | app.js:105-110 | a row whose model or provider name contains the typed term verbatim passes the search |
| View.FilteredViewMembers | app.js:95-128 | the view is a permutation of the filtered rows, sorted by the comparator, and holds exactly the selected rows that pass the search |
| View.FilteredViewUnsorted | app.js:114-128 | with an unrecognised sortBy, the view is the filtered rows in allModels order |
| View.FilteredViewShowsAll | app.js:95-128 | with every provider ticked, an empty search and no recognised sort, the view is allModels itself |
| View.NoResultsExactly | app.js:54-56 | the "no models match" message is shown iff no row has a selected provider and passes the search |
| View.SingleProviderRows | app.js:99-128 | with distinct provider keys and one provider ticked, the provider filter keeps exactly that provider's rows in model order; with an empty search the view is a permutation of those rows, and exactly those rows in model order when the sort key has no case |
| View.InputPriceSortExample | app.js:119-120 | rows priced 5, 1 and 3 per input token come out in the order 1, 3, 5 |
| View.PricingPage.constructor | app.js:1-2 | before start-up there is no document and no row, so the page invariant (rows are the flattening of the held document) holds |
| View.PricingPage.Init | app.js:5-27 | on a parsed document, it keeps the document, flattens it into allModels and renders every row; on failure it shows the load-failure message and keeps the globals; it preserves the page invariant |
| View.PricingPage.ApplyFilters | app.js:95-131 | renders the filtered, sorted view of allModels; allModels and the document are unchanged, so the page invariant is kept |

## Left out

- `scraper.js` is not part of this model. It is a separate Node script that saves raw page text to `raw-pricing-data.json` (scraper.js:159); the page's `pricing.json` is written by hand from that text, and the page only reads `pricing.json`.
- Fetching and parsing `pricing.json` (app.js:7-8) is a parameter of `Init`: `None` stands for a failed fetch or parse.
- A document that parses but lacks `providers` or a provider's `models` makes `flattenPricingData` throw after `pricingData` is assigned. A document with a non-numeric price fails later still: `renderPricingCards` throws at `toFixed` (app.js:65), so the load-failure message appears after both `pricingData` and `allModels` are set. The model's document type (prices are reals, fields are present) cannot express either document, so these partial updates are not modelled.
- The "last updated" date formatting (`Date`, `toLocaleString`, app.js:11-12) and `console.error` are output only and are left out.
- `setupEventListeners` and the `DOMContentLoaded` start-up (app.js:81-92, 134-138) are event wiring. The values they read from the page (ticked providers, search box, sort selector) are parameters of `ApplyFilters`.
- The HTML markup of each card and `toFixed(2)` price formatting (app.js:59-77) are not modelled. The grid state `Cards(rows)` records which rows are shown, in which order.
- `Text.Lower` lower-cases ASCII letters only. Unicode case mapping, including length-changing mappings, is not modelled.
- `Text.LocaleCompare` is lexicographic order on Unicode code points (Dafny's `char`), not locale collation. Under it two names tie only when equal, whereas a real collator may, for example, order "a" before "B".
- Strings are sequences of Unicode code points, whereas JavaScript strings are sequences of UTF-16 code units. Lengths, `Text.Contains` offsets and `Text.LocaleCompare` therefore count and order characters outside the Basic Multilingual Plane differently: such a character is one element here and a surrogate pair in JavaScript, and it sorts after U+FF5E here, whereas in UTF-16 code-unit order its leading surrogate sorts before it.
- Prices are mathematical reals, not IEEE-754 doubles, so the comparator's `a.inputPrice - b.inputPrice` never rounds. A non-numeric price (NaN comparator results) cannot be expressed.
- `Object.entries` puts integer-like keys first in ascending order. The model takes the document's provider entries in the order `Object.entries` yields them.
- StableSort.SortInPlace: the model fixes insertion sort as the sorting algorithm. It does not prove that every stable sort with a consistent comparator gives the same result, though that holds.
