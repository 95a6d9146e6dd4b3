/** The view controller of the card page: the provider filter, the search
    filter and the sort of `applyFilters`, the empty-result branch of
    `renderPricingCards`, and the page state `init` sets up. The DOM reads
    of `applyFilters` (checked provider boxes, search box, sort selector)
    are parameters here. */
module View {
  import opened Pricing
  import opened Text
  import opened Seqs
  import opened StableSort
  import opened RowOrder

  /** The provider filter's callback: `selectedProviders.includes(model.providerId)`. */
  function IsSelected(selectedProviders: seq<string>): Row -> bool
  {
    (r: Row) => r.providerId in selectedProviders
  }

  /** `filtered.filter(model => selectedProviders.includes(model.providerId))`. */
  function ProviderFilter(rows: seq<Row>, selectedProviders: seq<string>): seq<Row>
  {
    Filter(rows, IsSelected(selectedProviders))
  }

  /** The search filter's callback, given the lower-cased search term. */
  function MatchesSearch(searchTerm: string): Row -> bool
  {
    (r: Row) => Contains(Lower(r.modelName), searchTerm) || Contains(Lower(r.providerName), searchTerm)
  }

  /** The search step: the box's value is lower-cased, and only a non-empty
      term filters. */
  function SearchFilter(rows: seq<Row>, searchBoxValue: string): seq<Row>
  {
    var searchTerm := Lower(searchBoxValue);
    if searchTerm == [] then rows else Filter(rows, MatchesSearch(searchTerm))
  }

  /** A row gets past the search box: the box is empty, or its lower-cased
      value occurs in the lower-cased model name or provider name. */
  predicate PassesSearch(searchBoxValue: string, r: Row)
  {
    searchBoxValue == []
    || Contains(Lower(r.modelName), Lower(searchBoxValue))
    || Contains(Lower(r.providerName), Lower(searchBoxValue))
  }

  /** The list `applyFilters` renders. */
  function FilteredView(allModels: seq<Row>, selectedProviders: seq<string>,
                        searchBoxValue: string, sortBy: string): seq<Row>
  {
    SortedRows(sortBy, SearchFilter(ProviderFilter(allModels, selectedProviders), searchBoxValue))
  }

  /** What the pricing grid shows. The card markup is not modelled: `Cards`
      stands for one card per row, in order. */
  datatype Display = Initial | LoadFailed | NoResults | Cards(models: seq<Row>)

  /** `renderPricingCards(models)`: the "no models match" message for an
      empty list, otherwise one card per row, in order. */
  function RenderPricingCards(models: seq<Row>): (d: Display)
    ensures d == NoResults <==> models == []
    ensures d != NoResults ==> d == Cards(models)
  {
    if |models| == 0 then NoResults else Cards(models)
  }

  /** The computing part of `applyFilters`: the two filters, then the sort
      of the filtered array in place. The array sorted is a fresh one, never
      the list the rows came from. */
  method FilterAndSort(allModels: seq<Row>, selectedProviders: seq<string>,
                       searchBoxValue: string, sortBy: string) returns (filtered: seq<Row>)
    ensures filtered == FilteredView(allModels, selectedProviders, searchBoxValue, sortBy)
    ensures multiset(filtered) == multiset(SearchFilter(ProviderFilter(allModels, selectedProviders), searchBoxValue))
    ensures forall r :: r in filtered <==>
      r in allModels && r.providerId in selectedProviders && PassesSearch(searchBoxValue, r)
  {
    filtered := allModels;
    filtered := Filter(filtered, IsSelected(selectedProviders));
    var searchTerm := Lower(searchBoxValue);
    if searchTerm != [] {
      filtered := Filter(filtered, MatchesSearch(searchTerm));
    }
    var buffer := new Row[|filtered|](i requires 0 <= i < |filtered| => filtered[i]);
    assert buffer[..] == filtered;
    SortInPlace(buffer, Comparator(sortBy));
    filtered := buffer[..];
    FilteredViewMembers(allModels, selectedProviders, searchBoxValue, sortBy);
  }

  /** The provider filter keeps exactly the rows whose `providerId` is
      selected, each once, in their original relative order. */
  lemma ProviderFilterExact(rows: seq<Row>, selectedProviders: seq<string>)
    ensures forall r :: r in ProviderFilter(rows, selectedProviders) <==>
      r in rows && r.providerId in selectedProviders
    ensures SelectionAt(ProviderFilter(rows, selectedProviders), rows,
                        KeptIndices(rows, IsSelected(selectedProviders)))
    ensures forall i :: 0 <= i < |rows| ==>
      (i in KeptIndices(rows, IsSelected(selectedProviders)) <==> rows[i].providerId in selectedProviders)
  {
    FilterPositions(rows, IsSelected(selectedProviders));
    forall r
      ensures r in ProviderFilter(rows, selectedProviders) <==> r in rows && r.providerId in selectedProviders
    {
      FilterMembership(rows, IsSelected(selectedProviders), r);
    }
  }

  /** With no provider checked nothing is left. */
  lemma ProviderFilterNoneSelected(rows: seq<Row>)
    ensures ProviderFilter(rows, []) == []
  {
    FilterDropsAll(rows, IsSelected([]));
  }

  /** With every row's provider checked every row is kept, in order. */
  lemma ProviderFilterAllSelected(rows: seq<Row>, selectedProviders: seq<string>)
    requires forall i :: 0 <= i < |rows| ==> rows[i].providerId in selectedProviders
    ensures ProviderFilter(rows, selectedProviders) == rows
  {
    FilterKeepsAll(rows, IsSelected(selectedProviders));
  }

  /** An empty search box leaves the list as it is; otherwise the search
      keeps exactly the rows whose lower-cased model or provider name
      contains the lower-cased term, in their original relative order. */
  lemma SearchFilterExact(rows: seq<Row>, searchBoxValue: string)
    ensures searchBoxValue == [] ==> SearchFilter(rows, searchBoxValue) == rows
    ensures forall r :: r in SearchFilter(rows, searchBoxValue) <==>
      r in rows && PassesSearch(searchBoxValue, r)
    ensures searchBoxValue != [] ==>
      && SelectionAt(SearchFilter(rows, searchBoxValue), rows,
                     KeptIndices(rows, MatchesSearch(Lower(searchBoxValue))))
      && forall i :: 0 <= i < |rows| ==>
           (i in KeptIndices(rows, MatchesSearch(Lower(searchBoxValue))) <==> PassesSearch(searchBoxValue, rows[i]))
  {
    var searchTerm := Lower(searchBoxValue);
    LowerEmpty(searchBoxValue);
    if searchTerm != [] {
      FilterPositions(rows, MatchesSearch(searchTerm));
      forall r
        ensures r in SearchFilter(rows, searchBoxValue) <==> r in rows && PassesSearch(searchBoxValue, r)
      {
        FilterMembership(rows, MatchesSearch(searchTerm), r);
      }
    }
  }

  /** The search ignores case: a row whose model or provider name contains
      the typed text verbatim is found. */
  lemma SearchFindsVerbatim(rows: seq<Row>, searchBoxValue: string, r: Row)
    requires r in rows
    requires Contains(r.modelName, searchBoxValue) || Contains(r.providerName, searchBoxValue)
    ensures r in SearchFilter(rows, searchBoxValue)
  {
    SearchFilterExact(rows, searchBoxValue);
    if Contains(r.modelName, searchBoxValue) {
      ContainsLower(r.modelName, searchBoxValue);
    } else {
      ContainsLower(r.providerName, searchBoxValue);
    }
  }

  /** The rendered list holds exactly the rows that are selected and pass
      the search, is a permutation of the filtered list, and is sorted by
      the chosen key. */
  lemma FilteredViewMembers(allModels: seq<Row>, selectedProviders: seq<string>,
                            searchBoxValue: string, sortBy: string)
    ensures var view := FilteredView(allModels, selectedProviders, searchBoxValue, sortBy);
      && multiset(view) == multiset(SearchFilter(ProviderFilter(allModels, selectedProviders), searchBoxValue))
      && (forall r :: r in view <==>
            r in allModels && r.providerId in selectedProviders && PassesSearch(searchBoxValue, r))
      && SortedBy(Comparator(sortBy), view)
  {
    var provided := ProviderFilter(allModels, selectedProviders);
    var searched := SearchFilter(provided, searchBoxValue);
    ProviderFilterExact(allModels, selectedProviders);
    SearchFilterExact(provided, searchBoxValue);
    SortedRowsPermutation(sortBy, searched);
    ComparatorConsistent(sortBy);
    InsertionSortedSorted(Comparator(sortBy), searched);
    var view := FilteredView(allModels, selectedProviders, searchBoxValue, sortBy);
    forall r
      ensures r in view <==> r in searched
    {
      assert r in view <==> r in multiset(view);
      assert r in searched <==> r in multiset(searched);
    }
  }

  /** For a sort key the comparator has no case for, the rendered list is
      the filtered list in its original order. */
  lemma FilteredViewUnsorted(allModels: seq<Row>, selectedProviders: seq<string>,
                             searchBoxValue: string, sortBy: string)
    requires !RecognisedSortKey(sortBy)
    ensures FilteredView(allModels, selectedProviders, searchBoxValue, sortBy)
         == SearchFilter(ProviderFilter(allModels, selectedProviders), searchBoxValue)
  {
    SortedRowsUnrecognised(sortBy, SearchFilter(ProviderFilter(allModels, selectedProviders), searchBoxValue));
  }

  /** Every provider checked, an empty search box and no recognised sort key
      show every row in document order. */
  lemma FilteredViewShowsAll(allModels: seq<Row>, selectedProviders: seq<string>, sortBy: string)
    requires forall i :: 0 <= i < |allModels| ==> allModels[i].providerId in selectedProviders
    requires !RecognisedSortKey(sortBy)
    ensures FilteredView(allModels, selectedProviders, "", sortBy) == allModels
  {
    ProviderFilterAllSelected(allModels, selectedProviders);
    FilteredViewUnsorted(allModels, selectedProviders, "", sortBy);
  }

  /** The grid shows "no results" exactly when no row is both selected and
      found by the search. */
  lemma NoResultsExactly(allModels: seq<Row>, selectedProviders: seq<string>,
                         searchBoxValue: string, sortBy: string)
    ensures RenderPricingCards(FilteredView(allModels, selectedProviders, searchBoxValue, sortBy)) == NoResults
        <==> forall r :: r in allModels ==> !(r.providerId in selectedProviders && PassesSearch(searchBoxValue, r))
  {
    FilteredViewMembers(allModels, selectedProviders, searchBoxValue, sortBy);
    var view := FilteredView(allModels, selectedProviders, searchBoxValue, sortBy);
    if |view| > 0 {
      assert view[0] in view;
    }
  }

  /** With only one provider's box checked, the provider filter keeps
      exactly that provider's rows, in the document's model order. With an
      empty search box the view shows those rows in some order, and in model
      order when the sort key is one the comparator has no case for. */
  lemma {:induction false} SingleProviderRows(entries: seq<ProviderEntry>, k: nat, sortBy: string)
    requires DistinctIds(entries) && k < |entries|
    ensures ProviderFilter(Flatten(entries), [entries[k].id]) == ProviderRows(entries[k])
    ensures multiset(FilteredView(Flatten(entries), [entries[k].id], "", sortBy))
         == multiset(ProviderRows(entries[k]))
    ensures !RecognisedSortKey(sortBy) ==>
      FilteredView(Flatten(entries), [entries[k].id], "", sortBy) == ProviderRows(entries[k])
  {
    ProviderFilterOfOne(entries, k);
    var rows := ProviderRows(entries[k]);
    assert SearchFilter(rows, "") == rows;
    SortedRowsPermutation(sortBy, rows);
    if !RecognisedSortKey(sortBy) {
      SortedRowsUnrecognised(sortBy, rows);
    }
  }

  /** The provider-filter half of `SingleProviderRows`, by induction on the entries. */
  lemma {:induction false} ProviderFilterOfOne(entries: seq<ProviderEntry>, k: nat)
    requires DistinctIds(entries) && k < |entries|
    ensures ProviderFilter(Flatten(entries), [entries[k].id]) == ProviderRows(entries[k])
  {
    var n := |entries| - 1;
    var init, last := entries[..n], entries[n];
    var keep := IsSelected([entries[k].id]);
    FilterAppend(Flatten(init), ProviderRows(last), keep);
    if k == n {
      forall m | 0 <= m < |Flatten(init)|
        ensures !keep(Flatten(init)[m])
      {
        FlattenIds(init, m);
      }
      FilterDropsAll(Flatten(init), keep);
      FilterKeepsAll(ProviderRows(last), keep);
    } else {
      assert init[k] == entries[k];
      ProviderFilterOfOne(init, k);
      FilterDropsAll(ProviderRows(last), keep);
    }
  }

  /** Sorting by input price orders rows priced 5, 1 and 3 as 1, 3, 5. */
  lemma InputPriceSortExample(a: Row, b: Row, c: Row)
    requires a.inputPrice == 5.0 && b.inputPrice == 1.0 && c.inputPrice == 3.0
    ensures SortedRows("inputPrice", [a, b, c]) == [b, c, a]
  {
    var cmp := Comparator("inputPrice");
    assert [a, b, c][..2] == [a, b] && [a, b][..1] == [a] && [a][..0] == [];
    assert InsertionSorted(cmp, [a]) == [a];
    assert InsertPos(cmp, [a], b) == 0;
    assert InsertionSorted(cmp, [a, b]) == [b, a];
    assert [b, a][..1] == [b];
    assert InsertPos(cmp, [b], c) == 1;
    assert InsertPos(cmp, [b, a], c) == 1;
  }

  /** The page state the script keeps in its globals, and the grid it renders into. */
  class PricingPage {
    var pricingData: Option<PricingDocument>
    var allModels: seq<Row>
    var grid: Display

    /** The rows are always the flattening of the document held, and there
        are none before a document has loaded. */
    predicate Valid()
      reads this
    {
      && (pricingData.Some? ==> allModels == Flatten(pricingData.value.providers))
      && (pricingData.None? ==> allModels == [])
    }

    /** The globals before `init` runs: no document, no rows. */
    constructor ()
      ensures pricingData == None && allModels == [] && grid == Initial
      ensures Valid()
    {
      pricingData := None;
      allModels := [];
      grid := Initial;
    }

    /** `init`, given what fetching and parsing `pricing.json` produced
        (`None` when either failed): on success the document is kept, its
        rows flattened and all of them rendered; on failure the grid shows
        the "failed to load" message and the globals keep their values. */
    method Init(fetched: Option<PricingDocument>)
      requires Valid()
      modifies this
      ensures Valid()
      ensures fetched.Some? ==>
        && pricingData == fetched
        && allModels == Flatten(fetched.value.providers)
        && grid == RenderPricingCards(allModels)
      ensures fetched.None? ==>
        && pricingData == old(pricingData)
        && allModels == old(allModels)
        && grid == LoadFailed
    {
      if fetched.None? {
        grid := LoadFailed;
        return;
      }
      pricingData := fetched;
      allModels := FlattenPricingData(fetched.value);
      grid := RenderPricingCards(allModels);
    }

    /** `applyFilters`: renders the filtered, sorted rows; the full row list
        and the document are left untouched. */
    method ApplyFilters(selectedProviders: seq<string>, searchBoxValue: string, sortBy: string)
      requires Valid()
      modifies this`grid
      ensures Valid()
      ensures grid == RenderPricingCards(FilteredView(allModels, selectedProviders, searchBoxValue, sortBy))
      ensures allModels == old(allModels) && pricingData == old(pricingData)
    {
      var filtered := FilterAndSort(allModels, selectedProviders, searchBoxValue, sortBy);
      grid := RenderPricingCards(filtered);
    }
  }
}
