/** The comparator `applyFilters` hands to `filtered.sort`: a `switch` on
    the value of the sort selector. */
module RowOrder {
  import opened Pricing
  import opened Text
  import opened StableSort

  /** The `sortBy` values the comparator's `switch` has a case for. */
  predicate RecognisedSortKey(sortBy: string)
  {
    sortBy == "name" || sortBy == "inputPrice" || sortBy == "outputPrice" || sortBy == "provider"
  }

  /** The comparator's body: negative when `a` goes before `b`, positive
      when after, zero for a tie; 0 for every pair when `sortBy` has no case. */
  function Compare(sortBy: string, a: Row, b: Row): (r: real)
    ensures sortBy == "inputPrice" ==>
      (r < 0.0 <==> a.inputPrice < b.inputPrice) && (r == 0.0 <==> a.inputPrice == b.inputPrice)
    ensures sortBy == "outputPrice" ==>
      (r < 0.0 <==> a.outputPrice < b.outputPrice) && (r == 0.0 <==> a.outputPrice == b.outputPrice)
    ensures !RecognisedSortKey(sortBy) ==> r == 0.0
  {
    if sortBy == "name" then LocaleCompare(a.modelName, b.modelName) as real
    else if sortBy == "inputPrice" then a.inputPrice - b.inputPrice
    else if sortBy == "outputPrice" then a.outputPrice - b.outputPrice
    else if sortBy == "provider" then LocaleCompare(a.providerName, b.providerName) as real
    else 0.0
  }

  /** The arrow function `(a, b) => { switch (sortBy) ... }`. */
  function Comparator(sortBy: string): (Row, Row) -> real
  {
    (a, b) => Compare(sortBy, a, b)
  }

  /** Whatever the sort selector holds, the comparator is consistent, so the
      sort's result is well defined. */
  lemma ComparatorConsistent(sortBy: string)
    ensures ConsistentComparator(Comparator(sortBy))
  {
    var cmp := Comparator(sortBy);
    forall a, b
      ensures cmp(a, b) < 0.0 <==> cmp(b, a) > 0.0
    {
      LocaleCompareAntisymmetric(a.modelName, b.modelName);
      LocaleCompareAntisymmetric(a.providerName, b.providerName);
    }
    forall a, b, c | cmp(a, b) <= 0.0 && cmp(b, c) <= 0.0
      ensures cmp(a, c) <= 0.0
    {
      if sortBy == "name" {
        LocaleCompareTransitive(a.modelName, b.modelName, c.modelName);
      } else if sortBy == "provider" {
        LocaleCompareTransitive(a.providerName, b.providerName, c.providerName);
      }
    }
  }

  /** `filtered.sort(comparator)` on the filtered rows. */
  function SortedRows(sortBy: string, rows: seq<Row>): seq<Row>
  {
    InsertionSorted(Comparator(sortBy), rows)
  }

  /** Sorting by "inputPrice" or "outputPrice" leaves the rows non-decreasing
      in that price; sorting by "name" or "provider" leaves them in
      ascending order of that name. */
  lemma SortedRowsOrder(sortBy: string, rows: seq<Row>)
    ensures var r := SortedRows(sortBy, rows);
      forall i, j :: 0 <= i < j < |r| ==>
        && (sortBy == "inputPrice" ==> r[i].inputPrice <= r[j].inputPrice)
        && (sortBy == "outputPrice" ==> r[i].outputPrice <= r[j].outputPrice)
        && (sortBy == "name" ==> LocaleCompare(r[i].modelName, r[j].modelName) <= 0)
        && (sortBy == "provider" ==> LocaleCompare(r[i].providerName, r[j].providerName) <= 0)
  {
    ComparatorConsistent(sortBy);
    InsertionSortedSorted(Comparator(sortBy), rows);
    var r := SortedRows(sortBy, rows);
    forall i, j | 0 <= i < j < |r|
      ensures Compare(sortBy, r[i], r[j]) <= 0.0
    {
      assert Comparator(sortBy)(r[i], r[j]) <= 0.0;
    }
  }

  /** The sort only reorders the rows it is given. */
  lemma SortedRowsPermutation(sortBy: string, rows: seq<Row>)
    ensures multiset(SortedRows(sortBy, rows)) == multiset(rows)
  {
    InsertionSortedPermutation(Comparator(sortBy), rows);
  }

  /** Rows that tie under the comparator keep their relative order. */
  lemma SortedRowsStable(sortBy: string, rows: seq<Row>, x: Row)
    ensures Tied(Comparator(sortBy), SortedRows(sortBy, rows), x) == Tied(Comparator(sortBy), rows, x)
  {
    ComparatorConsistent(sortBy);
    InsertionSortedStable(Comparator(sortBy), rows, x);
  }

  /** For a `sortBy` the `switch` has no case for, the comparator returns 0
      and the rows keep their order. */
  lemma SortedRowsUnrecognised(sortBy: string, rows: seq<Row>)
    requires !RecognisedSortKey(sortBy)
    ensures SortedRows(sortBy, rows) == rows
  {
    InsertionSortedAllTies(Comparator(sortBy), rows);
  }

  /** Re-sorting an already sorted list with the same key changes nothing. */
  lemma SortedRowsIdempotent(sortBy: string, rows: seq<Row>)
    ensures SortedRows(sortBy, SortedRows(sortBy, rows)) == SortedRows(sortBy, rows)
  {
    ComparatorConsistent(sortBy);
    InsertionSortedIdempotent(Comparator(sortBy), rows);
  }
}
