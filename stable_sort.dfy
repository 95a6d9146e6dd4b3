/** `Array.prototype.sort(comparator)`: an in-place sort that is stable
    (ECMA-262, 14th edition, section 23.1.3.30). It is modelled as an insertion sort. That
    every other stable sort with a consistent comparator yields the same
    order is not proved here. */
module StableSort {
  import opened Seqs

  /** ECMA-262's consistent comparator: swapping the operands flips the
      sign of the result, and "goes no later than" is transitive. */
  ghost predicate ConsistentComparator<T(!new)>(cmp: (T, T) -> real)
  {
    && (forall a, b {:trigger cmp(a, b), cmp(b, a)} :: cmp(a, b) < 0.0 <==> cmp(b, a) > 0.0)
    && (forall a, b, c {:trigger cmp(a, b), cmp(b, c), cmp(a, c)} ::
          cmp(a, b) <= 0.0 && cmp(b, c) <= 0.0 ==> cmp(a, c) <= 0.0)
  }

  /** Every element goes no later than every element after it. */
  ghost predicate SortedBy<T>(cmp: (T, T) -> real, s: seq<T>)
  {
    forall i, j :: 0 <= i < j < |s| ==> cmp(s[i], s[j]) <= 0.0
  }

  /** Where `x` lands when inserted into `t`: after the last element that
      does not compare greater than `x`. */
  function InsertPos<T>(cmp: (T, T) -> real, t: seq<T>, x: T): (p: nat)
    ensures p <= |t|
  {
    if t == [] then 0
    else if cmp(t[|t| - 1], x) > 0.0 then InsertPos(cmp, t[..|t| - 1], x)
    else |t|
  }

  function Insert<T>(cmp: (T, T) -> real, t: seq<T>, x: T): seq<T>
  {
    var p := InsertPos(cmp, t, x);
    t[..p] + [x] + t[p..]
  }

  /** The order `s.sort(cmp)` leaves the elements in. */
  function InsertionSorted<T>(cmp: (T, T) -> real, s: seq<T>): seq<T>
  {
    if s == [] then []
    else Insert(cmp, InsertionSorted(cmp, s[..|s| - 1]), s[|s| - 1])
  }

  /** `a.sort(cmp)`, in place. */
  method SortInPlace<T>(a: array<T>, cmp: (T, T) -> real)
    modifies a
    ensures a[..] == InsertionSorted(cmp, old(a[..]))
  {
    ghost var input := a[..];
    for i := 0 to a.Length
      invariant a[..i] == InsertionSorted(cmp, input[..i])
      invariant a[i..] == input[i..]
    {
      InsertLast(a, i, cmp);
      assert input[..i + 1][..i] == input[..i];
      assert input[..i + 1][i] == input[i];
    }
    assert input[..a.Length] == input;
  }

  /** One pass of the sort: moves `a[i]` left past the elements of the
      sorted prefix `a[..i]` that compare greater than it. */
  method InsertLast<T>(a: array<T>, i: nat, cmp: (T, T) -> real)
    requires i < a.Length
    modifies a
    ensures a[..i + 1] == Insert(cmp, old(a[..i]), old(a[i]))
    ensures a[i + 1..] == old(a[i + 1..])
  {
    var x := a[i];
    ghost var sorted := a[..i];
    var j := i;
    assert sorted[..j] == sorted;
    while j > 0 && cmp(a[j - 1], x) > 0.0
      invariant 0 <= j <= i
      invariant forall k :: 0 <= k < j ==> a[k] == sorted[k]
      invariant forall k :: j < k <= i ==> a[k] == sorted[k - 1]
      invariant forall k :: i < k < a.Length ==> a[k] == old(a[k])
      invariant InsertPos(cmp, sorted, x) == InsertPos(cmp, sorted[..j], x)
    {
      InsertPosStep(cmp, sorted, x, j);
      a[j] := a[j - 1];
      j := j - 1;
    }
    a[j] := x;
    InsertAssembled(a[..i + 1], sorted, x, j);
    assert a[i + 1..] == old(a[i + 1..]);
  }

  lemma InsertPosStep<T>(cmp: (T, T) -> real, t: seq<T>, x: T, j: nat)
    requires 0 < j <= |t| && cmp(t[j - 1], x) > 0.0
    ensures InsertPos(cmp, t[..j], x) == InsertPos(cmp, t[..j - 1], x)
  {
    assert t[..j][..j - 1] == t[..j - 1];
  }

  /** A sequence that agrees with `t` before `j`, holds `x` at `j` and
      agrees with `t` shifted by one after it, is `t` with `x` inserted at `j`. */
  lemma InsertAssembled<T>(r: seq<T>, t: seq<T>, x: T, j: nat)
    requires j <= |t| && |r| == |t| + 1
    requires forall k :: 0 <= k < j ==> r[k] == t[k]
    requires r[j] == x
    requires forall k :: j < k < |r| ==> r[k] == t[k - 1]
    ensures r == t[..j] + [x] + t[j..]
  {
    var s := t[..j] + [x] + t[j..];
    forall k | 0 <= k < |r|
      ensures r[k] == s[k]
    {
      if k > j {
        assert s[k] == t[j..][k - j - 1];
      }
    }
  }

  /** The elements after the insertion point compare greater than `x`; the
      one before it does not. */
  lemma {:induction false} InsertPosBounds<T>(cmp: (T, T) -> real, t: seq<T>, x: T)
    ensures forall i :: InsertPos(cmp, t, x) <= i < |t| ==> cmp(t[i], x) > 0.0
    ensures 0 < InsertPos(cmp, t, x) ==> cmp(t[InsertPos(cmp, t, x) - 1], x) <= 0.0
  {
    if t != [] && cmp(t[|t| - 1], x) > 0.0 {
      InsertPosBounds(cmp, t[..|t| - 1], x);
    }
  }

  /** `lo`, then `x`, then `hi` is sorted when each part is and each part
      goes no later than the parts after it. */
  lemma SortedAround<T>(cmp: (T, T) -> real, lo: seq<T>, x: T, hi: seq<T>)
    requires SortedBy(cmp, lo) && SortedBy(cmp, hi)
    requires forall i, j :: 0 <= i < |lo| && 0 <= j < |hi| ==> cmp(lo[i], hi[j]) <= 0.0
    requires forall i :: 0 <= i < |lo| ==> cmp(lo[i], x) <= 0.0
    requires forall j :: 0 <= j < |hi| ==> cmp(x, hi[j]) <= 0.0
    ensures SortedBy(cmp, lo + [x] + hi)
  {
    var r := lo + [x] + hi;
    var n := |lo|;
    forall i, j | 0 <= i < j < |r|
      ensures cmp(r[i], r[j]) <= 0.0
    {
      if j < n {
        assert r[i] == lo[i] && r[j] == lo[j];
      } else if j == n {
        assert r[i] == lo[i] && r[j] == x;
      } else if i < n {
        assert r[i] == lo[i] && r[j] == hi[j - n - 1];
      } else if i == n {
        assert r[i] == x && r[j] == hi[j - n - 1];
      } else {
        assert r[i] == hi[i - n - 1] && r[j] == hi[j - n - 1];
      }
    }
  }

  /** Both parts of a sorted sequence are sorted, and the first goes no
      later than the second. */
  lemma SortedParts<T>(cmp: (T, T) -> real, t: seq<T>, p: nat)
    requires p <= |t| && SortedBy(cmp, t)
    ensures SortedBy(cmp, t[..p]) && SortedBy(cmp, t[p..])
    ensures forall i, j :: 0 <= i < p && 0 <= j < |t| - p ==> cmp(t[..p][i], t[p..][j]) <= 0.0
  {
    var lo, hi := t[..p], t[p..];
    forall i, j | 0 <= i < j < |lo|
      ensures cmp(lo[i], lo[j]) <= 0.0
    {
      assert lo[i] == t[i] && lo[j] == t[j];
    }
    forall i, j | 0 <= i < j < |hi|
      ensures cmp(hi[i], hi[j]) <= 0.0
    {
      assert hi[i] == t[p + i] && hi[j] == t[p + j];
    }
    forall i, j | 0 <= i < |lo| && 0 <= j < |hi|
      ensures cmp(lo[i], hi[j]) <= 0.0
    {
      assert lo[i] == t[i] && hi[j] == t[p + j];
    }
  }

  /** Inserting into a sorted sequence keeps it sorted. */
  lemma InsertSorted<T(!new)>(cmp: (T, T) -> real, t: seq<T>, x: T)
    requires ConsistentComparator(cmp)
    requires SortedBy(cmp, t)
    ensures SortedBy(cmp, Insert(cmp, t, x))
  {
    var p := InsertPos(cmp, t, x);
    InsertPosBounds(cmp, t, x);
    SortedParts(cmp, t, p);
    var lo, hi := t[..p], t[p..];
    forall i | 0 <= i < |lo|
      ensures cmp(lo[i], x) <= 0.0
    {
      assert lo[i] == t[i];
      if i < p - 1 {
        assert cmp(t[i], t[p - 1]) <= 0.0 && cmp(t[p - 1], x) <= 0.0;
      }
    }
    forall j | 0 <= j < |hi|
      ensures cmp(x, hi[j]) <= 0.0
    {
      assert hi[j] == t[p + j];
      assert cmp(hi[j], x) > 0.0;
    }
    SortedAround(cmp, lo, x, hi);
  }

  /** With a consistent comparator the result is sorted. */
  lemma {:induction false} InsertionSortedSorted<T(!new)>(cmp: (T, T) -> real, s: seq<T>)
    requires ConsistentComparator(cmp)
    ensures SortedBy(cmp, InsertionSorted(cmp, s))
  {
    if s != [] {
      InsertionSortedSorted(cmp, s[..|s| - 1]);
      InsertSorted(cmp, InsertionSorted(cmp, s[..|s| - 1]), s[|s| - 1]);
    }
  }

  lemma InsertPermutation<T>(cmp: (T, T) -> real, t: seq<T>, x: T)
    ensures multiset(Insert(cmp, t, x)) == multiset(t) + multiset{x}
  {
    var p := InsertPos(cmp, t, x);
    var lo, hi := t[..p], t[p..];
    assert t == lo + hi;
    assert multiset(t) == multiset(lo) + multiset(hi);
    assert multiset(lo + [x] + hi) == multiset(lo) + multiset{x} + multiset(hi);
  }

  /** Sorting only reorders: the result is a permutation of the input,
      whatever the comparator. */
  lemma {:induction false} InsertionSortedPermutation<T>(cmp: (T, T) -> real, s: seq<T>)
    ensures multiset(InsertionSorted(cmp, s)) == multiset(s)
  {
    if s != [] {
      var init, x := s[..|s| - 1], s[|s| - 1];
      InsertionSortedPermutation(cmp, init);
      InsertPermutation(cmp, InsertionSorted(cmp, init), x);
      assert s == init + [x];
    }
  }

  /** The elements that tie with `x` under the comparator, in their order in `s`. */
  function Tied<T>(cmp: (T, T) -> real, s: seq<T>, x: T): seq<T>
  {
    Filter(s, TiesWith(cmp, x))
  }

  function TiesWith<T>(cmp: (T, T) -> real, x: T): T -> bool
  {
    e => cmp(e, x) == 0.0
  }

  /** Inserting `y` appends it to its own tie class and leaves the others alone. */
  lemma InsertStable<T(!new)>(cmp: (T, T) -> real, t: seq<T>, y: T, x: T)
    requires ConsistentComparator(cmp)
    ensures Tied(cmp, Insert(cmp, t, y), x) == Tied(cmp, t + [y], x)
  {
    var p := InsertPos(cmp, t, y);
    var keep := TiesWith(cmp, x);
    var lo, hi := t[..p], t[p..];
    FilterAround(lo, y, hi, keep);
    assert t == lo + hi;
    FilterAppend(lo, hi, keep);
    FilterAppend(t, [y], keep);
    assert [y][..0] == [];
    if keep(y) {
      InsertPosBounds(cmp, t, y);
      forall i | 0 <= i < |hi|
        ensures !keep(hi[i])
      {
        assert hi[i] == t[p + i];
        // hi[i] goes after y, and y ties with x, so hi[i] goes after x
        assert cmp(x, y) == 0.0;
      }
      FilterDropsAll(hi, keep);
    }
  }

  /** The sort is stable: the elements of every tie class keep their
      relative order. */
  lemma {:induction false} InsertionSortedStable<T(!new)>(cmp: (T, T) -> real, s: seq<T>, x: T)
    requires ConsistentComparator(cmp)
    ensures Tied(cmp, InsertionSorted(cmp, s), x) == Tied(cmp, s, x)
  {
    if s != [] {
      var init, y := s[..|s| - 1], s[|s| - 1];
      var t := InsertionSorted(cmp, init);
      InsertionSortedStable(cmp, init, x);
      InsertStable(cmp, t, y, x);
      FilterAppend(t, [y], TiesWith(cmp, x));
      FilterAppend(init, [y], TiesWith(cmp, x));
      assert s == init + [y];
    }
  }

  /** A sequence that is already sorted is left as it is. */
  lemma {:induction false} InsertionSortedOfSorted<T>(cmp: (T, T) -> real, s: seq<T>)
    requires SortedBy(cmp, s)
    ensures InsertionSorted(cmp, s) == s
  {
    if s != [] {
      var init, y := s[..|s| - 1], s[|s| - 1];
      SortedParts(cmp, s, |s| - 1);
      InsertionSortedOfSorted(cmp, init);
      if |init| > 0 {
        assert cmp(s[|s| - 2], s[|s| - 1]) <= 0.0;
      }
      assert InsertPos(cmp, init, y) == |init|;
      assert init + [y] == s;
    }
  }

  /** Sorting twice gives the order sorting once gives. */
  lemma InsertionSortedIdempotent<T(!new)>(cmp: (T, T) -> real, s: seq<T>)
    requires ConsistentComparator(cmp)
    ensures InsertionSorted(cmp, InsertionSorted(cmp, s)) == InsertionSorted(cmp, s)
  {
    InsertionSortedSorted(cmp, s);
    InsertionSortedOfSorted(cmp, InsertionSorted(cmp, s));
  }

  /** A comparator that never reports an order leaves the order unchanged. */
  lemma {:induction false} InsertionSortedAllTies<T>(cmp: (T, T) -> real, s: seq<T>)
    requires forall i, j :: 0 <= i < |s| && 0 <= j < |s| ==> cmp(s[i], s[j]) == 0.0
    ensures InsertionSorted(cmp, s) == s
  {
    if s != [] {
      var init := s[..|s| - 1];
      InsertionSortedAllTies(cmp, init);
      assert init + [s[|s| - 1]] == s;
    }
  }
}
