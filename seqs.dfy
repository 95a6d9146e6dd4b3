/** Sequence helpers shared by the view controller: the behaviour of
    `Array.prototype.filter` (a fresh array holding, in order, the elements
    for which the callback is truthy) and what it means for one sequence to
    be an in-order selection of another. */
module Seqs {

  /** `s.filter(keep)`: walks `s` from the front and pushes every element
      for which `keep` holds, so the last element is decided last. */
  function Filter<T>(s: seq<T>, keep: T -> bool): (r: seq<T>)
    ensures |r| <= |s|
  {
    if s == [] then []
    else Filter(s[..|s| - 1], keep) + (if keep(s[|s| - 1]) then [s[|s| - 1]] else [])
  }

  /** The positions of `s`, in increasing order, whose element `keep` accepts. */
  function KeptIndices<T>(s: seq<T>, keep: T -> bool): seq<int>
  {
    if s == [] then []
    else KeptIndices(s[..|s| - 1], keep) + (if keep(s[|s| - 1]) then [|s| - 1] else [])
  }

  /** `sub` is the elements of `s` at the strictly increasing positions `idx`. */
  ghost predicate SelectionAt<T>(sub: seq<T>, s: seq<T>, idx: seq<int>)
  {
    && |idx| == |sub|
    && (forall k :: 0 <= k < |idx| ==> 0 <= idx[k] < |s| && sub[k] == s[idx[k]])
    && (forall k1, k2 :: 0 <= k1 < k2 < |idx| ==> idx[k1] < idx[k2])
  }

  /** The filtered sequence holds exactly the accepted elements of `s`, each
      once, in their original relative order. */
  lemma {:induction false} FilterPositions<T>(s: seq<T>, keep: T -> bool)
    ensures SelectionAt(Filter(s, keep), s, KeptIndices(s, keep))
    ensures forall i :: 0 <= i < |s| ==> (i in KeptIndices(s, keep) <==> keep(s[i]))
  {
    if s != [] {
      var n := |s| - 1;
      var init := s[..n];
      FilterPositions(init, keep);
      var idx := KeptIndices(init, keep);
      assert forall k :: 0 <= k < |idx| ==> idx[k] < n;
      forall i | 0 <= i < |s|
        ensures i in KeptIndices(s, keep) <==> keep(s[i])
      {
        if i < n {
          assert init[i] == s[i];
        }
      }
    }
  }

  lemma {:induction false} FilterMembership<T>(s: seq<T>, keep: T -> bool, x: T)
    ensures x in Filter(s, keep) <==> x in s && keep(x)
  {
    if s != [] {
      var init := s[..|s| - 1];
      FilterMembership(init, keep, x);
      assert s == init + [s[|s| - 1]];
    }
  }

  /** Filtering a sequence in which every element is accepted returns it unchanged. */
  lemma {:induction false} FilterKeepsAll<T>(s: seq<T>, keep: T -> bool)
    requires forall i :: 0 <= i < |s| ==> keep(s[i])
    ensures Filter(s, keep) == s
  {
    if s != [] {
      FilterKeepsAll(s[..|s| - 1], keep);
    }
  }

  /** Filtering a sequence in which no element is accepted returns the empty sequence. */
  lemma {:induction false} FilterDropsAll<T>(s: seq<T>, keep: T -> bool)
    requires forall i :: 0 <= i < |s| ==> !keep(s[i])
    ensures Filter(s, keep) == []
  {
    if s != [] {
      FilterDropsAll(s[..|s| - 1], keep);
    }
  }

  /** Filtering distributes over concatenation. */
  lemma {:induction false} FilterAppend<T>(a: seq<T>, b: seq<T>, keep: T -> bool)
    ensures Filter(a + b, keep) == Filter(a, keep) + Filter(b, keep)
  {
    if b != [] {
      var n := |b| - 1;
      assert (a + b)[..|a + b| - 1] == a + b[..n];
      assert (a + b)[|a + b| - 1] == b[n];
      FilterAppend(a, b[..n], keep);
    } else {
      assert a + b == a;
    }
  }

  /** Filtering `lo`, then `y`, then `hi` filters each part. */
  lemma FilterAround<T>(lo: seq<T>, y: T, hi: seq<T>, keep: T -> bool)
    ensures Filter(lo + [y] + hi, keep)
         == Filter(lo, keep) + (if keep(y) then [y] else []) + Filter(hi, keep)
  {
    FilterAppend(lo + [y], hi, keep);
    assert (lo + [y])[..|lo|] == lo;
  }
}
