/** `quick_sort` from pyhdtoolkit/utils/sorts.py.

    The last element is popped as pivot; the remaining elements are split, in
    their original order, into those greater than the pivot and the rest (so
    duplicates of the pivot go to the lower side); the halves are sorted
    recursively and joined around the pivot. Elements are modelled as integers.
 */
module Sorts {

  predicate Sorted(s: seq<int>) {
    forall i, j :: 0 <= i < j < |s| ==> s[i] <= s[j]
  }

  /** The elements not greater than the pivot, in order (the `lesser` list). */
  function Lesser(xs: seq<int>, pivot: int): (r: seq<int>)
    ensures |r| <= |xs|
    ensures forall x :: x in r ==> x <= pivot
    decreases |xs|
  {
    if xs == [] then []
    else
      assert xs == [xs[0]] + xs[1..];
      if xs[0] > pivot then Lesser(xs[1..], pivot) else [xs[0]] + Lesser(xs[1..], pivot)
  }

  /** The elements greater than the pivot, in order (the `greater` list). */
  function Greater(xs: seq<int>, pivot: int): (r: seq<int>)
    ensures |r| <= |xs|
    ensures forall x :: x in r ==> x > pivot
    decreases |xs|
  {
    if xs == [] then []
    else
      assert xs == [xs[0]] + xs[1..];
      if xs[0] > pivot then [xs[0]] + Greater(xs[1..], pivot) else Greater(xs[1..], pivot)
  }

  /** The two halves together hold exactly the elements that were split. */
  lemma {:induction false} PartitionIsPermutation(xs: seq<int>, pivot: int)
    ensures multiset(Lesser(xs, pivot)) + multiset(Greater(xs, pivot)) == multiset(xs)
    decreases |xs|
  {
    if xs != [] {
      assert xs == [xs[0]] + xs[1..];
      PartitionIsPermutation(xs[1..], pivot);
    }
  }

  lemma SortedAroundPivot(a: seq<int>, pivot: int, b: seq<int>)
    requires Sorted(a) && Sorted(b)
    requires forall x :: x in a ==> x <= pivot
    requires forall x :: x in b ==> x > pivot
    ensures Sorted(a + [pivot] + b)
  {
    var s := a + [pivot] + b;
    forall i, j | 0 <= i < j < |s| ensures s[i] <= s[j] {
      if j < |a| {
      } else if i < |a| {
        assert s[i] in a;
        if j > |a| {
          assert s[j] in b;
        }
      } else if i == |a| {
        assert s[j] in b;
      }
    }
  }

  lemma SameElements(a: seq<int>, b: seq<int>)
    requires multiset(a) == multiset(b)
    ensures forall x :: x in a <==> x in b
  {
    forall x ensures x in a <==> x in b {
      assert x in a <==> x in multiset(a);
      assert x in b <==> x in multiset(b);
    }
  }

  /** `quick_sort(collection)`. */
  function QuickSort(xs: seq<int>): (r: seq<int>)
    ensures |r| == |xs|
    ensures |xs| <= 1 ==> r == xs
    decreases |xs|
  {
    if |xs| <= 1 then
      xs
    else
      var pivot := xs[|xs| - 1];
      var rest := xs[..|xs| - 1];
      PartitionIsPermutation(rest, pivot);
      assert |Lesser(rest, pivot)| + |Greater(rest, pivot)| == |rest| by {
        assert |multiset(Lesser(rest, pivot))| + |multiset(Greater(rest, pivot))| == |multiset(rest)|;
      }
      QuickSort(Lesser(rest, pivot)) + [pivot] + QuickSort(Greater(rest, pivot))
  }

  /** The result holds exactly the elements of the input, with multiplicity. */
  lemma {:induction false} QuickSortPermutes(xs: seq<int>)
    ensures multiset(QuickSort(xs)) == multiset(xs)
    decreases |xs|
  {
    if |xs| > 1 {
      var pivot := xs[|xs| - 1];
      var rest := xs[..|xs| - 1];
      var lo, hi := Lesser(rest, pivot), Greater(rest, pivot);
      QuickSortUnfold(xs);
      QuickSortPermutes(lo);
      QuickSortPermutes(hi);
      PartitionIsPermutation(rest, pivot);
      MultisetDropLast(xs);
      MultisetAroundPivot(QuickSort(xs), xs, QuickSort(lo), QuickSort(hi), lo, hi, rest, pivot);
    }
  }

  /** One step of the recursion, for the lemmas about it. */
  lemma QuickSortUnfold(xs: seq<int>)
    requires |xs| > 1
    ensures var pivot, rest := xs[|xs| - 1], xs[..|xs| - 1];
            QuickSort(xs) == QuickSort(Lesser(rest, pivot)) + [pivot] + QuickSort(Greater(rest, pivot))
  {
  }

  lemma MultisetDropLast(xs: seq<int>)
    requires xs != []
    ensures multiset(xs) == multiset(xs[..|xs| - 1]) + multiset{xs[|xs| - 1]}
  {
    assert xs == xs[..|xs| - 1] + [xs[|xs| - 1]];
  }

  lemma MultisetAroundPivot(r: seq<int>, xs: seq<int>, slo: seq<int>, shi: seq<int>,
                            lo: seq<int>, hi: seq<int>, rest: seq<int>, pivot: int)
    requires r == slo + [pivot] + shi && multiset(xs) == multiset(rest) + multiset{pivot}
    requires multiset(slo) == multiset(lo) && multiset(shi) == multiset(hi)
    requires multiset(lo) + multiset(hi) == multiset(rest)
    ensures multiset(r) == multiset(xs)
  {
  }

  /** The result is in ascending order. */
  lemma {:induction false} QuickSortSorts(xs: seq<int>)
    ensures Sorted(QuickSort(xs))
    decreases |xs|
  {
    if |xs| > 1 {
      var pivot := xs[|xs| - 1];
      var rest := xs[..|xs| - 1];
      var lo, hi := Lesser(rest, pivot), Greater(rest, pivot);
      QuickSortSorts(lo);
      QuickSortSorts(hi);
      QuickSortPermutes(lo);
      QuickSortPermutes(hi);
      SameElements(QuickSort(lo), lo);
      SameElements(QuickSort(hi), hi);
      SortedAroundPivot(QuickSort(lo), pivot, QuickSort(hi));
    }
  }

  lemma QuickSortCorrect(xs: seq<int>)
    ensures Sorted(QuickSort(xs))
    ensures multiset(QuickSort(xs)) == multiset(xs)
  {
    QuickSortSorts(xs);
    QuickSortPermutes(xs);
  }

  /** A call `quick_sort(collection)` on a Python list: the returned list, and
      the caller's list afterwards. The top-level `pop` removes the pivot from
      the caller's list; the recursive calls only see fresh lists. */
  function QuickSortCall(collection: seq<int>): (r: (seq<int>, seq<int>))
    ensures Sorted(r.0) && multiset(r.0) == multiset(collection)
    ensures |collection| <= 1 ==> r.0 == collection && r.1 == collection
    ensures |collection| > 1 ==> r.1 == collection[..|collection| - 1]
  {
    QuickSortCorrect(collection);
    if |collection| <= 1 then (collection, collection)
    else (QuickSort(collection), collection[..|collection| - 1])
  }

  /** Sorting is unique: two ascending sequences with the same elements are equal.
      Hence any correct sort (Python's `sorted` included) agrees with `QuickSort`. */
  lemma {:induction false} SortedPermutationsAreEqual(a: seq<int>, b: seq<int>)
    requires Sorted(a) && Sorted(b)
    requires multiset(a) == multiset(b)
    ensures a == b
    decreases |a|
  {
    assert |a| == |multiset(a)| == |b|;
    if |a| > 0 {
      assert a[0] in multiset(b);
      assert b[0] in multiset(a);
      assert a[0] == b[0] by {
        var i :| 0 <= i < |b| && b[i] == a[0];
        var j :| 0 <= j < |a| && a[j] == b[0];
        assert b[0] <= a[0] && a[0] <= b[0];
      }
      assert a == [a[0]] + a[1..];
      assert b == [b[0]] + b[1..];
      assert multiset(a) == multiset{a[0]} + multiset(a[1..]);
      assert multiset(b) == multiset{b[0]} + multiset(b[1..]);
      assert multiset(a[1..]) == multiset(a) - multiset{a[0]};
      assert multiset(b[1..]) == multiset(b) - multiset{b[0]};
      SortedPermutationsAreEqual(a[1..], b[1..]);
    }
  }

  /** The worked examples of the test suite. */
  lemma QuickSortExampleDuplicates()
    ensures QuickSort([0, 5, 3, 2, 2]) == [0, 2, 2, 3, 5]
  {
    var xs := [0, 5, 3, 2, 2];
    assert xs[..4] == [0, 5, 3, 2];
    assert Lesser([0, 5, 3, 2], 2) == [0, 2];
    assert Greater([0, 5, 3, 2], 2) == [5, 3];
    assert QuickSort([0, 2]) == [0, 2] by {
      assert [0, 2][..1] == [0];
    }
    assert QuickSort([5, 3]) == [3, 5] by {
      assert [5, 3][..1] == [5];
    }
  }

  lemma QuickSortExampleNegatives()
    ensures QuickSort([]) == []
    ensures QuickSort([-2, -5, -45]) == [-45, -5, -2]
  {
    assert [-2, -5, -45][..2] == [-2, -5];
    assert Lesser([-2, -5], -45) == [];
    assert Greater([-2, -5], -45) == [-2, -5];
    assert QuickSort([-2, -5]) == [-5, -2] by {
      assert [-2, -5][..1] == [-2];
    }
  }
}
