/** `ListOperations` from pyhdtoolkit/utils/operations.py.

    Python lists are sequences; the callables the helpers take are Dafny
    functions. Python's truthiness of an arbitrary element is a parameter
    (`truthy`), since it depends on the element's type.
 */
module ListOperations {
  import opened Errors
  import Sorts

  // ---------------------------------------------------------------------------
  // Shared vocabulary
  // ---------------------------------------------------------------------------

  /** `set(s)`. */
  function ToSet<T>(s: seq<T>): set<T> {
    set x | x in s
  }

  /** No element occurs twice. */
  predicate Distinct<T(==)>(s: seq<T>) {
    forall i, j :: 0 <= i < j < |s| ==> s[i] != s[j]
  }

  /** `{f(x) for x in s}`. */
  function Image<T(==), K>(s: seq<T>, f: T -> K): set<K> {
    set x | x in s :: f(x)
  }

  /** The elements of `s` satisfying `p`, in order (a list comprehension with a filter). */
  function Filter<T(!new)>(s: seq<T>, p: T -> bool): (r: seq<T>)
    ensures |r| <= |s|
    ensures forall x :: x in r <==> x in s && p(x)
    decreases |s|
  {
    if s == [] then []
    else
      assert s == [s[0]] + s[1..];
      if p(s[0]) then [s[0]] + Filter(s[1..], p) else Filter(s[1..], p)
  }

  /** `a` is `b` with some items left out and the others kept in order. */
  predicate Subsequence<T(==)>(a: seq<T>, b: seq<T>)
    decreases |b|
  {
    a == [] || (b != [] && if a[0] == b[0] then Subsequence(a[1..], b[1..]) else Subsequence(a, b[1..]))
  }

  /** `r` holds every copy of each item of `s` satisfying `p`, and nothing else. */
  ghost predicate KeepsExactly<T(!new)>(r: seq<T>, s: seq<T>, p: T -> bool) {
    forall x :: multiset(r)[x] == if p(x) then multiset(s)[x] else 0
  }

  /** A subsequence holds no more copies of an item than the whole. */
  lemma {:induction false} SubsequenceMultiset<T>(a: seq<T>, b: seq<T>)
    requires Subsequence(a, b)
    ensures multiset(a) <= multiset(b)
    decreases |b|
  {
    if a != [] {
      assert b == [b[0]] + b[1..];
      if a[0] == b[0] {
        SubsequenceMultiset(a[1..], b[1..]);
        assert a == [a[0]] + a[1..];
      } else {
        SubsequenceMultiset(a, b[1..]);
      }
    }
  }

  /** Filtering keeps the items it keeps in order, with all their copies. */
  lemma {:induction false} FilterKeepsOrder<T(!new)>(s: seq<T>, p: T -> bool)
    ensures Subsequence(Filter(s, p), s)
    ensures KeepsExactly(Filter(s, p), s, p)
    decreases |s|
  {
    if s != [] {
      FilterKeepsOrder(s[1..], p);
      var t := Filter(s[1..], p);
      assert s == [s[0]] + s[1..];
      if p(s[0]) {
        assert Filter(s, p) == [s[0]] + t && ([s[0]] + t)[1..] == t;
      } else {
        assert Filter(s, p) == t;
        assert t != [] ==> t[0] in t && t[0] != s[0];
      }
    }
  }

  /** Nothing but the filter keeps the items satisfying `p` in order with all
      their copies. */
  lemma {:induction false} FilterUnique<T(!new)>(r: seq<T>, s: seq<T>, p: T -> bool)
    requires Subsequence(r, s) && KeepsExactly(r, s, p)
    ensures r == Filter(s, p)
    decreases |s|
  {
    if s == [] {
      assert multiset(r) == multiset{};
    } else {
      var h, t := s[0], s[1..];
      assert s == [h] + t;
      if r != [] && r[0] == h {
        assert r == [h] + r[1..];
        assert p(h) by {
          assert multiset(r)[h] > 0;
        }
        FilterUnique(r[1..], t, p);
      } else {
        assert Subsequence(r, t);
        SubsequenceMultiset(r, t);
        FilterUnique(r, t, p);
      }
    }
  }

  /** Concatenation of a list of lists, `list(itertools.chain.from_iterable(parts))`. */
  function Flatten<T>(parts: seq<seq<T>>): seq<T>
    decreases |parts|
  {
    if parts == [] then [] else parts[0] + Flatten(parts[1..])
  }

  lemma {:induction false} FlattenAppend<T>(a: seq<seq<T>>, b: seq<seq<T>>)
    ensures Flatten(a + b) == Flatten(a) + Flatten(b)
    decreases |a|
  {
    if a == [] {
      assert a + b == b;
    } else {
      assert (a + b)[0] == a[0];
      assert (a + b)[1..] == a[1..] + b;
      FlattenAppend(a[1..], b);
      calc {
        Flatten(a + b);
        a[0] + Flatten(a[1..] + b);
        a[0] + (Flatten(a[1..]) + Flatten(b));
        (a[0] + Flatten(a[1..])) + Flatten(b);
      }
    }
  }

  // ---------------------------------------------------------------------------
  // all_unique / has_duplicates
  // ---------------------------------------------------------------------------

  /** A list and its set have the same size exactly when no element repeats. */
  lemma {:induction false} SetSizeDetectsRepeats<T>(s: seq<T>)
    ensures |ToSet(s)| <= |s|
    ensures |ToSet(s)| == |s| <==> Distinct(s)
    decreases |s|
  {
    if |s| > 0 {
      var t := s[1..];
      SetSizeDetectsRepeats(t);
      assert ToSet(s) == ToSet(t) + {s[0]} by {
        assert s == [s[0]] + t;
      }
      DistinctCons(s);
      if s[0] in t {
        assert ToSet(s) == ToSet(t);
      } else {
        assert |ToSet(s)| == |ToSet(t)| + 1;
      }
    }
  }

  lemma DistinctCons<T>(s: seq<T>)
    requires s != []
    ensures Distinct(s) <==> s[0] !in s[1..] && Distinct(s[1..])
  {
    var t := s[1..];
    if s[0] in t {
      var j :| 0 <= j < |t| && t[j] == s[0];
      assert s[1 + j] == s[0];
    }
    if Distinct(t) && s[0] !in t {
      forall i, j | 0 <= i < j < |s| ensures s[i] != s[j] {
        assert s[j] == t[j - 1];
        if i > 0 {
          assert s[i] == t[i - 1];
        }
      }
    }
    if Distinct(s) {
      forall i, j | 0 <= i < j < |t| ensures t[i] != t[j] {
        assert t[i] == s[i + 1] && t[j] == s[j + 1];
      }
    }
  }

  /** `all_unique(s)`: `len(s) == len(set(s))`. */
  function AllUnique<T(==)>(s: seq<T>): (r: bool)
    ensures r <==> Distinct(s)
  {
    SetSizeDetectsRepeats(s);
    |s| == |ToSet(s)|
  }

  /** `has_duplicates(s)`: `len(s) != len(set(s))`. */
  function HasDuplicates<T(==)>(s: seq<T>): (r: bool)
    ensures r <==> exists i, j :: 0 <= i < j < |s| && s[i] == s[j]
  {
    SetSizeDetectsRepeats(s);
    |s| != |ToSet(s)|
  }

  lemma AllUniqueIsNotHasDuplicates<T>(s: seq<T>)
    ensures AllUnique(s) == !HasDuplicates(s)
  {
  }

  // ---------------------------------------------------------------------------
  // bifurcate / bifurcate_by
  // ---------------------------------------------------------------------------

  function Count(flags: seq<bool>, b: bool): (n: nat)
    ensures n <= |flags|
    decreases |flags|
  {
    if flags == [] then 0 else (if flags[0] == b then 1 else 0) + Count(flags[1..], b)
  }

  /** The elements whose flag equals `b`, in order. */
  function Pick<T>(s: seq<T>, flags: seq<bool>, b: bool): (r: seq<T>)
    requires |flags| == |s|
    ensures |r| == Count(flags, b)
    decreases |s|
  {
    if s == [] then []
    else if flags[0] == b then [s[0]] + Pick(s[1..], flags[1..], b)
    else Pick(s[1..], flags[1..], b)
  }

  /** Rebuilds a list from its two halves, drawing from `t` at a True flag and
      from `f` at a False one: the inverse of bifurcation. */
  function Merge<T>(t: seq<T>, f: seq<T>, flags: seq<bool>): (r: seq<T>)
    requires |t| == Count(flags, true) && |f| == Count(flags, false)
    ensures |r| == |flags|
    decreases |flags|
  {
    if flags == [] then []
    else if flags[0] then [t[0]] + Merge(t[1..], f, flags[1..])
    else [f[0]] + Merge(t, f[1..], flags[1..])
  }

  /** `bifurcate(s, filters)`: the elements at True filters, then those at False
      filters. A filter list shorter than the input raises IndexError; extra
      filters are ignored. */
  function Bifurcate<T>(s: seq<T>, filters: seq<bool>): (r: Result<(seq<T>, seq<T>)>)
    ensures r.Ok? <==> |filters| >= |s|
    ensures r.Err? ==> r.error == IndexError
    ensures r.Ok? ==> |r.value.0| + |r.value.1| == |s|
    ensures r.Ok? ==> |r.value.0| == Count(filters[..|s|], true)
    ensures r.Ok? ==> |r.value.1| == Count(filters[..|s|], false)
    ensures r.Ok? ==> Merge(r.value.0, r.value.1, filters[..|s|]) == s
  {
    if |filters| < |s| then Err(IndexError)
    else
      var flags := filters[..|s|];
      MergePick(s, flags);
      CountSplit(flags);
      Ok((Pick(s, flags, true), Pick(s, flags, false)))
  }

  lemma {:induction false} CountSplit(flags: seq<bool>)
    ensures Count(flags, true) + Count(flags, false) == |flags|
    decreases |flags|
  {
    if flags != [] {
      CountSplit(flags[1..]);
    }
  }

  /** Merging the picked halves gives back the list. */
  lemma {:induction false} MergePick<T>(s: seq<T>, flags: seq<bool>)
    requires |flags| == |s|
    ensures Merge(Pick(s, flags, true), Pick(s, flags, false), flags) == s
    decreases |s|
  {
    if s != [] {
      MergePick(s[1..], flags[1..]);
    }
  }

  /** Picking from a merge gives back the halves: together with `MergePick`,
      bifurcation with a fixed filter list is a bijection. */
  lemma {:induction false} PickMerge<T>(t: seq<T>, f: seq<T>, flags: seq<bool>)
    requires |t| == Count(flags, true) && |f| == Count(flags, false)
    ensures Pick(Merge(t, f, flags), flags, true) == t
    ensures Pick(Merge(t, f, flags), flags, false) == f
    decreases |flags|
  {
    if flags != [] {
      if flags[0] {
        PickMerge(t[1..], f, flags[1..]);
        assert Merge(t, f, flags)[1..] == Merge(t[1..], f, flags[1..]);
      } else {
        PickMerge(t, f[1..], flags[1..]);
        assert Merge(t, f, flags)[1..] == Merge(t, f[1..], flags[1..]);
      }
    }
  }

  /** `bifurcate_by(s, f)`: the elements satisfying `f`, then the others. */
  function BifurcateBy<T(!new)>(s: seq<T>, p: T -> bool): (r: (seq<T>, seq<T>))
    ensures forall x :: x in r.0 <==> x in s && p(x)
    ensures forall x :: x in r.1 <==> x in s && !p(x)
  {
    (Filter(s, p), Filter(s, x => !p(x)))
  }

  /** `bifurcate_by` is `bifurcate` with the filters computed by the predicate. */
  lemma {:induction false} BifurcateByIsBifurcate<T(!new)>(s: seq<T>, p: T -> bool)
    ensures Bifurcate(s, Map(s, p)) == Ok(BifurcateBy(s, p))
    decreases |s|
  {
    var flags := Map(s, p);
    assert flags[..|s|] == flags;
    PickFlagsIsFilter(s, p);
  }

  lemma {:induction false} PickFlagsIsFilter<T(!new)>(s: seq<T>, p: T -> bool)
    ensures Pick(s, Map(s, p), true) == Filter(s, p)
    ensures Pick(s, Map(s, p), false) == Filter(s, x => !p(x))
    decreases |s|
  {
    if s != [] {
      assert Map(s, p)[1..] == Map(s[1..], p);
      PickFlagsIsFilter(s[1..], p);
    }
  }

  // ---------------------------------------------------------------------------
  // chunk_list
  // ---------------------------------------------------------------------------

  /** What `chunk_list` returns: the input itself (not nested) or a list of slices. */
  datatype Chunked<T> = Whole(items: seq<T>) | Chunks(parts: seq<seq<T>>)

  /** `math.ceil(n / k)` for positive `k`: the least `c` with `c * k >= n`. */
  function CeilDiv(n: nat, k: nat): (c: nat)
    requires k > 0
    decreases n
  {
    if n == 0 then 0 else if n <= k then 1 else 1 + CeilDiv(n - k, k)
  }

  lemma {:induction false} CeilDivIsCeiling(n: nat, k: nat)
    requires k > 0
    ensures CeilDiv(n, k) * k >= n
    ensures CeilDiv(n, k) > 0 ==> (CeilDiv(n, k) - 1) * k < n
    decreases n
  {
    if n > k {
      CeilDivIsCeiling(n - k, k);
      var c := CeilDiv(n - k, k);
      assert (c + 1) * k == c * k + k;
    }
  }

  /** The slices `s[x*size : x*size+size]` for `x` in `range(ceil(len(s)/size))`. */
  function Slices<T>(s: seq<T>, size: nat): (parts: seq<seq<T>>)
    requires size > 0
    ensures forall x :: 0 <= x < |parts| ==> 0 < |parts[x]| <= size
    ensures forall x :: 0 <= x < |parts| - 1 ==> |parts[x]| == size
    decreases |s|
  {
    if s == [] then []
    else if |s| <= size then [s]
    else [s[..size]] + Slices(s[size..], size)
  }

  /** Joining the slices gives back the list. */
  lemma {:induction false} SlicesFlatten<T>(s: seq<T>, size: nat)
    requires size > 0
    ensures Flatten(Slices(s, size)) == s
    decreases |s|
  {
    if s == [] {
    } else if |s| <= size {
      assert Flatten([s]) == s + Flatten([]);
    } else {
      SlicesFlatten(s[size..], size);
      assert s == s[..size] + s[size..];
    }
  }

  lemma {:induction false} SlicesCount<T>(s: seq<T>, size: nat)
    requires size > 0
    ensures |Slices(s, size)| == CeilDiv(|s|, size)
    decreases |s|
  {
    if |s| > size {
      SlicesCount(s[size..], size);
    }
  }

  function Min(a: int, b: int): int {
    if a < b then a else b
  }

  /** `x * size`, spelled as repeated addition. */
  function Offset(x: nat, size: nat): (o: nat)
    ensures o == x * size
  {
    if x == 0 then 0 else Offset(x - 1, size) + size
  }

  /** Slice `x` of the result is `s[x*size : x*size+size]`, clipped to the end. */
  lemma {:induction false} SlicesAreSlices<T>(s: seq<T>, size: nat, x: nat)
    requires size > 0 && x < |Slices(s, size)|
    ensures Offset(x, size) < |s|
    ensures Slices(s, size)[x] == s[Offset(x, size) .. Min(Offset(x, size) + size, |s|)]
    decreases |s|
  {
    if |s| <= size {
      assert x == 0;
    } else if x > 0 {
      var t := s[size..];
      assert Slices(s, size) == [s[..size]] + Slices(t, size);
      SlicesAreSlices(t, size, x - 1);
      var a := Offset(x - 1, size);
      var b := Min(a + size, |t|);
      assert Slices(s, size)[x] == t[a..b];
      assert Offset(x, size) == size + a;
      assert Min(Offset(x, size) + size, |s|) == size + b;
      DropSlice(s, size, a, b);
    }
  }

  lemma DropSlice<T>(s: seq<T>, k: nat, a: nat, b: nat)
    requires a <= b && k + b <= |s|
    ensures s[k..][a..b] == s[k + a .. k + b]
  {
  }

  /** `chunk_list(s, size)`. */
  function ChunkList<T>(s: seq<T>, size: int): (r: Result<Chunked<T>>)
    ensures r.Err? <==> size == 0
    ensures r.Err? ==> r.error == ZeroDivisionError
    ensures size > |s| ==> r == Ok(Whole(s))
    ensures size < 0 ==> r == Ok(Chunks([]))
    ensures 0 < size <= |s| ==> r.Ok? && r.value.Chunks? && Flatten(r.value.parts) == s
    ensures 0 < size <= |s| ==> |r.value.parts| == CeilDiv(|s|, size)
  {
    if size > |s| then Ok(Whole(s))
    else if size == 0 then Err(ZeroDivisionError)
    else if size < 0 then Ok(Chunks([]))
    else
      SlicesCount(s, size);
      SlicesFlatten(s, size);
      Ok(Chunks(Slices(s, size)))
  }

  lemma ChunkListExample()
    ensures ChunkList([0, 1, 2, 3, 4, 5, 6, 7, 8, 9], 3)
         == Ok(Chunks([[0, 1, 2], [3, 4, 5], [6, 7, 8], [9]]))
  {
    var s := [0, 1, 2, 3, 4, 5, 6, 7, 8, 9];
    assert s[..3] == [0, 1, 2] && s[3..] == [3, 4, 5, 6, 7, 8, 9];
    var s1 := s[3..];
    assert s1[..3] == [3, 4, 5] && s1[3..] == [6, 7, 8, 9];
    var s2 := s1[3..];
    assert s2[..3] == [6, 7, 8] && s2[3..] == [9];
    assert Slices([9], 3) == [[9]];
    assert Slices(s2, 3) == [[6, 7, 8], [9]];
    assert Slices(s1, 3) == [[3, 4, 5], [6, 7, 8], [9]];
    assert Slices(s, 3) == [[0, 1, 2], [3, 4, 5], [6, 7, 8], [9]];
  }

  // ---------------------------------------------------------------------------
  // eval_some / eval_none, get_indices
  // ---------------------------------------------------------------------------

  /** `eval_some(s, f)`: `any(map(f, s))`. */
  function EvalSome<T>(s: seq<T>, f: T -> bool): (r: bool)
    ensures r <==> exists i :: 0 <= i < |s| && f(s[i])
    decreases |s|
  {
    if s == [] then false
    else
      assert forall i :: 1 <= i < |s| ==> s[i] == s[1..][i - 1];
      f(s[0]) || EvalSome(s[1..], f)
  }

  /** `eval_none(s, f)`: `not any(map(f, s))`. */
  function EvalNone<T>(s: seq<T>, f: T -> bool): (r: bool)
    ensures r <==> forall i :: 0 <= i < |s| ==> !f(s[i])
  {
    !EvalSome(s, f)
  }

  /** Ascending positions, from `start` on, holding `e`. */
  function IndicesFrom<T(==)>(e: T, s: seq<T>, start: nat): (r: seq<nat>)
    requires start <= |s|
    ensures forall k :: 0 <= k < |r| ==> start <= r[k] < |s| && s[r[k]] == e
    ensures forall i :: start <= i < |s| && s[i] == e ==> i in r
    ensures forall k, l :: 0 <= k < l < |r| ==> r[k] < r[l]
    decreases |s| - start
  {
    if start == |s| then []
    else if s[start] == e then [start] + IndicesFrom(e, s, start + 1)
    else IndicesFrom(e, s, start + 1)
  }

  /** `get_indices(element, s)`: the positions holding `element`, ascending. */
  function GetIndices<T(==)>(e: T, s: seq<T>): (r: seq<nat>)
    ensures forall k :: 0 <= k < |r| ==> r[k] < |s| && s[r[k]] == e
    ensures forall i :: 0 <= i < |s| && s[i] == e ==> i in r
    ensures forall k, l :: 0 <= k < l < |r| ==> r[k] < r[l]
    ensures e !in s ==> r == []
  {
    var r := IndicesFrom(e, s, 0);
    assert |r| > 0 ==> e in s by {
      if |r| > 0 {
        assert s[r[0]] == e;
      }
    }
    r
  }

  // ---------------------------------------------------------------------------
  // group_by
  // ---------------------------------------------------------------------------

  /** A Python dict from keys to lists, with its insertion order. */
  datatype Groups<K, T> = Groups(keys: seq<K>, members: map<K, seq<T>>)

  /** The keys in order of first occurrence (the order a dict keeps when the
      same key is assigned again). */
  function Dedup<K(==,!new)>(ks: seq<K>): (r: seq<K>)
    ensures Distinct(r)
    ensures forall k :: k in r <==> k in ks
    decreases |ks|
  {
    if ks == [] then []
    else
      var last := ks[|ks| - 1];
      var front := Dedup(ks[..|ks| - 1]);
      assert forall k :: k in ks <==> k in ks[..|ks| - 1] || k == last by {
        assert ks == ks[..|ks| - 1] + [last];
      }
      if last in front then front else front + [last]
  }

  /** Where `k` first occurs in `ks`. */
  function FirstIndex<K(==)>(ks: seq<K>, k: K): (p: nat)
    requires k in ks
    ensures p < |ks| && ks[p] == k && k !in ks[..p]
    decreases |ks|
  {
    if ks[0] == k then 0
    else
      var p := 1 + FirstIndex(ks[1..], k);
      assert ks[..p] == [ks[0]] + ks[1..][..p - 1];
      p
  }

  /** A key of a prefix first occurs where it first occurs in the prefix. */
  lemma FirstIndexOfPrefix<K>(ks: seq<K>, m: nat, k: K)
    requires m <= |ks| && k in ks[..m]
    ensures FirstIndex(ks, k) == FirstIndex(ks[..m], k)
  {
    var p, q := FirstIndex(ks, k), FirstIndex(ks[..m], k);
    assert ks[..m][..q] == ks[..q];
  }

  /** The deduplicated keys come in the order of their first occurrences. */
  lemma {:induction false} DedupFirstOccurrence<K(!new)>(ks: seq<K>)
    ensures forall k :: k in Dedup(ks) ==> k in ks
    ensures forall i, j :: 0 <= i < j < |Dedup(ks)| ==> FirstIndex(ks, Dedup(ks)[i]) < FirstIndex(ks, Dedup(ks)[j])
    decreases |ks|
  {
    if ks != [] {
      var n := |ks|;
      var last, init := ks[n - 1], ks[..n - 1];
      var front := Dedup(init);
      DedupFirstOccurrence(init);
      var r := Dedup(ks);
      forall i, j | 0 <= i < j < |r|
        ensures FirstIndex(ks, r[i]) < FirstIndex(ks, r[j])
      {
        assert r[i] == front[i] && r[i] in init;
        FirstIndexOfPrefix(ks, n - 1, r[i]);
        if j < |front| {
          assert r[j] == front[j] && r[j] in init;
          FirstIndexOfPrefix(ks, n - 1, r[j]);
        } else {
          assert r[j] == last && last !in init;
          assert ks[..n - 1] == init;
        }
      }
    }
  }

  /** `[f(x) for x in s]`; with a predicate, the flags `bifurcate_by` computes. */
  function Map<T, K>(s: seq<T>, f: T -> K): (r: seq<K>)
    ensures |r| == |s| && forall i :: 0 <= i < |s| ==> r[i] == f(s[i])
  {
    seq(|s|, i requires 0 <= i < |s| => f(s[i]))
  }

  /** Where row `i` starts in a table of rows of `n` entries: `i * n`, counted
      up row by row. */
  function RowStart(i: nat, n: nat): (k: nat)
  {
    if i == 0 then 0 else RowStart(i - 1, n) + n
  }

  lemma {:induction false} RowStartIsProduct(i: nat, n: nat)
    ensures RowStart(i, n) == i * n
  {
    if i > 0 {
      RowStartIsProduct(i - 1, n);
      assert (i - 1) * n + n == i * n;
    }
  }

  /** `[f(x, y) for x in xs for y in ys]`: `xs` is the outer loop, so the
      result is row after row, one row of `|ys|` entries per element of `xs`
      (`ProductAt` says which entry is where). */
  function Product<A, B, C>(xs: seq<A>, ys: seq<B>, f: (A, B) -> C): (r: seq<C>)
    ensures |r| == RowStart(|xs|, |ys|)
    decreases |xs|
  {
    if xs == [] then [] else Map(ys, y => f(xs[0], y)) + Product(xs[1..], ys, f)
  }

  /** Entry `j` of row `i` is `f(xs[i], ys[j])`. */
  lemma {:induction false} ProductAt<A, B, C>(xs: seq<A>, ys: seq<B>, f: (A, B) -> C, i: nat, j: nat)
    requires i < |xs| && j < |ys|
    ensures RowStart(i, |ys|) + j < |Product(xs, ys, f)|
    ensures Product(xs, ys, f)[RowStart(i, |ys|) + j] == f(xs[i], ys[j])
    decreases i
  {
    var row := Map(ys, y => f(xs[0], y));
    assert Product(xs, ys, f) == row + Product(xs[1..], ys, f);
    if i > 0 {
      ProductAt(xs[1..], ys, f, i - 1, j);
      assert xs[1..][i - 1] == xs[i];
    }
  }

  /** Every entry is `f(x, y)` for some `x` of `xs` and `y` of `ys`. */
  lemma {:induction false} ProductMember<A, B, C>(xs: seq<A>, ys: seq<B>, f: (A, B) -> C, k: nat)
    requires k < |Product(xs, ys, f)|
    ensures exists i, j :: 0 <= i < |xs| && 0 <= j < |ys| && Product(xs, ys, f)[k] == f(xs[i], ys[j])
    decreases |xs|
  {
    var row := Map(ys, y => f(xs[0], y));
    assert Product(xs, ys, f) == row + Product(xs[1..], ys, f);
    if k < |row| {
      assert Product(xs, ys, f)[k] == f(xs[0], ys[k]);
    } else {
      ProductMember(xs[1..], ys, f, k - |row|);
      var i, j :| 0 <= i < |xs[1..]| && 0 <= j < |ys| && Product(xs[1..], ys, f)[k - |row|] == f(xs[1..][i], ys[j]);
      assert xs[1..][i] == xs[i + 1];
    }
  }

  /** `group_by(s, f)`: for every key `f(x)`, in first-occurrence order, the list
      of all items with that key. */
  function GroupBy<T(!new), K(!new)>(s: seq<T>, f: T -> K): (g: Groups<K, T>)
    ensures Distinct(g.keys)
    ensures forall k :: k in g.keys <==> k in g.members
    ensures forall k :: k in g.members <==> exists i :: 0 <= i < |s| && f(s[i]) == k
    ensures forall k :: k in g.members ==> g.members[k] == Filter(s, x => f(x) == k)
    ensures forall k :: k in g.keys ==> k in Map(s, f)
    ensures forall i, j :: 0 <= i < j < |g.keys| ==> FirstIndex(Map(s, f), g.keys[i]) < FirstIndex(Map(s, f), g.keys[j])
  {
    var keys := Dedup(Map(s, f));
    DedupFirstOccurrence(Map(s, f));
    Groups(keys, map k | k in keys :: Filter(s, x => f(x) == k))
  }

  /** Multiset union of the groups named by `keys`. */
  function Gather<K, T>(keys: seq<K>, members: map<K, seq<T>>): multiset<T>
    requires forall k :: k in keys ==> k in members
    decreases |keys|
  {
    if keys == [] then multiset{} else multiset(members[keys[0]]) + Gather(keys[1..], members)
  }

  /** The groups partition the input: every item lands in exactly one group,
      that of its key, and together the groups hold the input's multiset. */
  lemma GroupByPartitions<T(!new), K(!new)>(s: seq<T>, f: T -> K)
    ensures Gather(GroupBy(s, f).keys, GroupBy(s, f).members) == multiset(s)
  {
    var g := GroupBy(s, f);
    GatherFiltersCoversInput(s, f, g.keys);
    GatherIsFilters(g.keys, g.members, s, f);
  }

  function GatherFilters<T(!new), K(==)>(s: seq<T>, f: T -> K, keys: seq<K>): multiset<T>
    decreases |keys|
  {
    if keys == [] then multiset{} else multiset(Filter(s, x => f(x) == keys[0])) + GatherFilters(s, f, keys[1..])
  }

  lemma {:induction false} GatherIsFilters<T(!new), K>(keys: seq<K>, members: map<K, seq<T>>, s: seq<T>, f: T -> K)
    requires forall k :: k in keys ==> k in members && members[k] == Filter(s, x => f(x) == k)
    ensures Gather(keys, members) == GatherFilters(s, f, keys)
    decreases |keys|
  {
    if keys != [] {
      GatherIsFilters(keys[1..], members, s, f);
    }
  }

  /** Over distinct keys covering every item's key, the filters add up to the input. */
  lemma {:induction false} GatherFiltersCoversInput<T(!new), K>(s: seq<T>, f: T -> K, keys: seq<K>)
    requires Distinct(keys)
    requires forall i :: 0 <= i < |s| ==> f(s[i]) in keys
    ensures GatherFilters(s, f, keys) == multiset(s)
    decreases |s|
  {
    if s == [] {
      GatherFiltersEmpty(s, f, keys);
    } else {
      var t := s[1..];
      assert s == [s[0]] + t;
      GatherFiltersCoversInput(t, f, keys);
      GatherFiltersCons(s, f, keys);
    }
  }

  lemma {:induction false} GatherFiltersEmpty<T(!new), K>(s: seq<T>, f: T -> K, keys: seq<K>)
    requires s == []
    ensures GatherFilters(s, f, keys) == multiset{}
    decreases |keys|
  {
    if keys != [] {
      GatherFiltersEmpty(s, f, keys[1..]);
    }
  }

  /** Peeling off the first item adds it to exactly one group: the one of its key. */
  lemma {:induction false} GatherFiltersCons<T(!new), K>(s: seq<T>, f: T -> K, keys: seq<K>)
    requires s != [] && Distinct(keys)
    ensures f(s[0]) in keys ==> GatherFilters(s, f, keys) == multiset{s[0]} + GatherFilters(s[1..], f, keys)
    ensures f(s[0]) !in keys ==> GatherFilters(s, f, keys) == GatherFilters(s[1..], f, keys)
    decreases |keys|
  {
    if keys != [] {
      var k := keys[0];
      FilterCons(s, x => f(x) == k);
      DistinctTail(keys);
      GatherFiltersCons(s, f, keys[1..]);
    }
  }

  lemma FilterCons<T(!new)>(s: seq<T>, p: T -> bool)
    requires s != []
    ensures Filter(s, p) == (if p(s[0]) then [s[0]] else []) + Filter(s[1..], p)
  {
  }

  /** The tail of distinct keys is distinct and lacks the head. */
  lemma DistinctTail<K>(keys: seq<K>)
    requires keys != [] && Distinct(keys)
    ensures Distinct(keys[1..]) && keys[0] !in keys[1..]
    ensures forall x :: x in keys <==> x == keys[0] || x in keys[1..]
  {
    var t := keys[1..];
    forall i, j | 0 <= i < j < |t| ensures t[i] != t[j] {
      assert t[i] == keys[i + 1] && t[j] == keys[j + 1];
    }
    forall j | 0 <= j < |t| ensures t[j] != keys[0] {
      assert t[j] == keys[j + 1];
    }
    assert keys == [keys[0]] + t;
  }

  // ---------------------------------------------------------------------------
  // sanitize_list, spread
  // ---------------------------------------------------------------------------

  /** `sanitize_list(s)`: `list(filter(bool, s))`, keeping the truthy items in order. */
  function SanitizeList<T(!new)>(s: seq<T>, truthy: T -> bool): (r: seq<T>)
    ensures forall x :: x in r <==> x in s && truthy(x)
    ensures Subsequence(r, s) && KeepsExactly(r, s, truthy)
    ensures Filter(r, truthy) == r
  {
    FilterIdempotent(s, truthy);
    FilterKeepsOrder(s, truthy);
    Filter(s, truthy)
  }

  lemma {:induction false} FilterIdempotent<T(!new)>(s: seq<T>, p: T -> bool)
    ensures Filter(Filter(s, p), p) == Filter(s, p)
    decreases |s|
  {
    if s != [] {
      FilterIdempotent(s[1..], p);
    }
  }

  /** An element of a list given to `spread`: a non-iterable value, or an iterable. */
  datatype Item<T> = Scalar(x: T) | Iterable(xs: seq<T>)

  /** `spread(s)`: one level of flattening; a non-iterable element raises TypeError. */
  function Spread<T>(items: seq<Item<T>>): (r: Result<seq<T>>)
    ensures r.Ok? <==> forall i :: 0 <= i < |items| ==> items[i].Iterable?
    ensures r.Err? ==> r.error == TypeError
    decreases |items|
  {
    if items == [] then Ok([])
    else if items[0].Scalar? then Err(TypeError)
    else
      assert forall i :: 1 <= i < |items| ==> items[i] == items[1..][i - 1];
      var rest :- Spread(items[1..]);
      Ok(items[0].xs + rest)
  }

  function AsIterables<T>(parts: seq<seq<T>>): (r: seq<Item<T>>)
    ensures |r| == |parts| && forall i :: 0 <= i < |parts| ==> r[i] == Iterable(parts[i])
  {
    seq(|parts|, i requires 0 <= i < |parts| => Iterable(parts[i]))
  }

  /** Spreading a list of lists is flattening it. */
  lemma {:induction false} SpreadIsFlatten<T>(parts: seq<seq<T>>)
    ensures Spread(AsIterables(parts)) == Ok(Flatten(parts))
    decreases |parts|
  {
    if parts != [] {
      assert AsIterables(parts)[1..] == AsIterables(parts[1..]);
      SpreadIsFlatten(parts[1..]);
    }
  }

  /** Spreading the chunks of a list gives the list back. */
  lemma SpreadUndoesChunkList<T>(s: seq<T>, size: nat)
    requires 0 < size <= |s|
    ensures Spread(AsIterables(ChunkList(s, size).value.parts)) == Ok(s)
  {
    SpreadIsFlatten(ChunkList(s, size).value.parts);
  }

  // ---------------------------------------------------------------------------
  // symmetric_difference_by, union_by
  // ---------------------------------------------------------------------------

  /** `symmetric_difference_by(s1, s2, f)`: the items of `s1` whose key no item of
      `s2` has, then the items of `s2` whose key no item of `s1` has. */
  function SymmetricDifferenceBy<T(==,!new), K(==,!new)>(s1: seq<T>, s2: seq<T>, f: T -> K): (r: seq<T>)
    ensures forall x :: x in r <==>
      (x in s1 && f(x) !in Image(s2, f)) || (x in s2 && f(x) !in Image(s1, f))
    ensures exists m :: 0 <= m <= |r|
                        && Subsequence(r[..m], s1) && KeepsExactly(r[..m], s1, x => f(x) !in Image(s2, f))
                        && Subsequence(r[m..], s2) && KeepsExactly(r[m..], s2, x => f(x) !in Image(s1, f))
  {
    var img1, img2 := Image(s1, f), Image(s2, f);
    var a, b := Filter(s1, x => f(x) !in img2), Filter(s2, x => f(x) !in img1);
    FilterKeepsOrder(s1, x => f(x) !in img2);
    FilterKeepsOrder(s2, x => f(x) !in img1);
    assert (a + b)[..|a|] == a && (a + b)[|a|..] == b;
    a + b
  }

  /** Swapping the two lists only reorders the result. */
  lemma SymmetricDifferenceBySymmetric<T(!new), K(!new)>(s1: seq<T>, s2: seq<T>, f: T -> K)
    ensures multiset(SymmetricDifferenceBy(s1, s2, f)) == multiset(SymmetricDifferenceBy(s2, s1, f))
  {
  }

  /** `union_by(s1, s2, f)`: `sorted(set(s1 + [y for y in s2 if f(y) not in f(s1)]))`. */
  function UnionBy<K(==)>(s1: seq<int>, s2: seq<int>, f: int -> K): (r: seq<int>)
    ensures forall i, j :: 0 <= i < j < |r| ==> r[i] < r[j]
    ensures forall x :: x in r <==> x in s1 || (x in s2 && f(x) !in Image(s1, f))
  {
    var img1 := Image(s1, f);
    var pool := Dedup(s1 + Filter(s2, y => f(y) !in img1));
    Sorts.QuickSortCorrect(pool);
    var r := Sorts.QuickSort(pool);
    Sorts.SameElements(r, pool);
    SortedDistinctIsIncreasing(r, pool);
    r
  }

  lemma SortedDistinctIsIncreasing(r: seq<int>, pool: seq<int>)
    requires Sorts.Sorted(r) && Distinct(pool) && multiset(r) == multiset(pool)
    ensures forall i, j :: 0 <= i < j < |r| ==> r[i] < r[j]
  {
    SetSizeDetectsRepeats(pool);
    SetSizeDetectsRepeats(r);
    assert ToSet(r) == ToSet(pool) by {
      Sorts.SameElements(r, pool);
    }
    assert |r| == |pool| by {
      assert |multiset(r)| == |multiset(pool)|;
    }
  }

  // ---------------------------------------------------------------------------
  // zipper
  // ---------------------------------------------------------------------------

  /** `max(len(l) for l in args)` for a non-empty `args`. */
  function MaxLen<T>(args: seq<seq<T>>): (m: nat)
    requires |args| > 0
    ensures forall k :: 0 <= k < |args| ==> |args[k]| <= m
    ensures exists k :: 0 <= k < |args| && |args[k]| == m
    decreases |args|
  {
    if |args| == 1 then |args[0]|
    else
      var rest := MaxLen(args[1..]);
      assert forall k :: 1 <= k < |args| ==> args[k] == args[1..][k - 1];
      if |args[0]| >= rest then |args[0]| else rest
  }

  /** `zipper(*args, fillvalue=fill)`: row `i` collects the `i`-th item of every
      argument, padded with `fill`; no argument at all raises ValueError (the
      `max` of an empty sequence). */
  function Zipper<T>(args: seq<seq<T>>, fill: T): (r: Result<seq<seq<T>>>)
    ensures r.Ok? <==> |args| > 0
    ensures r.Err? ==> r.error == ValueError
    ensures r.Ok? ==> |r.value| == MaxLen(args)
    ensures r.Ok? ==> forall i :: 0 <= i < |r.value| ==> |r.value[i]| == |args|
    ensures r.Ok? ==> forall i, k :: 0 <= i < |r.value| && 0 <= k < |args| ==>
      r.value[i][k] == if i < |args[k]| then args[k][i] else fill
  {
    if |args| == 0 then Err(ValueError)
    else
      Ok(seq(MaxLen(args), i requires 0 <= i < MaxLen(args) =>
        seq(|args|, k requires 0 <= k < |args| => if i < |args[k]| then args[k][i] else fill)))
  }

  /** On equally long, non-empty arguments zipper is a transposition, so zipping
      twice gives the arguments back. */
  lemma ZipperTwiceIsIdentity<T>(args: seq<seq<T>>, fill: T)
    requires |args| > 0 && |args[0]| > 0
    requires forall k :: 0 <= k < |args| ==> |args[k]| == |args[0]|
    ensures Zipper(args, fill).Ok?
    ensures Zipper(Zipper(args, fill).value, fill) == Ok(args)
  {
    var z := Zipper(args, fill).value;
    assert |z| == |args[0]|;
    var zz := Zipper(z, fill).value;
    assert |zz| == |args| by {
      assert MaxLen(z) == |args|;
    }
    forall k | 0 <= k < |args| ensures zz[k] == args[k] {
      assert |zz[k]| == |z|;
      assert |zz[k]| == |z| == |args[k]|;
      forall i | 0 <= i < |args[k]| ensures zz[k][i] == args[k][i] {
        assert zz[k][i] == z[i][k];
      }
    }
    assert zz == args;
  }
}
