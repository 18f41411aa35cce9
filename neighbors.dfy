/**
 * The neighbour record of the kNN classifier and the ordering step of `kNN`:
 * `Arrays.sort` with a comparator on `distance`. Java sorts object arrays with a
 * stable merge sort; here the same result is produced by a stable insertion sort,
 * specified by the function `StableSort` and run in place by `SortByDistance`.
 */
module Neighbors {
  import opened Wrappers

  /** One corpus row seen from the query: its label, its distance to the query, its row index. */
  datatype Neighbor = Neighbor(category: int, distance: real, corpusVectorIndex: nat)

  /** Distances never decrease from left to right. */
  ghost predicate SortedByDistance(s: seq<Neighbor>) {
    forall i, j :: 0 <= i < j < |s| ==> s[i].distance <= s[j].distance
  }

  /** Row indices strictly increase from left to right (true of a freshly built neighbour list). */
  ghost predicate IndicesAscending(s: seq<Neighbor>) {
    forall i, j :: 0 <= i < j < |s| ==> s[i].corpusVectorIndex < s[j].corpusVectorIndex
  }

  /** Neighbours at equal distance appear in increasing row order. */
  ghost predicate TiesByIndex(s: seq<Neighbor>) {
    forall i, j :: 0 <= i < j < |s| && s[i].distance == s[j].distance ==>
      s[i].corpusVectorIndex < s[j].corpusVectorIndex
  }

  /** The neighbours of `s` whose distance is exactly `v`, in their order in `s`. */
  function AtDistance(s: seq<Neighbor>, v: real): seq<Neighbor> {
    if s == [] then []
    else AtDistance(s[..|s| - 1], v) + (if s[|s| - 1].distance == v then [s[|s| - 1]] else [])
  }

  /** Inserts `x` after every trailing element that is strictly farther than `x`. */
  function Insert(s: seq<Neighbor>, x: Neighbor): (r: seq<Neighbor>)
    ensures |r| == |s| + 1
  {
    if s == [] || s[|s| - 1].distance <= x.distance then s + [x]
    else Insert(s[..|s| - 1], x) + [s[|s| - 1]]
  }

  /** Stable sort by ascending distance: insertion of each element, left to right. */
  function StableSort(s: seq<Neighbor>): (r: seq<Neighbor>)
    ensures |r| == |s|
  {
    if s == [] then [] else Insert(StableSort(s[..|s| - 1]), s[|s| - 1])
  }

  /** Insertion lands right after the last element not farther than `x`. */
  lemma {:induction false} InsertAt(s: seq<Neighbor>, x: Neighbor, j: nat)
    requires j <= |s|
    requires forall m :: j <= m < |s| ==> s[m].distance > x.distance
    requires j == 0 || s[j - 1].distance <= x.distance
    ensures Insert(s, x) == s[..j] + [x] + s[j..]
  {
    if j < |s| {
      var init := s[..|s| - 1];
      InsertAt(init, x, j);
      assert init[..j] == s[..j];
      assert init[j..] + [s[|s| - 1]] == s[j..];
    }
  }

  /** Insertion adds exactly `x`: the result is a permutation of `s` with `x`. */
  lemma {:induction false} InsertPermutes(s: seq<Neighbor>, x: Neighbor)
    ensures multiset(Insert(s, x)) == multiset(s) + multiset{x}
  {
    if s != [] && s[|s| - 1].distance > x.distance {
      var init, last := s[..|s| - 1], s[|s| - 1];
      InsertPermutes(init, x);
      assert s == init + [last];
      assert Insert(s, x) == Insert(init, x) + [last];
    }
  }

  /** Insertion keeps a sorted sequence sorted. */
  lemma {:induction false} InsertSorted(s: seq<Neighbor>, x: Neighbor)
    requires SortedByDistance(s)
    ensures SortedByDistance(Insert(s, x))
  {
    if s != [] && s[|s| - 1].distance > x.distance {
      var init, last := s[..|s| - 1], s[|s| - 1];
      InsertSorted(init, x);
      var r := Insert(init, x);
      var t := Insert(s, x);
      assert t == r + [last];
      forall i, j | 0 <= i < j < |t| ensures t[i].distance <= t[j].distance {
        if j == |r| {
          InsertFrom(init, x, i);
        } else {
          assert t[i] == r[i] && t[j] == r[j];
        }
      }
    }
  }

  /** The sort returns a sorted permutation of its input. */
  lemma {:induction false} StableSortSortedPermutation(s: seq<Neighbor>)
    ensures multiset(StableSort(s)) == multiset(s)
    ensures SortedByDistance(StableSort(s))
  {
    if s != [] {
      var init := s[..|s| - 1];
      assert s == init + [s[|s| - 1]];
      StableSortSortedPermutation(init);
      InsertPermutes(StableSort(init), s[|s| - 1]);
      InsertSorted(StableSort(init), s[|s| - 1]);
    }
  }

  /** Inserting `x` appends it to the neighbours at its own distance and changes no other distance class. */
  lemma {:induction false} InsertAtDistance(s: seq<Neighbor>, x: Neighbor, v: real)
    ensures AtDistance(Insert(s, x), v) == AtDistance(s, v) + (if x.distance == v then [x] else [])
  {
    if s == [] || s[|s| - 1].distance <= x.distance {
      assert (s + [x])[..|s|] == s;
    } else {
      var init, last := s[..|s| - 1], s[|s| - 1];
      InsertAtDistance(init, x, v);
      var r := Insert(init, x);
      assert (r + [last])[..|r|] == r;
    }
  }

  /**
   * Stability: for every distance, the neighbours at that distance keep the relative
   * order they had before the sort.
   */
  lemma {:induction false} StableSortIsStable(s: seq<Neighbor>, v: real)
    ensures AtDistance(StableSort(s), v) == AtDistance(s, v)
  {
    if s != [] {
      var init := s[..|s| - 1];
      StableSortIsStable(init, v);
      InsertAtDistance(StableSort(init), s[|s| - 1], v);
    }
  }

  /**
   * Inserting a neighbour whose row index exceeds every other keeps neighbours at
   * equal distance in ascending row order.
   */
  lemma {:induction false} InsertKeepsTies(s: seq<Neighbor>, x: Neighbor)
    requires TiesByIndex(s)
    requires forall i :: 0 <= i < |s| ==> s[i].corpusVectorIndex < x.corpusVectorIndex
    ensures TiesByIndex(Insert(s, x))
  {
    if s == [] || s[|s| - 1].distance <= x.distance {
    } else {
      var init, last := s[..|s| - 1], s[|s| - 1];
      InsertKeepsTies(init, x);
      var r := Insert(init, x);
      forall i | 0 <= i < |r| && r[i].distance == last.distance
        ensures r[i].corpusVectorIndex < last.corpusVectorIndex
      {
        InsertFrom(init, x, i);
      }
    }
  }

  /** Every element of an insertion is `x` or comes from `s` at some index. */
  lemma {:induction false} InsertFrom(s: seq<Neighbor>, x: Neighbor, i: nat)
    requires i < |Insert(s, x)|
    ensures Insert(s, x)[i] == x || exists m :: 0 <= m < |s| && Insert(s, x)[i] == s[m]
  {
    if s == [] || s[|s| - 1].distance <= x.distance {
    } else {
      var init := s[..|s| - 1];
      if i < |Insert(init, x)| {
        InsertFrom(init, x, i);
      } else {
        assert Insert(s, x)[i] == s[|s| - 1];
      }
    }
  }

  /**
   * On a list whose row indices ascend (as `distances` builds it), the sorted list
   * orders neighbours at equal distance by ascending row index.
   */
  lemma {:induction false} StableSortTiesByIndex(s: seq<Neighbor>)
    requires IndicesAscending(s)
    ensures TiesByIndex(StableSort(s))
  {
    if s != [] {
      var init, last := s[..|s| - 1], s[|s| - 1];
      StableSortTiesByIndex(init);
      StableSortSortedPermutation(init);
      var t := StableSort(init);
      forall i | 0 <= i < |t| ensures t[i].corpusVectorIndex < last.corpusVectorIndex {
        assert t[i] in multiset(t);
        assert t[i] in init;
      }
      InsertKeepsTies(t, last);
    }
  }

  /** One insertion step: moves `a[i]` left past the strictly farther elements of `a[..i]`. */
  method InsertStep(a: array<Neighbor>, i: nat)
    requires i < a.Length
    modifies a
    ensures a[..i + 1] == Insert(old(a[..i]), old(a[i]))
    ensures a[i + 1..] == old(a[i + 1..])
  {
    ghost var sorted := a[..i];
    var x := a[i];
    var j := i;
    while j > 0 && a[j - 1].distance > x.distance
      invariant 0 <= j <= i
      invariant forall m :: 0 <= m < j ==> a[m] == sorted[m]
      invariant forall m :: j < m <= i ==> a[m] == sorted[m - 1]
      invariant forall m :: i < m < a.Length ==> a[m] == old(a[m])
      invariant forall m :: j <= m < i ==> sorted[m].distance > x.distance
    {
      a[j] := a[j - 1];
      j := j - 1;
    }
    a[j] := x;
    InsertAt(sorted, x, j);
    assert a[..i + 1] == sorted[..j] + [x] + sorted[j..];
  }

  /** `Arrays.sort(distances, by distance)`: sorts the array in place, stably. */
  method SortByDistance(a: array<Neighbor>)
    modifies a
    ensures a[..] == StableSort(old(a[..]))
  {
    ghost var orig := a[..];
    var i := 0;
    while i < a.Length
      invariant 0 <= i <= a.Length
      invariant a[..i] == StableSort(orig[..i])
      invariant a[i..] == orig[i..]
    {
      InsertStep(a, i);
      assert orig[..i + 1][..i] == orig[..i];
      i := i + 1;
    }
    assert orig[..a.Length] == orig;
  }

  /**
   * The first `k` entries of `s`, padded with `None` (Java's `null`) past its end,
   * as `Arrays.copyOfRange(s, 0, k)` returns them.
   */
  function Padded<T>(s: seq<T>, k: nat): seq<Option<T>> {
    seq(k, i requires 0 <= i < k => if i < |s| then Some(s[i]) else None)
  }

  /** Padding a non-empty list: its head first, then the padded tail. */
  lemma PaddedTail<T>(s: seq<T>, k: nat)
    requires s != [] && k > 0
    ensures Padded(s, k)[0] == Some(s[0])
    ensures Padded(s, k)[1..] == Padded(s[1..], k - 1)
  {
  }

  /** `Arrays.copyOfRange(a, 0, to)`: a fresh array of length `to`; a negative `to` is refused. */
  method CopyOfRange<T>(a: array<T>, to: int) returns (r: Result<array<Option<T>>>)
    ensures r.Err? <==> to < 0
    ensures r.Err? ==> r.error == IllegalArgument
    ensures r.Ok? ==> fresh(r.value) && r.value[..] == Padded(a[..], to)
  {
    if to < 0 {
      return Err(IllegalArgument);
    }
    var copy := new Option<T>[to];
    for i := 0 to to
      invariant forall m :: 0 <= m < i ==> copy[m] == if m < a.Length then Some(a[m]) else None
    {
      copy[i] := if i < a.Length then Some(a[i]) else None;
    }
    return Ok(copy);
  }
}
