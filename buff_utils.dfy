/**
 * The generic list helpers of `BuffUtils.java`: search, filter, map and an `int` sum.
 * A Java list is a sequence; a `null` list is `None` (or a `null` array); a
 * `Predicate` or `Function` argument is a total function value.
 */
module BuffUtils {
  import opened Wrappers

  /** Java's 32-bit `int`. */
  newtype int32 = x: int | -0x8000_0000 <= x < 0x8000_0000

  const TwoTo32: int := 0x1_0000_0000

  /**
   * `indexOf(parent, child)`: the position of `child` among the children of `parent`,
   * compared by reference; `parent` is `None` for a `null` parent, which throws.
   */
  method IndexOf(parent: Option<seq<object?>>, child: object?) returns (r: Result<int>)
    ensures parent.None? <==> r.Err?
    ensures r.Err? ==> r.error == NullPointer
    ensures r.Ok? ==> -1 <= r.value < |parent.value|
    ensures r.Ok? ==> (r.value == -1 <==> child !in parent.value)
    ensures r.Ok? && 0 <= r.value ==> parent.value[r.value] == child && child !in parent.value[..r.value]
  {
    if parent.None? {
      return Err(NullPointer);
    }
    var children := parent.value;
    for i := 0 to |children|
      invariant child !in children[..i]
    {
      if children[i] == child {
        return Ok(i);
      }
    }
    assert children[..|children|] == children;
    return Ok(-1);
  }

  /** The elements of `s` that satisfy `pred`, in their order in `s`. */
  function Filter<T>(s: seq<T>, pred: T -> bool): (r: seq<T>)
    ensures |r| <= |s|
    ensures forall i :: 0 <= i < |r| ==> r[i] in s && pred(r[i])
    ensures forall i :: 0 <= i < |s| && pred(s[i]) ==> s[i] in r
  {
    if s == [] then []
    else
      var init, last := s[..|s| - 1], s[|s| - 1];
      assert s == init + [last];
      Filter(init, pred) + (if pred(last) then [last] else [])
  }

  /** Filtering a concatenation filters each part: the relative order of the kept elements is preserved. */
  lemma {:induction false} FilterConcat<T>(a: seq<T>, b: seq<T>, pred: T -> bool)
    ensures Filter(a + b, pred) == Filter(a, pred) + Filter(b, pred)
  {
    if b == [] {
      assert a + b == a;
    } else {
      var init := b[..|b| - 1];
      assert (a + b)[..|a + b| - 1] == a + init;
      FilterConcat(a, init, pred);
    }
  }

  /** Each element is kept as many times as it occurs, if it satisfies `pred`, and otherwise not at all. */
  lemma {:induction false} FilterCounts<T>(s: seq<T>, pred: T -> bool, x: T)
    ensures multiset(Filter(s, pred))[x] == if pred(x) then multiset(s)[x] else 0
  {
    if s != [] {
      var init := s[..|s| - 1];
      assert s == init + [s[|s| - 1]];
      FilterCounts(init, pred, x);
    }
  }

  /** Filtering twice with the same predicate is filtering once. */
  lemma {:induction false} FilterIdempotent<T>(s: seq<T>, pred: T -> bool)
    ensures Filter(Filter(s, pred), pred) == Filter(s, pred)
  {
    if s != [] {
      var init, last := s[..|s| - 1], s[|s| - 1];
      FilterIdempotent(init, pred);
      FilterConcat(Filter(init, pred), if pred(last) then [last] else [], pred);
      assert Filter([last], pred) == (if pred(last) then [last] else []) by {
        assert [last][..0] == [];
      }
    }
  }

  /** `findFirst(data, pred)`: the earliest element satisfying `pred`; `null` for none or for `null` data. */
  method FindFirst<T>(data: Option<seq<T>>, pred: T -> bool) returns (r: Option<T>)
    ensures data.None? ==> r.None?
    ensures data.Some? && r.None? ==> forall i :: 0 <= i < |data.value| ==> !pred(data.value[i])
    ensures data.Some? && r.Some? ==>
              exists i :: 0 <= i < |data.value| && data.value[i] == r.value && pred(r.value)
                && forall j :: 0 <= j < i ==> !pred(data.value[j])
    ensures data.Some? ==> (r.None? <==> Filter(data.value, pred) == [])
    ensures r.Some? ==> r.value == Filter(data.value, pred)[0]
  {
    if data.None? {
      return None;
    }
    var s := data.value;
    for i := 0 to |s|
      invariant forall j :: 0 <= j < i ==> !pred(s[j])
      invariant Filter(s[..i], pred) == []
    {
      assert s[..i + 1][..i] == s[..i];
      if pred(s[i]) {
        assert Filter(s[..i + 1], pred) == [s[i]];
        FilterConcat(s[..i + 1], s[i + 1..], pred);
        assert s[..i + 1] + s[i + 1..] == s;
        return Some(s[i]);
      }
    }
    assert s[..|s|] == s;
    return None;
  }

  /** `filter(List data, pred)`: the elements satisfying `pred`, in order; empty for `null` data. */
  method FilterList<T>(data: Option<seq<T>>, pred: T -> bool) returns (output: seq<T>)
    ensures data.None? ==> output == []
    ensures data.Some? ==> output == Filter(data.value, pred)
  {
    output := [];
    if data.None? {
      return;
    }
    var s := data.value;
    for i := 0 to |s|
      invariant output == Filter(s[..i], pred)
    {
      assert s[..i + 1][..i] == s[..i];
      if pred(s[i]) {
        output := output + [s[i]];
      }
    }
    assert s[..|s|] == s;
  }

  /** `filter(Collection data, pred)`: as the `List` overload, but `null` data is not guarded and throws. */
  method FilterCollection<T>(data: Option<seq<T>>, pred: T -> bool) returns (r: Result<seq<T>>)
    ensures data.None? <==> r.Err?
    ensures r.Err? ==> r.error == NullPointer
    ensures data.Some? ==> r == Ok(Filter(data.value, pred))
  {
    if data.None? {
      return Err(NullPointer);
    }
    var output := FilterList(data, pred);
    return Ok(output);
  }

  /** `map(Collection data, getter)`: `getter` applied to each element, in order; empty for `null` data. */
  method MapCollection<T, R>(data: Option<seq<T>>, getter: T -> R) returns (output: seq<R>)
    ensures data.None? ==> output == []
    ensures data.Some? ==> |output| == |data.value|
    ensures data.Some? ==> forall i :: 0 <= i < |data.value| ==> output[i] == getter(data.value[i])
  {
    output := [];
    if data.None? {
      return;
    }
    var s := data.value;
    for i := 0 to |s|
      invariant |output| == i
      invariant forall j :: 0 <= j < i ==> output[j] == getter(s[j])
    {
      output := output + [getter(s[i])];
    }
  }

  /** `map(T[] data, getter)`: `getter` applied to each array element, in order; empty for a `null` array. */
  method MapArray<T, R>(data: array?<T>, getter: T -> R) returns (output: seq<R>)
    ensures data == null ==> output == []
    ensures data != null ==> |output| == data.Length
    ensures data != null ==> forall i :: 0 <= i < data.Length ==> output[i] == getter(data[i])
  {
    output := [];
    if data == null {
      return;
    }
    for i := 0 to data.Length
      invariant |output| == i
      invariant forall j :: 0 <= j < i ==> output[j] == getter(data[j])
    {
      output := output + [getter(data[i])];
    }
  }

  /** The mathematical sum of the elements. */
  function SumOf(s: seq<int32>): int {
    if s == [] then 0 else SumOf(s[..|s| - 1]) + s[|s| - 1] as int
  }

  /** Java's narrowing of an integer to `int`: the `int32` congruent to `x` modulo 2^32. */
  function Wrap(x: int): (r: int32)
    ensures -0x8000_0000 <= x < 0x8000_0000 ==> r as int == x
    ensures (x - r as int) % TwoTo32 == 0
  {
    ((x + 0x8000_0000) % TwoTo32 - 0x8000_0000) as int32
  }

  /** Two values with the same residue modulo 2^32 wrap to the same `int`. */
  lemma WrapCongruent(x: int, y: int, q: int)
    requires x == y + q * TwoTo32
    ensures Wrap(x) == Wrap(y)
  {
    var a, b := x + 0x8000_0000, y + 0x8000_0000;
    assert a == b + q * TwoTo32;
    assert a % TwoTo32 == b % TwoTo32 by {
      var qa, qb := a / TwoTo32, b / TwoTo32;
      assert a == qa * TwoTo32 + a % TwoTo32;
      assert b == qb * TwoTo32 + b % TwoTo32;
      assert (qa - qb - q) * TwoTo32 == b % TwoTo32 - a % TwoTo32;
    }
  }

  /** Wrapping after every addition is wrapping once at the end. */
  lemma WrapAdd(a: int, b: int)
    ensures Wrap(Wrap(a) as int + b) == Wrap(a + b)
  {
    var w := Wrap(a) as int;
    var q := (a - w) / TwoTo32;
    assert a - w == q * TwoTo32;
    WrapCongruent(a + b, w + b, q);
  }

  /** `sum(data)`: the elements added with `int` overflow wrapping around; `0` for an empty list. */
  method Sum(data: seq<int32>) returns (sum: int32)
    ensures sum == Wrap(SumOf(data))
  {
    sum := 0;
    for i := 0 to |data|
      invariant sum == Wrap(SumOf(data[..i]))
    {
      assert data[..i + 1][..i] == data[..i];
      WrapAdd(SumOf(data[..i]), data[i] as int);
      sum := Wrap(sum as int + data[i] as int);
    }
    assert data[..|data|] == data;
  }
}
