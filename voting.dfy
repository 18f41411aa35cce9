/**
 * The vote-counting step of the kNN classifier: the walk over the nearest
 * neighbours in `votes`, and the majority rule of `classify`. A `HashBag<Integer>`
 * of votes is a multiset of categories.
 */
module Voting {
  import opened Wrappers
  import opened Neighbors

  /** Adds the votes `m` to a tally that may have failed; a failure stays a failure. */
  function AddVotes(m: multiset<int>, r: Result<multiset<int>>): Result<multiset<int>> {
    match r
    case Ok(rest) => Ok(m + rest)
    case Err(e) => Err(e)
  }

  /** Some present neighbour of `nbrs` carries category `c`. */
  ghost predicate CastBy(nbrs: seq<Option<Neighbor>>, c: int) {
    exists i :: 0 <= i < |nbrs| && nbrs[i].Some? && nbrs[i].value.category == c
  }

  /**
   * The walk of `votes` over the nearest neighbours: one vote per neighbour up to the
   * first one farther than `threshold`; reaching a `null` pad before that throws.
   */
  function Tally(nbrs: seq<Option<Neighbor>>, threshold: real): (r: Result<multiset<int>>)
    ensures r.Err? ==> r.error == NullPointer
    ensures r.Ok? ==> |r.value| <= |nbrs|
    ensures r.Ok? ==> forall c :: c in r.value ==> CastBy(nbrs, c)
  {
    if nbrs == [] then Ok(multiset{})
    else match nbrs[0]
      case None => Err(NullPointer)
      case Some(n) =>
        if n.distance > threshold then Ok(multiset{})
        else
          var r := AddVotes(multiset{n.category}, Tally(nbrs[1..], threshold));
          assert r.Ok? ==> forall c :: c in r.value ==> CastBy(nbrs, c) by {
            if r.Ok? {
              forall c | c in r.value ensures CastBy(nbrs, c) {
                if c != n.category {
                  var i :| 0 <= i < |nbrs[1..]| && nbrs[1..][i].Some? && nbrs[1..][i].value.category == c;
                  assert nbrs[i + 1] == nbrs[1..][i];
                }
              }
            }
          }
          r
  }

  /** Puts the ballots `b` in front of a walk that may have failed; a failure stays a failure. */
  function AddBallots(b: seq<int>, r: Result<seq<int>>): Result<seq<int>> {
    match r
    case Ok(rest) => Ok(b + rest)
    case Err(e) => Err(e)
  }

  /** Putting no ballots in front changes nothing, and two batches in a row are their concatenation. */
  lemma AddBallotsAssociates(a: seq<int>, b: seq<int>, r: Result<seq<int>>)
    ensures AddBallots([], r) == r
    ensures AddBallots(a, AddBallots(b, r)) == AddBallots(a + b, r)
  {
    match r
    case Ok(m) =>
      assert [] + m == m;
      assert a + (b + m) == (a + b) + m;
    case Err(_) =>
  }

  /**
   * The same walk as `Tally`, keeping the order of the votes: the category of each
   * neighbour up to the first one farther than `threshold`, in walk order.
   */
  function Ballots(nbrs: seq<Option<Neighbor>>, threshold: real): (r: Result<seq<int>>)
    ensures r.Err? ==> r.error == NullPointer
    ensures r.Ok? ==> |r.value| <= |nbrs|
  {
    if nbrs == [] then Ok([])
    else match nbrs[0]
      case None => Err(NullPointer)
      case Some(n) =>
        if n.distance > threshold then Ok([])
        else AddBallots([n.category], Ballots(nbrs[1..], threshold))
  }

  /** A step of the walk that casts a ballot: the ballots so far grow by this neighbour's category. */
  lemma BallotsStep(nbrs: seq<Option<Neighbor>>, threshold: real, cast: seq<int>, i: nat)
    requires i < |nbrs| && nbrs[i].Some? && nbrs[i].value.distance <= threshold
    requires Ballots(nbrs, threshold) == AddBallots(cast, Ballots(nbrs[i..], threshold))
    ensures Ballots(nbrs, threshold) ==
              AddBallots(cast + [nbrs[i].value.category], Ballots(nbrs[i + 1..], threshold))
  {
    assert nbrs[i..][0] == nbrs[i] && nbrs[i..][1..] == nbrs[i + 1..];
    AddBallotsAssociates(cast, [nbrs[i].value.category], Ballots(nbrs[i + 1..], threshold));
  }

  /** A step of the walk that reaches a `null` pad: the whole walk throws. */
  lemma BallotsNull(nbrs: seq<Option<Neighbor>>, threshold: real, cast: seq<int>, i: nat)
    requires i < |nbrs| && nbrs[i].None?
    requires Ballots(nbrs, threshold) == AddBallots(cast, Ballots(nbrs[i..], threshold))
    ensures Ballots(nbrs, threshold) == Err(NullPointer)
  {
    assert nbrs[i..][0] == nbrs[i];
  }

  /** The walk stops at the end of the entries, or at a far neighbour: the ballots so far are all of them. */
  lemma BallotsStop(nbrs: seq<Option<Neighbor>>, threshold: real, cast: seq<int>, i: nat)
    requires i <= |nbrs|
    requires i < |nbrs| ==> nbrs[i].Some? && nbrs[i].value.distance > threshold
    requires Ballots(nbrs, threshold) == AddBallots(cast, Ballots(nbrs[i..], threshold))
    ensures Ballots(nbrs, threshold) == Ok(cast)
  {
    if i < |nbrs| {
      assert nbrs[i..][0] == nbrs[i];
    }
    assert cast + [] == cast;
  }

  /** The tally is the multiset of the ballots, and the two walks fail together. */
  lemma {:induction false} TallyOfBallots(nbrs: seq<Option<Neighbor>>, threshold: real)
    ensures Tally(nbrs, threshold).Err? <==> Ballots(nbrs, threshold).Err?
    ensures Ballots(nbrs, threshold).Ok? ==>
              Tally(nbrs, threshold) == Ok(multiset(Ballots(nbrs, threshold).value))
  {
    if nbrs != [] && nbrs[0].Some? && nbrs[0].value.distance <= threshold {
      TallyOfBallots(nbrs[1..], threshold);
      var c := nbrs[0].value.category;
      if Ballots(nbrs[1..], threshold).Ok? {
        var b := Ballots(nbrs[1..], threshold).value;
        assert multiset([c] + b) == multiset{c} + multiset(b);
      }
    }
  }

  /** The categories of the neighbours of `ns` no farther than `threshold`, wherever they stand. */
  function Within(ns: seq<Neighbor>, threshold: real): multiset<int> {
    if ns == [] then multiset{}
    else
      var here := if ns[0].distance <= threshold then multiset{ns[0].category} else multiset{};
      here + Within(ns[1..], threshold)
  }

  /**
   * A `HashBag<Integer>`: how many votes each category has (`counts`) and the
   * categories with at least one vote (`keys`), each once, in the bag's iteration
   * order. `HashMap` leaves that order unspecified; this model fixes it as the
   * order in which the categories received their first vote.
   */
  datatype HashBag = HashBag(keys: seq<int>, counts: multiset<int>)

  /** The empty bag `new HashBag<>()`. */
  const EmptyBag: HashBag := HashBag([], multiset{})

  /** The keys are distinct and are exactly the categories with a vote. */
  ghost predicate WellFormed(bag: HashBag) {
    && (forall i, j :: 0 <= i < j < |bag.keys| ==> bag.keys[i] != bag.keys[j])
    && (forall c :: c in bag.counts <==> c in bag.keys)
    && (|bag.keys| == 0 <==> |bag.counts| == 0)
  }

  /** `bag.add(c)`: one more vote for `c`; a new key goes to the end of the iteration order. */
  function Add(bag: HashBag, c: int): HashBag {
    if c in bag.counts then HashBag(bag.keys, bag.counts + multiset{c})
    else HashBag(bag.keys + [c], bag.counts + multiset{c})
  }

  /** `add` counts one more vote for `c`, only ever appends a key, and keeps a bag well formed. */
  lemma AddProperties(bag: HashBag, c: int)
    ensures Add(bag, c).counts == bag.counts + multiset{c}
    ensures |bag.keys| <= |Add(bag, c).keys| && Add(bag, c).keys[..|bag.keys|] == bag.keys
    ensures WellFormed(bag) ==> WellFormed(Add(bag, c))
  {
    if c !in bag.counts {
      assert (bag.keys + [c])[..|bag.keys|] == bag.keys;
    }
  }

  /** The bag that results from adding `ballots` one at a time to an empty bag. */
  function BagOf(ballots: seq<int>): HashBag {
    if ballots == [] then EmptyBag
    else Add(BagOf(ballots[..|ballots| - 1]), ballots[|ballots| - 1])
  }

  /** The bag of the ballots is well formed and counts exactly the ballots. */
  lemma {:induction false} BagOfCounts(ballots: seq<int>)
    ensures BagOf(ballots).counts == multiset(ballots)
    ensures WellFormed(BagOf(ballots))
  {
    if ballots != [] {
      var init, last := ballots[..|ballots| - 1], ballots[|ballots| - 1];
      assert ballots == init + [last];
      BagOfCounts(init);
      AddProperties(BagOf(init), last);
    }
  }

  /** One more ballot is one more `Add`. */
  lemma BagOfSnoc(ballots: seq<int>, c: int)
    ensures BagOf(ballots + [c]) == Add(BagOf(ballots), c)
  {
    assert (ballots + [c])[..|ballots|] == ballots;
  }

  /**
   * The keys of `BagOf(ballots)` come in first-vote order: the first ballot for an
   * earlier key is cast before any ballot for a later key.
   */
  lemma {:induction false} BagOfKeyOrder(ballots: seq<int>, i: nat, j: nat)
    requires i < j < |BagOf(ballots).keys|
    ensures exists p :: 0 <= p < |ballots| && ballots[p] == BagOf(ballots).keys[i]
              && BagOf(ballots).keys[j] !in ballots[..p + 1]
  {
    var init, last := ballots[..|ballots| - 1], ballots[|ballots| - 1];
    var b := BagOf(init);
    var keys := BagOf(ballots).keys;
    AddProperties(b, last);
    BagOfCounts(init);
    assert keys[i] == b.keys[i];
    if j < |b.keys| {
      BagOfKeyOrder(init, i, j);
      var p :| 0 <= p < |init| && init[p] == b.keys[i] && b.keys[j] !in init[..p + 1];
      assert ballots[..p + 1] == init[..p + 1];
    } else {
      assert keys[j] == last && last !in b.counts;
      assert keys[i] in multiset(init);
      var p :| 0 <= p < |init| && init[p] == keys[i];
      assert ballots[..p + 1] == init[..p + 1];
    }
  }

  /**
   * The loop of `votes` over `kNN`'s result (whose length is `k`): one `add` per
   * neighbour until the first one farther than `distanceThreshold`; a `null` entry throws.
   * The bag it returns is `BagOf` the walk's ballots.
   */
  method CountVotes(kNN: array<Option<Neighbor>>, k: int, distanceThreshold: real)
    returns (r: Result<HashBag>)
    requires kNN.Length == k
    ensures r.Err? ==> Ballots(kNN[..], distanceThreshold) == Err(r.error)
    ensures r.Ok? ==>
              Ballots(kNN[..], distanceThreshold).Ok? &&
              r.value == BagOf(Ballots(kNN[..], distanceThreshold).value)
  {
    ghost var all := kNN[..];
    assert all[0..] == all;
    AddBallotsAssociates([], [], Ballots(all, distanceThreshold));
    var votes := EmptyBag;
    ghost var cast: seq<int> := [];
    var i := 0;
    while i < k
      invariant 0 <= i <= k
      invariant votes == BagOf(cast)
      invariant Ballots(all, distanceThreshold) == AddBallots(cast, Ballots(all[i..], distanceThreshold))
    {
      if kNN[i].None? {
        BallotsNull(all, distanceThreshold, cast, i);
        return Err(NullPointer);
      }
      var neighbor := kNN[i].value;
      if neighbor.distance > distanceThreshold {
        break;
      }
      BallotsStep(all, distanceThreshold, cast, i);
      BagOfSnoc(cast, neighbor.category);
      votes := Add(votes, neighbor.category);
      cast := cast + [neighbor.category];
      i := i + 1;
    }
    BallotsStop(all, distanceThreshold, cast, i);
    return Ok(votes);
  }

  /** `c` has a vote and no category has more. */
  ghost predicate IsMostVoted(votes: multiset<int>, c: int) {
    c in votes && forall d :: d in votes ==> votes[d] <= votes[c]
  }

  /** What `classify` may answer for a tally: `0` when nobody voted, otherwise a most-voted category. */
  ghost predicate IsClassification(votes: multiset<int>, c: int) {
    (|votes| == 0 ==> c == 0) && (|votes| != 0 ==> IsMostVoted(votes, c))
  }

  /** `c` is the first key in the bag's iteration order that has the highest count. */
  ghost predicate FirstMostVoted(bag: HashBag, c: int) {
    exists p :: 0 <= p < |bag.keys| && bag.keys[p] == c
      && (forall j :: 0 <= j < |bag.keys| ==> bag.counts[bag.keys[j]] <= bag.counts[c])
      && (forall j :: 0 <= j < p ==> bag.counts[bag.keys[j]] < bag.counts[c])
  }

  /** Java's `Integer.MIN_VALUE`, the starting maximum of the scan in `classify`. */
  const IntMinValue: int := -0x8000_0000

  /**
   * The scan of `classify` over the bag's keys: keeps a key when its count beats the
   * best so far (strictly), starting from `Integer.MIN_VALUE`; `0` for an empty bag.
   */
  method MostVoted(votes: HashBag) returns (catWithMostVotes: int)
    requires WellFormed(votes)
    ensures IsClassification(votes.counts, catWithMostVotes)
    ensures |votes.keys| != 0 ==> FirstMostVoted(votes, catWithMostVotes)
  {
    var max := IntMinValue;
    catWithMostVotes := 0;
    ghost var at := 0;
    for i := 0 to |votes.keys|
      invariant i == 0 ==> max == IntMinValue && catWithMostVotes == 0
      invariant i > 0 ==> at < i && votes.keys[at] == catWithMostVotes && max == votes.counts[catWithMostVotes]
      invariant forall j :: 0 <= j < i ==> votes.counts[votes.keys[j]] <= max
      invariant forall j :: 0 <= j < at ==> votes.counts[votes.keys[j]] < max
    {
      var category := votes.keys[i];
      if votes.counts[category] > max {
        max := votes.counts[category];
        catWithMostVotes := category;
        at := i;
      }
    }
  }

  /**
   * Threshold monotonicity: raising the threshold never removes a vote. A walk at the
   * higher threshold that succeeds goes at least as far as one at the lower threshold.
   */
  lemma {:induction false} TallyMonotone(nbrs: seq<Option<Neighbor>>, low: real, high: real)
    requires low <= high
    requires Tally(nbrs, high).Ok?
    ensures Tally(nbrs, low).Ok?
    ensures Tally(nbrs, low).value <= Tally(nbrs, high).value
    ensures forall c :: Tally(nbrs, low).value[c] <= Tally(nbrs, high).value[c]
  {
    if nbrs != [] && nbrs[0].Some? && nbrs[0].value.distance <= low {
      TallyMonotone(nbrs[1..], low, high);
    }
  }

  /** On a neighbour list sorted by distance nothing beyond the first far neighbour is near. */
  lemma {:induction false} WithinPastThreshold(ns: seq<Neighbor>, threshold: real)
    requires SortedByDistance(ns)
    requires ns != [] && ns[0].distance > threshold
    ensures Within(ns, threshold) == multiset{}
  {
    if |ns| > 1 {
      WithinPastThreshold(ns[1..], threshold);
    }
  }

  /**
   * Early exit is sound on a sorted list: walking the first `k` neighbours of a sorted
   * list (no padding) counts exactly the neighbours among them within the threshold.
   */
  lemma {:induction false} TallyOfSortedPrefix(ns: seq<Neighbor>, k: nat, threshold: real)
    requires SortedByDistance(ns)
    requires k <= |ns|
    ensures Tally(Padded(ns, k), threshold) == Ok(Within(ns[..k], threshold))
  {
    if k > 0 {
      var nbrs := Padded(ns, k);
      PaddedTail(ns, k);
      assert ns[..k][1..] == ns[1..][..k - 1];
      if ns[0].distance > threshold {
        WithinPastThreshold(ns[..k], threshold);
      } else {
        TallyOfSortedPrefix(ns[1..], k - 1, threshold);
      }
    }
  }

  /** Every neighbour of `ns` is within `threshold`. */
  ghost predicate AllWithin(ns: seq<Neighbor>, threshold: real) {
    forall i :: 0 <= i < |ns| ==> ns[i].distance <= threshold
  }

  /** A non-empty list is all within the threshold exactly when its head and its tail are. */
  lemma AllWithinCons(ns: seq<Neighbor>, threshold: real)
    requires ns != []
    ensures AllWithin(ns, threshold) <==> ns[0].distance <= threshold && AllWithin(ns[1..], threshold)
  {
    if ns[0].distance <= threshold && AllWithin(ns[1..], threshold) {
      forall i | 0 <= i < |ns| ensures ns[i].distance <= threshold {
        if i > 0 {
          assert ns[i] == ns[1..][i - 1];
        }
      }
    }
  }

  /** Being within the threshold is a property of the neighbours, not of their order. */
  lemma AllWithinPermuted(a: seq<Neighbor>, b: seq<Neighbor>, threshold: real)
    requires multiset(a) == multiset(b)
    requires AllWithin(a, threshold)
    ensures AllWithin(b, threshold)
  {
    forall i | 0 <= i < |b| ensures b[i].distance <= threshold {
      assert b[i] in multiset(a);
      var j :| 0 <= j < |a| && a[j] == b[i];
    }
  }

  /**
   * With `k` beyond the list, `Arrays.copyOfRange` pads with `null`: the walk throws
   * exactly when every real neighbour is within the threshold (so the walk reaches a
   * pad); otherwise it counts every neighbour within the threshold.
   */
  lemma {:induction false} TallyOfPaddedList(ns: seq<Neighbor>, k: nat, threshold: real)
    requires SortedByDistance(ns)
    requires k > |ns|
    ensures Tally(Padded(ns, k), threshold).Err? <==> AllWithin(ns, threshold)
    ensures Tally(Padded(ns, k), threshold).Ok? ==>
              Tally(Padded(ns, k), threshold).value == Within(ns, threshold)
  {
    var nbrs := Padded(ns, k);
    if ns == [] {
      assert nbrs[0] == None;
    } else {
      PaddedTail(ns, k);
      AllWithinCons(ns, threshold);
      if ns[0].distance > threshold {
        WithinPastThreshold(ns, threshold);
      } else {
        TallyOfPaddedList(ns[1..], k - 1, threshold);
      }
    }
  }
}
